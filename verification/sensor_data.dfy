/** The bulk sensor-data writes: every point of every entry must have a number as
    timestamp (element 0) and as value (element 1) before the one write is sent. */
module SensorData {
  import opened Outcomes
  import opened Json
  import opened Http
  import opened Client
  import Auth
  import Dispatch

  /** `insertSensorDataBulk`, `updateSensorDataBulk`, `insertGroupSensorDataBulk`. */
  datatype BulkWrite = InsertSensorData | UpdateSensorData | InsertGroupSensorData

  function VerbOf(w: BulkWrite): Verb
  {
    match w
    case InsertSensorData => Put
    case UpdateSensorData => Post
    case InsertGroupSensorData => Put
  }

  function PathOf(w: BulkWrite): string
  {
    match w
    case InsertSensorData => "/sensordatabulk"
    case UpdateSensorData => "/sensordatabulk"
    case InsertGroupSensorData => "/groupsensordatabulk"
  }

  /** The exceptions that name a point. */
  predicate IsPointError(e: ApiError)
  {
    e.InvalidTimestamp? || e.InvalidValue? || e.MalformedPoint?
  }

  /** A point that passes: a list whose first two elements are numbers. */
  predicate ValidPoint(point: Json)
  {
    point.JList? && |point.items| >= 2 && IsNumber(point.items[0]) && IsNumber(point.items[1])
  }

  /** The check of one point: `point[0]` must be a number, then `point[1]`. Reading
      an element that is not there raises too. A string point has strings as
      elements, so a non-empty one fails on its timestamp. It passes exactly the
      valid points, and otherwise raises naming the point. */
  function CheckPoint(point: Json): (r: Option<ApiError>)
    ensures r.None? <==> ValidPoint(point)
    ensures r.Some? ==> IsPointError(r.value) && r.value.point == point
    ensures r == Some(InvalidValue(point)) ==>
      point.JList? && |point.items| >= 2 && IsNumber(point.items[0]) && !IsNumber(point.items[1])
  {
    match point
    case JList(items) =>
      if |items| < 1 then Some(MalformedPoint(point))
      else if !IsNumber(items[0]) then Some(InvalidTimestamp(point))
      else if |items| < 2 then Some(MalformedPoint(point))
      else if !IsNumber(items[1]) then Some(InvalidValue(point))
      else None
    case JStr(s) => if s == "" then Some(MalformedPoint(point)) else Some(InvalidTimestamp(point))
    case _ => Some(MalformedPoint(point))
  }

  /** What `for point in entry["data"]` iterates: a list's points, or a string's
      characters. */
  function PointsOf(entry: Json): Option<seq<Json>>
  {
    match Field(entry, "data")
    case Some(v) => Elements(v)
    case None => None
  }

  /** Every entry has points to iterate, and every point is valid. */
  predicate AllValid(entries: seq<Json>)
  {
    && (forall i :: 0 <= i < |entries| ==> PointsOf(entries[i]).Some?)
    && (forall i, j :: 0 <= i < |entries| && PointsOf(entries[i]).Some? && 0 <= j < |PointsOf(entries[i]).value|
          ==> ValidPoint(PointsOf(entries[i]).value[j]))
  }

  /** The first failing check of `points`, in order: it names one of the points,
      and that point is not valid. */
  function FirstBadPoint(points: seq<Json>): (r: Option<ApiError>)
    ensures r.Some? ==> IsPointError(r.value) && r.value.point in points && !ValidPoint(r.value.point)
    decreases |points|
  {
    if points == [] then None
    else if CheckPoint(points[0]).Some? then CheckPoint(points[0])
    else FirstBadPoint(points[1..])
  }

  /** The exception the nested validation loops raise, if any: the first entry
      without points to iterate, or the first failing point, in order. It names
      either an entry of `entries` that has no points, or a point that is not
      valid. */
  function FirstProblem(entries: seq<Json>): (r: Option<ApiError>)
    ensures r.Some? && r.value.MalformedEntry? ==> r.value.entry in entries && PointsOf(r.value.entry).None?
    ensures r.Some? && !r.value.MalformedEntry? ==> IsPointError(r.value) && !ValidPoint(r.value.point)
    decreases |entries|
  {
    if entries == [] then None
    else match PointsOf(entries[0])
      case None => Some(MalformedEntry(entries[0]))
      case Some(points) =>
        if FirstBadPoint(points).Some? then FirstBadPoint(points) else FirstProblem(entries[1..])
  }

  lemma {:induction false} FirstBadPointNoneIffAllValid(points: seq<Json>)
    ensures FirstBadPoint(points).None? <==> forall j :: 0 <= j < |points| ==> ValidPoint(points[j])
    decreases |points|
  {
    if points != [] {
      FirstBadPointNoneIffAllValid(points[1..]);
      if forall j :: 0 <= j < |points[1..]| ==> ValidPoint(points[1..][j]) {
        forall j | 0 < j < |points|
          ensures ValidPoint(points[j])
        {
          assert points[1..][j - 1] == points[j];
        }
      }
    }
  }

  /** Validation raises nothing exactly when every entry and every point is valid. */
  lemma {:induction false} NoProblemIffAllValid(entries: seq<Json>)
    ensures FirstProblem(entries).None? <==> AllValid(entries)
    decreases |entries|
  {
    if entries != [] {
      NoProblemIffAllValid(entries[1..]);
      var rest := entries[1..];
      assert forall i :: 0 < i < |entries| ==> entries[i] == rest[i - 1];
      match PointsOf(entries[0])
      case None =>
        assert !AllValid(entries) by {
          assert !PointsOf(entries[0]).Some?;
        }
      case Some(points) =>
        FirstBadPointNoneIffAllValid(points);
        if FirstBadPoint(points).None? && AllValid(rest) {
          forall i, j | 0 <= i < |entries| && PointsOf(entries[i]).Some? && 0 <= j < |PointsOf(entries[i]).value|
            ensures ValidPoint(PointsOf(entries[i]).value[j])
          {
            if i > 0 {
              assert entries[i] == rest[i - 1];
            }
          }
        }
        if AllValid(entries) {
          forall i, j | 0 <= i < |rest| && PointsOf(rest[i]).Some? && 0 <= j < |PointsOf(rest[i]).value|
            ensures ValidPoint(PointsOf(rest[i]).value[j])
          {
            assert rest[i] == entries[i + 1];
          }
          assert forall j :: 0 <= j < |points| ==> ValidPoint(points[j]) by {
            forall j | 0 <= j < |points|
              ensures ValidPoint(points[j])
            {
              assert PointsOf(entries[0]).value[j] == points[j];
            }
          }
        }
    }
  }

  /** The nested loops of the bulk methods, over entries and then their points. */
  method Validate(entries: seq<Json>) returns (problem: Option<ApiError>)
    ensures problem == FirstProblem(entries)
    ensures problem.None? <==> AllValid(entries)
  {
    var i := 0;
    while i < |entries|
      invariant 0 <= i <= |entries|
      invariant FirstProblem(entries) == FirstProblem(entries[i..])
      decreases |entries| - i
    {
      var points := PointsOf(entries[i]);
      if points.None? {
        assert entries[i..][0] == entries[i];
        NoProblemIffAllValid(entries);
        return Some(MalformedEntry(entries[i]));
      }
      var j := 0;
      while j < |points.value|
        invariant 0 <= j <= |points.value|
        invariant FirstBadPoint(points.value) == FirstBadPoint(points.value[j..])
        decreases |points.value| - j
      {
        var check := CheckPoint(points.value[j]);
        if check.Some? {
          assert points.value[j..][0] == points.value[j];
          assert entries[i..][0] == entries[i];
          NoProblemIffAllValid(entries);
          return check;
        }
        assert points.value[j..][1..] == points.value[j + 1..];
        j := j + 1;
      }
      assert entries[i..][0] == entries[i];
      assert entries[i..][1..] == entries[i + 1..];
      i := i + 1;
    }
    NoProblemIffAllValid(entries);
    return None;
  }

  /** The requests among `sent` that are API calls (not token requests). */
  function ApiCalls(sent: seq<Outgoing>): seq<Outgoing>
    decreases |sent|
  {
    if sent == [] then []
    else (if sent[0].ApiRequest? then [sent[0]] else []) + ApiCalls(sent[1..])
  }

  /** A bulk write: validation first, and the PUT or POST only if it passes. Nothing
      is sent and nothing is returned unless all data is valid; valid data makes
      exactly the request the verb makes. */
  function Bulk(
    c: Client, w: BulkWrite, entries: seq<Json>,
    now: int, tokenReply: Reply, reply: Reply): (call: Call<Json>)
    ensures call.sent != [] || call.result.Ok? ==> AllValid(entries)
    ensures !AllValid(entries) ==>
      && call.client == c && call.sent == [] && call.result.Err?
      && FirstProblem(entries) == Some(call.result.error)
    ensures AllValid(entries) ==> call == Dispatch.Request(c, VerbOf(w), PathOf(w), None, now, tokenReply, reply)
  {
    NoProblemIffAllValid(entries);
    match FirstProblem(entries)
    case Some(e) => Call(c, Err(e), [])
    case None => Dispatch.Request(c, VerbOf(w), PathOf(w), None, now, tokenReply, reply)
  }

  /** Invalid data raises before anything is sent or changed; valid data is sent as
      exactly one write, once the session is logged in. */
  lemma BulkWritesOnlyValidData(
    c: Client, w: BulkWrite, entries: seq<Json>, now: int, tokenReply: Reply, reply: Reply)
    ensures var call := Bulk(c, w, entries, now, tokenReply, reply);
      && (!AllValid(entries) ==> call.client == c && call.sent == [] && call.result.Err?)
      && (AllValid(entries) && Auth.Session(c, now, tokenReply).result.Ok? ==>
            ApiCalls(call.sent) == [ApiRequest(VerbOf(w), UrlFor(c, PathOf(w), None))])
      && (AllValid(entries) && Auth.Session(c, now, tokenReply).result.Err? ==>
            ApiCalls(call.sent) == [])
  {
    NoProblemIffAllValid(entries);
    var s := Auth.Session(c, now, tokenReply);
    assert ApiCalls(s.sent) == [] by {
      if s.sent != [] {
        assert s.sent == [Auth.TokenRequestOf(c)];
        assert ApiCalls(s.sent[1..]) == [];
      }
    }
    if AllValid(entries) && s.result.Ok? {
      var call := Bulk(c, w, entries, now, tokenReply, reply);
      var req := ApiRequest(VerbOf(w), UrlFor(c, PathOf(w), None));
      ApiCallsAppend(s.sent, [req]);
      assert ApiCalls([req]) == [req] + ApiCalls([]);
    }
  }

  lemma {:induction false} ApiCallsAppend(a: seq<Outgoing>, b: seq<Outgoing>)
    ensures ApiCalls(a + b) == ApiCalls(a) + ApiCalls(b)
    decreases |a|
  {
    if a == [] {
      assert a + b == b;
    } else {
      assert (a + b)[0] == a[0];
      assert (a + b)[1..] == a[1..] + b;
      ApiCallsAppend(a[1..], b);
    }
  }
}
