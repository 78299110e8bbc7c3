/** The request history of a client: a counter of every tracked request and a
    first-in first-out list of the most recent records, capped at `Capacity`. */
module RequestLog {

  /** The history keeps at most this many records. */
  const Capacity: nat := 100

  /** One tracked request: its URL, the HTTP status it got, and when it started. */
  datatype Req = Req(url: string, status: int, start: int)

  datatype Log = Log(counter: nat, records: seq<Req>)

  /** The history of a freshly constructed client. */
  const Empty: Log := Log(0, [])

  predicate Bounded(h: Log)
  {
    |h.records| <= Capacity
  }

  /** The last `n` elements of `s` (all of `s` when it is shorter). */
  function Newest<T>(s: seq<T>, n: nat): (r: seq<T>)
    ensures |r| == if |s| < n then |s| else n
    ensures r == s[|s| - |r|..]
  {
    if |s| <= n then s else s[|s| - n..]
  }

  /** `track_request`: count the request, append its record, and evict the oldest
      record once the list has grown past the capacity. */
  function Track(h: Log, r: Req): (h': Log)
    ensures h'.counter == h.counter + 1
    ensures |h'.records| > 0 && h'.records[|h'.records| - 1] == r
    ensures Bounded(h) ==> Bounded(h')
    ensures Bounded(h) ==> h'.records == Newest(h.records + [r], Capacity)
    ensures |h.records| < Capacity ==> h'.records == h.records + [r]
    ensures |h.records| >= Capacity ==> h'.records == h.records[1..] + [r]
  {
    var appended := h.records + [r];
    Log(h.counter + 1, if |appended| > Capacity then appended[1..] else appended)
  }

  /** Tracking the requests `rs` one after the other: the counter grows by one per
      request, and a bounded history stays bounded. */
  function TrackAll(h: Log, rs: seq<Req>): (h': Log)
    ensures h'.counter == h.counter + |rs|
    ensures Bounded(h) ==> Bounded(h')
    decreases |rs|
  {
    if rs == [] then h else TrackAll(Track(h, rs[0]), rs[1..])
  }

  /** Keeping the newest `n` twice is keeping the newest `n` of everything. */
  lemma NewestOfNewest<T>(s: seq<T>, t: seq<T>, n: nat)
    ensures Newest(Newest(s, n) + t, n) == Newest(s + t, n)
  {
    var a := Newest(s, n);
    assert a == s[|s| - |a|..];
    var lhs := Newest(a + t, n);
    var rhs := Newest(s + t, n);
    assert |lhs| == |rhs|;
    forall i | 0 <= i < |lhs|
      ensures lhs[i] == rhs[i]
    {
      var k := |a + t| - |lhs| + i;
      var k' := |s + t| - |rhs| + i;
      assert lhs[i] == (a + t)[k];
      assert rhs[i] == (s + t)[k'];
      if k < |a| {
        assert (a + t)[k] == a[k] == s[|s| - |a| + k];
        assert k' == |s| - |a| + k;
      } else {
        assert (a + t)[k] == t[k - |a|];
        assert k' - |s| == k - |a|;
      }
    }
  }

  /** After any run of requests the history is exactly the newest `Capacity` of all
      records, oldest first, and the counter grew by one per request. */
  lemma {:induction false} TrackAllKeepsNewest(h: Log, rs: seq<Req>)
    requires Bounded(h)
    ensures TrackAll(h, rs).counter == h.counter + |rs|
    ensures TrackAll(h, rs).records == Newest(h.records + rs, Capacity)
    ensures Bounded(TrackAll(h, rs))
    decreases |rs|
  {
    if rs == [] {
      assert h.records + rs == h.records;
    } else {
      var h1 := Track(h, rs[0]);
      assert TrackAll(h, rs) == TrackAll(h1, rs[1..]);
      TrackAllKeepsNewest(h1, rs[1..]);
      assert Newest(h1.records + rs[1..], Capacity) == Newest(h.records + rs, Capacity) by {
        var x := h.records + [rs[0]];
        assert h1.records == Newest(x, Capacity);
        NewestOfNewest(x, rs[1..], Capacity);
        assert x + rs[1..] == h.records + rs by {
          assert [rs[0]] + rs[1..] == rs;
        }
      }
    }
  }

  /** From an empty history, once at least `Capacity` requests were tracked, the
      history holds exactly the last `Capacity` of them: the oldest were evicted in
      arrival order. */
  lemma {:induction false} OverflowEvictsOldestFirst(rs: seq<Req>)
    requires |rs| >= Capacity
    ensures TrackAll(Empty, rs).counter == |rs|
    ensures TrackAll(Empty, rs).records == rs[|rs| - Capacity..]
  {
    var h := Empty;
    assert h.records + rs == rs;
    assert Bounded(h);
    TrackAllKeepsNewest(h, rs);
    var r := Newest(rs, Capacity);
    assert |r| == Capacity;
  }
}
