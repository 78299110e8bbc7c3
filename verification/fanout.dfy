/** `async_get`: submit a GET for every path, then resolve the answers in
    submission order, keeping the body of each one that succeeded and skipping
    (after tracking it) each one that failed. */
module FanOut {
  import opened Outcomes
  import opened Json
  import opened Http
  import opened Client
  import RequestLog
  import Auth
  import Dispatch

  /** The URLs of `paths`, in order. */
  function UrlsFor(c: Client, paths: seq<string>, version: Option<string>): (urls: seq<string>)
    ensures |urls| == |paths|
    ensures forall i :: 0 <= i < |paths| ==> urls[i] == UrlFor(c, paths[i], version)
  {
    seq(|paths|, i requires 0 <= i < |paths| => UrlFor(c, paths[i], version))
  }

  /** The GET requests of `urls`, in order. */
  function Gets(urls: seq<string>): (reqs: seq<Outgoing>)
    ensures |reqs| == |urls|
    ensures forall i :: 0 <= i < |urls| ==> reqs[i] == ApiRequest(Get, urls[i])
  {
    seq(|urls|, i requires 0 <= i < |urls| => ApiRequest(Get, urls[i]))
  }

  /** The submission loop: every path goes through the `session` property (and so
      through the login check) before its GET is handed to the worker pool. Only
      the first path can log in: a failure there propagates with nothing else
      sent; otherwise that login's traffic comes first, then one GET per URL, and
      the later sessions, being fresh, change nothing. */
  function Submit(c: Client, urls: seq<string>, now: int, tokenReply: Reply): (call: Call<bool>)
    ensures urls == [] ==> call == Call(c, Ok(true), [])
    ensures var s := Auth.Session(c, now, tokenReply);
      && (urls != [] && s.result.Err? ==> call == Call(s.client, Err(s.result.error), s.sent))
      && (urls != [] && s.result.Ok? ==> call == Call(s.client, Ok(true), s.sent + Gets(urls)))
    decreases |urls|
  {
    if urls == [] then
      Call(c, Ok(true), [])
    else
      var s := Auth.Session(c, now, tokenReply);
      if s.result.Err? then
        Call(s.client, Err(s.result.error), s.sent)
      else
        var rest := Submit(s.client, urls[1..], now, tokenReply);
        assert rest == Call(s.client, Ok(true), Gets(urls[1..])) by {
          Auth.ReusedSessionChangesNothing(s.client, now, tokenReply);
        }
        assert s.sent + [ApiRequest(Get, urls[0])] + rest.sent == s.sent + Gets(urls) by {
          GetsUnfold(s.sent, urls);
        }
        Call(rest.client, rest.result, s.sent + [ApiRequest(Get, urls[0])] + rest.sent)
  }

  /** The GETs of `urls` after `prefix`, with the first one split off. */
  lemma GetsUnfold(prefix: seq<Outgoing>, urls: seq<string>)
    requires urls != []
    ensures prefix + [ApiRequest(Get, urls[0])] + Gets(urls[1..]) == prefix + Gets(urls)
  {
    assert [ApiRequest(Get, urls[0])] + Gets(urls[1..]) == Gets(urls);
  }

  /** Once the session is open and fresh, submitting only sends the GETs. */
  lemma SubmitWhenFresh(c: Client, urls: seq<string>, now: int, tokenReply: Reply)
    requires Auth.Fresh(c, now) && c.transport.Some?
    ensures Submit(c, urls, now, tokenReply) == Call(c, Ok(true), Gets(urls))
  {
    Auth.ReusedSessionChangesNothing(c, now, tokenReply);
  }

  /** A resolved future whose response passes the GET status test. */
  predicate Succeeded(reply: Reply)
  {
    reply.Delivered? && !IsErrorStatus(reply.response.status) && reply.response.body.Some?
  }

  function BodyOf(reply: Reply): Json
    requires Succeeded(reply)
  {
    reply.response.body.value
  }

  /** A reply succeeds exactly when the status test of `get` returns its body. */
  lemma SucceededIsGetOk(reply: Reply)
    requires reply.Delivered?
    ensures Succeeded(reply) <==> Dispatch.Classify(Get, reply.response).Ok?
    ensures Succeeded(reply) ==> Dispatch.Classify(Get, reply.response) == Ok(BodyOf(reply))
  {
  }

  /** One entry of the futures list: the URL submitted and what its future resolves
      to (a response, or the exception the transport raised). */
  datatype Future = Future(url: string, reply: Reply)

  /** The futures list of `urls`, where `replies[i]` is what the i-th resolves to. */
  function Futures(urls: seq<string>, replies: seq<Reply>): (fs: seq<Future>)
    requires |urls| == |replies|
    ensures |fs| == |urls|
    ensures forall i :: 0 <= i < |fs| ==> fs[i] == Future(urls[i], replies[i])
  {
    seq(|urls|, i requires 0 <= i < |urls| => Future(urls[i], replies[i]))
  }

  /** The (body, url) pair a future contributes to the result: one if it succeeded,
      none otherwise. */
  function Pick(f: Future): seq<(Json, string)>
  {
    if Succeeded(f.reply) then [(BodyOf(f.reply), f.url)] else []
  }

  /** The history record of a future whose response arrived. */
  function Record(f: Future, now: int): RequestLog.Req
    requires f.reply.Delivered?
  {
    RequestLog.Req(f.url, f.reply.response.status, now)
  }

  /** The collection loop: a future that raised is skipped untracked; every other
      one is tracked, and kept as (body, url) if its status test passes. Every
      exception is caught, so nothing aborts the loop. Each future adds at most one
      record and at most one result, and a bounded history stays bounded. */
  function Harvest(log: RequestLog.Log, fs: seq<Future>, now: int): (r: (RequestLog.Log, seq<(Json, string)>))
    ensures |r.1| <= |fs|
    ensures log.counter <= r.0.counter <= log.counter + |fs|
    ensures RequestLog.Bounded(log) ==> RequestLog.Bounded(r.0)
    decreases |fs|
  {
    if fs == [] then
      (log, [])
    else
      var tracked := if fs[0].reply.Delivered? then RequestLog.Track(log, Record(fs[0], now)) else log;
      var rest := Harvest(tracked, fs[1..], now);
      (rest.0, Pick(fs[0]) + rest.1)
  }

  /** `async_get`: refused on a blocking client before anything happens; otherwise
      submission (which may raise from the login), then collection. `replies[i]` is
      what the future of `paths[i]` resolves to. */
  function AsyncGet(
    c: Client, paths: seq<string>, version: Option<string>,
    now: int, tokenReply: Reply, replies: seq<Reply>): (call: Call<seq<(Json, string)>>)
    requires |replies| == |paths|
    ensures !c.config.asynchronous ==> call == Call(c, Err(NotAsynchronous), [])
    ensures c.config.asynchronous && paths == [] ==> call == Call(c, Ok([]), [])
    ensures call.client.config == c.config
    ensures call.result.Ok? ==> |call.result.value| <= |paths|
  {
    if !c.config.asynchronous then
      Call(c, Err(NotAsynchronous), [])
    else
      var urls := UrlsFor(c, paths, version);
      var sub := Submit(c, urls, now, tokenReply);
      if sub.result.Err? then
        Call(sub.client, Err(sub.result.error), sub.sent)
      else
        var fs := Futures(urls, replies);
        var (log, kept) := Harvest(sub.client.log, fs, now);
        Call(sub.client.(log := log), Ok(kept), sub.sent)
  }

  /** The positions of the futures that succeeded, in increasing order. */
  function SuccessIndices(fs: seq<Future>): (idx: seq<nat>)
    ensures forall k :: 0 <= k < |idx| ==> idx[k] < |fs| && Succeeded(fs[idx[k]].reply)
    ensures forall k, l :: 0 <= k < l < |idx| ==> idx[k] < idx[l]
    ensures forall i :: 0 <= i < |fs| && Succeeded(fs[i].reply) ==> i in idx
    decreases |fs|
  {
    if fs == [] then []
    else
      var n := |fs| - 1;
      var front := SuccessIndices(fs[..n]);
      assert forall k :: 0 <= k < |front| ==> fs[..n][front[k]] == fs[front[k]];
      assert forall i :: 0 <= i < n ==> fs[..n][i] == fs[i];
      front + (if Succeeded(fs[n].reply) then [n] else [])
  }

  /** What collection keeps, without the history: the (body, url) pair of every
      successful future, in submission order. */
  function Kept(fs: seq<Future>): seq<(Json, string)>
    decreases |fs|
  {
    if fs == [] then [] else Pick(fs[0]) + Kept(fs[1..])
  }

  /** Tracking does not influence what is kept, whatever history collection starts
      from. */
  lemma {:induction false} HarvestKeepsKept(log: RequestLog.Log, fs: seq<Future>, now: int)
    ensures Harvest(log, fs, now).1 == Kept(fs)
    decreases |fs|
  {
    if fs != [] {
      var tracked := if fs[0].reply.Delivered? then RequestLog.Track(log, Record(fs[0], now)) else log;
      HarvestKeepsKept(tracked, fs[1..], now);
    }
  }

  /** Collecting two runs of futures one after the other keeps what each keeps. */
  lemma {:induction false} KeptSplits(a: seq<Future>, b: seq<Future>)
    ensures Kept(a + b) == Kept(a) + Kept(b)
    decreases |a|
  {
    if a == [] {
      assert a + b == b;
    } else {
      var ab := a + b;
      assert ab[0] == a[0] && ab[1..] == a[1..] + b;
      assert Kept(ab) == Pick(a[0]) + Kept(ab[1..]);
      KeptSplits(a[1..], b);
    }
  }

  /** What is kept is the successful futures, picked by their positions. */
  lemma {:induction false} KeptIsSuccessesInOrder(fs: seq<Future>)
    ensures var kept := Kept(fs);
      var idx := SuccessIndices(fs);
      && |kept| == |idx|
      && forall k :: 0 <= k < |kept| ==> kept[k] == (BodyOf(fs[idx[k]].reply), fs[idx[k]].url)
    decreases |fs|
  {
    if fs != [] {
      var n := |fs| - 1;
      var init := fs[..n];
      assert init + [fs[n]] == fs;
      assert Kept([fs[n]]) == Pick(fs[n]) + Kept([]);
      KeptSplits(init, [fs[n]]);
      KeptIsSuccessesInOrder(init);
      var front := Kept(init);
      var frontIdx := SuccessIndices(init);
      var kept := Kept(fs);
      var idx := SuccessIndices(fs);
      assert kept == front + Pick(fs[n]);
      assert idx == frontIdx + (if Succeeded(fs[n].reply) then [n] else []);
      forall k | 0 <= k < |kept|
        ensures kept[k] == (BodyOf(fs[idx[k]].reply), fs[idx[k]].url)
      {
        if k < |front| {
          assert kept[k] == front[k] && idx[k] == frontIdx[k];
          assert init[frontIdx[k]] == fs[idx[k]];
        }
      }
    }
  }

  /** The results are exactly the successful futures, as (body, url) pairs, in the
      order the paths were submitted. */
  lemma HarvestKeepsSuccessesInOrder(log: RequestLog.Log, fs: seq<Future>, now: int)
    ensures var kept := Harvest(log, fs, now).1;
      var idx := SuccessIndices(fs);
      && |kept| == |idx|
      && forall k :: 0 <= k < |kept| ==> kept[k] == (BodyOf(fs[idx[k]].reply), fs[idx[k]].url)
  {
    HarvestKeepsKept(log, fs, now);
    KeptIsSuccessesInOrder(fs);
  }

  /** The records of the futures whose response arrived, in order. */
  function Arrived(fs: seq<Future>, now: int): seq<RequestLog.Req>
    decreases |fs|
  {
    if fs == [] then []
    else (if fs[0].reply.Delivered? then [Record(fs[0], now)] else []) + Arrived(fs[1..], now)
  }

  /** Collection tracks each future whose response arrived, failed or not, in
      submission order, and no other. */
  lemma {:induction false} HarvestTracksArrivals(log: RequestLog.Log, fs: seq<Future>, now: int)
    ensures Harvest(log, fs, now).0 == RequestLog.TrackAll(log, Arrived(fs, now))
    decreases |fs|
  {
    if fs != [] {
      var tracked := if fs[0].reply.Delivered? then RequestLog.Track(log, Record(fs[0], now)) else log;
      HarvestTracksArrivals(tracked, fs[1..], now);
      var head := if fs[0].reply.Delivered? then [Record(fs[0], now)] else [];
      var rest := Arrived(fs[1..], now);
      if fs[0].reply.Delivered? {
        assert (head + rest)[0] == head[0];
        assert (head + rest)[1..] == rest;
      } else {
        assert head + rest == rest;
      }
    }
  }

  /** A future that fails is simply missing from the results: the others are
      collected exactly as if it had never been submitted. */
  lemma FailedUrlIsOnlyOmitted(log: RequestLog.Log, f1: seq<Future>, x: Future, f2: seq<Future>, now: int)
    requires !Succeeded(x.reply)
    ensures Harvest(log, f1 + [x] + f2, now).1 == Harvest(log, f1 + f2, now).1
  {
    var a := f1 + [x];
    HarvestKeepsKept(log, a + f2, now);
    HarvestKeepsKept(log, f1 + f2, now);
    assert Kept([x]) == [] by {
      assert Kept([x]) == Pick(x) + Kept([]);
    }
    assert Kept(a) == Kept(f1) by {
      KeptSplits(f1, [x]);
    }
    KeptSplits(a, f2);
    KeptSplits(f1, f2);
  }

  /** `async_get` on an asynchronous client with at least one path: one login check
      at the first path, one GET per path, one history record per reply that
      arrived, and as result the successful replies in submission order, each with
      the URL of its path. */
  lemma AsyncGetCollects(
    c: Client, paths: seq<string>, version: Option<string>,
    now: int, tokenReply: Reply, replies: seq<Reply>)
    requires |replies| == |paths|
    requires c.config.asynchronous && paths != []
    ensures var call := AsyncGet(c, paths, version, now, tokenReply, replies);
      var s := Auth.Session(c, now, tokenReply);
      var fs := Futures(UrlsFor(c, paths, version), replies);
      var idx := SuccessIndices(fs);
      && (s.result.Err? ==> call == Call(s.client, Err(s.result.error), s.sent))
      && (s.result.Ok? ==>
            && call.sent == s.sent + Gets(UrlsFor(c, paths, version))
            && call.client.log == RequestLog.TrackAll(c.log, Arrived(fs, now))
            && call.result.Ok?
            && |call.result.value| == |idx|
            && forall k :: 0 <= k < |idx| ==>
                 call.result.value[k] == (BodyOf(replies[idx[k]]), UrlFor(c, paths[idx[k]], version)))
  {
    var urls := UrlsFor(c, paths, version);
    var fs := Futures(urls, replies);
    var s := Auth.Session(c, now, tokenReply);
    if s.result.Ok? {
      HarvestTracksArrivals(s.client.log, fs, now);
      HarvestKeepsSuccessesInOrder(s.client.log, fs, now);
    }
  }
}
