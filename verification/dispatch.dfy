/** `get`, `post`, `put` and `delete`: build the URL, make sure the session is
    logged in, send the request, record it in the history, and turn the status
    into a result or an exception. */
module Dispatch {
  import opened Outcomes
  import opened Json
  import opened Http
  import opened Client
  import RequestLog
  import Auth

  /** POST and PUT are sent with redirects disabled and refuse a 301. */
  predicate IsWrite(verb: Verb)
  {
    verb == Post || verb == Put
  }

  predicate IsClientErrorStatus(status: int)
  {
    400 <= status < 500
  }

  /** `r.json().get("message", "unknown")`, where any failure (no JSON, no object)
      falls back to "unknown": the message is the body's "message" field when the
      body is an object that has one, whatever its JSON type. */
  function ErrorMessage(body: Option<Json>): (message: Json)
    ensures body.Some? && body.value.JObject? && "message" in body.value.fields ==>
      message == body.value.fields["message"]
    ensures body.None? || !body.value.JObject? || "message" !in body.value.fields ==>
      message == JStr("unknown")
  {
    if body.Some? && Field(body.value, "message").Some? then Field(body.value, "message").value
    else JStr("unknown")
  }

  /** The status test shared by the four verbs, applied after the request has been
      tracked: the 301 refusal of writes, the 4xx client error with its message,
      `raise_for_status` for 5xx, and finally `r.json()`. */
  function Classify(verb: Verb, resp: Response): (r: Outcome<Json>)
    ensures r.Ok? <==>
      && !(IsWrite(verb) && resp.status == 301)
      && !IsErrorStatus(resp.status)
      && resp.body.Some?
    ensures r.Ok? ==> r.value == resp.body.value
    ensures IsWrite(verb) && resp.status == 301 ==> r == Err(RedirectRefused(verb))
    ensures IsClientErrorStatus(resp.status) ==> r == Err(ClientError(resp.status, ErrorMessage(resp.body)))
    ensures 500 <= resp.status < 600 ==> r == Err(HttpStatus(resp.status))
  {
    if IsWrite(verb) && resp.status == 301 then Err(RedirectRefused(verb))
    else if IsClientErrorStatus(resp.status) then Err(ClientError(resp.status, ErrorMessage(resp.body)))
    else if IsErrorStatus(resp.status) then Err(HttpStatus(resp.status))
    else if resp.body.None? then Err(MalformedBody)
    else Ok(resp.body.value)
  }

  /** The four verbs classify alike except that only the writes refuse a 301. */
  lemma VerbsDifferOnlyOnRedirect(resp: Response)
    ensures Classify(Get, resp) == Classify(Delete, resp)
    ensures resp.status != 301 ==>
      Classify(Post, resp) == Classify(Get, resp) && Classify(Put, resp) == Classify(Get, resp)
    ensures resp.status == 301 ==>
      Classify(Post, resp).Err? && Classify(Put, resp).Err?
      && Classify(Get, resp) == (if resp.body.Some? then Ok(resp.body.value) else Err(MalformedBody))
  {
  }

  /** The error body's "message", whatever its JSON type, or "unknown". */
  lemma ErrorMessageFallsBack(status: int, body: Option<Json>)
    requires IsClientErrorStatus(status)
    ensures var r := Classify(Get, Response(status, body));
      && (body.Some? && body.value.JObject? && "message" in body.value.fields ==>
            r == Err(ClientError(status, body.value.fields["message"])))
      && (body.None? || !body.value.JObject? || "message" !in body.value.fields ==>
            r == Err(ClientError(status, JStr("unknown"))))
  {
  }

  /** One request with `verb` to `path` at time `now`. `tokenReply` answers the token
      request the session may send; `reply` answers the request itself. */
  function Request(
    c: Client, verb: Verb, path: string, version: Option<string>,
    now: int, tokenReply: Reply, reply: Reply): (call: Call<Json>)
    ensures call.client.config == c.config
    ensures RequestLog.Bounded(c.log) ==> RequestLog.Bounded(call.client.log)
    ensures call.result.Ok? ==> reply.Delivered? && call.result == Classify(verb, reply.response)
    ensures var s := Auth.Session(c, now, tokenReply);
      && (s.result.Err? ==> call == Call(s.client, Err(s.result.error), s.sent))
      && (s.result.Ok? ==> call.sent == s.sent + [ApiRequest(verb, UrlFor(c, path, version))])
      && (s.result.Ok? && reply.Unreachable? ==> call == Call(s.client, Err(NetworkFailure), call.sent))
      && (s.result.Ok? && reply.Delivered? ==>
            && call.client == s.client.(log := RequestLog.Track(c.log,
                 RequestLog.Req(UrlFor(c, path, version), reply.response.status, now)))
            && call.result == Classify(verb, reply.response))
  {
    var url := UrlFor(c, path, version);
    var s := Auth.Session(c, now, tokenReply);
    if s.result.Err? then
      Call(s.client, Err(s.result.error), s.sent)
    else
      var sent := s.sent + [ApiRequest(verb, url)];
      match reply
      case Unreachable => Call(s.client, Err(NetworkFailure), sent)
      case Delivered(resp) =>
        var tracked := s.client.(log := RequestLog.Track(s.client.log, RequestLog.Req(url, resp.status, now)));
        Call(tracked, Classify(verb, resp), sent)
  }

  /** Every request that gets a response is tracked exactly once, whatever its
      status; a request that fails before or without a response is not. */
  lemma RequestTracksOnce(
    c: Client, verb: Verb, path: string, version: Option<string>,
    now: int, tokenReply: Reply, reply: Reply)
    ensures var call := Request(c, verb, path, version, now, tokenReply, reply);
      var answered := Auth.Session(c, now, tokenReply).result.Ok? && reply.Delivered?;
      && call.client.log.counter == c.log.counter + (if answered then 1 else 0)
      && (answered ==>
            call.client.log.records[|call.client.log.records| - 1]
              == RequestLog.Req(UrlFor(c, path, version), reply.response.status, now))
      && (!answered ==> call.client.log == c.log)
  {
  }

  /** While the token is fresh, a request sends no token request, keeps the token,
      and does not depend on what the token endpoint would answer. */
  lemma FreshRequestNeverReauthenticates(
    c: Client, verb: Verb, path: string, version: Option<string>,
    now: int, r1: Reply, r2: Reply, reply: Reply)
    requires Auth.Fresh(c, now)
    ensures Request(c, verb, path, version, now, r1, reply) == Request(c, verb, path, version, now, r2, reply)
    ensures Request(c, verb, path, version, now, r1, reply).sent == [ApiRequest(verb, UrlFor(c, path, version))]
    ensures Request(c, verb, path, version, now, r1, reply).client.token == c.token
    ensures Request(c, verb, path, version, now, r1, reply).client.expiration == c.expiration
  {
    Auth.FreshSessionIgnoresTokenEndpoint(c, now, r1, r2);
  }

  /** A write answered by 301 is an error: the redirect is never followed, and the
      one request sent is the write itself (after any token request). */
  lemma WriteRedirectIsRefused(
    c: Client, verb: Verb, path: string, version: Option<string>,
    now: int, tokenReply: Reply, body: Option<Json>)
    requires IsWrite(verb)
    requires Auth.Session(c, now, tokenReply).result.Ok?
    ensures var call := Request(c, verb, path, version, now, tokenReply, Delivered(Response(301, body)));
      && call.result == Err(RedirectRefused(verb))
      && call.sent[|call.sent| - 1] == ApiRequest(verb, UrlFor(c, path, version))
      && |call.sent| <= 2
  {
  }
}
