/** The login state machine behind the `session` property: the token is reused
    while it has not expired, an API key replaces it without any request, and
    otherwise e-mail and password are exchanged for a token. */
module Auth {
  import opened Outcomes
  import opened Json
  import opened Http
  import opened Client

  /** An API key is installed for a year. */
  const ApiKeyValidity: int := 365 * 24 * 60 * 60

  /** A token obtained with e-mail and password is used for 23 hours. */
  const TokenValidity: int := 23 * 60 * 60

  const TokenPath: string := "/user/get_token"

  /** `requests.codes.ok`. */
  const StatusOk: int := 200

  /** `diff = now - expiration` is negative: the current token is still valid. */
  predicate Fresh(c: Client, now: int)
  {
    now - c.expiration < 0
  }

  /** `if self.api_key:` tests truthiness, so an empty key counts as no key. */
  predicate HasApiKey(cfg: Config)
  {
    cfg.apiKey.Some? && cfg.apiKey.value != ""
  }

  /** E-mail and password are checked with `is None`: empty strings are accepted. */
  predicate HasCredentials(cfg: Config)
  {
    cfg.email.Some? && cfg.password.Some?
  }

  /** The token endpoint's statuses for credentials it refuses. */
  predicate IsCredentialRejection(status: int)
  {
    status == 401 || status == 409 || status == 422
  }

  /** A login at `now` exchanges the credentials for a token. */
  predicate NeedsTokenRequest(c: Client, now: int)
  {
    !Fresh(c, now) && !HasApiKey(c.config) && HasCredentials(c.config)
  }

  /** The token request: a GET of the token URL with e-mail and password as query. */
  function TokenRequestOf(c: Client): Outgoing
    requires HasCredentials(c.config)
  {
    TokenRequest(UrlFor(c, TokenPath, None), c.config.email.value, c.config.password.value)
  }

  /** `res.json()["token"]`. */
  function TokenOf(body: Option<Json>): Outcome<Json>
  {
    if body.Some? && Field(body.value, "token").Some? then Ok(Field(body.value, "token").value)
    else Err(MalformedBody)
  }

  /** The status test of the token response, then the token extraction. A status
      that is neither 200, nor a refusal of the credentials, nor an error status
      passes `raise_for_status` and is read like a 200. So a token is obtained
      exactly when the status is not an error status and the body has one. */
  function TokenFromResponse(resp: Response): (r: Outcome<Json>)
    ensures r.Ok? <==> !IsErrorStatus(resp.status) && TokenOf(resp.body).Ok?
    ensures r.Ok? ==> r == TokenOf(resp.body)
    ensures IsCredentialRejection(resp.status) ==> r == Err(InvalidCredentials)
    ensures IsErrorStatus(resp.status) && !IsCredentialRejection(resp.status) ==> r == Err(HttpStatus(resp.status))
  {
    if resp.status == StatusOk then TokenOf(resp.body)
    else if IsCredentialRejection(resp.status) then Err(InvalidCredentials)
    else if IsErrorStatus(resp.status) then Err(HttpStatus(resp.status))
    else TokenOf(resp.body)
  }

  /** `_login` at time `now`; `tokenReply` is what the token request would get. */
  function Login(c: Client, now: int, tokenReply: Reply): (call: Call<bool>)
    ensures call.result.Ok? ==> call.result.value
    ensures call.client.config == c.config
    ensures call.client.transport == c.transport && call.client.log == c.log
    ensures Fresh(c, now) ==> call == Call(c, Ok(true), [])
    ensures !Fresh(c, now) && HasApiKey(c.config) ==>
      call == Call(c.(token := Some(JStr(c.config.apiKey.value)), expiration := now + ApiKeyValidity), Ok(true), [])
    ensures !Fresh(c, now) && !HasApiKey(c.config) && !HasCredentials(c.config) ==>
      call == Call(c, Err(MissingCredentials), [])
    ensures NeedsTokenRequest(c, now) ==> call.sent == [TokenRequestOf(c)]
    ensures !NeedsTokenRequest(c, now) ==> call.sent == []
    ensures call.result.Ok? ==> Fresh(call.client, now)
    ensures call.result.Err? ==> call.client == c
  {
    if Fresh(c, now) then
      Call(c, Ok(true), [])
    else if HasApiKey(c.config) then
      Call(c.(token := Some(JStr(c.config.apiKey.value)), expiration := now + ApiKeyValidity), Ok(true), [])
    else if c.config.email.None? || c.config.password.None? then
      Call(c, Err(MissingCredentials), [])
    else
      var request := TokenRequestOf(c);
      match tokenReply
      case Unreachable => Call(c, Err(NetworkFailure), [request])
      case Delivered(resp) =>
        match TokenFromResponse(resp)
        case Err(e) => Call(c, Err(e), [request])
        case Ok(t) => Call(c.(token := Some(t), expiration := now + TokenValidity), Ok(true), [request])
  }

  /** How `_login` reads the token response, once it has sent the token request. */
  lemma CredentialLoginByStatus(c: Client, now: int, resp: Response)
    requires NeedsTokenRequest(c, now)
    ensures var call := Login(c, now, Delivered(resp));
      && (IsCredentialRejection(resp.status) ==> call.result == Err(InvalidCredentials))
      && (IsErrorStatus(resp.status) && !IsCredentialRejection(resp.status) ==>
            call.result == Err(HttpStatus(resp.status)))
      && (call.result.Ok? <==> !IsErrorStatus(resp.status) && TokenOf(resp.body).Ok?)
      && (call.result.Ok? ==>
            call.client == c.(token := Some(TokenOf(resp.body).value), expiration := now + TokenValidity))
  {
  }

  /** The transport `session` creates on first use. */
  function TransportFor(cfg: Config): Transport
  {
    if cfg.asynchronous then Pooled(PoolWorkers) else Blocking
  }

  /** The `session` property: create the transport once, then log in. Because
      `_login` never returns false, its "invalid login information" error is
      never raised. */
  function Session(c: Client, now: int, tokenReply: Reply): (call: Call<bool>)
    ensures call.client.transport == Some(if c.transport.Some? then c.transport.value else TransportFor(c.config))
    ensures call.client.config == c.config && call.client.log == c.log
    ensures call.result != Err(InvalidLoginInformation)
    ensures call.result.Ok? ==> call.result.value && Fresh(call.client, now)
    ensures call.result.Err? ==> call.client.token == c.token && call.client.expiration == c.expiration
    ensures NeedsTokenRequest(c, now) <==> call.sent != []
    ensures call.sent != [] ==> call.sent == [TokenRequestOf(c)]
    ensures Fresh(c, now) ==>
      call.result == Ok(true) && call.client.token == c.token && call.client.expiration == c.expiration
  {
    var ready := if c.transport.None? then c.(transport := Some(TransportFor(c.config))) else c;
    var login := Login(ready, now, tokenReply);
    if login.result.Ok? && !login.result.value then
      Call(login.client, Err(InvalidLoginInformation), login.sent)
    else
      login
  }

  /** While the token is fresh, `session` sends nothing and changes nothing but the
      transport, whatever the token endpoint would have answered. */
  lemma FreshSessionIgnoresTokenEndpoint(c: Client, now: int, r1: Reply, r2: Reply)
    requires Fresh(c, now)
    ensures Session(c, now, r1) == Session(c, now, r2)
    ensures Session(c, now, r1).sent == []
  {
  }

  /** An open session with a fresh token is used as it is: nothing is sent and the
      client does not change. */
  lemma ReusedSessionChangesNothing(c: Client, now: int, r: Reply)
    requires Fresh(c, now) && c.transport.Some?
    ensures Session(c, now, r) == Call(c, Ok(true), [])
  {
  }

  /** A client configured with e-mail and password and no API key sends exactly one
      token request on its first `session`, and none at all for the 23 hours after
      a successful login. */
  lemma CredentialSessionLogsInOnce(
    base: string, email: string, password: string, tzAware: bool, asynchronous: bool,
    created: int, now: int, later: int, r1: Reply, r2: Reply)
    requires created <= now <= later < now + TokenValidity
    ensures var c := NewClient(base, Some(email), Some(password), None, tzAware, asynchronous, created);
      var first := Session(c, now, r1);
      && first.sent == [TokenRequest(UrlFor(c, TokenPath, None), email, password)]
      && (first.result.Ok? ==>
            Session(first.client, later, r2) == Call(first.client, Ok(true), []))
  {
    var c := NewClient(base, Some(email), Some(password), None, tzAware, asynchronous, created);
    assert NeedsTokenRequest(c, now);
    var first := Session(c, now, r1);
    if first.result.Ok? {
      assert first.client.expiration == now + TokenValidity;
      assert Fresh(first.client, later);
    }
  }

  /** A client with an API key never sends a token request: the key becomes the
      bearer token and stays valid for a year. */
  lemma ApiKeySessionSendsNothing(c: Client, now: int, r: Reply)
    requires HasApiKey(c.config)
    ensures Session(c, now, r).sent == []
    ensures Session(c, now, r).result == Ok(true)
    ensures !Fresh(c, now) ==>
      Session(c, now, r).client.token == Some(JStr(c.config.apiKey.value))
      && Session(c, now, r).client.expiration == now + ApiKeyValidity
  {
  }

  /** The documented token exchanges: 200 with {"token": "abc"} installs "abc" as the
      bearer token; 401 is refused as invalid credentials. */
  lemma TokenExchangeExamples(c: Client, now: int)
    requires NeedsTokenRequest(c, now)
    ensures Login(c, now, Delivered(Response(200, Some(JObject(map["token" := JStr("abc")]))))).client.token
      == Some(JStr("abc"))
    ensures Login(c, now, Delivered(Response(401, None))).result == Err(InvalidCredentials)
  {
    var body := JObject(map["token" := JStr("abc")]);
    assert Field(body, "token") == Some(JStr("abc"));
  }
}
