/** The state of one `BaseAPI` instance: its configuration, the session token with
    its expiration, the lazily created transport, and the request history. */
module Client {
  import opened Outcomes
  import opened Json
  import opened Http
  import RequestLog
  import Urls

  /** Everything the constructor takes; fixed for the life of the client. */
  datatype Config = Config(
    baseUrl: string,
    email: Option<string>,
    password: Option<string>,
    apiKey: Option<string>,
    tzAware: bool,
    asynchronous: bool)

  /** The worker-pool size of the asynchronous transport. */
  const PoolWorkers: nat := 20

  /** `requests.Session`, or a `FuturesSession` over a thread pool. */
  datatype Transport = Blocking | Pooled(workers: nat)

  /** `token` is `_session_key` (also sent as "Authorization: Bearer <token>" once
      set), `expiration` is `_session_expiration`, `transport` is `_session`. */
  datatype Client = Client(
    config: Config,
    token: Option<Json>,
    expiration: int,
    transport: Option<Transport>,
    log: RequestLog.Log)

  /** One call into the client: the client afterwards, what the call returned or
      raised, and the HTTP requests it put on the wire, in order. */
  datatype Call<T> = Call(client: Client, result: Outcome<T>, sent: seq<Outgoing>)

  /** `BaseAPI.__init__` at time `now`: the base URL loses its trailing slashes, and
      the session counts as expired from the start. */
  function NewClient(
    baseUrl: string, email: Option<string>, password: Option<string>,
    apiKey: Option<string>, tzAware: bool, asynchronous: bool, now: int): (c: Client)
    ensures c.config.baseUrl <= baseUrl
    ensures c.config.baseUrl == [] || c.config.baseUrl[|c.config.baseUrl| - 1] != '/'
    ensures forall i :: |c.config.baseUrl| <= i < |baseUrl| ==> baseUrl[i] == '/'
    ensures c.config.email == email && c.config.password == password && c.config.apiKey == apiKey
    ensures c.config.asynchronous == asynchronous && c.config.tzAware == tzAware
    ensures c.token.None? && c.transport.None? && c.log == RequestLog.Empty
    ensures c.expiration < now
  {
    Client(
      Config(Urls.StripTrailingSlashes(baseUrl), email, password, apiKey, tzAware, asynchronous),
      None, now - 1, None, RequestLog.Empty)
  }

  /** The client's URL for `path`, with an optional version override. */
  function UrlFor(c: Client, path: string, version: Option<string>): string
  {
    Urls.ToUrl(c.config.baseUrl, path, version)
  }
}
