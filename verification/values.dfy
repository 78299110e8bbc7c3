/** Option and Result: the two failure-carrying wrappers the client model uses. */
module Outcomes {

  datatype Option<+T> = None | Some(value: T)

  /** A value, or the exception the Python code would raise instead of returning it. */
  datatype Result<+T, +E> = Ok(value: T) | Err(error: E)
}

/** Decoded JSON as the client sees it after `res.json()`. Floats stay symbolic:
    the core never computes with them, it only asks whether a value is a number. */
module Json {
  import opened Outcomes

  datatype Json =
    | JNull
    | JBool(b: bool)
    | JInt(i: int)
    | JFloat(mantissa: int, exponent: int)
    | JStr(s: string)
    | JList(items: seq<Json>)
    | JObject(fields: map<string, Json>)

  /** `value[key]` on a decoded body: absent when the value is not an object or lacks the key. */
  function Field(j: Json, key: string): Option<Json>
  {
    if j.JObject? && key in j.fields then Some(j.fields[key]) else None
  }

  /** What `for x in v` and `items += v` see of a decoded value: a list yields its
      items and a string its characters, each as a one-character string. A number,
      a boolean or null cannot be iterated. An object would yield its keys in
      insertion order, which a `map` does not keep, so it is not iterated here. */
  function Elements(j: Json): (r: Option<seq<Json>>)
    ensures j.JList? ==> r == Some(j.items)
    ensures j.JStr? ==> r.Some? && |r.value| == |j.s| && forall i :: 0 <= i < |j.s| ==> r.value[i] == JStr([j.s[i]])
    ensures !j.JList? && !j.JStr? ==> r.None?
  {
    match j
    case JList(items) => Some(items)
    case JStr(s) => Some(seq(|s|, i requires 0 <= i < |s| => JStr([s[i]])))
    case _ => None
  }

  /** `isinstance(v, (int, float))` in Python; `bool` is a subclass of `int`, so booleans pass. */
  predicate IsNumber(v: Json)
  {
    v.JInt? || v.JFloat? || v.JBool?
  }
}

/** What crosses the HTTP boundary: verbs, responses, outgoing requests, and the
    exceptions of the client. */
module Http {
  import opened Json
  import opened Outcomes

  datatype Verb = Get | Post | Put | Delete

  /** A response the transport handed back; `body` is None when it is not valid JSON. */
  datatype Response = Response(status: int, body: Option<Json>)

  /** The outcome of one transport call: a response, or a connection-level exception. */
  datatype Reply = Delivered(response: Response) | Unreachable

  /** A request put on the wire: the token request of the login, or an API call. */
  datatype Outgoing =
    | TokenRequest(url: string, email: string, password: string)
    | ApiRequest(verb: Verb, url: string)

  /** The exceptions the core raises. */
  datatype ApiError =
    | MissingCredentials                        // ValueError: email and password are needed
    | InvalidCredentials                        // ValueError: invalid login credentials
    | InvalidLoginInformation                   // ValueError raised by `session` when login is false
    | HttpStatus(status: int)                   // requests' raise_for_status
    | ClientError(status: int, message: Json)   // HTTPError "<status> Error: <message>"
    | RedirectRefused(verb: Verb)               // HTTPError "301 redirect for POST/PUT"
    | MalformedBody                             // JSON decoding failed or an expected key is missing
    | NetworkFailure                            // the transport itself raised
    | NotAsynchronous                           // NotImplementedError of async_get
    | InvalidTimestamp(point: Json)             // ValueError: Invalid TS Point
    | InvalidValue(point: Json)                 // ValueError: Invalid VALUE Point
    | MalformedPoint(point: Json)               // point[0] or point[1] cannot be read
    | MalformedEntry(entry: Json)               // entry["data"] is missing or not a list

  type Outcome<T> = Result<T, ApiError>

  /** `raise_for_status()` raises exactly for the 4xx and 5xx statuses. */
  predicate IsErrorStatus(status: int)
  {
    400 <= status < 600
  }
}
