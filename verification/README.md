# sxapi BaseAPI — a Dafny model of the low-level client

`sxapi/low.py` defines `BaseAPI`, the low-level HTTP client of the smaXtec API.
This project models its core:

- the base URL the constructor keeps;
- how `to_url` builds request URLs, including the `/vN/` version override;
- the login state machine behind the `session` property, with API key, e-mail and password, and a token that expires;
- the request history `track_request` keeps (a counter and the newest 100 records);
- the status test that `get`, `post`, `put` and `delete` share (writes refuse a 301);
- the best-effort fan-out of `async_get`;
- the offset/limit pagination loop of the list endpoints;
- the check the bulk sensor-data writes run on every point before they send.

The model is purely functional:

- A client is an immutable `Client.Client` value. It holds its configuration, its token and expiration, its transport and its request log.
- The operations that talk to the server (`Auth.Session`, `Dispatch.Request`, `FanOut.AsyncGet`, `SensorData.Bulk`) take a client and return a `Client.Call`. A `Call` holds the client afterwards, the result or raised error (`Http.ApiError`), and the HTTP requests sent, in order.
- The pure parts are functions of plain values: `RequestLog.Track` of a log, `Urls.ToUrl` of strings, `Dispatch.Classify` of a response. `Pagination.Paginate` takes the outcomes of the loop's successive `get` calls and returns the offsets it fetched with and how it ended.
- The network is a parameter. `Reply` values give what the token endpoint and the API would answer. The clock is one integer `now` per call.

Modules:

| file | module | models |
|---|---|---|
| values.dfy | `Outcomes`, `Json`, `Http` | option/result types, JSON values, requests, responses, errors |
| request_log.dfy | `RequestLog` | `Req`, `track_request` |
| urls.dfy | `Urls` | `rstrip("/")`, `to_url` and its `re.sub` |
| client.dfy | `Client` | `BaseAPI.__init__`, client state |
| auth.dfy | `Auth` | `_login`, `session` |
| dispatch.dfy | `Dispatch` | `get`, `post`, `put`, `delete` |
| fanout.dfy | `FanOut` | `async_get` |
| pagination.dfy | `Pagination` | the `while True` offset loops |
| sensor_data.dfy | `SensorData` | `insertSensorDataBulk`, `updateSensorDataBulk`, `insertGroupSensorDataBulk` |

`_login` treats every status other than 401/409/422 and the 4xx/5xx statuses
like 200. It refuses 401, 409 and 422 itself, and lets `raise_for_status`
refuse the other 4xx and 5xx statuses. Any other status goes on to read `token`
from the body: a 204 or a 302 carrying a token logs in. `Auth.TokenFromResponse` and `Auth.CredentialLoginByStatus` say
exactly this.

## Model

| member | source | states |
|---|---|---|
| `RequestLog.Track` | sxapi/low.py:70-74 | the counter grows by one and the new record is last. Below 100 records it is appended; at 100 the oldest is dropped. A log of at most 100 records stays so, and holds the newest 100 of old records plus the new one |
| `RequestLog.TrackAll` | sxapi/low.py:70-74 | a run of requests adds its length to the counter, and a history of at most 100 records stays so |
| `RequestLog.TrackAllKeepsNewest` | sxapi/low.py:70-74 | any run of tracked requests adds its length to the counter and leaves exactly the newest 100 of all records, in order |
| `RequestLog.OverflowEvictsOldestFirst` | sxapi/low.py:72-74 | after 100 or more requests from an empty log, the log holds exactly the last 100, oldest first |
| `Urls.StripTrailingSlashes` | sxapi/low.py:41 | the stored base URL is a prefix of the given one, only slashes were removed, and it does not end with a slash |
| `Urls.ToUrl` | sxapi/low.py:83-88 | without an override the URL is the stored base followed by the path. An override leaves a URL without version segments as it is, and applying the same override to its result changes nothing more |
| `Urls.VersionMatch` | sxapi/low.py:86 | a prefix `/`, `v` or `V`, one or more digits, `/` is matched exactly when it is the pattern's match, at its only possible length |
| `Urls.Rewrite` | sxapi/low.py:86-87 | only the empty URL rewrites to the empty string, and a URL not starting with a slash keeps its first character; the full behaviour is stated against the scan in `Urls.RewriteScan` |
| `Urls.RewriteScan` | sxapi/low.py:83-88 | the left-to-right scan of `re.sub` computes the recursive rewrite: each non-overlapping match is replaced by `/m/` and every other character is copied |
| `Urls.RewriteWithoutSegments` | sxapi/low.py:85-87 | a URL with no version segment is unchanged by an override |
| `Urls.NoMatchSurvivesRewrite` | sxapi/low.py:86-87 | a rewrite cannot create a version segment at a position where the original had none |
| `Urls.RewriteTwice` | sxapi/low.py:85-87 | overriding with a version token and then with another equals overriding once with the second |
| `Urls.OverrideSpansBaseAndPath` | sxapi/low.py:84-87 | the override applies to the joined URL: base `/api/v2` with path `/x` and override `v1` gives `/api/v1/x` |
| `Client.NewClient` | sxapi/low.py:37-53 | the constructor keeps the credentials and flags, strips trailing slashes, and starts with no token, no transport, an empty log and an already expired session |
| `Auth.TokenFromResponse` | sxapi/low.py:111-117 | a token is obtained exactly when the status is not 4xx/5xx and the body has a "token"; 401/409/422 are invalid credentials, and other 4xx/5xx raise their status |
| `Auth.Login` | sxapi/low.py:90-121 | a fresh token is reused with nothing sent. Otherwise an API key is installed for a year with nothing sent. Without a key, missing e-mail or password raises before sending. Otherwise exactly one token request is sent. Success always leaves a fresh token; an error leaves the client unchanged |
| `Auth.CredentialLoginByStatus` | sxapi/low.py:111-121 | 401/409/422 are invalid credentials and other 4xx/5xx raise their status. Login succeeds exactly when the status is not an error status and the body has a token, which is then installed for 23 hours |
| `Auth.Session` | sxapi/low.py:55-68 | the transport is created once, pooled with 20 workers when asynchronous. The "invalid login information" error is never raised. A token request is sent exactly when the token expired, there is no API key and there are credentials |
| `Auth.ReusedSessionChangesNothing` | sxapi/low.py:59-68 | an open session with a fresh token is returned as it is: nothing is sent and the client is unchanged |
| `Auth.FreshSessionIgnoresTokenEndpoint` | sxapi/low.py:94-96 | while the token is fresh, `session` sends nothing and does not depend on the token endpoint |
| `Auth.CredentialSessionLogsInOnce` | sxapi/low.py:46-47 | a new client with e-mail and password sends one token request on first use, then none for the 23 hours after a success |
| `Auth.ApiKeySessionSendsNothing` | sxapi/low.py:97-103 | with an API key no token request is ever sent; the key becomes the bearer token for a year |
| `Auth.TokenExchangeExamples` | sxapi/low.py:111-117 | 200 with token "abc" installs "abc"; 401 is refused as invalid credentials |
| `Dispatch.ErrorMessage` | sxapi/low.py:131-135 | the error message is the body's "message" when the body is a JSON object that has one, whatever its type, and "unknown" when the body is not JSON, not an object, or has no message |
| `Dispatch.Classify` | sxapi/low.py:182-192 | a result is returned exactly when the status is not a write's 301 and not 4xx/5xx, and the body decodes. It is the body. 301 on a write is refused, 4xx carries the body's message, 5xx raises the status |
| `Dispatch.VerbsDifferOnlyOnRedirect` | sxapi/low.py:131-139 | GET and DELETE classify alike, and POST and PUT differ from them only on 301 |
| `Dispatch.ErrorMessageFallsBack` | sxapi/low.py:131-135 | a 4xx error carries the body's "message" when present, and "unknown" otherwise |
| `Dispatch.Request` | sxapi/low.py:123-130 | a request first goes through `session`; a login failure sends nothing more. Otherwise one request is sent to the client's URL, tracked once if answered, and its status classified |
| `Dispatch.RequestTracksOnce` | sxapi/low.py:127-130 | every answered request adds exactly one history record (URL, status, start) whatever its status; an unanswered one adds none |
| `Dispatch.FreshRequestNeverReauthenticates` | sxapi/low.py:123-127 | with a fresh token a request sends only itself and keeps the token |
| `Dispatch.WriteRedirectIsRefused` | sxapi/low.py:194-203 | a POST or PUT answered by 301 is an error, and the redirect is never followed |
| `FanOut.AsyncGet` | sxapi/low.py:141-172 | a blocking client is refused before anything happens, no paths give an empty result, and never more results than paths |
| `FanOut.Submit` | sxapi/low.py:146-152 | submission logs in at most once, at the first path. A failure there propagates with nothing else sent; otherwise that login's traffic comes first, then exactly one GET per path, in order |
| `FanOut.SubmitWhenFresh` | sxapi/low.py:148-152 | with an open transport and a fresh token, submission sends exactly one GET per URL and changes nothing |
| `FanOut.Harvest` | sxapi/low.py:154-172 | each future adds at most one history record and at most one result, and a history of at most 100 records stays so |
| `FanOut.SuccessIndices` | sxapi/low.py:155-169 | the positions of the futures whose reply passes the status test: all of them and only them, strictly increasing |
| `FanOut.HarvestKeepsSuccessesInOrder` | sxapi/low.py:154-172 | the results are exactly the successful replies, as (body, url), in submission order |
| `FanOut.HarvestKeepsKept` | sxapi/low.py:155-169 | what collection keeps does not depend on the history: it is the (body, url) pair of every successful future, in order |
| `FanOut.KeptIsSuccessesInOrder` | sxapi/low.py:155-169 | the kept pairs are the successful futures picked by their increasing positions, nothing else |
| `FanOut.KeptSplits` | sxapi/low.py:155-171 | collecting two runs of futures one after the other keeps what each run keeps, in order |
| `FanOut.SucceededIsGetOk` | sxapi/low.py:160-169 | a reply is kept exactly when the status test of `get` returns its body |
| `FanOut.HarvestTracksArrivals` | sxapi/low.py:157-160 | every reply that arrived is tracked, whatever its status, in order; failed futures are not |
| `FanOut.FailedUrlIsOnlyOmitted` | sxapi/low.py:170-171 | a failing URL is only missing from the results; the others are collected as if it had not been asked |
| `FanOut.AsyncGetCollects` | sxapi/low.py:141-172 | end to end: one login check, one GET per path, one record per arrival, and the successes in order with their URLs |
| `Pagination.Paginate` | sxapi/low.py:396-403 | a non-empty run fetches at least once and at most once per page given, the first time at the starting offset; a run that would fetch again has used every page given |
| `Pagination.StopsAtFirstShortPage` | sxapi/low.py:396-403 | full pages up to k and a short page at k take exactly k+1 fetches. Each later fetch is at the previous page's next offset, and the result is the pages' data concatenated |
| `Pagination.CollectedEndsAtShortPage` | sxapi/low.py:396-403 | conversely, a run that returns stopped at its first short page, and every earlier page was full |
| `Pagination.FullPagesFetchAgain` | sxapi/low.py:399-402 | a page of exactly `limit` items always causes one more fetch, at its next offset |
| `Pagination.RaisedFetchDiscardsPages` | sxapi/low.py:397 | an error in any fetch ends the loop with that error, and the pages so far are lost |
| `Pagination.ShortLastPageRun` | sxapi/low.py:686-692 | with limit 100, pages of 100, 100 and 37 items take three fetches (offsets 0, 100, 200) and give 237 items |
| `Pagination.EmptyLastPageRun` | sxapi/low.py:686-692 | with limit 100, pages of 100, 100, 100 and 0 items take four fetches and give 300 items |
| `Pagination.StringDataIsCharacters` | sxapi/low.py:398-399 | a `data` string is appended character by character: `{"data": "ab"}` with limit 100 returns ["a", "b"] |
| `SensorData.CheckPoint` | sxapi/low.py:574-580 | a point passes exactly when it is a list whose first two elements are numbers (int, float or bool). Otherwise the error names the point, and the value error is raised only once the timestamp passed |
| `SensorData.FirstBadPoint` | sxapi/low.py:573-580 | the error raised for one entry's points names one of those points, and that point is not valid |
| `SensorData.FirstProblem` | sxapi/low.py:572-580 | the error raised names either an entry that has no points to iterate, or a point that is not valid |
| `SensorData.FirstBadPointNoneIffAllValid` | sxapi/low.py:593-597 | the points of one entry raise nothing exactly when all of them are valid |
| `SensorData.NoProblemIffAllValid` | sxapi/low.py:589-597 | validation raises nothing exactly when every entry has points to iterate and every point is valid |
| `SensorData.Validate` | sxapi/low.py:876-884 | the nested loops raise the first problem in entry-then-point order, and nothing exactly when all data is valid |
| `SensorData.Bulk` | sxapi/low.py:570-582 | nothing is sent and nothing is returned unless all data is valid. Invalid data raises the first problem with the client unchanged; valid data makes exactly the PUT or POST request of `put`/`post` |
| `SensorData.BulkWritesOnlyValidData` | sxapi/low.py:570-582 | for entries given as a list, invalid data raises with nothing sent and the client unchanged. Valid data is sent as exactly one write after the login check: PUT or POST to `/sensordatabulk`, PUT to `/groupsensordatabulk` |

## Left out

- The HTTP transport itself is a parameter (`Reply`): `requests.Session`, `FuturesSession`, the thread pool (only its worker count is kept), headers, query parameters, request bodies and timeouts. The `Authorization` header is represented by the token alone.
- Wall-clock time is one integer `now` per call. The source reads the clock several times within a call, and the model takes those readings as equal.
- `Req.end` and `Req.timer`, and `stats`, which only formats them.
- The text of exception messages. Errors are `ApiError` values; `print(e)` in `async_get` and the `logging` calls are output only.
- JSON decoding is abstract: a body is a decoded `Json` value, or absent when `r.json()` would fail.
- `Urls.Rewrite`: the override is inserted literally, without the backslash-escape processing `re.sub` applies to a replacement string.
- `SensorData.PointsOf`: an entry whose `data` is a JSON object is treated as malformed. Python would iterate the object's keys, in insertion order, which the model's `map` does not keep. A `data` string is iterated character by character, as in Python.
- `SensorData.Bulk` takes the entries as a list. The source first copies its argument with `list(sensordata)` and then iterates `sensordata` again to validate it. A generator would be used up by the copy, so validation would see no entries and the write would be sent unchecked. `SensorData.BulkWritesOnlyValidData` holds only for arguments that can be iterated twice, such as lists.
- `SensorData.Bulk`: in the insert variants, a missing "metric" turns the validation error into a `KeyError`. The model reports the validation error in both cases.
- `Pagination.Paginate` is given the finite list of `get` outcomes, so a loop that would fetch again ends as `Unfinished`. Termination of the real loop depends on the server.
- `Pagination.Paginate` does not carry the client across the pages. Each page's `get` tracks one history record and may log in, as `Dispatch.Request` states for a single request; the pages' outcomes are given, so the history and token between fetches are not modelled.
- `Pagination.Paginate`: a page whose `data` is a JSON object raises `MalformedBody`. Python would append the object's keys, in insertion order, and compare their count with the limit; the model's `map` does not keep that order. A `data` string is appended character by character, as in Python.
- `insertSensorData` and `updateSensorData` are one-entry wrappers that return element 0 of the result; they are not modelled separately.
- The endpoint methods of the subclasses (`PublicAPIv2`, `PrivateAPIv2`, `LowLevelPublicAPI`, `LowLevelInternAPI`) are left out except for the shared loops above. So are `HDict`, `splitTimeRange`, `Memoize`, the `tz_aware` flag (only stored), the tests and the packaging.
