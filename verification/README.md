# OpenAI-compatible proxy router — a Dafny model

The system is an HTTP gateway that exposes one OpenAI-compatible API in front of several
model servers (vLLM, Ollama, DeepInfra and the like). A YAML file maps each model name to
an upstream base URL and API key. For every `POST` to an OpenAI route (chat completions,
embeddings, audio, rerank, …) the gateway works out which model the request names. It reads
the `model` query parameter, or failing that scans the start of the streamed body without
buffering all of it. It then picks that model's upstream and checks the route against what the
upstream advertises in its `/openapi.json` (cached per base URL) or, failing that, a provider
allowlist. Finally it streams the request upstream with its own credentials in place of the
client's and relays the answer. Two ASGI middlewares sit in front of the app: a bearer-token gate
and a body-size limit. The public routes report upstream health and list the configured models.
A small Redis-streams helper writes JSON chunks and reads them back until a terminal chunk.

The model is pure Dafny. Each module follows one source file:

| module | file | what it holds |
|---|---|---|
| `Wrappers`, `Text`, `Utf8`, `Errors` | — | `Option`/`Result`; Python's `strip`, `lower`, `rstrip`, `int`/`str`; UTF-8 decoding with `errors="ignore"`; the OpenAI error body |
| `Config` | `app/config.py` | the `Upstream` record and `load_config`'s entry loop |
| `Settings` | env readers in `app/upstream.py`, `app/middleware.py`, `app/shiff.py`, `app/routers/public.py` | flags, timeouts and integer settings as functions of the raw environment value |
| `Upstreams` | `app/upstream.py` | URL joining, `urlsplit`/`urlunsplit`, the SSL downgrade URL, OpenAPI discovery and the capability cache |
| `Sniff` | `app/shiff.py` | the two model regexes, content-type dispatch and the bounded body sniff with lossless replay |
| `Middleware` | `app/middleware.py`, `app/main.py` | the body-size limit, the bearer-token gate and their order |
| `ProxyHttp` | `app/proxy_http.py` | header filtering, the route pre-check and `proxy_http` |
| `Public` | `app/routers/public.py` | grouping by base URL, the health probes and payload, and the sorted model list |
| `StreamJson` | `app/stream_json.py` | the chunk writer and the `XREAD` consumer loop |
| `ProxyRouter` | `app/routers/proxy.py` | the registered routes and `route_and_proxy` |

Everything the gateway gets from outside becomes a parameter:
- the environment variable values (`Option<string>`, `None` when unset);
- the parsed YAML entries;
- the probe answers of the health check, as a function from URL to status or error;
- the discovery reply and the upstream reply;
- the current time;
- the sequence of `XREAD` answers;
- the request's body chunks.

The model says what the gateway sends and returns for those inputs.

## Model

| member | source | states |
|---|---|---|
| Config.LoadConfig | app/config.py:21-36 | the load succeeds exactly when the usable entries name distinct models, and the table is then those entries normalised, in file order; otherwise the error names the model of the first repeated usable entry |
| Config.RepeatIsFirst | app/config.py:33-34 | the first usable entry whose model is already taken marks the table's first repeat, and the duplicate error names that model |
| Config.KeptMembership | app/config.py:31-35 | a model is in the loaded table exactly when some usable entry of the file names it |
| Config.LookupInLoaded | app/config.py:27-35 | looking a model up in the loaded table finds it exactly when some input entry, once normalised, is usable and carries that model |
| Config.KeptEntryTrimmed | app/config.py:28-30 | every loaded entry has a model and API key without surrounding whitespace and a base URL not ending in "/" |
| Config.NormalizeIsTrimmed | app/config.py:28-30 | normalising an entry strips the model and key and leaves no trailing "/" on a non-empty base URL |
| Config.KeptWellFormed | app/config.py:28-35 | a loaded table with distinct models is well formed: distinct, usable and trimmed entries |
| Config.Lookup | app/routers/proxy.py:44-45 | a lookup returns an entry of the table carrying the model, and finds nothing exactly when no entry carries it |
| Settings.TimeoutS | app/upstream.py:51-55 | the upstream timeout is the float parse of the variable (default "600"), or 600 seconds when it does not parse |
| Settings.FlagDefaults | app/upstream.py:47-59 | with the variables unset, TLS verification is on and the SSL downgrade is off, and a boolean flag takes its default |
| Settings.EnvWordIgnoresCase | app/routers/public.py:18-20 | a flag word is read the same whatever its letter case |
| Settings.EnvWordIgnoresPadding | app/routers/public.py:18-20 | a flag word is read the same with surrounding whitespace |
| Settings.GetIntDefault | app/middleware.py:13-17 | an unset integer variable yields its default, since the default's own decimal text parses back to it |
| Settings.MaxBodyBytesDefault | app/middleware.py:27 | the body limit defaults to 100 MiB |
| Settings.SniffLimitDefault | app/shiff.py:13-17 | the sniff limit defaults to 1 MiB |
| Text.IntRoundTrip | app/middleware.py:15 | Python's `int` applied to the decimal text of an integer returns it, from a string or from bytes, within CPython's default limit of 4300 digits |
| Text.StripIsMaximalInfix | app/config.py:28 | `strip` leaves an infix with only whitespace cut off either side and no whitespace at its ends |
| Utf8.DecodeAscii | app/shiff.py:54 | decoding ASCII bytes with errors ignored keeps every byte as the same character |
| Upstreams.JoinShape | app/upstream.py:61-66 | the joined URL is the base without trailing "/" followed by the rooted path, with the leading "/v1" dropped only when the base ends in "/v1" or "/v1/openai" and the path starts with "/v1/" |
| Upstreams.OpenApiUrl | app/upstream.py:32 | the discovery URL is the trimmed base followed by "/openapi.json" |
| Upstreams.UnsplitRoundTrip | app/upstream.py:71-83 | splitting a URL assembled from well-shaped parts gives those parts back |
| Upstreams.HttpFallbackUrl | app/upstream.py:68-83 | with the downgrade allowed, a network location holding one square bracket but not the other raises `urlsplit`'s "Invalid IPv6 URL" error; otherwise an HTTP fallback exists exactly when the downgrade is allowed, the scheme is "https" and the lower-cased error text carries an SSL marker |
| Upstreams.FallbackOnlyChangesScheme | app/upstream.py:83 | the fallback URL splits into the original URL's parts with the scheme replaced by "http" |
| Upstreams.DiscoveryRequestFor | app/upstream.py:31-35 | discovery fetches the trimmed base plus "/openapi.json", with a bearer header exactly when the upstream has a key |
| Upstreams.Discover | app/upstream.py:36-45 | the advertised paths are known exactly when the reply is a 200 with a usable document; a document without paths gives the empty set and one with path keys gives those keys |
| Upstreams.CapsGet | app/upstream.py:22-29 | the cache answers without a request exactly when its entry for the base URL is younger than the ttl; otherwise it sends the discovery request and stores the answer under the base URL, stamped now |
| Upstreams.CapsGetKeepsOtherEntries | app/upstream.py:28 | a lookup leaves the entries of other base URLs untouched |
| Upstreams.SharedBaseUrlSharesCaps | app/upstream.py:24-28 | two models on one base URL share a discovery: the second lookup within the ttl sends nothing and sees the first one's answer |
| Upstreams.CachedWhileYoung | app/upstream.py:25-26 | while the stored entry is younger than the ttl, every later lookup for that base URL is served from the cache unchanged |
| Upstreams.StaleEntryRediscovers | app/upstream.py:25-29 | an entry aged past the ttl always triggers a new discovery whose answer is returned |
| Sniff.Search | app/shiff.py:53 | a search returns the leftmost position where the pattern matches, with its group, or reports that no position matches |
| Sniff.JsonMatchIsLayout | app/shiff.py:9 | the JSON regex matches at a position whenever the bytes there are `"model"`, whitespace, `:`, whitespace, `"`, a run without quote or backslash, `"` |
| Sniff.MultipartMatchIsLayout | app/shiff.py:10 | the multipart regex matches exactly when the bytes are `name="model"` CRLF CRLF followed by the maximal run without CR or LF |
| Sniff.JsonModelHasNoQuotes | app/shiff.py:9 | a model read by the JSON pattern never contains a quote or a backslash |
| Sniff.PatternFor | app/shiff.py:51-59 | the multipart pattern is used exactly when the content type is not JSON but contains "multipart/form-data" |
| Sniff.ContentTypeDispatch | app/shiff.py:51-59 | any JSON content type, and any content type that is not multipart, is read as JSON |
| Sniff.FirstStopFrom | app/shiff.py:32-41 | the scan stops at the first non-empty chunk after which a model is found or the window is full |
| Sniff.SniffModelAndStream | app/shiff.py:19-49 | a non-empty query model wins with the body untouched; otherwise the body is scanned; a success always names a non-empty model and replays exactly the bytes received; a failure carries the not-found message |
| Sniff.SniffBody | app/shiff.py:26-43 | the chunk loop computes the scan's reference definition: the model at the first stopping chunk, or not found |
| Sniff.SniffReferenceReplays | app/shiff.py:44-49 | the replayed body (seen chunks, then the unread rest) flattens to the original body |
| Sniff.ReplayIsLossless | app/shiff.py:44-48 | dropping empty chunks from the consumed prefix and appending the rest loses no byte |
| Sniff.WindowBound | app/shiff.py:35-36 | the sniff window never exceeds the limit and is always a prefix of the bytes read so far |
| Middleware.LastHeader | app/middleware.py:35 | a header lookup by lower-cased name finds the last occurrence, as the dict comprehension keeps the last value |
| Middleware.LimitedReceive | app/middleware.py:47-57 | the receive wrapper aborts at the first message whose running total exceeds the limit, and otherwise counts the whole body |
| Middleware.BodySizeLimit | app/middleware.py:29-65 | non-HTTP scopes pass through; a declared length over the limit is refused before the app runs; otherwise the stream is refused at the first excess, or completes when there is none |
| Middleware.SizeRefusal | app/middleware.py:36-65 | a 413 is answered exactly for an early or streamed refusal |
| Middleware.StreamLimitIsTotal | app/middleware.py:49-56 | for a non-negative limit, the streamed check fires exactly when the total body exceeds the limit |
| Middleware.DeclaredLengthRoundTrip | app/middleware.py:35-38 | a Content-Length carrying an integer's decimal text is read back as that integer, and is refused early exactly when it exceeds the limit |
| Middleware.BearerAuth | app/middleware.py:78-109 | non-HTTP scopes, exempt paths, paths under "/docs/", an unset token and OPTIONS pass; any other request passes exactly when it is authorized, and is otherwise refused with 401 |
| Middleware.AuthorizedIff | app/middleware.py:96 | a header authorizes a trimmed token exactly when it starts with "Bearer " and the rest, stripped, is the token |
| Middleware.AuthorizedIsPadded | app/middleware.py:96 | every authorizing header is "Bearer " followed by the token with only whitespace around it |
| Middleware.PaddedIsAuthorized | app/middleware.py:96 | "Bearer " followed by the token padded with whitespace is authorized |
| Middleware.ClientTokenAccepted | app/middleware.py:93-96 | a client sending `Authorization: Bearer <token>` under any letter case of the header name is let through |
| Middleware.SchemeWordIsCaseSensitive | app/middleware.py:96-107 | the scheme word is matched case-sensitively: any other six-letter spelling of "Bearer", such as "bearer", is refused with 401 on a guarded request that is not OPTIONS, whatever follows it |
| Middleware.Gates | app/main.py:44-46 | the bearer gate runs first, so an unauthorized request is refused with 401 before the body limit is consulted; the app runs exactly when the request is neither refused with 401 nor refused early for a declared length over the limit; it runs and still ends in 413 exactly when an HTTP body not refused early streams past the limit |
| ProxyHttp.DictSet | app/proxy_http.py:80 | storing a header sets that name, keeps every other name's value and adds only that name |
| ProxyHttp.CopyHeadersGet | app/proxy_http.py:73-80 | a copied header holds the last incoming value under that name when the name passes the filter, and is absent otherwise |
| ProxyHttp.FilteredHeadersSpec | app/proxy_http.py:71-87 | outbound headers carry "X-Proxy-Model" as the model, "Authorization" as the upstream's bearer key exactly when it has one, and otherwise the client's headers minus hop-by-hop and authorization ones |
| ProxyHttp.FilteredHeadersAreSafe | app/proxy_http.py:71-87 | no outbound header is hop-by-hop, and the only authorization header is the upstream's own key |
| ProxyHttp.FilteredNameSafe | app/proxy_http.py:74-83 | any name present in the outbound headers is not hop-by-hop, and an authorization name is exactly "Authorization" with the upstream's key |
| ProxyHttp.FilteredHeadersDistinct | app/proxy_http.py:71-87 | the outbound headers have distinct names |
| ProxyHttp.HttpxItemsGet | app/proxy_http.py:122 | httpx's view of the upstream's header lines holds a name exactly when some line's name lower-cases to it, and its value is all such lines' values joined with ", " in wire order |
| ProxyHttp.ResponseHeadersSpec | app/proxy_http.py:120-127 | every relayed name other than "X-Proxy-Upstream" is lower-case and not hop-by-hop, and carries all of the upstream's values for it joined with ", " in wire order; "X-Proxy-Upstream" is set to the base URL |
| ProxyHttp.ProviderAllowlist | app/proxy_http.py:46-53 | an allowlist applies exactly when the lower-cased base URL mentions deepinfra, ":11434" or ollama, DeepInfra's is tested first, and whichever provider matches, the allowlist is the same six routes |
| ProxyHttp.RouteCheck | app/proxy_http.py:56-68 | with discovered paths, a route is refused exactly when it is not among them; without, exactly when an allowlist applies and lacks it; the refusal is the route-not-found 404 |
| ProxyHttp.KnownCapsIgnoreProvider | app/proxy_http.py:58-61 | discovered paths decide alone, whatever the provider |
| ProxyHttp.UnknownProviderNotBlocked | app/proxy_http.py:63-68 | an unrecognised upstream with nothing discovered is never blocked in advance |
| ProxyHttp.OutboundUrl | app/proxy_http.py:102-104 | the outbound URL is the joined URL, followed by "?" and the query exactly when the query is non-empty |
| ProxyHttp.RelayReply | app/proxy_http.py:117-142 | a timeout gives 504 naming the base URL, another request error gives 502 with its text, an upstream 404 gives the upstream-404 error, and any other answer is relayed with its status, the relayed headers, httpx's content-type value as media type, and its whole body |
| ProxyHttp.RelayReplyAsWritten | app/proxy_http.py:108-138 | as the code is written, an answer other than 404 reaches the client as its status line and relayed headers with no body, because the upstream response is closed before its body is read; every other outcome is answered as by `RelayReply` |
| ProxyHttp.ClosedStreamLosesBody | app/proxy_http.py:108-138 | for every answer other than 404, the as-written relay sends the same status and headers as the intended relay but none of the body the intended relay delivers |
| ProxyHttp.ProxyHttp | app/proxy_http.py:90-142 | the capability lookup runs first; nothing is sent exactly when the pre-check refuses; otherwise the request goes to the outbound URL with the filtered headers, the body attached exactly for POST, PUT and PATCH, and the reply is relayed |
| ProxyHttp.ProxyStatuses | app/proxy_http.py:98-142 | the client sees 404 exactly when the pre-check refuses or the upstream answers 404; once sent, an error reply comes only from a timeout (504), a request error (502) or an upstream 404 |
| ProxyHttp.ForwardedRequestShape | app/proxy_http.py:106-114 | a forwarded request carries the body, unchanged, exactly for POST, PUT and PATCH, and no hop-by-hop header |
| Public.GroupingIsFilter | app/routers/public.py:36-38 | each base URL is grouped with exactly the models of the table that use it, in table order |
| Public.GroupKeysInOrder | app/routers/public.py:36-43 | base URLs are visited in order of first appearance in the table |
| Public.BaseUrlsDistinct | app/routers/public.py:36-38 | each base URL is probed once |
| Public.BaseUrlsCover | app/routers/public.py:36-38 | the probed base URLs are exactly those of the table's entries |
| Public.CheckUpstream | app/routers/public.py:44-70 | an upstream is ok exactly when /health or /v1/models answers 200; /v1/models is probed only after /health fails; the error is empty exactly when /health answered 200 |
| Public.BuildHealthPayload | app/routers/public.py:34-76 | the status is "ok" exactly when every entry's upstream is ok, "degraded" otherwise; details are present exactly when asked for, one report per distinct base URL in order, each the health check of that URL listing all of its models, with its verdict, error and probed URLs |
| Public.HealthOverTable | app/routers/public.py:71-73 | all distinct base URLs ok is the same as all entries' upstreams ok |
| Public.Health | app/routers/public.py:79-85 | a configuration error gives the 500 config error; otherwise the status is "ok" exactly when every entry's upstream is ok, and details are present exactly when the public-details flag is on, as one health check per distinct base URL in order |
| Public.InternalHealth | app/routers/public.py:88-94 | a configuration error gives the 500 config error; otherwise the payload always carries the health check of each distinct base URL over all of its models, in order, and its status is "ok" exactly when every entry's upstream is ok |
| Public.SortStrings | app/routers/public.py:103 | sorting yields a sorted permutation of its input |
| Public.SortedUnique | app/routers/public.py:103 | two sorted permutations of the same strings are equal, so the listing's order is determined |
| Public.ListModels | app/routers/public.py:97-104 | a configuration error gives the 500 config error; otherwise a "list" whose ids are the table's models, sorted, each card a "model" owned by "proxy" |
| Public.ListedOnceInOrder | app/routers/public.py:97-104 | for a loaded table, every configured model is listed exactly once, in sorted order, and nothing else is |
| StreamJson.WriteResponse | app/stream_json.py:27-53 | a write appends one entry to the key's stream under the "json" field without trimming, and a terminal write follows it with exactly one approximate trim of that stream to the terminal maxlen |
| StreamJson.SessionAppendsChunks | app/stream_json.py:45-48 | a session of writes appends the chunk texts in order, one entry each |
| StreamJson.ActiveStreamNotTrimmed | app/stream_json.py:35-48 | while no chunk is terminal, no write trims the stream |
| StreamJson.TerminalTrimIsLast | app/stream_json.py:50-51 | in a session ending with its only terminal chunk, the single trim is the last command and follows that chunk's append |
| StreamJson.UpToDone | app/stream_json.py:81-83 | the reader yields a prefix of the items, all of them when none is terminal |
| StreamJson.PrefixDecides | app/stream_json.py:82-83 | once a terminal item has been read, later answers change nothing the reader yields |
| StreamJson.ReadAnswer | app/stream_json.py:73-83 | one answer is consumed entry by entry: entries without "json" only advance the cursor, and the reader stops right after the first terminal item |
| StreamJson.IterStreamJson | app/stream_json.py:56-83 | the items yielded are the answers' items up to and including the first terminal one; the loop finishes exactly when there is one; every read resumes after the last entry seen, with the block and count asked for |
| StreamJson.WrittenThenRead | app/stream_json.py:27-83 | a reader over what a writer session appended yields exactly the session's chunks and stops at the terminal one |
| ProxyRouter.RouteAndProxy | app/routers/proxy.py:31-57 | a configuration error comes first, then the sniff error, then the unknown-model error; the request is forwarded exactly when the table has the named model, to that model's upstream, and the forwarded outcome (what is sent, where, with which headers, and what the client gets back) is exactly `proxy_http` on a POST with the request's path, query and headers, that upstream and the replayed body, which carries every byte of the original |
| ProxyRouter.RoutingTable | app/routers/proxy.py:13-61 | only POST is routed, to fourteen paths that include chat completions but not image generation |

## Left out

- I/O is not modelled. That covers reading the YAML file, `os.getenv`, the HTTP clients, Redis, the async logger and `time.time()`. Their results are parameters.
- `ConfigProvider` (the cached reader of the YAML file that the routers call) is not part of this model. A config read is passed in as `Result<Table, ConfigError>`.
- YAML parsing and `str(...)` conversion of non-string entry fields are left out. The entries arrive as strings, and a missing field is "".
- `json.dumps`/`json.loads` of stream chunks are left out. A chunk is its text, and whether an item is terminal (`item.get("done") is True`) is the parameter `isDone`.
- The effect of `XTRIM` on the stream's contents is left out. The model records the commands a writer issues, not the server's storage.
- Blocking in `XREAD` is left out. The reader sees a finite sequence of answers; an empty answer is modelled as one with no entries.
- Latency (`latency_ms`) in the health report is left out, as it depends on the clock.
- The timing of the upstream response's stream is left out: the reply's body is a finished sequence of chunks. That the source closes this stream before reading it is recorded under "Findings".
- Float parsing of `API_UPSTREAM_TIMEOUT` is a parameter (`asFloat`), since Dafny has no floating point.
- Settings.TimeoutS: does not model `float`'s own parsing rules, because it takes the parser as a parameter.
- Python's `int()` also accepts non-ASCII decimal digits; the integer parser accepts an optional sign and ASCII digits with single underscores between them, inside whitespace.
- `str.lower` is modelled on ASCII letters only. Besides those, only the Kelvin sign (to "k") and the dotted capital I (to "i" and a combining dot) lower-case to ASCII letters. No header name can hold either: the middleware lower-cases raw bytes, Starlette decodes request header names as Latin-1, which has neither character, and h11 accepts the upstream's header names only as ASCII token characters. The other lower-cased values (the base URL, environment words, the error text, the content type and the URL scheme) are compared only with ASCII words that contain no "k" and do not end in "i", so the comparisons come out the same. `str.isspace` is modelled with Python's full whitespace set.
- `str(e)` of exceptions is an opaque text supplied with the error.
- The websocket proxy (`app/proxy_ws.py`), the realtime and internal routers, the rate-limit middleware, `app/main.py` beyond the middleware order, and `http_fallback_url_on_ssl_error`'s callers are not part of this model.
- Upstreams.HttpFallbackUrl: of `urlsplit`'s ValueErrors only the unbalanced square bracket is modelled. A bracketed host that is not a valid IPv6 or IPvFuture address, and a non-ASCII network location that NFKC normalisation turns into one holding "/", "?", "#", "@" or ":", also raise in the source but yield a result here, since Dafny has no IP address parser or Unicode normalisation. `urlunsplit` is modelled as CPython 3.12.4 and later write it; earlier versions write some URLs without a network location differently, though an SSL error cannot arise on those.
- The SSE endpoint in `app/main.py` that wraps the stream reader is not part of this model.
- ProxyRouter.RoutingTable: states route registration as a predicate; FastAPI's own 405 answer to other verbs is not modelled.
- The tests of the repository expect a 401 when `PROXY_BEARER_TOKEN` is empty and image generation among the proxied routes; the code lets every request through when the token is empty and does not register `/v1/images/generations`. The model follows the code.
- The router imports `..sniff` and `ConfigProvider`, neither of which is among the source files; the sniff module is `app/shiff.py`, which the model follows.

## Findings

| source | as written | input that shows it | evidently intended | confidence | as-written member | corrected member |
|---|---|---|---|---|---|---|
| app/proxy_http.py:108-138 | the `StreamingResponse` is returned from inside `async with client.stream(...)`, whose exit closes the upstream response; when Starlette then iterates `r.aiter_raw()`, httpx raises `StreamClosed` after the status line and headers have gone out, and the connection is dropped | any upstream answer other than 404, such as a 200 with one body chunk | the upstream's body is streamed to the client | not executed | ProxyHttp.RelayReplyAsWritten, ProxyHttp.ClosedStreamLosesBody | ProxyHttp.RelayReply |
