/**
 * Forwarding one request to its upstream (app/proxy_http.py): the route
 * pre-check against discovered capabilities or a provider allowlist, header
 * filtering and credential injection, the outbound URL and body, and the
 * mapping of the upstream's answer to the gateway's response.
 *
 * The HTTP exchange is an oracle: `UpstreamReply` is what the client call
 * produced. Header lists are `(name, value)` pairs: the client's as the
 * ASGI server hands them over (one pair per header line) and the upstream's
 * in wire order, which the model reads through httpx's merged view
 * (`HttpxItems`). A Python dict built from pairs is a `Headers` value with
 * distinct names, in first-insertion order.
 */
module ProxyHttp {
  import opened Wrappers
  import opened Text
  import opened Utf8
  import opened Errors
  import opened Config
  import opened Upstreams

  // ---------------------------------------------------------------------------
  // Header dictionaries
  // ---------------------------------------------------------------------------

  type Headers = seq<(string, string)>

  /** `d.get(k)` for a dict kept as its items. */
  function Get(d: Headers, k: string): Option<string> {
    if |d| == 0 then None else if d[0].0 == k then Some(d[0].1) else Get(d[1..], k)
  }

  /** `d[k] = v`: replaces the value in place when `k` is present, appends it otherwise. */
  function DictSet(d: Headers, k: string, v: string): (r: Headers)
    ensures Get(r, k) == Some(v)
    ensures forall k' :: k' != k ==> Get(r, k') == Get(d, k')
    ensures Names(r) == Names(d) + {k}
  {
    if |d| == 0 then [(k, v)]
    else if d[0].0 == k then [(k, v)] + d[1..]
    else [d[0]] + DictSet(d[1..], k, v)
  }

  /** The value of the last pair named `k`: what `headers[k] = v` over the pairs leaves behind. */
  function LastValue(items: Headers, k: string): Option<string> {
    if |items| == 0 then None
    else if items[|items| - 1].0 == k then Some(items[|items| - 1].1)
    else LastValue(items[..|items| - 1], k)
  }

  function Names(d: Headers): set<string> {
    if |d| == 0 then {} else {d[0].0} + Names(d[1..])
  }

  lemma {:induction false} NameIndex(d: Headers, x: string)
    requires x in Names(d)
    ensures exists j :: 0 <= j < |d| && d[j].0 == x
  {
    if d[0].0 != x {
      NameIndex(d[1..], x);
      var j :| 0 <= j < |d[1..]| && d[1..][j].0 == x;
      assert d[j + 1].0 == x;
    }
  }

  lemma {:induction false} IndexName(d: Headers, j: nat)
    requires j < |d|
    ensures d[j].0 in Names(d)
  {
    if j > 0 {
      IndexName(d[1..], j - 1);
    }
  }

  /** A dict never holds two pairs with the same name. */
  predicate DistinctNames(d: Headers) {
    forall i, j :: 0 <= i < j < |d| ==> d[i].0 != d[j].0
  }

  /** Every pair stored in a dict is what a lookup of its name finds. */
  lemma {:induction false} GetAt(d: Headers, i: nat)
    requires DistinctNames(d) && i < |d|
    ensures Get(d, d[i].0) == Some(d[i].1)
  {
    if i > 0 {
      assert d[0].0 != d[i].0;
      GetAt(d[1..], i - 1);
    }
  }

  lemma {:induction false} DictSetDistinct(d: Headers, k: string, v: string)
    requires DistinctNames(d)
    ensures DistinctNames(DictSet(d, k, v))
  {
    if |d| > 0 && d[0].0 != k {
      DictSetDistinct(d[1..], k, v);
      var r, rest := DictSet(d, k, v), DictSet(d[1..], k, v);
      assert d[0].0 !in Names(d[1..]) by {
        if d[0].0 in Names(d[1..]) {
          NameIndex(d[1..], d[0].0);
        }
      }
      assert d[0].0 !in Names(rest);
      forall i, j | 0 <= i < j < |r| ensures r[i].0 != r[j].0 {
        if i == 0 {
          assert r[j] == rest[j - 1];
          IndexName(rest, j - 1);
        }
      }
    }
  }

  /** `(d + [x]).get(k)`: an appended pair is found only when no earlier one has the name. */
  lemma {:induction false} GetAppend(d: Headers, x: (string, string), k: string)
    ensures Get(d + [x], k) == if Get(d, k).Some? then Get(d, k) else if x.0 == k then Some(x.1) else None
  {
    if |d| == 0 {
      assert [x][1..] == [];
    } else {
      assert (d + [x])[1..] == d[1..] + [x];
      GetAppend(d[1..], x, k);
    }
  }

  lemma {:induction false} GetAbsent(d: Headers, k: string)
    requires forall j :: 0 <= j < |d| ==> d[j].0 != k
    ensures Get(d, k).None?
  {
    if |d| > 0 {
      assert forall j :: 0 <= j < |d| - 1 ==> d[1..][j] == d[j + 1];
      GetAbsent(d[1..], k);
    }
  }

  /** In a dict the first and the last pair named `k` are the same pair. */
  lemma {:induction false} DictLastValue(d: Headers, k: string)
    requires DistinctNames(d)
    ensures LastValue(d, k) == Get(d, k)
  {
    if |d| > 0 {
      var pre, x := d[..|d| - 1], d[|d| - 1];
      assert d == pre + [x];
      GetAppend(pre, x, k);
      if x.0 == k {
        GetAbsent(pre, k);
      } else {
        DictLastValue(pre, k);
      }
    }
  }

  // ---------------------------------------------------------------------------
  // httpx's view of a reply's headers
  // ---------------------------------------------------------------------------

  /** `", ".join(vs)`. */
  function JoinComma(vs: seq<string>): string {
    if |vs| == 0 then ""
    else if |vs| == 1 then vs[0]
    else JoinComma(vs[..|vs| - 1]) + ", " + vs[|vs| - 1]
  }

  /** Reference: the values of every pair whose lower-cased name is `k`, in wire order. */
  function ValuesNamed(wire: Headers, k: string): seq<string> {
    if |wire| == 0 then []
    else ValuesNamed(wire[..|wire| - 1], k) + (if Lower(wire[|wire| - 1].0) == k then [wire[|wire| - 1].1] else [])
  }

  /** httpx's `Headers.items()` (and so `Headers.get`): names lower-cased, kept in order of
      first appearance, and the values of a repeated name joined with ", ". */
  function HttpxItems(wire: Headers): Headers {
    if |wire| == 0 then []
    else
      var d := HttpxItems(wire[..|wire| - 1]);
      var key := Lower(wire[|wire| - 1].0);
      match Get(d, key)
      case Some(prev) => DictSet(d, key, prev + ", " + wire[|wire| - 1].1)
      case None => DictSet(d, key, wire[|wire| - 1].1)
  }

  lemma {:induction false} HttpxItemsDistinct(wire: Headers)
    ensures DistinctNames(HttpxItems(wire))
  {
    if |wire| > 0 {
      var d := HttpxItems(wire[..|wire| - 1]);
      var key := Lower(wire[|wire| - 1].0);
      HttpxItemsDistinct(wire[..|wire| - 1]);
      match Get(d, key)
      case Some(prev) => DictSetDistinct(d, key, prev + ", " + wire[|wire| - 1].1);
      case None => DictSetDistinct(d, key, wire[|wire| - 1].1);
    }
  }

  /** A name is present exactly when some pair lower-cases to it, and its value is every
      such pair's value, in wire order, joined with ", ". */
  lemma {:induction false} HttpxItemsGet(wire: Headers, k: string)
    ensures Get(HttpxItems(wire), k) == if ValuesNamed(wire, k) == [] then None else Some(JoinComma(ValuesNamed(wire, k)))
  {
    if |wire| > 0 {
      var pre := wire[..|wire| - 1];
      HttpxItemsGet(pre, k);
      var vs, v := ValuesNamed(pre, k), wire[|wire| - 1].1;
      if Lower(wire[|wire| - 1].0) == k {
        assert ValuesNamed(wire, k) == vs + [v];
        if vs != [] {
          assert (vs + [v])[..|vs|] == vs;
          assert JoinComma(vs + [v]) == JoinComma(vs) + ", " + v;
        }
      } else {
        assert ValuesNamed(wire, k) == vs;
      }
    }
  }

  /** Only lower-case names are present. */
  lemma {:induction false} ValuesNamedLower(wire: Headers, k: string)
    requires ValuesNamed(wire, k) != []
    ensures Lower(k) == k
  {
    var pre := wire[..|wire| - 1];
    if Lower(wire[|wire| - 1].0) == k {
      LowerIdempotent(wire[|wire| - 1].0);
    } else {
      ValuesNamedLower(pre, k);
    }
  }

  // ---------------------------------------------------------------------------
  // _filtered_headers and the response header copy
  // ---------------------------------------------------------------------------

  /** `HOP_BY_HOP`: headers that describe one connection and are never forwarded. */
  const HopByHop: set<string> :=
    {"connection", "keep-alive", "proxy-authenticate", "proxy-authorization", "te", "trailers",
     "transfer-encoding", "upgrade", "host"}

  /** Whether a header named `k` is copied; requests also drop their own credentials. */
  predicate Passes(k: string, dropAuthorization: bool) {
    Lower(k) !in HopByHop && !(dropAuthorization && Lower(k) == "authorization")
  }

  /** The copy loop: every passing pair stored in order. */
  function CopyHeaders(items: Headers, dropAuthorization: bool): Headers {
    if |items| == 0 then []
    else
      var h := CopyHeaders(items[..|items| - 1], dropAuthorization);
      var (k, v) := items[|items| - 1];
      if Passes(k, dropAuthorization) then DictSet(h, k, v) else h
  }

  lemma {:induction false} CopyHeadersDistinct(items: Headers, dropAuthorization: bool)
    ensures DistinctNames(CopyHeaders(items, dropAuthorization))
  {
    if |items| > 0 {
      CopyHeadersDistinct(items[..|items| - 1], dropAuthorization);
      DictSetDistinct(CopyHeaders(items[..|items| - 1], dropAuthorization), items[|items| - 1].0, items[|items| - 1].1);
    }
  }

  /** A copied dict holds, for each passing name, the value of its last occurrence, and nothing else. */
  lemma {:induction false} CopyHeadersGet(items: Headers, dropAuthorization: bool, k: string)
    ensures Get(CopyHeaders(items, dropAuthorization), k) == if Passes(k, dropAuthorization) then LastValue(items, k) else None
  {
    if |items| > 0 {
      CopyHeadersGet(items[..|items| - 1], dropAuthorization, k);
    }
  }

  /** `_filtered_headers(request, upstream)`. */
  function FilteredHeaders(incoming: Headers, u: Upstream): Headers {
    var h := CopyHeaders(incoming, true);
    var withKey := if u.apiKey != "" then DictSet(h, "Authorization", "Bearer " + u.apiKey) else h;
    DictSet(withKey, "X-Proxy-Model", u.model)
  }

  /** The upstream sees its own key, the model name, and every other inbound header
      except connection-level ones and the client's own credentials. */
  lemma FilteredHeadersSpec(incoming: Headers, u: Upstream)
    ensures var h := FilteredHeaders(incoming, u);
      && Get(h, "Authorization") == (if u.apiKey != "" then Some("Bearer " + u.apiKey) else None)
      && Get(h, "X-Proxy-Model") == Some(u.model)
      && forall k :: k != "Authorization" && k != "X-Proxy-Model" ==>
           Get(h, k) == if Passes(k, true) then LastValue(incoming, k) else None
  {
    CopyHeadersGet(incoming, true, "Authorization");
    forall k | k != "Authorization" && k != "X-Proxy-Model"
      ensures Get(FilteredHeaders(incoming, u), k) == if Passes(k, true) then LastValue(incoming, k) else None
    {
      CopyHeadersGet(incoming, true, k);
    }
  }

  /** No forwarded header is hop-by-hop, and the only one named like "authorization" is the injected key. */
  lemma FilteredHeadersAreSafe(incoming: Headers, u: Upstream)
    ensures var h := FilteredHeaders(incoming, u);
      forall i :: 0 <= i < |h| ==>
        && Lower(h[i].0) !in HopByHop
        && (Lower(h[i].0) == "authorization" ==> h[i] == ("Authorization", "Bearer " + u.apiKey))
  {
    var h := FilteredHeaders(incoming, u);
    FilteredHeadersSpec(incoming, u);
    FilteredHeadersDistinct(incoming, u);
    forall i | 0 <= i < |h|
      ensures Lower(h[i].0) !in HopByHop
      ensures Lower(h[i].0) == "authorization" ==> h[i] == ("Authorization", "Bearer " + u.apiKey)
    {
      GetAt(h, i);
      FilteredNameSafe(incoming, u, h[i].0);
    }
  }

  lemma FilteredNameSafe(incoming: Headers, u: Upstream, k: string)
    requires Get(FilteredHeaders(incoming, u), k).Some?
    ensures Lower(k) !in HopByHop
    ensures Lower(k) == "authorization" ==> k == "Authorization" && Get(FilteredHeaders(incoming, u), k) == Some("Bearer " + u.apiKey)
  {
    LowerModelHeader();
    var h := CopyHeaders(incoming, true);
    var withKey := if u.apiKey != "" then DictSet(h, "Authorization", "Bearer " + u.apiKey) else h;
    assert FilteredHeaders(incoming, u) == DictSet(withKey, "X-Proxy-Model", u.model);
    if k == "Authorization" {
      CopyHeadersGet(incoming, true, k);
    } else if k != "X-Proxy-Model" {
      assert Get(withKey, k) == Get(h, k);
      CopyHeadersGet(incoming, true, k);
      assert Passes(k, true);
    }
  }



  lemma FilteredHeadersDistinct(incoming: Headers, u: Upstream)
    ensures DistinctNames(FilteredHeaders(incoming, u))
  {
    var h := CopyHeaders(incoming, true);
    CopyHeadersDistinct(incoming, true);
    DictSetDistinct(h, "Authorization", "Bearer " + u.apiKey);
    var withKey := if u.apiKey != "" then DictSet(h, "Authorization", "Bearer " + u.apiKey) else h;
    DictSetDistinct(withKey, "X-Proxy-Model", u.model);
  }

  lemma LowerModelHeader()
    ensures Lower("X-Proxy-Model") == "x-proxy-model" && Lower("Authorization") == "authorization"
    ensures "x-proxy-model" !in HopByHop && "authorization" !in HopByHop
  {
  }

  /** The response headers relayed to the client: httpx's merged view of the upstream's
      header lines, all but hop-by-hop names, plus `X-Proxy-Upstream`. */
  function ResponseHeaders(wire: Headers, u: Upstream): Headers {
    DictSet(CopyHeaders(HttpxItems(wire), false), "X-Proxy-Upstream", u.baseUrl)
  }

  /** Every relayed name other than `X-Proxy-Upstream` is lower-case and not hop-by-hop, and
      carries all of the upstream's values for it, joined with ", " in wire order
      (two `Set-Cookie` lines arrive as one `set-cookie` header). */
  lemma ResponseHeadersSpec(wire: Headers, u: Upstream)
    ensures var h := ResponseHeaders(wire, u);
      && Get(h, "X-Proxy-Upstream") == Some(u.baseUrl)
      && (forall k :: k != "X-Proxy-Upstream" ==>
           Get(h, k) == if Lower(k) in HopByHop || ValuesNamed(wire, k) == [] then None else Some(JoinComma(ValuesNamed(wire, k))))
      && (forall k :: k != "X-Proxy-Upstream" && Get(h, k).Some? ==> Lower(k) == k)
  {
    HttpxItemsDistinct(wire);
    forall k | k != "X-Proxy-Upstream"
      ensures Get(ResponseHeaders(wire, u), k) ==
        if Lower(k) in HopByHop || ValuesNamed(wire, k) == [] then None else Some(JoinComma(ValuesNamed(wire, k)))
      ensures Get(ResponseHeaders(wire, u), k).Some? ==> Lower(k) == k
    {
      CopyHeadersGet(HttpxItems(wire), false, k);
      DictLastValue(HttpxItems(wire), k);
      HttpxItemsGet(wire, k);
      if ValuesNamed(wire, k) != [] {
        ValuesNamedLower(wire, k);
      }
    }
  }

  // ---------------------------------------------------------------------------
  // Route pre-check
  // ---------------------------------------------------------------------------

  /** `OPENAI_ALLOWLIST`: the routes an OpenAI-compatible server such as Ollama serves. */
  const OpenAiAllowlist: set<string> :=
    {"/v1/chat/completions", "/v1/completions", "/v1/embeddings", "/v1/models", "/v1/responses", "/v1/images/generations"}

  /** `DEEPINFRA_ALLOWLIST`. */
  const DeepInfraAllowlist: set<string> :=
    {"/v1/chat/completions", "/v1/completions", "/v1/embeddings", "/v1/models", "/v1/responses", "/v1/images/generations"}

  /** `_provider_allowlist(u)`: recognised providers by their (lower-cased) base URL. */
  function ProviderAllowlist(u: Upstream): (r: Option<set<string>>)
    ensures r.Some? <==> Contains(Lower(u.baseUrl), "deepinfra") || Contains(Lower(u.baseUrl), ":11434") || Contains(Lower(u.baseUrl), "ollama")
    ensures Contains(Lower(u.baseUrl), "deepinfra") ==> r == Some(DeepInfraAllowlist)
    ensures r.Some? ==> r.value == OpenAiAllowlist
  {
    var b := Lower(u.baseUrl);
    if Contains(b, "deepinfra") then Some(DeepInfraAllowlist)
    else if Contains(b, ":11434") || Contains(b, "ollama") then Some(OpenAiAllowlist)
    else None
  }

  /** The 404 the pre-check answers with. */
  function RouteNotSupported(path: string): ApiError {
    ApiError(404, "Route not supported by upstream: " + path, InvalidRequest, Some("route_not_found"))
  }

  /** The decision of `ensure_route_supported` once the caps are known: the error to answer with, if any. */
  function RouteCheck(caps: Caps, u: Upstream, path: string): (r: Option<ApiError>)
    ensures r.Some? ==> r.value == RouteNotSupported(path)
    ensures caps.paths.Some? ==> (r.Some? <==> path !in caps.paths.value)
    ensures caps.paths.None? ==> (r.Some? <==> ProviderAllowlist(u).Some? && path !in ProviderAllowlist(u).value)
  {
    match caps.paths
    case Some(paths) => if path !in paths then Some(RouteNotSupported(path)) else None
    case None =>
      var allow := ProviderAllowlist(u);
      if allow.Some? && path !in allow.value then Some(RouteNotSupported(path)) else None
  }

  /** Discovered paths decide alone: two upstreams with the same caps get the same answer, whatever their provider. */
  lemma KnownCapsIgnoreProvider(caps: Caps, u: Upstream, v: Upstream, path: string)
    requires caps.paths.Some?
    ensures RouteCheck(caps, u, path) == RouteCheck(caps, v, path)
  {
  }

  /** With nothing discovered, an upstream no allowlist recognises is never blocked in advance. */
  lemma UnknownProviderNotBlocked(u: Upstream, path: string)
    requires !Contains(Lower(u.baseUrl), "deepinfra") && !Contains(Lower(u.baseUrl), ":11434") && !Contains(Lower(u.baseUrl), "ollama")
    ensures RouteCheck(Caps(None), u, path).None?
  {
  }

  // ---------------------------------------------------------------------------
  // proxy_http
  // ---------------------------------------------------------------------------

  /** The outcome of the upstream call: a timeout, another request error (with its text),
      or an answer with its status, header lines in wire order, and body chunks. */
  datatype UpstreamReply =
    | TimedOut
    | RequestFailed(detail: string)
    | Answered(status: int, headers: Headers, body: seq<Bytes>)

  /** The request sent upstream; `body` is None when no content is attached. */
  datatype Outbound = Outbound(verb: string, url: string, headers: Headers, body: Option<seq<Bytes>>)

  /** What the client receives: an OpenAI-style error, the upstream's answer relayed, or a
      relay whose status line and headers go out but whose body fails before its first chunk,
      after which the connection is dropped. */
  datatype Response =
    | ErrorReply(error: ApiError)
    | Relayed(status: int, headers: Headers, mediaType: Option<string>, body: seq<Bytes>)
    | Severed(status: int, headers: Headers, mediaType: Option<string>)

  function StatusOf(r: Response): int {
    match r
    case ErrorReply(e) => e.status
    case Relayed(status, _, _, _) => status
    case Severed(status, _, _) => status
  }

  /** The methods whose request body is forwarded. */
  const BodyMethods: set<string> := {"POST", "PUT", "PATCH"}

  /** The upstream URL: the joined path, then "?" and the raw query string when there is one. */
  function OutboundUrl(u: Upstream, path: string, query: string): (url: string)
    ensures StartsWith(url, JoinUpstreamUrl(u.baseUrl, path))
    ensures query == "" ==> url == JoinUpstreamUrl(u.baseUrl, path)
    ensures query != "" ==> url[|JoinUpstreamUrl(u.baseUrl, path)|..] == "?" + query
  {
    var joined := JoinUpstreamUrl(u.baseUrl, path);
    if query != "" then joined + "?" + query else joined
  }

  /** The response for the upstream's outcome. */
  function RelayReply(reply: UpstreamReply, u: Upstream, path: string): (r: Response)
    ensures reply.TimedOut? ==> r == ErrorReply(ApiError(504, "Upstream timeout: " + u.baseUrl, "timeout_error", None))
    ensures reply.RequestFailed? ==> r == ErrorReply(ApiError(502, "Upstream request error: " + reply.detail, "api_error", None))
    ensures reply.Answered? && reply.status == 404 ==>
      r == ErrorReply(ApiError(404, "Upstream returned 404 for " + path, InvalidRequest, Some("upstream_404")))
    ensures reply.Answered? && reply.status != 404 ==>
      r == Relayed(reply.status, ResponseHeaders(reply.headers, u), Get(HttpxItems(reply.headers), "content-type"), reply.body)
  {
    match reply
    case TimedOut => ErrorReply(ApiError(504, "Upstream timeout: " + u.baseUrl, "timeout_error", None))
    case RequestFailed(detail) => ErrorReply(ApiError(502, "Upstream request error: " + detail, "api_error", None))
    case Answered(status, headers, body) =>
      if status == 404 then ErrorReply(ApiError(404, "Upstream returned 404 for " + path, InvalidRequest, Some("upstream_404")))
      else Relayed(status, ResponseHeaders(headers, u), Get(HttpxItems(headers), "content-type"), body)
  }

  /** The relay as the source is written: the `StreamingResponse` is returned from inside the
      `async with client.stream(...)` block, whose exit closes the upstream response before the
      server starts iterating it. The status line and headers still go out, but the first read
      of the body raises `httpx.StreamClosed`, so no chunk of an answer other than a 404 reaches
      the client. The other outcomes are answered before the block exits, as in `RelayReply`. */
  function RelayReplyAsWritten(reply: UpstreamReply, u: Upstream, path: string): (r: Response)
    ensures reply.Answered? && reply.status != 404 ==>
      r == Severed(reply.status, ResponseHeaders(reply.headers, u), Get(HttpxItems(reply.headers), "content-type"))
    ensures !(reply.Answered? && reply.status != 404) ==> r == RelayReply(reply, u, path)
  {
    match reply
    case Answered(status, headers, _) =>
      if status == 404 then RelayReply(reply, u, path)
      else Severed(status, ResponseHeaders(headers, u), Get(HttpxItems(headers), "content-type"))
    case _ => RelayReply(reply, u, path)
  }

  /** The two relays agree on the status and headers, but only the intended one delivers the body:
      for any answer other than a 404, even an empty one, the code as written sends no body chunk. */
  lemma ClosedStreamLosesBody(reply: UpstreamReply, u: Upstream, path: string)
    requires reply.Answered? && reply.status != 404
    ensures RelayReply(reply, u, path).Relayed? && RelayReply(reply, u, path).body == reply.body
    ensures RelayReplyAsWritten(reply, u, path).Severed?
    ensures StatusOf(RelayReplyAsWritten(reply, u, path)) == StatusOf(RelayReply(reply, u, path)) == reply.status
    ensures RelayReplyAsWritten(reply, u, path).headers == RelayReply(reply, u, path).headers
  {
  }

  /** Everything one call of `proxy_http` does: the response, the request sent upstream (if any),
      and the caps lookup with the cache it leaves. */
  datatype ProxyOutcome = ProxyOutcome(response: Response, sent: Option<Outbound>, caps: CapsLookup)

  /** `proxy_http(request, upstream, body_stream)`. The request is its verb, path, raw query
      string and header pairs; `cache`, `now` and `discovery` feed `caps_cache.get`, and `reply`
      is what the upstream call yields if it is made. */
  function ProxyHttp(verb: string, path: string, query: string, incoming: Headers, u: Upstream, body: seq<Bytes>,
                     cache: CapsCache, now: real, discovery: DiscoveryReply, reply: UpstreamReply): (o: ProxyOutcome)
    ensures o.caps == CapsGet(cache, u, now, discovery)
    ensures o.sent.None? <==> RouteCheck(o.caps.caps, u, path).Some?
    ensures o.sent.None? ==> o.response == ErrorReply(RouteNotSupported(path))
    ensures o.sent.Some? ==> o.response == RelayReply(reply, u, path)
    ensures o.sent.Some? ==> o.sent.value == Outbound(verb, OutboundUrl(u, path, query), FilteredHeaders(incoming, u),
                                                      if verb in BodyMethods then Some(body) else None)
  {
    var lookup := CapsGet(cache, u, now, discovery);
    match RouteCheck(lookup.caps, u, path)
    case Some(err) => ProxyOutcome(ErrorReply(err), None, lookup)
    case None =>
      var out := Outbound(verb, OutboundUrl(u, path, query), FilteredHeaders(incoming, u),
                          if verb in BodyMethods then Some(body) else None);
      ProxyOutcome(RelayReply(reply, u, path), Some(out), lookup)
  }

  /** The client sees a 404 exactly when the route is refused in advance or the upstream answers 404;
      a 504 or 502 of the gateway's own only on a timeout or a request error. */
  lemma ProxyStatuses(verb: string, path: string, query: string, incoming: Headers, u: Upstream, body: seq<Bytes>,
                      cache: CapsCache, now: real, discovery: DiscoveryReply, reply: UpstreamReply)
    ensures var o := ProxyHttp(verb, path, query, incoming, u, body, cache, now, discovery, reply);
      && (StatusOf(o.response) == 404 <==> o.sent.None? || (reply.Answered? && reply.status == 404))
      && (o.response.ErrorReply? && o.sent.Some? ==> !reply.Answered? || reply.status == 404)
      && (o.sent.Some? && reply.TimedOut? ==> StatusOf(o.response) == 504)
      && (o.sent.Some? && reply.RequestFailed? ==> StatusOf(o.response) == 502)
  {
  }

  /** A request refused in advance sends nothing upstream; one that goes out carries the body only
      for POST, PUT and PATCH, and never the client's credentials or hop-by-hop headers. */
  lemma ForwardedRequestShape(verb: string, path: string, query: string, incoming: Headers, u: Upstream, body: seq<Bytes>,
                              cache: CapsCache, now: real, discovery: DiscoveryReply, reply: UpstreamReply)
    ensures var o := ProxyHttp(verb, path, query, incoming, u, body, cache, now, discovery, reply);
      o.sent.Some? ==>
        && (o.sent.value.body.Some? <==> verb in BodyMethods)
        && (o.sent.value.body.Some? ==> o.sent.value.body.value == body)
        && forall i :: 0 <= i < |o.sent.value.headers| ==> Lower(o.sent.value.headers[i].0) !in HopByHop
  {
    FilteredHeadersAreSafe(incoming, u);
  }
}
