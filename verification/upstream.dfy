/**
 * URL construction and upstream capability discovery (app/upstream.py):
 * `join_upstream_url`, `http_fallback_url_on_ssl_error` with the `urlsplit` /
 * `urlunsplit` pair it relies on, and the TTL cache `CapsCache`.
 * The clock and the discovery request are parameters.
 */
module Upstreams {
  import opened Wrappers
  import opened Text
  import opened Config

  // ---------------------------------------------------------------------------
  // join_upstream_url
  // ---------------------------------------------------------------------------

  /** The incoming path with a leading "/" ensured. */
  function RootedPath(p: string): (r: string)
    ensures StartsWith(r, "/")
  {
    if StartsWith(p, "/") then p else "/" + p
  }

  /** The base already carries the "/v1" that the incoming path repeats. */
  predicate DropsV1(base: string, path: string) {
    (EndsWith(base, "/v1") || EndsWith(base, "/v1/openai")) && StartsWith(path, "/v1/")
  }

  /** What follows the base: the rooted path, minus its "/v1" when the base already has one. */
  function JoinedPath(base: string, path: string): string
    requires StartsWith(path, "/")
  {
    if DropsV1(base, path) then path[3..] else path
  }

  /** `join_upstream_url(base_url, incoming_path)`. */
  function JoinUpstreamUrl(baseUrl: string, incomingPath: string): string {
    RStripChar(baseUrl, '/') + JoinedPath(RStripChar(baseUrl, '/'), RootedPath(incomingPath))
  }

  /** The joined URL is the base without trailing slashes, followed by a path that
      begins with "/": the incoming path itself, or that path minus its leading
      "/v1" exactly when the base already ends in "/v1" or "/v1/openai". */
  lemma JoinShape(baseUrl: string, incomingPath: string)
    ensures var base, path := RStripChar(baseUrl, '/'), RootedPath(incomingPath);
      var r := JoinUpstreamUrl(baseUrl, incomingPath);
      && StartsWith(r, base)
      && (|base| == 0 || base[|base| - 1] != '/')
      && |r| > |base| && r[|base|] == '/'
      && (DropsV1(base, path) ==> base + "/v1" + r[|base|..] == base + path)
      && (!DropsV1(base, path) ==> r == base + path)
  {
    var base, path := RStripChar(baseUrl, '/'), RootedPath(incomingPath);
    JoinedPathShape(base, path);
    ConcatSplits(base, JoinedPath(base, path));
  }

  lemma JoinedPathShape(base: string, path: string)
    requires StartsWith(path, "/")
    ensures var q := JoinedPath(base, path);
      && |q| > 0 && q[0] == '/'
      && (DropsV1(base, path) ==> path == "/v1" + q)
      && (!DropsV1(base, path) ==> q == path)
  {
    if DropsV1(base, path) {
      assert path[..4] == "/v1/";
      assert path[..3] == "/v1";
    }
  }

  lemma ConcatSplits(a: string, b: string)
    ensures StartsWith(a + b, a) && (a + b)[|a|..] == b
    ensures |b| > 0 ==> (a + b)[|a|] == b[0]
  {
    assert (a + b)[..|a|] == a;
  }

  /** The discovery URL is the base followed by "/openapi.json": that path never loses a "/v1". */
  lemma OpenApiUrl(baseUrl: string)
    ensures JoinUpstreamUrl(baseUrl, "/openapi.json") == RStripChar(baseUrl, '/') + "/openapi.json"
  {
    assert StartsWith("/openapi.json", "/");
    assert !StartsWith("/openapi.json", "/v1/") by { assert "/openapi.json"[1] != "/v1/"[1]; }
  }

  // ---------------------------------------------------------------------------
  // urlsplit / urlunsplit
  // ---------------------------------------------------------------------------

  /** `urllib.parse.SplitResult`. */
  datatype UrlParts = UrlParts(scheme: string, netloc: string, path: string, query: string, fragment: string)

  predicate IsAsciiAlpha(c: char) {
    ('a' <= c <= 'z') || ('A' <= c <= 'Z')
  }

  /** `urllib.parse.scheme_chars`. */
  predicate IsSchemeChar(c: char) {
    IsAsciiAlpha(c) || IsDigit(c) || c == '+' || c == '-' || c == '.'
  }

  /** C0 controls and space, which `urlsplit` strips from the front. */
  predicate IsC0OrSpace(c: char) {
    c <= ' '
  }

  /** Tab, CR and LF, which `urlsplit` deletes everywhere. */
  predicate IsUnsafeUrlChar(c: char) {
    c == '\t' || c == '\r' || c == '\n'
  }

  predicate NoUnsafe(s: string) {
    forall i :: 0 <= i < |s| ==> !IsUnsafeUrlChar(s[i])
  }

  function RemoveUnsafe(s: string): (r: string)
    ensures NoUnsafe(r)
    ensures NoUnsafe(s) ==> r == s
  {
    if |s| == 0 then ""
    else (if IsUnsafeUrlChar(s[0]) then "" else [s[0]]) + RemoveUnsafe(s[1..])
  }

  /** `s[:i]` is a valid scheme: a letter followed by scheme characters. */
  predicate SchemeBefore(s: string, i: int) {
    0 < i <= |s| && IsAsciiAlpha(s[0]) && forall k :: 0 <= k < i ==> IsSchemeChar(s[k])
  }

  predicate IsDelimiter(c: char) {
    c == '/' || c == '?' || c == '#'
  }

  /** Index of the first of "/", "?" or "#" in `s`, or `|s|`. */
  function NetlocEnd(s: string): (d: nat)
    ensures d <= |s|
    ensures forall k :: 0 <= k < d ==> !IsDelimiter(s[k])
    ensures d < |s| ==> IsDelimiter(s[d])
  {
    if |s| == 0 || IsDelimiter(s[0]) then 0 else 1 + NetlocEnd(s[1..])
  }

  /** Splits at the first `sep`: `s.split(sep, 1)` when `sep in s`, else `(s, "")`. */
  function SplitOnce(s: string, sep: char): (string, string) {
    match IndexOf(s, sep)
    case Some(k) => (s[..k], s[k + 1..])
    case None => (s, "")
  }

  /** The URL with leading C0 controls and spaces stripped and tabs and newlines removed. */
  function CleanUrl(url: string): string {
    RemoveUnsafe(TrimStartBy(url, IsC0OrSpace))
  }

  /** The scheme (lower-cased) and what follows its ":", or no scheme and the whole text. */
  function SchemeSplit(u: string): (string, string) {
    match IndexOf(u, ':')
    case Some(k) => if SchemeBefore(u, k) then (Lower(u[..k]), u[k + 1..]) else ("", u)
    case None => ("", u)
  }

  /** The network location after a leading "//", and what follows it. */
  function NetlocSplit(rest: string): (string, string) {
    if StartsWith(rest, "//") then
      var d := NetlocEnd(rest[2..]);
      (rest[2..][..d], rest[2..][d..])
    else ("", rest)
  }

  /** Fragment after the first "#", then query after the first "?" of what is left. */
  function TailSplit(tail: string): (string, string, string) {
    var (beforeFragment, fragment) := SplitOnce(tail, '#');
    var (path, query) := SplitOnce(beforeFragment, '?');
    (path, query, fragment)
  }

  /** `urlsplit(url)` (fragments allowed). */
  function UrlSplit(url: string): UrlParts {
    var (scheme, rest) := SchemeSplit(CleanUrl(url));
    var (netloc, tail) := NetlocSplit(rest);
    var (path, query, fragment) := TailSplit(tail);
    UrlParts(scheme, netloc, path, query, fragment)
  }

  /** The part of `urlunsplit`'s output between the scheme and the query, as CPython 3.12.4 and
      later write it for a scheme in `uses_netloc` (which holds "http" and "https"). Earlier
      versions write an empty network location differently: `("http", "", "//x", "", "")` gives
      "http://x" and `("http", "", "x", "", "")` gives "http:///x". */
  function Hierarchical(p: UrlParts): string {
    if p.netloc != "" then "//" + p.netloc + (if p.path != "" && p.path[0] != '/' then "/" + p.path else p.path)
    else if StartsWith(p.path, "//") then "//" + p.path
    else if p.scheme != "" && (p.path == "" || p.path[0] == '/') then "//" + p.path
    else p.path
  }

  function SchemePart(scheme: string): string {
    if scheme != "" then scheme + ":" else ""
  }

  function QueryPart(query: string): string {
    if query != "" then "?" + query else ""
  }

  function FragmentPart(fragment: string): string {
    if fragment != "" then "#" + fragment else ""
  }

  /** `urlunsplit(parts)`; every scheme this model passes is in `uses_netloc`. */
  function UrlUnsplit(p: UrlParts): string {
    SchemePart(p.scheme) + Hierarchical(p) + QueryPart(p.query) + FragmentPart(p.fragment)
  }

  /** A valid lower-case scheme. */
  predicate LowerScheme(scheme: string) {
    SchemeBefore(scheme, |scheme|) && forall i :: 0 <= i < |scheme| ==> !('A' <= scheme[i] <= 'Z')
  }

  /** The shape of the parts after the scheme in every `urlsplit` result. */
  predicate RestShaped(p: UrlParts) {
    && (forall i :: 0 <= i < |p.netloc| ==> !IsDelimiter(p.netloc[i]))
    && (forall i :: 0 <= i < |p.path| ==> p.path[i] != '?' && p.path[i] != '#')
    && (forall i :: 0 <= i < |p.query| ==> p.query[i] != '#')
    && (p.netloc != "" ==> p.path == "" || p.path[0] == '/')
    && NoUnsafe(p.netloc) && NoUnsafe(p.path) && NoUnsafe(p.query) && NoUnsafe(p.fragment)
  }

  /** The shape of every `urlsplit` result with a scheme. */
  predicate SplitShaped(p: UrlParts) {
    LowerScheme(p.scheme) && RestShaped(p)
  }

  // ---------------------------------------------------------------------------
  // urlsplit / urlunsplit: round trip
  // ---------------------------------------------------------------------------

  lemma SplitOnceAt(a: string, b: string, sep: char)
    requires forall i :: 0 <= i < |a| ==> a[i] != sep
    ensures SplitOnce(a + [sep] + b, sep) == (a, b)
  {
    var s := a + [sep] + b;
    assert s[|a|] == sep;
    assert IndexOf(s, sep) == Some(|a|);
    assert s[..|a|] == a;
    assert s[|a| + 1..] == b;
  }

  lemma SplitOnceAbsent(a: string, sep: char)
    requires forall i :: 0 <= i < |a| ==> a[i] != sep
    ensures SplitOnce(a, sep) == (a, "")
  {
  }

  lemma TailRoundTrip(path: string, query: string, fragment: string)
    requires forall i :: 0 <= i < |path| ==> path[i] != '?' && path[i] != '#'
    requires forall i :: 0 <= i < |query| ==> query[i] != '#'
    ensures TailSplit(path + QueryPart(query) + FragmentPart(fragment)) == (path, query, fragment)
  {
    PathQueryHasNoHash(path, query);
    FragmentRoundTrip(path + QueryPart(query), fragment);
    QueryRoundTrip(path, query);
  }

  lemma PathQueryHasNoHash(path: string, query: string)
    requires forall i :: 0 <= i < |path| ==> path[i] != '#'
    requires forall i :: 0 <= i < |query| ==> query[i] != '#'
    ensures forall i :: 0 <= i < |path + QueryPart(query)| ==> (path + QueryPart(query))[i] != '#'
  {
    var pq := path + QueryPart(query);
    forall i | 0 <= i < |pq| ensures pq[i] != '#' {
      if i > |path| { assert pq[i] == query[i - |path| - 1]; }
    }
  }

  lemma FragmentRoundTrip(pq: string, fragment: string)
    requires forall i :: 0 <= i < |pq| ==> pq[i] != '#'
    ensures SplitOnce(pq + FragmentPart(fragment), '#') == (pq, fragment)
  {
    if fragment != "" {
      assert pq + FragmentPart(fragment) == pq + ['#'] + fragment;
      SplitOnceAt(pq, fragment, '#');
    } else {
      assert pq + FragmentPart(fragment) == pq;
      SplitOnceAbsent(pq, '#');
    }
  }

  lemma QueryRoundTrip(path: string, query: string)
    requires forall i :: 0 <= i < |path| ==> path[i] != '?'
    ensures SplitOnce(path + QueryPart(query), '?') == (path, query)
  {
    if query != "" {
      assert path + QueryPart(query) == path + ['?'] + query;
      SplitOnceAt(path, query, '?');
    } else {
      assert path + QueryPart(query) == path;
      SplitOnceAbsent(path, '?');
    }
  }

  lemma NetlocRoundTrip(netloc: string, tail: string)
    requires forall i :: 0 <= i < |netloc| ==> !IsDelimiter(netloc[i])
    requires tail == "" || IsDelimiter(tail[0])
    ensures NetlocSplit("//" + netloc + tail) == (netloc, tail)
  {
    var rest := "//" + netloc + tail;
    assert rest[..2] == "//";
    assert rest[2..] == netloc + tail;
    NetlocEndAt(netloc, tail);
    assert (netloc + tail)[..|netloc|] == netloc;
    assert (netloc + tail)[|netloc|..] == tail;
  }

  lemma {:induction false} NetlocEndAt(netloc: string, tail: string)
    requires forall i :: 0 <= i < |netloc| ==> !IsDelimiter(netloc[i])
    requires tail == "" || IsDelimiter(tail[0])
    ensures NetlocEnd(netloc + tail) == |netloc|
  {
    if netloc == [] {
      assert netloc + tail == tail;
    } else {
      assert (netloc + tail)[1..] == netloc[1..] + tail;
      NetlocEndAt(netloc[1..], tail);
    }
  }

  lemma SchemeRoundTrip(scheme: string, rest: string)
    requires LowerScheme(scheme)
    ensures SchemeSplit(scheme + ":" + rest) == (scheme, rest)
  {
    var u := scheme + ":" + rest;
    assert u[|scheme|] == ':';
    assert forall i :: 0 <= i < |scheme| ==> u[i] != ':' by {
      forall i | 0 <= i < |scheme| ensures u[i] != ':' {
        assert u[i] == scheme[i] && IsSchemeChar(scheme[i]);
      }
    }
    assert IndexOf(u, ':') == Some(|scheme|);
    assert u[..|scheme|] == scheme;
    assert u[|scheme| + 1..] == rest;
    assert Lower(scheme) == scheme;
  }

  lemma CleanNoop(url: string)
    requires url != "" && !IsC0OrSpace(url[0]) && NoUnsafe(url)
    ensures CleanUrl(url) == url
  {
  }

  /** `urlunsplit` is undone by `urlsplit` on every shape `urlsplit` produces with a scheme. */
  lemma UnsplitRoundTrip(p: UrlParts)
    requires SplitShaped(p)
    ensures UrlSplit(UrlUnsplit(p)) == p
  {
    var rest := Hierarchical(p) + QueryPart(p.query) + FragmentPart(p.fragment);
    var url := UrlUnsplit(p);
    assert url == p.scheme + ":" + rest;
    UnsplitNoUnsafe(p);
    assert url[0] == p.scheme[0];
    CleanNoop(url);
    SchemeRoundTrip(p.scheme, rest);
    HierarchicalRoundTrip(p);
    TailRoundTrip(p.path, p.query, p.fragment);
    SplitFromParts(url, p.scheme, rest);
  }

  /** `urlsplit` in three stages once the scheme is known. */
  lemma SplitFromParts(url: string, scheme: string, rest: string)
    requires CleanUrl(url) == url && SchemeSplit(url) == (scheme, rest)
    ensures var (netloc, tail) := NetlocSplit(rest);
      var (path, query, fragment) := TailSplit(tail);
      UrlSplit(url) == UrlParts(scheme, netloc, path, query, fragment)
  {
  }

  /** After the scheme, the network location is recovered and the rest is path, query and fragment. */
  lemma HierarchicalRoundTrip(p: UrlParts)
    requires SplitShaped(p)
    ensures NetlocSplit(Hierarchical(p) + QueryPart(p.query) + FragmentPart(p.fragment))
         == (p.netloc, p.path + QueryPart(p.query) + FragmentPart(p.fragment))
  {
    var q, f := QueryPart(p.query), FragmentPart(p.fragment);
    var pqf := p.path + q + f;
    if p.netloc != "" || p.path == "" || p.path[0] == '/' {
      assert Hierarchical(p) == "//" + p.netloc + p.path;
      assert Hierarchical(p) + q + f == "//" + p.netloc + pqf;
      assert pqf == "" || IsDelimiter(pqf[0]);
      NetlocRoundTrip(p.netloc, pqf);
    } else {
      assert Hierarchical(p) == p.path;
      assert pqf[0] == p.path[0];
    }
  }

  lemma UnsplitNoUnsafe(p: UrlParts)
    requires SplitShaped(p)
    ensures NoUnsafe(UrlUnsplit(p))
  {
    assert NoUnsafe(p.scheme) by {
      forall i | 0 <= i < |p.scheme| ensures !IsUnsafeUrlChar(p.scheme[i]) {
        assert IsSchemeChar(p.scheme[i]);
      }
    }
    var parts := [SchemePart(p.scheme), Hierarchical(p), QueryPart(p.query), FragmentPart(p.fragment)];
    forall k | 0 <= k < 4 ensures NoUnsafe(parts[k]) {
    }
    NoUnsafeConcat(parts[0], parts[1]);
    NoUnsafeConcat(parts[0] + parts[1], parts[2]);
    NoUnsafeConcat(parts[0] + parts[1] + parts[2], parts[3]);
  }

  lemma NoUnsafeConcat(a: string, b: string)
    requires NoUnsafe(a) && NoUnsafe(b)
    ensures NoUnsafe(a + b)
  {
    forall i | 0 <= i < |a + b| ensures !IsUnsafeUrlChar((a + b)[i]) {
      if i >= |a| { assert (a + b)[i] == b[i - |a|]; }
    }
  }

  // ---------------------------------------------------------------------------
  // urlsplit: the shape of its results
  // ---------------------------------------------------------------------------

  lemma NoUnsafeSlice(s: string, i: nat, j: nat)
    requires NoUnsafe(s) && i <= j <= |s|
    ensures NoUnsafe(s[i..j])
  {
    forall k | 0 <= k < j - i ensures !IsUnsafeUrlChar(s[i..j][k]) {
      assert s[i..j][k] == s[i + k];
    }
  }

  lemma SplitOnceShape(s: string, sep: char)
    requires NoUnsafe(s)
    ensures var (a, b) := SplitOnce(s, sep);
      && (forall i :: 0 <= i < |a| ==> a[i] != sep)
      && NoUnsafe(a) && NoUnsafe(b)
      && (s != [] && s[0] != sep ==> a != [] && a[0] == s[0])
  {
    match IndexOf(s, sep)
    case Some(k) =>
      NoUnsafeSlice(s, 0, k);
      NoUnsafeSlice(s, k + 1, |s|);
    case None =>
  }

  lemma TailSplitShape(tail: string)
    requires NoUnsafe(tail)
    ensures var (path, query, fragment) := TailSplit(tail);
      && (forall i :: 0 <= i < |path| ==> path[i] != '?' && path[i] != '#')
      && (forall i :: 0 <= i < |query| ==> query[i] != '#')
      && NoUnsafe(path) && NoUnsafe(query) && NoUnsafe(fragment)
      && ((tail == "" || IsDelimiter(tail[0])) ==> path == "" || path[0] == '/')
  {
    var (before, fragment) := SplitOnce(tail, '#');
    SplitOnceShape(tail, '#');
    SplitOnceShape(before, '?');
    var (path, query) := SplitOnce(before, '?');
    assert forall i :: 0 <= i < |path| ==> path[i] in before by {
      if IndexOf(before, '?').Some? {
        forall i | 0 <= i < |path| ensures path[i] in before {
          assert path[i] == before[i];
        }
      }
    }
  }

  lemma NetlocSplitShape(rest: string)
    requires NoUnsafe(rest)
    ensures var (netloc, tail) := NetlocSplit(rest);
      && (forall i :: 0 <= i < |netloc| ==> !IsDelimiter(netloc[i]))
      && NoUnsafe(netloc) && NoUnsafe(tail)
      && (netloc != "" ==> tail == "" || IsDelimiter(tail[0]))
  {
    if StartsWith(rest, "//") {
      var r := rest[2..];
      NoUnsafeSlice(rest, 2, |rest|);
      var d := NetlocEnd(r);
      NoUnsafeSlice(r, 0, d);
      NoUnsafeSlice(r, d, |r|);
    }
  }

  lemma SchemeSplitShape(u: string)
    requires NoUnsafe(u)
    ensures NoUnsafe(SchemeSplit(u).1)
  {
    match IndexOf(u, ':')
    case Some(k) => NoUnsafeSlice(u, k + 1, |u|);
    case None =>
  }

  /** Whatever `urlsplit` returns after the scheme has the shape `urlunsplit` inverts. */
  lemma SplitRestShaped(url: string)
    ensures RestShaped(UrlSplit(url))
  {
    var u := CleanUrl(url);
    SchemeSplitShape(u);
    var (scheme, rest) := SchemeSplit(u);
    NetlocSplitShape(rest);
    var (netloc, tail) := NetlocSplit(rest);
    TailSplitShape(tail);
  }

  // ---------------------------------------------------------------------------
  // http_fallback_url_on_ssl_error
  // ---------------------------------------------------------------------------

  /** The texts that mark an error as an SSL/TLS failure. */
  const SslMarkers: seq<string> := ["record layer failure", "wrong version number", "tlsv1 alert", "ssl"]

  predicate LooksLikeSslError(errorText: string) {
    exists m | m in SslMarkers :: Contains(Lower(errorText), m)
  }

  /** The ValueError `urlsplit` raises for a netloc holding one square bracket but not the other. */
  function UrlSplitError(url: string): Option<string> {
    var netloc := UrlSplit(url).netloc;
    if ('[' in netloc) != (']' in netloc) then Some("Invalid IPv6 URL") else None
  }

  /** `http_fallback_url_on_ssl_error(url, err)`: `downgradeAllowed` is `allow_ssl_downgrade()`
      and `errorText` is `str(err)`. The result is the fallback URL, None when there is none,
      or the error `urlsplit` raises on the way. */
  function HttpFallbackUrl(url: string, errorText: string, downgradeAllowed: bool): (r: Result<Option<string>, string>)
    ensures r.Failure? <==> downgradeAllowed && (('[' in UrlSplit(url).netloc) != (']' in UrlSplit(url).netloc))
    ensures r.Failure? ==> r.error == "Invalid IPv6 URL"
    ensures r.Success? ==> (r.value.Some? <==> downgradeAllowed && UrlSplit(url).scheme == "https" && LooksLikeSslError(errorText))
  {
    if !downgradeAllowed then Success(None)
    else if UrlSplitError(url).Some? then Failure(UrlSplitError(url).value)
    else
      var parts := UrlSplit(url);
      if parts.scheme != "https" then Success(None)
      else if !LooksLikeSslError(errorText) then Success(None)
      else Success(Some(UrlUnsplit(parts.(scheme := "http"))))
  }

  /** The downgraded URL splits exactly as the original does, except for its "http" scheme. */
  lemma FallbackOnlyChangesScheme(url: string, errorText: string, downgradeAllowed: bool)
    requires HttpFallbackUrl(url, errorText, downgradeAllowed).Success?
    requires HttpFallbackUrl(url, errorText, downgradeAllowed).value.Some?
    ensures UrlSplit(HttpFallbackUrl(url, errorText, downgradeAllowed).value.value) == UrlSplit(url).(scheme := "http")
  {
    var parts := UrlSplit(url);
    var p := parts.(scheme := "http");
    SplitRestShaped(url);
    assert RestShaped(p) by { RestShapedIgnoresScheme(parts, "http"); }
    HttpIsLowerScheme();
    UnsplitRoundTrip(p);
  }

  lemma RestShapedIgnoresScheme(p: UrlParts, scheme: string)
    requires RestShaped(p)
    ensures RestShaped(p.(scheme := scheme))
  {
  }

  lemma HttpIsLowerScheme()
    ensures LowerScheme("http")
  {
    assert "http"[0] == 'h';
  }

  // ---------------------------------------------------------------------------
  // Capability discovery and CapsCache
  // ---------------------------------------------------------------------------

  /** `UpstreamCaps`: the upstream's OpenAPI paths, None when they could not be learned. */
  datatype Caps = Caps(paths: Option<set<string>>)

  /** What the body of a 200 answer to the discovery request turned out to be:
      not usable (not JSON, not an object, or a truthy "paths" that is not an
      object), an object whose "paths" is missing or falsy, or the keys of its
      "paths" object. */
  datatype OpenApiDoc = UnusableDoc | NoPaths | PathKeys(keys: set<string>)

  /** The outcome of the discovery GET: it raised, or it answered with a status and a body. */
  datatype DiscoveryReply = DiscoveryFailed | DiscoveryAnswer(status: int, doc: OpenApiDoc)

  /** The discovery GET that `_discover` sends: its URL and its Authorization header, if any. */
  datatype DiscoveryRequest = DiscoveryRequest(url: string, authorization: Option<string>)

  function DiscoveryRequestFor(u: Upstream): (q: DiscoveryRequest)
    ensures q.url == RStripChar(u.baseUrl, '/') + "/openapi.json"
    ensures q.authorization.Some? <==> u.apiKey != ""
    ensures q.authorization.Some? ==> q.authorization.value == "Bearer " + u.apiKey
  {
    OpenApiUrl(u.baseUrl);
    DiscoveryRequest(JoinUpstreamUrl(u.baseUrl, "/openapi.json"),
                     if u.apiKey != "" then Some("Bearer " + u.apiKey) else None)
  }

  /** `_discover(u)` once the GET has produced `reply`. */
  function Discover(reply: DiscoveryReply): (c: Caps)
    ensures c.paths.Some? <==> reply.DiscoveryAnswer? && reply.status == 200 && !reply.doc.UnusableDoc?
    ensures reply == DiscoveryAnswer(200, NoPaths) ==> c.paths == Some({})
    ensures forall keys :: reply == DiscoveryAnswer(200, PathKeys(keys)) ==> c.paths == Some(keys)
  {
    match reply
    case DiscoveryAnswer(200, PathKeys(keys)) => Caps(Some(keys))
    case DiscoveryAnswer(200, NoPaths) => Caps(Some({}))
    case _ => Caps(None)
  }

  const DefaultCapsTtl: real := 60.0

  /** `CapsCache`: entries are keyed by base URL and hold the time they were stored. */
  datatype CapsCache = CapsCache(ttl: real, entries: map<string, (real, Caps)>)

  /** An entry for `key` exists and is younger than the ttl at time `now`. */
  predicate Fresh(cache: CapsCache, key: string, now: real) {
    key in cache.entries && now - cache.entries[key].0 < cache.ttl
  }

  /** The answer of `CapsCache.get`, the cache afterwards, and the discovery request sent, if any. */
  datatype CapsLookup = CapsLookup(caps: Caps, cache: CapsCache, sent: Option<DiscoveryRequest>)

  /** `CapsCache.get(u)` at time `now`; `reply` is what the discovery GET would return. */
  function CapsGet(cache: CapsCache, u: Upstream, now: real, reply: DiscoveryReply): (r: CapsLookup)
    ensures r.cache.ttl == cache.ttl
    ensures r.sent.None? <==> Fresh(cache, u.baseUrl, now)
    ensures r.sent.None? ==> r.caps == cache.entries[u.baseUrl].1 && r.cache == cache
    ensures r.sent.Some? ==> r.sent.value == DiscoveryRequestFor(u) && r.caps == Discover(reply)
    ensures u.baseUrl in r.cache.entries && r.cache.entries[u.baseUrl].1 == r.caps
    ensures r.sent.Some? ==> r.cache.entries[u.baseUrl].0 == now
  {
    if Fresh(cache, u.baseUrl, now) then CapsLookup(cache.entries[u.baseUrl].1, cache, None)
    else
      var caps := Discover(reply);
      CapsLookup(caps, cache.(entries := cache.entries[u.baseUrl := (now, caps)]), Some(DiscoveryRequestFor(u)))
  }

  /** A lookup only ever touches the entry of the upstream's own base URL. */
  lemma CapsGetKeepsOtherEntries(cache: CapsCache, u: Upstream, now: real, reply: DiscoveryReply, key: string)
    requires key != u.baseUrl
    ensures var c := CapsGet(cache, u, now, reply).cache;
      (key in c.entries <==> key in cache.entries)
      && (key in cache.entries ==> c.entries[key] == cache.entries[key])
  {
  }

  /** Once discovered at `now`, caps are served to every upstream with the same base
      URL, whatever its model or key, until the ttl elapses: no further request goes out. */
  lemma SharedBaseUrlSharesCaps(cache: CapsCache, a: Upstream, b: Upstream, now: real, later: real,
                                replyA: DiscoveryReply, replyB: DiscoveryReply)
    requires a.baseUrl == b.baseUrl && !Fresh(cache, a.baseUrl, now) && later < now + cache.ttl
    ensures var first := CapsGet(cache, a, now, replyA);
      var second := CapsGet(first.cache, b, later, replyB);
      first.sent.Some? && second.sent.None? && second.caps == first.caps && second.cache == first.cache
  {
  }

  /** More generally, the answer stays cached for every base-URL sharer while the stored entry is young. */
  lemma CachedWhileYoung(cache: CapsCache, a: Upstream, b: Upstream, now: real, later: real,
                         replyA: DiscoveryReply, replyB: DiscoveryReply)
    requires a.baseUrl == b.baseUrl
    requires later - CapsGet(cache, a, now, replyA).cache.entries[a.baseUrl].0 < cache.ttl
    ensures var first := CapsGet(cache, a, now, replyA);
      var second := CapsGet(first.cache, b, later, replyB);
      second.sent.None? && second.caps == first.caps && second.cache == first.cache
  {
  }

  /** A lookup made when the entry has aged past the ttl always rediscovers. */
  lemma StaleEntryRediscovers(cache: CapsCache, u: Upstream, now: real, reply: DiscoveryReply)
    requires u.baseUrl in cache.entries && now - cache.entries[u.baseUrl].0 >= cache.ttl
    ensures CapsGet(cache, u, now, reply).sent == Some(DiscoveryRequestFor(u))
    ensures CapsGet(cache, u, now, reply).caps == Discover(reply)
  {
  }
}
