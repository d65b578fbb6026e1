/**
 * The two inbound gates of app/middleware.py: the body-size limit and the
 * bearer-token check, each as the decision it takes for one ASGI call.
 *
 * An ASGI scope is its type, path, method and raw header pairs; what the
 * wrapped application does is abstracted to the sequence of messages it pulls
 * through `receive` before it finishes or is interrupted.
 */
module Middleware {
  import opened Wrappers
  import opened Text
  import opened Utf8
  import Settings

  // ---------------------------------------------------------------------------
  // ASGI scopes and headers
  // ---------------------------------------------------------------------------

  /** Raw header pairs as the server delivers them, names and values as bytes. */
  type RawHeaders = seq<(Bytes, Bytes)>

  /** The fields of an ASGI scope the gates read; `path` and `verb` are None when the key is absent. */
  datatype Scope = Scope(kind: string, path: Option<string>, verb: Option<string>, headers: RawHeaders)

  /** The body the gates answer with: an `error` object with a message and a type only. */
  datatype Refusal = Refusal(status: int, message: string, errType: string)

  const PayloadTooLarge := Refusal(413, "Payload Too Large", "request_too_large")
  const Unauthorized := Refusal(401, "Unauthorized", "authentication_error")

  /** `bytes.lower()`: ASCII letters only. */
  function LowerByte(b: byte): byte {
    if 0x41 <= b <= 0x5A then b + 32 else b
  }

  function LowerBytes(s: Bytes): (r: Bytes)
    ensures |r| == |s| && forall i :: 0 <= i < |s| ==> r[i] == LowerByte(s[i])
  {
    seq(|s|, i requires 0 <= i < |s| => LowerByte(s[i]))
  }

  /** The index of the last pair whose lower-cased name is `name`: the one a
      `{k.lower(): v for k, v in headers}` dict keeps. */
  function LastHeader(h: RawHeaders, name: Bytes): (r: Option<nat>)
    ensures r.Some? ==> r.value < |h| && LowerBytes(h[r.value].0) == name
    ensures r.Some? ==> forall j :: r.value < j < |h| ==> LowerBytes(h[j].0) != name
    ensures r.None? ==> forall j :: 0 <= j < |h| ==> LowerBytes(h[j].0) != name
  {
    if |h| == 0 then None
    else if LowerBytes(h[|h| - 1].0) == name then Some(|h| - 1)
    else LastHeader(h[..|h| - 1], name)
  }

  /** `headers.get(name)` of that dict. */
  function HeaderValue(h: RawHeaders, name: Bytes): Option<Bytes> {
    match LastHeader(h, name)
    case None => None
    case Some(i) => Some(h[i].1)
  }

  /** The characters of a byte string read one byte per character, as `int(bytes)` reads them. */
  function ByteChars(b: Bytes): (s: string)
    ensures |s| == |b| && forall i :: 0 <= i < |b| ==> s[i] as int == b[i]
  {
    seq(|b|, i requires 0 <= i < |b| => b[i] as char)
  }

  lemma ByteCharsLatin1(s: string)
    requires forall i :: 0 <= i < |s| ==> s[i] as int < 256
    ensures ByteChars(Latin1(s)) == s
  {
  }

  const ContentLengthName: Bytes := [0x63, 0x6F, 0x6E, 0x74, 0x65, 0x6E, 0x74, 0x2D, 0x6C, 0x65, 0x6E, 0x67, 0x74, 0x68]
  const AuthorizationName: Bytes := [0x61, 0x75, 0x74, 0x68, 0x6F, 0x72, 0x69, 0x7A, 0x61, 0x74, 0x69, 0x6F, 0x6E]

  lemma HeaderNames()
    ensures ContentLengthName == Latin1("content-length")
    ensures AuthorizationName == Latin1("authorization")
  {
  }

  // ---------------------------------------------------------------------------
  // BodySizeLimitMiddleware
  // ---------------------------------------------------------------------------

  /** `max_bytes`: `_get_int("PROXY_MAX_BODY_BYTES", 100 MiB)` read when the middleware is built. */
  function MaxBytes(raw: Option<string>): int {
    Settings.MaxBodyBytes(raw)
  }

  /** The declared Content-Length, when the header is present and `int()` accepts it. */
  function DeclaredLength(h: RawHeaders): Option<int> {
    match HeaderValue(h, ContentLengthName)
    case None => None
    case Some(v) => ParseIntBytes(ByteChars(v))
  }

  /** The early reject: a parsable declared length above the maximum. */
  predicate DeclaredTooLarge(h: RawHeaders, maxBytes: int) {
    DeclaredLength(h).Some? && DeclaredLength(h).value > maxBytes
  }

  /** One message `receive()` returns: its type and its "body" (None when absent or None). */
  datatype Message = Message(kind: string, body: Option<Bytes>)

  /** The bytes a message adds to the running count. */
  function BodyLen(m: Message): nat {
    if m.kind == "http.request" then |m.body.GetOr([])| else 0
  }

  /** The running count after the messages `ms`. */
  function Received(ms: seq<Message>): nat {
    if |ms| == 0 then 0 else Received(ms[..|ms| - 1]) + BodyLen(ms[|ms| - 1])
  }

  /** `limited_receive` raises on message `j`: a request message after which the count is over the maximum. */
  predicate ExceedsAt(ms: seq<Message>, maxBytes: int, j: nat)
    requires j < |ms|
  {
    ms[j].kind == "http.request" && Received(ms[..j + 1]) > maxBytes
  }

  /** The first message at or after `from` on which `limited_receive` raises. */
  function FirstExcess(ms: seq<Message>, maxBytes: int, from: nat): (j: Option<nat>)
    requires from <= |ms|
    ensures j.Some? ==> from <= j.value < |ms| && ExceedsAt(ms, maxBytes, j.value)
    ensures j.Some? ==> forall k :: from <= k < j.value ==> !ExceedsAt(ms, maxBytes, k)
    ensures j.None? ==> forall k :: from <= k < |ms| ==> !ExceedsAt(ms, maxBytes, k)
    decreases |ms| - from
  {
    if from == |ms| then None
    else if ExceedsAt(ms, maxBytes, from) then Some(from)
    else FirstExcess(ms, maxBytes, from + 1)
  }

  /** `limited_receive` over the messages the application pulls: the index of the
      message on which it raises, if any, and the count it reached by then. */
  method LimitedReceive(pulled: seq<Message>, maxBytes: int) returns (abortAt: Option<nat>, seen: nat)
    ensures abortAt == FirstExcess(pulled, maxBytes, 0)
    ensures abortAt.None? ==> seen == Received(pulled)
    ensures abortAt.Some? ==> seen == Received(pulled[..abortAt.value + 1]) && seen > maxBytes
  {
    seen := 0;
    var i := 0;
    while i < |pulled|
      invariant 0 <= i <= |pulled|
      invariant seen == Received(pulled[..i])
      invariant FirstExcess(pulled, maxBytes, 0) == FirstExcess(pulled, maxBytes, i)
    {
      assert pulled[..i + 1][..i] == pulled[..i];
      var msg := pulled[i];
      if msg.kind == "http.request" {
        var body := msg.body.GetOr([]);
        seen := seen + |body|;
        if seen > maxBytes {
          assert ExceedsAt(pulled, maxBytes, i);
          return Some(i), seen;
        }
      }
      assert !ExceedsAt(pulled, maxBytes, i);
      i := i + 1;
    }
    assert pulled[..i] == pulled;
    return None, seen;
  }

  /** What one call of the middleware amounts to: the application runs with the raw
      `receive` (non-HTTP scopes), the request is refused before the application runs,
      the application finishes, or it is interrupted at message `at` and 413 is sent. */
  datatype SizeVerdict = Unlimited | RejectedEarly | Completed | Aborted(at: nat)

  /** `BodySizeLimitMiddleware.__call__`; `pulled` are the messages the application pulls. */
  method BodySizeLimit(scope: Scope, maxBytes: int, pulled: seq<Message>) returns (v: SizeVerdict)
    ensures v.Unlimited? <==> scope.kind != "http"
    ensures v.RejectedEarly? <==> scope.kind == "http" && DeclaredTooLarge(scope.headers, maxBytes)
    ensures v.Completed? <==> scope.kind == "http" && !DeclaredTooLarge(scope.headers, maxBytes) && FirstExcess(pulled, maxBytes, 0).None?
    ensures v.Aborted? ==> FirstExcess(pulled, maxBytes, 0) == Some(v.at)
  {
    if scope.kind != "http" {
      return Unlimited;
    }
    var declared := DeclaredLength(scope.headers);
    if declared.Some? && declared.value > maxBytes {
      return RejectedEarly;
    }
    var abortAt, _ := LimitedReceive(pulled, maxBytes);
    if abortAt.Some? {
      return Aborted(abortAt.value);
    }
    return Completed;
  }

  /** The response the middleware itself sends, if any. */
  function SizeRefusal(v: SizeVerdict): (r: Option<Refusal>)
    ensures r.Some? <==> v.RejectedEarly? || v.Aborted?
    ensures r.Some? ==> r.value == PayloadTooLarge
  {
    if v.RejectedEarly? || v.Aborted? then Some(PayloadTooLarge) else None
  }

  lemma {:induction false} ReceivedMonotone(ms: seq<Message>, n: nat)
    requires n <= |ms|
    ensures Received(ms[..n]) <= Received(ms)
    decreases |ms| - n
  {
    if n < |ms| {
      ReceivedMonotone(ms[..|ms| - 1], n);
      assert ms[..|ms| - 1][..n] == ms[..n];
    } else {
      assert ms[..n] == ms;
    }
  }

  lemma {:induction false} ExcessExists(ms: seq<Message>, maxBytes: int)
    requires 0 <= maxBytes < Received(ms)
    ensures exists j :: 0 <= j < |ms| && ExceedsAt(ms, maxBytes, j)
  {
    var n := |ms| - 1;
    var pre := ms[..n];
    if Received(pre) > maxBytes {
      ExcessExists(pre, maxBytes);
      var j :| 0 <= j < |pre| && ExceedsAt(pre, maxBytes, j);
      assert pre[..j + 1] == ms[..j + 1];
      assert ExceedsAt(ms, maxBytes, j);
    } else {
      assert ms[..n + 1] == ms;
      assert ExceedsAt(ms, maxBytes, n);
    }
  }

  /** With a non-negative maximum, the streamed check interrupts the application exactly
      when the messages it pulls carry more than `maxBytes` body bytes in total. */
  lemma StreamLimitIsTotal(ms: seq<Message>, maxBytes: int)
    requires maxBytes >= 0
    ensures FirstExcess(ms, maxBytes, 0).Some? <==> Received(ms) > maxBytes
  {
    if Received(ms) > maxBytes {
      ExcessExists(ms, maxBytes);
    }
    match FirstExcess(ms, maxBytes, 0)
    case None =>
    case Some(j) => ReceivedMonotone(ms, j + 1);
  }

  /** A client that declares its true length as `str(n)` is never refused up front for it
      when `n` fits, and always is when it does not. */
  lemma DeclaredLengthRoundTrip(n: int, maxBytes: int)
    requires |NatToString(if n < 0 then -n else n)| <= MaxStrDigits
    ensures var h := [(Latin1("Content-Length"), Latin1(IntToString(n)))];
      DeclaredLength(h) == Some(n) && (DeclaredTooLarge(h, maxBytes) <==> n > maxBytes)
  {
    var s := IntToString(n);
    var h := [(Latin1("Content-Length"), Latin1(s))];
    IntToStringAscii(n);
    assert LowerBytes(h[0].0) == ContentLengthName;
    ByteCharsLatin1(s);
    IntRoundTrip(n);
  }

  lemma IntToStringAscii(n: int)
    ensures forall i :: 0 <= i < |IntToString(n)| ==> IntToString(n)[i] as int < 128
  {
    var d := NatToString(if n < 0 then -n else n);
    assert forall i :: 0 <= i < |d| ==> IsDigit(d[i]);
  }

  // ---------------------------------------------------------------------------
  // BearerAuthMiddleware
  // ---------------------------------------------------------------------------

  /** The default `exempt_paths`. */
  const DefaultExempt: set<string> := {"/docs", "/openapi.json", "/health"}

  /** The paths the application registers the middleware with (app/main.py). */
  const AppExempt: set<string> := {"/docs", "/openapi.json", "/health", "/v1/models"}

  /** `os.getenv("PROXY_BEARER_TOKEN", "").strip()`. */
  function BearerToken(raw: Option<string>): string {
    Strip(raw.GetOr(""))
  }

  /** `(headers.get(b"authorization") or b"").decode("utf-8", "ignore")`. */
  function AuthHeaderText(h: RawHeaders): string {
    DecodeIgnore(HeaderValue(h, AuthorizationName).GetOr([]))
  }

  /** `auth.split(" ", 1)[1]`: what follows the first space. */
  function AfterFirstSpace(auth: string): (r: string)
    requires StartsWith(auth, "Bearer ")
    ensures r == auth[7..]
  {
    var i := IndexOf(auth, ' ');
    assert auth[6] == ' ';
    auth[i.value + 1..]
  }

  /** `ok`: the header uses the Bearer scheme and its credential, stripped, is the token. */
  predicate Authorized(auth: string, token: string) {
    StartsWith(auth, "Bearer ") && Strip(AfterFirstSpace(auth)) == token
  }

  /** Whether the middleware lets the call through or answers it itself. */
  datatype Gate = Pass | Refuse(refusal: Refusal)

  /** `BearerAuthMiddleware.__call__`. */
  function BearerAuth(scope: Scope, token: string, exempt: set<string>): (g: Gate)
    ensures g.Refuse? ==> g.refusal == Unauthorized
    ensures scope.kind != "http" ==> g == Pass
    ensures (scope.path.GetOr("") in exempt || StartsWith(scope.path.GetOr(""), "/docs/")) ==> g == Pass
    ensures token == "" ==> g == Pass
    ensures scope.verb == Some("OPTIONS") ==> g == Pass
    ensures scope.kind == "http" && scope.path.GetOr("") !in exempt && !StartsWith(scope.path.GetOr(""), "/docs/") && token != "" ==>
      (g == Pass <==> Authorized(AuthHeaderText(scope.headers), token) || scope.verb == Some("OPTIONS"))
  {
    if scope.kind != "http" then Pass
    else
      var path := scope.path.GetOr("");
      if path in exempt || StartsWith(path, "/docs/") then Pass
      else if token == "" then Pass
      else
        var auth := AuthHeaderText(scope.headers);
        var ok := StartsWith(auth, "Bearer ") && Strip(AfterFirstSpace(auth)) == token;
        if !ok && scope.verb == Some("OPTIONS") then Pass
        else if !ok then Refuse(Unauthorized)
        else Pass
  }

  predicate AllSpace(s: string) {
    forall i :: 0 <= i < |s| ==> IsSpace(s[i])
  }

  /** A token stored from the environment is stripped, so it has no whitespace at either end. */
  predicate StrippedToken(token: string) {
    |token| > 0 && !IsSpace(token[0]) && !IsSpace(token[|token| - 1])
  }

  lemma PaddedStrips(pre: string, r: string, post: string)
    requires AllSpace(pre) && AllSpace(post) && StrippedToken(r)
    ensures Strip(pre + r + post) == r
  {
    assert pre + r + post == pre + (r + post);
    Settings.TrimStartPadded(r + post, pre);
    assert TrimStartBy(r + post, IsSpace) == r + post;
    Settings.TrimEndPadded(r, post);
  }

  /** The check in its own terms: a header is accepted for a (stripped, non-empty) token
      exactly when it reads "Bearer ", whitespace, the token, whitespace. */
  lemma AuthorizedIff(auth: string, token: string)
    requires StrippedToken(token)
    ensures Authorized(auth, token) <==>
      exists pre, post :: AllSpace(pre) && AllSpace(post) && auth == "Bearer " + pre + token + post
  {
    if Authorized(auth, token) {
      AuthorizedIsPadded(auth, token);
    }
    if exists pre, post :: AllSpace(pre) && AllSpace(post) && auth == "Bearer " + pre + token + post {
      var pre, post :| AllSpace(pre) && AllSpace(post) && auth == "Bearer " + pre + token + post;
      PaddedIsAuthorized(pre, token, post);
    }
  }

  lemma AuthorizedIsPadded(auth: string, token: string)
    requires Authorized(auth, token)
    ensures exists pre, post :: AllSpace(pre) && AllSpace(post) && auth == "Bearer " + pre + token + post
  {
    var s := auth[7..];
    assert Strip(s) == token;
    StripDecomposes(s);
    var pre, post :| AllSpace(pre) && AllSpace(post) && s == pre + token + post;
    BearerSplit(auth);
    assert auth == "Bearer " + pre + token + post;
  }

  /** Stripping removes whitespace and nothing else, from both ends. */
  lemma StripDecomposes(s: string)
    ensures exists pre, post :: AllSpace(pre) && AllSpace(post) && s == pre + Strip(s) + post
  {
    var r := Strip(s);
    StripIsMaximalInfix(s);
    var k :| StrippedAt(s, r, k);
    MarginsAreSpace(s, r, k);
    assert s == s[..k] + r + s[k + |r|..];
  }


  lemma BearerSplit(auth: string)
    requires StartsWith(auth, "Bearer ")
    ensures auth == "Bearer " + auth[7..]
  {
    assert auth == auth[..7] + auth[7..];
  }

  lemma MarginsAreSpace(s: string, r: string, k: int)
    requires StrippedAt(s, r, k)
    ensures AllSpace(s[..k]) && AllSpace(s[k + |r|..])
  {
    forall i | 0 <= i < k ensures IsSpace(s[..k][i]) {
      assert s[..k][i] == s[i];
    }
    var post := s[k + |r|..];
    forall i | 0 <= i < |post| ensures IsSpace(post[i]) {
      assert post[i] == s[k + |r| + i];
    }
  }

  lemma PaddedIsAuthorized(pre: string, token: string, post: string)
    requires AllSpace(pre) && AllSpace(post) && StrippedToken(token)
    ensures Authorized("Bearer " + pre + token + post, token)
  {
    var auth := "Bearer " + pre + token + post;
    assert StartsWith(auth, "Bearer ");
    assert auth[7..] == pre + token + post;
    PaddedStrips(pre, token, post);
  }


  /** A client that sends `Authorization: Bearer <token>` (any letter case in the header
      name) passes, provided the token is plain ASCII. */
  lemma ClientTokenAccepted(scope: Scope, token: string, name: Bytes)
    requires StrippedToken(token) && forall i :: 0 <= i < |token| ==> token[i] as int < 0x80
    requires LowerBytes(name) == AuthorizationName
    requires scope.headers == [(name, Latin1("Bearer " + token))]
    ensures Authorized(AuthHeaderText(scope.headers), token)
    ensures BearerAuth(scope, token, DefaultExempt) == Pass
  {
    SentHeaderRead(scope.headers, name, "Bearer " + token);
    BearerTokenAuthorizes(token);
  }

  /** A lone ASCII header under the authorization name (any case) is read back as sent. */
  lemma SentHeaderRead(h: RawHeaders, name: Bytes, text: string)
    requires forall i :: 0 <= i < |text| ==> text[i] as int < 0x80
    requires LowerBytes(name) == AuthorizationName && h == [(name, Latin1(text))]
    ensures AuthHeaderText(h) == text
  {
    assert HeaderValue(h, AuthorizationName) == Some(Latin1(text));
    DecodeAscii(Latin1(text));
  }

  lemma BearerTokenAuthorizes(token: string)
    requires StrippedToken(token)
    ensures Authorized("Bearer " + token, token)
  {
    PaddedStrips("", token, "");
    assert "" + token + "" == token;
    assert ("Bearer " + token)[7..] == token;
  }

  /** The scheme word is matched case-sensitively: any other six-letter spelling of it
      ("bearer", "BEARER", ...) is refused on a guarded request, whatever follows it. */
  lemma SchemeWordIsCaseSensitive(scope: Scope, token: string, word: string, rest: string)
    requires token != "" && scope.kind == "http" && scope.verb != Some("OPTIONS")
    requires scope.path.GetOr("") !in AppExempt && !StartsWith(scope.path.GetOr(""), "/docs/")
    requires |word| == 6 && word != "Bearer"
    requires AuthHeaderText(scope.headers) == word + " " + rest
    ensures BearerAuth(scope, token, AppExempt) == Refuse(Unauthorized)
  {
    var auth := word + " " + rest;
    assert auth[..7] == word + " ";
    assert (word + " ")[..6] == word;
    assert "Bearer "[..6] == "Bearer";
    assert !StartsWith(auth, "Bearer ");
  }

  // ---------------------------------------------------------------------------
  // The stack
  // ---------------------------------------------------------------------------

  /** What the client gets from the inbound gates, and whether the application ran. */
  datatype Inbound = Inbound(refusal: Option<Refusal>, appInvoked: bool)

  /** The gates as the application stacks them: the bearer check outermost, the body
      limit inside it (the rate limiter between them is not part of this model). */
  method Gates(scope: Scope, token: string, maxBytes: int, pulled: seq<Message>) returns (o: Inbound)
    ensures BearerAuth(scope, token, AppExempt).Refuse? ==> o == Inbound(Some(Unauthorized), false)
    ensures BearerAuth(scope, token, AppExempt) == Pass && scope.kind == "http" && DeclaredTooLarge(scope.headers, maxBytes) ==>
      o == Inbound(Some(PayloadTooLarge), false)
    ensures o.refusal.None? ==> o.appInvoked
    ensures o.refusal.Some? ==> o.refusal.value == Unauthorized || o.refusal.value == PayloadTooLarge
    ensures o.refusal == Some(Unauthorized) <==> BearerAuth(scope, token, AppExempt).Refuse?
    ensures o.appInvoked <==>
      BearerAuth(scope, token, AppExempt) == Pass && !(scope.kind == "http" && DeclaredTooLarge(scope.headers, maxBytes))
    ensures o.appInvoked && o.refusal.Some? <==>
      BearerAuth(scope, token, AppExempt) == Pass && scope.kind == "http" && !DeclaredTooLarge(scope.headers, maxBytes) &&
      FirstExcess(pulled, maxBytes, 0).Some?
  {
    var g := BearerAuth(scope, token, AppExempt);
    if g.Refuse? {
      return Inbound(Some(g.refusal), false);
    }
    var v := BodySizeLimit(scope, maxBytes, pulled);
    o := Inbound(SizeRefusal(v), !v.RejectedEarly?);
  }
}
