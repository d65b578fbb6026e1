/**
 * Finding the model of a request (app/shiff.py): from the `model` query
 * parameter, or by scanning a bounded prefix of the body with one of two
 * regular expressions, while every chunk read is kept so that the body can be
 * replayed to the upstream unchanged.
 *
 * The request arrives as the sequence of chunks `request.stream()` yields.
 * Content types are compared after an ASCII lower-casing: every needle is
 * ASCII and a header value is Latin-1 text, in which no non-ASCII character
 * lower-cases to an ASCII one.
 */
module Sniff {
  import opened Wrappers
  import opened Text
  import opened Utf8

  // ---------------------------------------------------------------------------
  // The two patterns
  // ---------------------------------------------------------------------------

  /** The bytes of `"model"`. */
  const JsonKey: Bytes := [0x22, 0x6D, 0x6F, 0x64, 0x65, 0x6C, 0x22]

  /** The bytes of `name="model"\r\n\r\n`. */
  const MultipartKey: Bytes := [0x6E, 0x61, 0x6D, 0x65, 0x3D, 0x22, 0x6D, 0x6F, 0x64, 0x65, 0x6C, 0x22, 0x0D, 0x0A, 0x0D, 0x0A]

  const Quote: byte := 0x22
  const Backslash: byte := 0x5C
  const Colon: byte := 0x3A

  /** `\s` in a bytes pattern: space, tab, LF, VT, FF and CR. */
  predicate IsRegexSpace(b: byte) {
    b == 0x20 || 0x09 <= b <= 0x0D
  }

  /** `[^"\\]`. */
  predicate IsValueByte(b: byte) {
    b != Quote && b != Backslash
  }

  /** `[^\r\n]`. */
  predicate IsLineByte(b: byte) {
    b != 0x0D && b != 0x0A
  }

  /** The two regular expressions of the module. */
  datatype Pattern = JsonModel | MultipartModel

  /** Whether `b` may be repeated by the run `[...]*` or `[...]+` of the pattern: `\s` for
      `Spaces`, the group's class otherwise. */
  datatype RunClass = Spaces | GroupOf(p: Pattern)

  predicate InClass(k: RunClass, b: byte) {
    match k
    case Spaces => IsRegexSpace(b)
    case GroupOf(JsonModel) => IsValueByte(b)
    case GroupOf(MultipartModel) => IsLineByte(b)
  }

  /** Length of the longest run of class `k` starting at `s[i]`: what a greedy repetition takes. */
  function Run(k: RunClass, s: Bytes, i: nat): (n: nat)
    requires i <= |s|
    ensures i + n <= |s|
    ensures forall j :: i <= j < i + n ==> InClass(k, s[j])
    ensures i + n == |s| || !InClass(k, s[i + n])
    decreases |s| - i
  {
    if i < |s| && InClass(k, s[i]) then 1 + Run(k, s, i + 1) else 0
  }

  /** The group the pattern captures when matched at `s[i]`, or None when it does not match there.
      Each repetition is followed by a byte outside its class (":", "\"", or nothing), so the
      greedy run is the only length that can lead to a match. */
  function MatchAt(p: Pattern, s: Bytes, i: nat): Option<Bytes>
    requires i <= |s|
  {
    match p
    case JsonModel =>
      if !OccursAt(s, JsonKey, i) then None else JsonAfterKey(s, i + 7)
    case MultipartModel =>
      if !OccursAt(s, MultipartKey, i) then None
      else
        var n := Run(GroupOf(MultipartModel), s, i + 16);
        if n == 0 then None else Some(s[i + 16..i + 16 + n])
  }

  /** `\s*:` then the rest of the JSON pattern, from just after `"model"`. */
  function JsonAfterKey(s: Bytes, a: nat): Option<Bytes>
    requires a <= |s|
  {
    var colon := a + Run(Spaces, s, a);
    if colon == |s| || s[colon] != Colon then None else JsonValue(s, colon + 1)
  }

  /** `\s*"([^"\\]+)"`, from just after the colon. */
  function JsonValue(s: Bytes, b: nat): Option<Bytes>
    requires b <= |s|
  {
    var open := b + Run(Spaces, s, b);
    if open == |s| || s[open] != Quote then None
    else
      var n := Run(GroupOf(JsonModel), s, open + 1);
      if n == 0 || open + 1 + n == |s| || s[open + 1 + n] != Quote then None
      else Some(s[open + 1..open + 1 + n])
  }

  /** A match of the pattern: where it starts and the captured group. */
  datatype Match = Match(start: nat, group: Bytes)

  /** The pattern matches at no position in `[lo, hi)`. */
  predicate NoMatchBetween(p: Pattern, s: Bytes, lo: nat, hi: nat)
    requires hi <= |s| + 1
  {
    forall k :: lo <= k < hi ==> MatchAt(p, s, k).None?
  }

  /** `pattern.search(s[from:])` positions: the leftmost start at or after `from` where the pattern matches. */
  function Search(p: Pattern, s: Bytes, from: nat): (m: Option<Match>)
    requires from <= |s|
    ensures m.Some? ==> from <= m.value.start <= |s| && MatchAt(p, s, m.value.start) == Some(m.value.group)
    ensures m.Some? ==> NoMatchBetween(p, s, from, m.value.start)
    ensures m.None? ==> NoMatchBetween(p, s, from, |s| + 1)
    decreases |s| - from
  {
    var here := MatchAt(p, s, from);
    if here.Some? then Some(Match(from, here.value))
    else if from == |s| then None
    else Search(p, s, from + 1)
  }

  // ---------------------------------------------------------------------------
  // The patterns as languages
  // ---------------------------------------------------------------------------

  predicate AllIn(k: RunClass, s: Bytes, lo: int, hi: int)
    requires 0 <= lo <= hi <= |s|
  {
    forall j :: lo <= j < hi ==> InClass(k, s[j])
  }

  /** `s[i..]` begins with a text the JSON pattern accepts:
      `"model"`, `w1` spaces, ":", `w2` spaces, "\"", the group `g`, "\"". */
  predicate JsonLayout(s: Bytes, i: nat, w1: nat, w2: nat, g: Bytes) {
    OccursAt(s, JsonKey, i) && AfterKeyLayout(s, i + 7, w1, w2, g)
  }

  /** `w1` spaces, ":", then `ValueLayout`, from `s[a]`. */
  predicate AfterKeyLayout(s: Bytes, a: nat, w1: nat, w2: nat, g: Bytes) {
    && a + w1 < |s|
    && AllIn(Spaces, s, a, a + w1) && s[a + w1] == Colon
    && ValueLayout(s, a + w1 + 1, w2, g)
  }

  /** `w2` spaces, "\"", the non-empty group `g` of value bytes, "\"", from `s[b]`. */
  predicate ValueLayout(s: Bytes, b: nat, w2: nat, g: Bytes) {
    var open := b + w2;
    && open + 1 + |g| < |s|
    && AllIn(Spaces, s, b, open) && s[open] == Quote
    && |g| > 0 && s[open + 1..open + 1 + |g|] == g && (forall j :: 0 <= j < |g| ==> IsValueByte(g[j]))
    && s[open + 1 + |g|] == Quote
  }

  /** `s[i..]` begins with a text the multipart pattern accepts: the key, then the group `g`,
      which runs to the end of the line (a greedy `+` takes all it can). */
  predicate MultipartLayout(s: Bytes, i: nat, g: Bytes) {
    var start := i + 16;
    && start + |g| <= |s|
    && OccursAt(s, MultipartKey, i)
    && |g| > 0 && s[start..start + |g|] == g && (forall j :: 0 <= j < |g| ==> IsLineByte(g[j]))
    && (start + |g| == |s| || !IsLineByte(s[start + |g|]))
  }

  /** Where the maximal run of class `k` starts at `lo`, any run of that class followed by a byte
      outside it has the same length. */
  lemma RunIsUnique(k: RunClass, s: Bytes, lo: nat, hi: nat)
    requires lo <= hi <= |s| && AllIn(k, s, lo, hi) && (hi == |s| || !InClass(k, s[hi]))
    ensures Run(k, s, lo) == hi - lo
  {
  }

  /** The JSON matcher accepts exactly the JSON layouts, with their group. */
  lemma JsonMatchIsLayout(s: Bytes, i: nat, w1: nat, w2: nat, g: Bytes)
    requires i <= |s|
    ensures JsonLayout(s, i, w1, w2, g) ==> MatchAt(JsonModel, s, i) == Some(g)
  {
    if JsonLayout(s, i, w1, w2, g) {
      AfterKeyMatches(s, i + 7, w1, w2, g);
    }
  }

  lemma AfterKeyMatches(s: Bytes, a: nat, w1: nat, w2: nat, g: Bytes)
    requires a <= |s| && AfterKeyLayout(s, a, w1, w2, g)
    ensures JsonAfterKey(s, a) == Some(g)
  {
    RunIsUnique(Spaces, s, a, a + w1);
    ValueMatches(s, a + w1 + 1, w2, g);
  }

  lemma ValueMatches(s: Bytes, b: nat, w2: nat, g: Bytes)
    requires b <= |s| && ValueLayout(s, b, w2, g)
    ensures JsonValue(s, b) == Some(g)
  {
    var open := b + w2;
    RunIsUnique(Spaces, s, b, open);
    SliceAllIn(GroupOf(JsonModel), s, open + 1, g);
    RunIsUnique(GroupOf(JsonModel), s, open + 1, open + 1 + |g|);
  }

  lemma SliceAllIn(k: RunClass, s: Bytes, lo: nat, g: Bytes)
    requires lo + |g| <= |s| && s[lo..lo + |g|] == g && forall j :: 0 <= j < |g| ==> InClass(k, g[j])
    ensures AllIn(k, s, lo, lo + |g|)
  {
    forall j | lo <= j < lo + |g| ensures InClass(k, s[j]) {
      assert s[j] == g[j - lo];
    }
  }

  /** A JSON match has the layout of the pattern. */
  lemma JsonMatchHasLayout(s: Bytes, i: nat)
    requires i <= |s| && MatchAt(JsonModel, s, i).Some?
    ensures exists w1, w2 :: JsonLayout(s, i, w1, w2, MatchAt(JsonModel, s, i).value)
  {
    var g := MatchAt(JsonModel, s, i).value;
    assert JsonAfterKey(s, i + 7) == Some(g);
    var w1, w2 := AfterKeyHasLayout(s, i + 7);
    assert JsonLayout(s, i, w1, w2, g);
  }

  lemma AfterKeyHasLayout(s: Bytes, a: nat) returns (w1: nat, w2: nat)
    requires a <= |s| && JsonAfterKey(s, a).Some?
    ensures AfterKeyLayout(s, a, w1, w2, JsonAfterKey(s, a).value)
  {
    w1 := Run(Spaces, s, a);
    w2 := ValueHasLayout(s, a + w1 + 1);
  }

  lemma ValueHasLayout(s: Bytes, b: nat) returns (w2: nat)
    requires b <= |s| && JsonValue(s, b).Some?
    ensures ValueLayout(s, b, w2, JsonValue(s, b).value)
  {
    w2 := Run(Spaces, s, b);
    var open := b + w2;
    var g := JsonValue(s, b).value;
    assert forall j :: 0 <= j < |g| ==> g[j] == s[open + 1 + j];
  }

  /** The multipart matcher accepts exactly the multipart layouts, with their group. */
  lemma MultipartMatchIsLayout(s: Bytes, i: nat, g: Bytes)
    requires i <= |s|
    ensures MultipartLayout(s, i, g) <==> MatchAt(MultipartModel, s, i) == Some(g)
  {
    if MultipartLayout(s, i, g) {
      assert forall j :: i + 16 <= j < i + 16 + |g| ==> s[j] == g[j - i - 16];
      RunIsUnique(GroupOf(MultipartModel), s, i + 16, i + 16 + |g|);
    }
    if MatchAt(MultipartModel, s, i) == Some(g) {
      assert forall j :: 0 <= j < |g| ==> g[j] == s[i + 16 + j];
    }
  }

  // ---------------------------------------------------------------------------
  // _extract_model_from_prefix
  // ---------------------------------------------------------------------------

  /** Which pattern a lower-cased content type selects. */
  function PatternFor(contentType: string): (p: Pattern)
    ensures p == MultipartModel <==>
      !Contains(contentType, "application/json") && !EndsWith(contentType, "+json")
      && Contains(contentType, "multipart/form-data")
  {
    if Contains(contentType, "application/json") || EndsWith(contentType, "+json") then JsonModel
    else if Contains(contentType, "multipart/form-data") then MultipartModel
    else JsonModel
  }

  /** `_extract_model_from_prefix(prefix, content_type)`, the content type already lower-cased. */
  function ExtractModel(prefix: Bytes, contentType: string): Option<string> {
    var p := PatternFor(contentType);
    match Search(p, prefix, 0)
    case None => None
    case Some(m) =>
      if p == MultipartModel then Some(Strip(DecodeIgnore(m.group))) else Some(DecodeIgnore(m.group))
  }

  /** A model read with the JSON pattern contains neither a double quote nor a backslash. */
  lemma JsonModelHasNoQuotes(prefix: Bytes, contentType: string)
    requires PatternFor(contentType) == JsonModel && ExtractModel(prefix, contentType).Some?
    ensures '"' !in ExtractModel(prefix, contentType).value
    ensures '\\' !in ExtractModel(prefix, contentType).value
  {
    var m := Search(JsonModel, prefix, 0).value;
    JsonMatchHasLayout(prefix, m.start);
    var g := m.group;
    assert forall j :: 0 <= j < |g| ==> IsValueByte(g[j]);
    if '"' in DecodeIgnore(g) {
      DecodedAsciiComesFromInput(g, '"');
    }
    if '\\' in DecodeIgnore(g) {
      DecodedAsciiComesFromInput(g, '\\');
    }
  }

  /** A JSON content type wins over a multipart one; every other type is read as JSON. */
  lemma ContentTypeDispatch(prefix: Bytes, contentType: string)
    ensures !Contains(contentType, "multipart/form-data") ==>
      ExtractModel(prefix, contentType) == ExtractModel(prefix, "application/json")
    ensures Contains(contentType, "application/json") || EndsWith(contentType, "+json") ==>
      ExtractModel(prefix, contentType) == ExtractModel(prefix, "application/json")
  {
    assert OccursAt("application/json", "application/json", 0);
  }

  // ---------------------------------------------------------------------------
  // sniff_model_and_stream
  // ---------------------------------------------------------------------------

  /** The text of the ValueError raised when no model is found. */
  const ModelNotFound: string := "Model is not found in request body (sniff limit exceeded or missing)."

  /** The model found and the chunks the upstream will receive. */
  datatype Sniffed = Sniffed(model: string, body: seq<Bytes>)

  /** Python truthiness of an optional string. */
  predicate Truthy(s: Option<string>) {
    s.Some? && s.value != ""
  }

  /** The concatenation of a chunk sequence. */
  function Flatten(chunks: seq<Bytes>): Bytes {
    if |chunks| == 0 then [] else chunks[0] + Flatten(chunks[1..])
  }

  /** The non-empty chunks, in order: the chunks `sniff_model_and_stream` keeps. */
  function NonEmpty(chunks: seq<Bytes>): (r: seq<Bytes>)
    ensures forall i :: 0 <= i < |r| ==> r[i] != []
  {
    if |chunks| == 0 then []
    else (if chunks[0] == [] then [] else [chunks[0]]) + NonEmpty(chunks[1..])
  }

  /** The first `limit` bytes of `b` (none for a limit below one). */
  function Take(b: Bytes, limit: int): (r: Bytes)
    ensures StartsWith(b, r)
    ensures |r| == if limit <= 0 then 0 else if |b| <= limit then |b| else limit
  {
    if limit <= 0 then [] else if |b| <= limit then b else b[..limit]
  }

  /** The sniff prefix once the first `n` chunks have been read. */
  function Window(chunks: seq<Bytes>, limit: int, n: nat): Bytes
    requires n <= |chunks|
  {
    Take(Flatten(chunks[..n]), limit)
  }

  /** How a prefix is read for a model: `_extract_model_from_prefix` with the request's content type. */
  type Reader = Bytes -> Option<string>

  function ReaderFor(contentType: string): Reader {
    prefix => ExtractModel(prefix, contentType)
  }

  /** Reading stops at chunk `j`: it is non-empty and after it the model is found or the prefix is full. */
  predicate StopsAt(chunks: seq<Bytes>, read: Reader, limit: int, j: nat)
    requires j < |chunks|
  {
    && chunks[j] != []
    && (Truthy(read(Window(chunks, limit, j + 1))) || |Window(chunks, limit, j + 1)| >= limit)
  }

  /** The first chunk at or after `from` at which reading stops, if any. */
  function FirstStopFrom(chunks: seq<Bytes>, read: Reader, limit: int, from: nat): (j: Option<nat>)
    requires from <= |chunks|
    ensures j.Some? ==> from <= j.value < |chunks| && StopsAt(chunks, read, limit, j.value)
    ensures j.Some? ==> forall k :: from <= k < j.value ==> !StopsAt(chunks, read, limit, k)
    ensures j.None? ==> forall k :: from <= k < |chunks| ==> !StopsAt(chunks, read, limit, k)
    decreases |chunks| - from
  {
    if from == |chunks| then None
    else if StopsAt(chunks, read, limit, from) then Some(from)
    else FirstStopFrom(chunks, read, limit, from + 1)
  }

  /** The model read when reading stops at chunk `j`. */
  function ModelAt(chunks: seq<Bytes>, read: Reader, limit: int, j: nat): Option<string>
    requires j < |chunks|
  {
    read(Window(chunks, limit, j + 1))
  }

  /** What scanning the body yields, stated without the loop: the model read at the first
      stop if it is truthy, with the kept chunks followed by the unread ones; otherwise the error. */
  function SniffReference(read: Reader, limit: int, chunks: seq<Bytes>): Result<Sniffed, string> {
    match FirstStopFrom(chunks, read, limit, 0)
    case None => Failure(ModelNotFound)
    case Some(j) =>
      var model := ModelAt(chunks, read, limit, j);
      if Truthy(model) then Success(Sniffed(model.value, NonEmpty(chunks[..j + 1]) + chunks[j + 1..]))
      else Failure(ModelNotFound)
  }

  /** `sniff_model_and_stream(request)`: `queryModel` is `request.query_params.get("model")`,
      `contentType` the content-type header, `limit` is `sniff_limit()` and `chunks` what
      `request.stream()` yields. The error is the ValueError's text. */
  method SniffModelAndStream(queryModel: Option<string>, contentType: Option<string>, limit: int, chunks: seq<Bytes>)
    returns (r: Result<Sniffed, string>)
    ensures Truthy(queryModel) ==> r == Success(Sniffed(queryModel.value, chunks))
    ensures !Truthy(queryModel) ==> r == SniffReference(ReaderFor(Lower(contentType.GetOr(""))), limit, chunks)
    ensures r.Success? ==> r.value.model != "" && Flatten(r.value.body) == Flatten(chunks)
    ensures r.Failure? ==> r.error == ModelNotFound
  {
    if Truthy(queryModel) {
      return Success(Sniffed(queryModel.value, chunks));
    }
    var ct := Lower(contentType.GetOr(""));
    r := SniffBody(ReaderFor(ct), limit, chunks);
    SniffReferenceReplays(ReaderFor(ct), limit, chunks);
  }

  /** The scan of `sniff_model_and_stream` once no query parameter names the model. */
  method SniffBody(read: Reader, limit: int, chunks: seq<Bytes>) returns (r: Result<Sniffed, string>)
    ensures r == SniffReference(read, limit, chunks)
  {
    var seen: seq<Bytes> := [];
    var prefix: Bytes := [];
    var i := 0;
    while i < |chunks|
      invariant 0 <= i <= |chunks|
      invariant seen == NonEmpty(chunks[..i])
      invariant prefix == Window(chunks, limit, i)
      invariant FirstStopFrom(chunks, read, limit, 0) == FirstStopFrom(chunks, read, limit, i)
    {
      var chunk := chunks[i];
      WindowStep(chunks, limit, i);
      NonEmptyStep(chunks, i);
      if chunk == [] {
        assert NonEmpty(chunks[..i + 1]) == seen + [];
      } else {
        seen := seen + [chunk];
        if |prefix| < limit {
          prefix := prefix + chunk[..if |chunk| < limit - |prefix| then |chunk| else limit - |prefix|];
        }
        var model := read(prefix);
        if Truthy(model) || |prefix| >= limit {
          assert StopsAt(chunks, read, limit, i);
          assert FirstStopFrom(chunks, read, limit, 0) == Some(i);
          if !Truthy(model) {
            return Failure(ModelNotFound);
          }
          return Success(Sniffed(model.value, seen + chunks[i + 1..]));
        }
      }
      assert !StopsAt(chunks, read, limit, i);
      i := i + 1;
    }
    return Failure(ModelNotFound);
  }

  /** Whatever the scan returns names a model and replays the whole body. */
  lemma SniffReferenceReplays(read: Reader, limit: int, chunks: seq<Bytes>)
    ensures var r := SniffReference(read, limit, chunks);
      r.Success? ==> r.value.model != "" && Flatten(r.value.body) == Flatten(chunks)
  {
    match FirstStopFrom(chunks, read, limit, 0)
    case None =>
    case Some(j) => ReplayIsLossless(chunks, j + 1);
  }

  // ---------------------------------------------------------------------------
  // Replay and prefix lemmas
  // ---------------------------------------------------------------------------

  lemma {:induction false} FlattenAppend(a: seq<Bytes>, b: seq<Bytes>)
    ensures Flatten(a + b) == Flatten(a) + Flatten(b)
  {
    if |a| == 0 {
      assert a + b == b;
    } else {
      assert (a + b)[1..] == a[1..] + b;
      FlattenAppend(a[1..], b);
    }
  }

  lemma {:induction false} FlattenNonEmpty(chunks: seq<Bytes>)
    ensures Flatten(NonEmpty(chunks)) == Flatten(chunks)
  {
    if |chunks| > 0 {
      FlattenNonEmpty(chunks[1..]);
      FlattenAppend(if chunks[0] == [] then [] else [chunks[0]], NonEmpty(chunks[1..]));
    }
  }

  /** The replayed body — the kept chunks, then the rest of the stream — is the original body, byte for byte. */
  lemma ReplayIsLossless(chunks: seq<Bytes>, n: nat)
    requires n <= |chunks|
    ensures Flatten(NonEmpty(chunks[..n]) + chunks[n..]) == Flatten(chunks)
  {
    FlattenAppend(NonEmpty(chunks[..n]), chunks[n..]);
    FlattenNonEmpty(chunks[..n]);
    FlattenSplit(chunks, n);
  }

  lemma {:induction false} FlattenSplit(chunks: seq<Bytes>, n: nat)
    requires n <= |chunks|
    ensures Flatten(chunks[..n]) + Flatten(chunks[n..]) == Flatten(chunks)
  {
    if n > 0 {
      FlattenSplit(chunks[1..], n - 1);
      assert chunks[..n][1..] == chunks[1..][..n - 1];
      assert chunks[n..] == chunks[1..][n - 1..];
    }
  }

  lemma {:induction false} NonEmptyAppend(a: seq<Bytes>, b: seq<Bytes>)
    ensures NonEmpty(a + b) == NonEmpty(a) + NonEmpty(b)
  {
    if |a| == 0 {
      assert a + b == b;
    } else {
      assert (a + b)[1..] == a[1..] + b;
      NonEmptyAppend(a[1..], b);
    }
  }

  lemma NonEmptyStep(chunks: seq<Bytes>, i: nat)
    requires i < |chunks|
    ensures NonEmpty(chunks[..i + 1]) == NonEmpty(chunks[..i]) + (if chunks[i] == [] then [] else [chunks[i]])
  {
    assert chunks[..i + 1] == chunks[..i] + [chunks[i]];
    NonEmptyAppend(chunks[..i], [chunks[i]]);
  }

  /** Reading one more chunk extends the prefix by as much of it as still fits. */
  lemma WindowStep(chunks: seq<Bytes>, limit: int, i: nat)
    requires i < |chunks|
    ensures var w, c := Window(chunks, limit, i), chunks[i];
      Window(chunks, limit, i + 1)
        == if |w| < limit then w + c[..if |c| < limit - |w| then |c| else limit - |w|] else w
  {
    assert chunks[..i + 1] == chunks[..i] + [chunks[i]];
    FlattenAppend(chunks[..i], [chunks[i]]);
    assert Flatten([chunks[i]]) == chunks[i] + [] == chunks[i];
    TakeAppend(Flatten(chunks[..i]), chunks[i], limit);
  }

  lemma TakeAppend(a: Bytes, c: Bytes, limit: int)
    ensures var w := Take(a, limit);
      Take(a + c, limit) == if |w| < limit then w + c[..if |c| < limit - |w| then |c| else limit - |w|] else w
  {
    var w := Take(a, limit);
    if limit > 0 {
      if |a| < limit {
        assert w == a;
        if |c| >= limit - |a| {
          assert (a + c)[..limit] == a + c[..limit - |a|];
        }
      } else {
        assert (a + c)[..limit] == a[..limit];
      }
    }
  }

  /** The sniff prefix never holds more than `limit` bytes, and is the start of the body read so far. */
  lemma WindowBound(chunks: seq<Bytes>, limit: int, n: nat)
    requires n <= |chunks|
    ensures |Window(chunks, limit, n)| <= if limit < 0 then 0 else limit
    ensures StartsWith(Flatten(chunks[..n]), Window(chunks, limit, n))
  {
  }
}
