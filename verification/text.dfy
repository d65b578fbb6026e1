/**
 * The Python string primitives the gateway leans on, written out once:
 * `startswith`, `endswith`, `in`, `strip`, `rstrip`, ASCII `lower`,
 * `int(...)` parsing and `str(int)` printing.
 */
module Text {
  import opened Wrappers

  // ---------------------------------------------------------------------------
  // Prefix, suffix and substring tests (shared by `str` and `bytes`)
  // ---------------------------------------------------------------------------

  predicate StartsWith<T(==)>(s: seq<T>, p: seq<T>) {
    |p| <= |s| && s[..|p|] == p
  }

  predicate EndsWith<T(==)>(s: seq<T>, p: seq<T>) {
    |p| <= |s| && s[|s| - |p|..] == p
  }

  /** `sub` occurs in `s` starting at index `i`. */
  predicate OccursAt<T(==)>(s: seq<T>, sub: seq<T>, i: int) {
    0 <= i && i + |sub| <= |s| && s[i..i + |sub|] == sub
  }

  /** Python's `sub in s`. */
  predicate Contains<T(==)>(s: seq<T>, sub: seq<T>) {
    exists i | 0 <= i <= |s| - |sub| :: OccursAt(s, sub, i)
  }

  /** Index of the first occurrence of `x` in `s`, if any (`s.find(x)`). */
  function IndexOf<T(==)>(s: seq<T>, x: T): (r: Option<nat>)
    ensures r.Some? ==> r.value < |s| && s[r.value] == x
    ensures r.Some? ==> forall i :: 0 <= i < r.value ==> s[i] != x
    ensures r.None? ==> forall i :: 0 <= i < |s| ==> s[i] != x
  {
    if |s| == 0 then None
    else if s[0] == x then Some(0)
    else match IndexOf(s[1..], x)
      case None => None
      case Some(k) => Some(k + 1)
  }

  // ---------------------------------------------------------------------------
  // Whitespace and stripping
  // ---------------------------------------------------------------------------

  /** The characters Python's `str.isspace()` accepts, hence those `str.strip()` removes. */
  predicate IsSpace(c: char) {
    || ('\t' <= c <= '\r')
    || ('\U{1C}' <= c <= ' ')
    || c == '\U{85}' || c == '\U{A0}' || c == '\U{1680}'
    || ('\U{2000}' <= c <= '\U{200A}')
    || c == '\U{2028}' || c == '\U{2029}' || c == '\U{202F}' || c == '\U{205F}' || c == '\U{3000}'
  }

  /** The characters CPython's byte-level `Py_ISSPACE` accepts (used by `int(bytes)`). */
  predicate IsAsciiSpace(c: char) {
    ('\t' <= c <= '\r') || c == ' '
  }

  /** Drops the longest prefix whose elements satisfy `drop`. */
  function TrimStartBy<T>(s: seq<T>, drop: T -> bool): seq<T> {
    if |s| > 0 && drop(s[0]) then TrimStartBy(s[1..], drop) else s
  }

  /** Drops the longest suffix whose elements satisfy `drop`. */
  function TrimEndBy<T>(s: seq<T>, drop: T -> bool): seq<T> {
    if |s| > 0 && drop(s[|s| - 1]) then TrimEndBy(s[..|s| - 1], drop) else s
  }

  lemma {:induction false} TrimStartSpec<T>(s: seq<T>, drop: T -> bool)
    ensures var r := TrimStartBy(s, drop);
      && |r| <= |s| && r == s[|s| - |r|..]
      && (forall i :: 0 <= i < |s| - |r| ==> drop(s[i]))
      && (|r| > 0 ==> !drop(r[0]))
  {
    if |s| > 0 && drop(s[0]) {
      TrimStartSpec(s[1..], drop);
    }
  }

  lemma {:induction false} TrimEndSpec<T>(s: seq<T>, drop: T -> bool)
    ensures var r := TrimEndBy(s, drop);
      && |r| <= |s| && r == s[..|r|]
      && (forall i :: |r| <= i < |s| ==> drop(s[i]))
      && (|r| > 0 ==> !drop(r[|r| - 1]))
  {
    if |s| > 0 && drop(s[|s| - 1]) {
      TrimEndSpec(s[..|s| - 1], drop);
    }
  }

  /** Python's `s.strip()`. */
  function Strip(s: string): string {
    TrimEndBy(TrimStartBy(s, IsSpace), IsSpace)
  }

  /** `bytes.strip()` as CPython's `int()` applies it to a byte string. */
  function StripAscii(s: string): string {
    TrimEndBy(TrimStartBy(s, IsAsciiSpace), IsAsciiSpace)
  }

  /** Python's `s.rstrip(c)` for a one-character argument. */
  function RStripChar(s: string, c: char): (r: string)
    ensures StartsWith(s, r)
    ensures |r| == 0 || r[|r| - 1] != c
    ensures forall i :: |r| <= i < |s| ==> s[i] == c
  {
    if |s| > 0 && s[|s| - 1] == c then RStripChar(s[..|s| - 1], c) else s
  }

  /** `r` sits in `s` at offset `k` with nothing but whitespace around it. */
  predicate StrippedAt(s: string, r: string, k: int) {
    && 0 <= k && k + |r| <= |s| && r == s[k..k + |r|]
    && (forall i :: 0 <= i < k ==> IsSpace(s[i]))
    && (forall i :: k + |r| <= i < |s| ==> IsSpace(s[i]))
  }

  /** The defining property of `strip()`: the result is an infix with
      all-whitespace margins and non-whitespace ends. */
  lemma StripIsMaximalInfix(s: string)
    ensures exists k :: StrippedAt(s, Strip(s), k)
    ensures |Strip(s)| > 0 ==> !IsSpace(Strip(s)[0]) && !IsSpace(Strip(s)[|Strip(s)| - 1])
  {
    var t := TrimStartBy(s, IsSpace);
    var r := TrimEndBy(t, IsSpace);
    TrimStartSpec(s, IsSpace);
    TrimEndSpec(t, IsSpace);
    assert r == Strip(s);
    var k := |s| - |t|;
    assert t == s[k..];
    assert r == t[..|r|];
    assert r == s[k..k + |r|];
    forall i | k + |r| <= i < |s|
      ensures IsSpace(s[i])
    {
      assert s[i] == t[i - k];
    }
    assert StrippedAt(s, r, k);
  }

  /** Stripping leaves a string with non-whitespace ends untouched. */
  lemma StripNoop(s: string)
    requires |s| > 0 && !IsSpace(s[0]) && !IsSpace(s[|s| - 1])
    requires !IsAsciiSpace(s[0]) && !IsAsciiSpace(s[|s| - 1])
    ensures Strip(s) == s && StripAscii(s) == s
  {
    assert TrimStartBy(s, IsSpace) == s;
    assert TrimStartBy(s, IsAsciiSpace) == s;
  }

  // ---------------------------------------------------------------------------
  // Case folding
  // ---------------------------------------------------------------------------

  function LowerChar(c: char): char {
    if 'A' <= c <= 'Z' then (c as int + 32) as char else c
  }

  /** `s.lower()` restricted to ASCII letters; see README for why this suffices. */
  function Lower(s: string): (r: string)
    ensures |r| == |s|
    ensures forall i :: 0 <= i < |s| ==> r[i] == LowerChar(s[i])
  {
    seq(|s|, i requires 0 <= i < |s| => LowerChar(s[i]))
  }

  lemma LowerIdempotent(s: string)
    ensures Lower(Lower(s)) == Lower(s)
  {
  }

  // ---------------------------------------------------------------------------
  // int(...) and str(int)
  // ---------------------------------------------------------------------------

  /** CPython refuses to convert decimal strings with more digits than this
      (`sys.int_info.default_max_str_digits`) and raises ValueError instead. */
  const MaxStrDigits: nat := 4300

  predicate IsDigit(c: char) {
    '0' <= c <= '9'
  }

  /** Decimal digits with single underscores between them: the body Python's
      `int()` accepts after the sign. */
  predicate WellFormedDigits(d: string) {
    && |d| > 0
    && IsDigit(d[0])
    && IsDigit(d[|d| - 1])
    && forall i :: 0 <= i < |d| ==>
         IsDigit(d[i]) || (d[i] == '_' && i + 1 < |d| && IsDigit(d[i + 1]))
  }

  function DigitCount(d: string): nat {
    if |d| == 0 then 0
    else DigitCount(d[..|d| - 1]) + (if IsDigit(d[|d| - 1]) then 1 else 0)
  }

  /** The value of a digit string, underscores ignored. */
  function DigitsValue(d: string): nat {
    if |d| == 0 then 0
    else if IsDigit(d[|d| - 1]) then DigitsValue(d[..|d| - 1]) * 10 + (d[|d| - 1] as int - '0' as int)
    else DigitsValue(d[..|d| - 1])
  }

  /** Parses an already stripped decimal literal with optional sign. */
  function ParseSigned(t: string): Option<int> {
    var neg := |t| > 0 && t[0] == '-';
    var body := if |t| > 0 && (t[0] == '-' || t[0] == '+') then t[1..] else t;
    if WellFormedDigits(body) && DigitCount(body) <= MaxStrDigits then
      Some(if neg then -(DigitsValue(body) as int) else DigitsValue(body) as int)
    else None
  }

  /** `int(s)` for a `str`: None where Python raises ValueError. */
  function ParseInt(s: string): Option<int> {
    ParseSigned(Strip(s))
  }

  /** `int(b)` for a `bytes` value, its bytes read as Latin-1 characters. */
  function ParseIntBytes(s: string): Option<int> {
    ParseSigned(StripAscii(s))
  }

  function DigitChar(d: nat): char
    requires d < 10
  {
    ('0' as int + d) as char
  }

  function NatToString(n: nat): (r: string)
    ensures |r| > 0
    ensures forall i :: 0 <= i < |r| ==> IsDigit(r[i])
  {
    if n < 10 then [DigitChar(n)] else NatToString(n / 10) + [DigitChar(n % 10)]
  }

  /** Python's `str(n)` for an int. */
  function IntToString(n: int): string {
    if n < 0 then "-" + NatToString(-n) else NatToString(n)
  }

  lemma {:induction false} DigitsRoundTrip(n: nat)
    ensures WellFormedDigits(NatToString(n))
    ensures DigitsValue(NatToString(n)) == n
    ensures DigitCount(NatToString(n)) == |NatToString(n)|
  {
    if n >= 10 {
      DigitsRoundTrip(n / 10);
      var s := NatToString(n);
      assert s[..|s| - 1] == NatToString(n / 10);
    }
  }

  /** `int(str(n)) == n` whenever `str(n)` is short enough for CPython to convert. */
  lemma IntRoundTrip(n: int)
    requires |NatToString(if n < 0 then -n else n)| <= MaxStrDigits
    ensures ParseInt(IntToString(n)) == Some(n)
    ensures ParseIntBytes(IntToString(n)) == Some(n)
  {
    SignedRoundTrip(n);
    var s := IntToString(n);
    var d := NatToString(if n < 0 then -n else n);
    assert IsDigit(d[0]) && IsDigit(s[|s| - 1]);
    StripNoop(s);
  }

  lemma SignedRoundTrip(n: int)
    requires |NatToString(if n < 0 then -n else n)| <= MaxStrDigits
    ensures ParseSigned(IntToString(n)) == Some(n)
  {
    var m := if n < 0 then -n else n;
    DigitsRoundTrip(m);
    var d := NatToString(m);
    assert IsDigit(d[0]);
    if n < 0 {
      assert IntToString(n)[1..] == d;
    }
  }
}
