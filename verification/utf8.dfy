/**
 * Bytes and `bytes.decode("utf-8", "ignore")`.
 *
 * Well-formed sequences follow Table 3-7 of the Unicode Standard (section 3.9).
 * With the "ignore" handler an ill-formed byte contributes nothing; dropping
 * one byte at a time gives the same text as CPython's maximal-subpart
 * skipping, because every byte after the lead of an ill-formed subpart is a
 * continuation byte, which is ill-formed on its own.
 */
module Utf8 {

  type byte = b: int | 0 <= b < 256

  type Bytes = seq<byte>

  predicate IsContinuation(b: byte) {
    0x80 <= b <= 0xBF
  }

  /** Length of the well-formed UTF-8 sequence starting at `s[i]`, 0 if there is none. */
  function WellFormedLength(s: Bytes, i: nat): (n: nat)
    requires i < |s|
    ensures n <= 4 && i + n <= |s|
    ensures n == 1 <==> s[i] < 0x80
  {
    var b := s[i];
    if b < 0x80 then 1
    else if 0xC2 <= b <= 0xDF then
      if i + 1 < |s| && IsContinuation(s[i + 1]) then 2 else 0
    else if 0xE0 <= b <= 0xEF then
      var lo := if b == 0xE0 then 0xA0 else 0x80;
      var hi := if b == 0xED then 0x9F else 0xBF;
      if i + 2 < |s| && lo <= s[i + 1] <= hi && IsContinuation(s[i + 2]) then 3 else 0
    else if 0xF0 <= b <= 0xF4 then
      var lo := if b == 0xF0 then 0x90 else 0x80;
      var hi := if b == 0xF4 then 0x8F else 0xBF;
      if i + 3 < |s| && lo <= s[i + 1] <= hi && IsContinuation(s[i + 2]) && IsContinuation(s[i + 3]) then 4
      else 0
    else 0
  }

  /** The scalar value encoded by the well-formed sequence at the front of `s`. */
  function ScalarAt(s: Bytes): (c: char)
    requires |s| > 0 && WellFormedLength(s, 0) > 0
    ensures s[0] < 0x80 <==> (c as int) < 0x80
    ensures s[0] < 0x80 ==> c as int == s[0]
  {
    var n := WellFormedLength(s, 0);
    var b0: int, b1: int := s[0], if |s| > 1 then s[1] else 0;
    var b2: int, b3: int := if |s| > 2 then s[2] else 0, if |s| > 3 then s[3] else 0;
    if n == 1 then s[0] as char
    else if n == 2 then ((b0 - 0xC0) * 64 + (b1 - 0x80)) as char
    else if n == 3 then ((b0 - 0xE0) * 4096 + (b1 - 0x80) * 64 + (b2 - 0x80)) as char
    else ((b0 - 0xF0) * 262144 + (b1 - 0x80) * 4096 + (b2 - 0x80) * 64 + (b3 - 0x80)) as char
  }

  /** `s.decode("utf-8", "ignore")`. */
  function DecodeIgnore(s: Bytes): (r: string)
    ensures |r| <= |s|
  {
    if |s| == 0 then ""
    else
      var n := WellFormedLength(s, 0);
      if n == 0 then DecodeIgnore(s[1..]) else [ScalarAt(s)] + DecodeIgnore(s[n..])
  }

  /** The bytes of an ASCII/Latin-1 literal. */
  function Latin1(s: string): (b: Bytes)
    requires forall i :: 0 <= i < |s| ==> s[i] as int < 256
    ensures |b| == |s| && forall i :: 0 <= i < |s| ==> b[i] == s[i] as int
  {
    seq(|s|, i requires 0 <= i < |s| => s[i] as int)
  }

  /** ASCII text decodes to itself. */
  lemma {:induction false} DecodeAscii(s: Bytes)
    requires forall i :: 0 <= i < |s| ==> s[i] < 0x80
    ensures |DecodeIgnore(s)| == |s|
    ensures forall i :: 0 <= i < |s| ==> DecodeIgnore(s)[i] as int == s[i]
  {
    if |s| > 0 {
      DecodeAscii(s[1..]);
    }
  }

  /** Decoding never invents an ASCII character: each one comes from the same byte in the input. */
  lemma {:induction false} DecodedAsciiComesFromInput(s: Bytes, c: char)
    requires (c as int) < 0x80 && c in DecodeIgnore(s)
    ensures (c as int) in s
  {
    var n := WellFormedLength(s, 0);
    if n == 0 {
      DecodedAsciiComesFromInput(s[1..], c);
    } else if ScalarAt(s) != c {
      DecodedAsciiComesFromInput(s[n..], c);
    }
  }
}
