/**
 * Settings read from the environment. The environment read itself is a
 * parameter: `raw` is the variable's value, None when it is unset.
 */
module Settings {
  import opened Wrappers
  import opened Text

  /** The words `_env_bool` and `allow_ssl_downgrade` accept as "on". */
  const OnWords: set<string> := {"1", "true", "yes", "on"}

  /** The words `tls_verify` accepts as "off". */
  const OffWords: set<string> := {"0", "false", "no", "off"}

  /** `os.getenv(name, default).strip().lower()`. */
  function EnvWord(raw: Option<string>, default: string): string {
    Lower(Strip(raw.GetOr(default)))
  }

  /** `_env_bool(name, default)` of app/routers/public.py. */
  predicate EnvBool(raw: Option<string>, default: bool) {
    EnvWord(raw, if default then "1" else "0") in OnWords
  }

  /** `tls_verify()`: certificate checks stay on unless explicitly switched off. */
  predicate TlsVerify(raw: Option<string>) {
    EnvWord(raw, "1") !in OffWords
  }

  /** `allow_ssl_downgrade()`: off unless explicitly switched on. */
  predicate AllowSslDowngrade(raw: Option<string>) {
    EnvWord(raw, "0") in OnWords
  }

  const DefaultTimeoutS: real := 600.0

  /** `timeout_s()`: `float(...)` is a library conversion and arrives as
      `asFloat`, None where it raises. */
  function TimeoutS(raw: Option<string>, asFloat: string -> Option<real>): (t: real)
    ensures asFloat(raw.GetOr("600")).None? ==> t == DefaultTimeoutS
    ensures asFloat(raw.GetOr("600")).Some? ==> t == asFloat(raw.GetOr("600")).value
  {
    asFloat(raw.GetOr("600")).GetOr(DefaultTimeoutS)
  }

  /** `_get_int(name, default)` of app/middleware.py: `int(os.getenv(name, str(default)))`,
      falling back to `default` when `int` raises. */
  function GetInt(raw: Option<string>, default: int): int {
    ParseInt(raw.GetOr(IntToString(default))).GetOr(default)
  }

  const DefaultSniffBytes: int := 1048576

  /** `sniff_limit()` of app/shiff.py; its literal fallback text "1048576" is `str(DefaultSniffBytes)`. */
  function SniffLimit(raw: Option<string>): int {
    GetInt(raw, DefaultSniffBytes)
  }

  const DefaultMaxBodyBytes: int := 100 * 1024 * 1024

  /** `PROXY_MAX_BODY_BYTES` as BodySizeLimitMiddleware reads it. */
  function MaxBodyBytes(raw: Option<string>): int {
    GetInt(raw, DefaultMaxBodyBytes)
  }

  // ---------------------------------------------------------------------------
  // Properties
  // ---------------------------------------------------------------------------

  /** Unset flags take their defaults: verification on, downgrade off, `_env_bool` as given. */
  lemma FlagDefaults(d: bool)
    ensures EnvBool(None, d) == d
    ensures TlsVerify(None)
    ensures !AllowSslDowngrade(None)
  {
    assert Strip("1") == "1" by { StripNoop("1"); }
    assert Strip("0") == "0" by { StripNoop("0"); }
    assert Lower("1") == "1";
    assert Lower("0") == "0";
  }

  lemma LowerCharIsSpace(c: char)
    ensures IsSpace(LowerChar(c)) == IsSpace(c)
  {
  }

  lemma {:induction false} TrimStartLower(s: string)
    ensures TrimStartBy(Lower(s), IsSpace) == Lower(TrimStartBy(s, IsSpace))
  {
    if |s| > 0 {
      LowerCharIsSpace(s[0]);
      assert Lower(s)[1..] == Lower(s[1..]);
      if IsSpace(s[0]) {
        TrimStartLower(s[1..]);
      }
    }
  }

  lemma {:induction false} TrimEndLower(s: string)
    ensures TrimEndBy(Lower(s), IsSpace) == Lower(TrimEndBy(s, IsSpace))
  {
    if |s| > 0 {
      LowerCharIsSpace(s[|s| - 1]);
      assert Lower(s)[..|s| - 1] == Lower(s[..|s| - 1]);
      if IsSpace(s[|s| - 1]) {
        TrimEndLower(s[..|s| - 1]);
      }
    }
  }

  /** Case folding and stripping commute. */
  lemma StripLower(s: string)
    ensures Strip(Lower(s)) == Lower(Strip(s))
  {
    TrimStartLower(s);
    TrimEndLower(TrimStartBy(s, IsSpace));
  }

  /** Flags are case-insensitive: a value and its lower-cased form read alike. */
  lemma EnvWordIgnoresCase(s: string, default: string)
    ensures EnvWord(Some(Lower(s)), default) == EnvWord(Some(s), default)
  {
    StripLower(s);
    var t := Strip(s);
    assert Lower(Lower(t)) == Lower(t);
  }

  /** Flags ignore surrounding whitespace. */
  lemma EnvWordIgnoresPadding(s: string, pad: string, default: string)
    requires forall i :: 0 <= i < |pad| ==> IsSpace(pad[i])
    ensures EnvWord(Some(pad + s + pad), default) == EnvWord(Some(s), default)
  {
    PaddedStrip(s, pad);
  }

  lemma {:induction false} TrimStartPadded(s: string, pad: string)
    requires forall i :: 0 <= i < |pad| ==> IsSpace(pad[i])
    ensures TrimStartBy(pad + s, IsSpace) == TrimStartBy(s, IsSpace)
  {
    if |pad| > 0 {
      assert (pad + s)[1..] == pad[1..] + s;
      TrimStartPadded(s, pad[1..]);
    } else {
      assert pad + s == s;
    }
  }

  lemma {:induction false} TrimEndPadded(s: string, pad: string)
    requires forall i :: 0 <= i < |pad| ==> IsSpace(pad[i])
    ensures TrimEndBy(s + pad, IsSpace) == TrimEndBy(s, IsSpace)
  {
    if |pad| > 0 {
      var n := |pad| - 1;
      assert (s + pad)[..|s + pad| - 1] == s + pad[..n];
      assert (s + pad)[|s + pad| - 1] == pad[n];
      TrimEndPadded(s, pad[..n]);
    } else {
      assert s + pad == s;
    }
  }

  lemma PaddedStrip(s: string, pad: string)
    requires forall i :: 0 <= i < |pad| ==> IsSpace(pad[i])
    ensures Strip(pad + s + pad) == Strip(s)
  {
    assert pad + s + pad == pad + (s + pad);
    TrimStartPadded(s + pad, pad);
    var t := TrimStartBy(s, IsSpace);
    TrimStartSpec(s, IsSpace);
    TrimStartSuffix(s, pad);
    if t == [] {
      TrimEndSpec([], IsSpace);
    } else {
      TrimEndPadded(t, pad);
    }
  }

  /** Trimming the front of `s + pad` trims the front of `s`, unless `s` was all whitespace. */
  lemma {:induction false} TrimStartSuffix(s: string, pad: string)
    requires forall i :: 0 <= i < |pad| ==> IsSpace(pad[i])
    ensures TrimStartBy(s, IsSpace) != [] ==> TrimStartBy(s + pad, IsSpace) == TrimStartBy(s, IsSpace) + pad
    ensures TrimStartBy(s, IsSpace) == [] ==> TrimStartBy(s + pad, IsSpace) == []
  {
    if |s| == 0 {
      assert s + pad == pad;
      TrimStartPadded([], pad);
      assert pad + [] == pad;
    } else {
      assert (s + pad)[0] == s[0];
      assert (s + pad)[1..] == s[1..] + pad;
      if IsSpace(s[0]) {
        TrimStartSuffix(s[1..], pad);
      }
    }
  }

  /** With the variable unset, `_get_int` yields its default. */
  lemma GetIntDefault(default: int)
    requires |NatToString(if default < 0 then -default else default)| <= MaxStrDigits
    ensures GetInt(None, default) == default
  {
    IntRoundTrip(default);
  }

  /** With the variable unset the body limit is 100 MiB. */
  lemma MaxBodyBytesDefault()
    ensures MaxBodyBytes(None) == 104857600
  {
    DigitsBound(DefaultMaxBodyBytes, 9);
    GetIntDefault(DefaultMaxBodyBytes);
  }

  /** With the variable unset the sniff window is 1 MiB. */
  lemma SniffLimitDefault()
    ensures SniffLimit(None) == 1048576
  {
    DigitsBound(DefaultSniffBytes, 7);
    GetIntDefault(DefaultSniffBytes);
  }

  function Pow10(k: nat): nat {
    if k == 0 then 1 else 10 * Pow10(k - 1)
  }

  /** A number below `10^k` prints with at most `k` digits. */
  lemma {:induction false} DigitsBound(n: nat, k: nat)
    requires 0 < k && n < Pow10(k)
    ensures |NatToString(n)| <= k
  {
    if n >= 10 {
      assert k > 1;
      DigitsBound(n / 10, k - 1);
    }
  }
}
