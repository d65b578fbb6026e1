/**
 * The routing table: `Upstream` records and the entry-normalisation loop of
 * `load_config` (app/config.py). Reading the file and parsing YAML happen
 * before this model starts; it receives the "models" list already parsed.
 */
module Config {
  import opened Wrappers
  import opened Text

  /** One routable backend, keyed by the model name clients ask for. */
  datatype Upstream = Upstream(model: string, baseUrl: string, apiKey: string)

  /** One item of the YAML "models" list, each field already passed through
      `str(...)`; a missing key reads as "". */
  datatype RawEntry = RawEntry(model: string, baseUrl: string, apiKey: string)

  /** Why no table could be produced: a repeated model, or a failure to read or
      parse the file (its text is whatever the underlying exception said). */
  datatype ConfigError = DuplicateModel(model: string) | SourceUnreadable(detail: string)

  /** `str(e)` of the exception behind a ConfigError. */
  function ErrorText(e: ConfigError): string {
    match e
    case DuplicateModel(m) => "Duplicate model in config: " + m
    case SourceUnreadable(d) => d
  }

  /** The loaded table. Python dicts keep insertion order, so the table is the
      sequence of its values in the order the entries were accepted. */
  type Table = seq<Upstream>

  /** The result of asking the configuration provider for the current table. */
  type ConfigRead = Result<Table, ConfigError>

  // ---------------------------------------------------------------------------
  // Reference definitions
  // ---------------------------------------------------------------------------

  /** The trimmed form of an entry: every field stripped, trailing "/" removed from the base URL. */
  function Normalize(e: RawEntry): Upstream {
    Upstream(Strip(e.model), RStripChar(Strip(e.baseUrl), '/'), Strip(e.apiKey))
  }

  /** Entries with an empty model or base URL (after trimming) are skipped. */
  predicate Usable(u: Upstream) {
    u.model != "" && u.baseUrl != ""
  }

  /** Every entry of the file in trimmed form. */
  function NormalizeAll(items: seq<RawEntry>): (us: seq<Upstream>)
    ensures |us| == |items| && forall i :: 0 <= i < |items| ==> us[i] == Normalize(items[i])
  {
    seq(|items|, i requires 0 <= i < |items| => Normalize(items[i]))
  }

  /** The usable entries of a sequence, in order. */
  function KeepUsable(us: seq<Upstream>): (r: seq<Upstream>)
    ensures |r| <= |us|
    ensures forall i :: 0 <= i < |r| ==> Usable(r[i])
  {
    if |us| == 0 then []
    else KeepUsable(us[..|us| - 1]) + (if Usable(us[|us| - 1]) then [us[|us| - 1]] else [])
  }

  /** The table a file describes when it has no duplicates: its trimmed usable entries, in file order. */
  function Kept(items: seq<RawEntry>): seq<Upstream> {
    KeepUsable(NormalizeAll(items))
  }

  predicate HasModel(t: Table, m: string) {
    exists i | 0 <= i < |t| :: t[i].model == m
  }

  predicate DistinctModels(t: Table) {
    forall i, j :: 0 <= i < j < |t| ==> t[i].model != t[j].model
  }

  /** `kept[j]` is the first entry whose model was already taken by an earlier entry. */
  predicate FirstRepeat(kept: seq<Upstream>, j: int) {
    && 0 <= j < |kept|
    && HasModel(kept[..j], kept[j].model)
    && DistinctModels(kept[..j])
  }

  /** The invariant every loaded table satisfies. */
  predicate WellFormed(t: Table) {
    && DistinctModels(t)
    && forall i :: 0 <= i < |t| ==>
         && Usable(t[i])
         && Strip(t[i].model) == t[i].model
         && Strip(t[i].apiKey) == t[i].apiKey
         && t[i].baseUrl[|t[i].baseUrl| - 1] != '/'
  }

  /** `cfg.get(model)`. */
  function Lookup(t: Table, m: string): (r: Option<Upstream>)
    ensures r.Some? ==> r.value in t && r.value.model == m
    ensures r.None? <==> !HasModel(t, m)
  {
    if |t| == 0 then None
    else if t[0].model == m then Some(t[0])
    else
      var r := Lookup(t[1..], m);
      assert HasModel(t, m) ==> t[0].model == m || HasModel(t[1..], m) by {
        if HasModel(t, m) {
          var i :| 0 <= i < |t| && t[i].model == m;
          if i > 0 { assert t[1..][i - 1].model == m; }
        }
      }
      r
  }

  /** The model names of a table, in order (`cfg.keys()`). */
  function Models(t: Table): (r: seq<string>)
    ensures |r| == |t| && forall i :: 0 <= i < |t| ==> r[i] == t[i].model
  {
    seq(|t|, i requires 0 <= i < |t| => t[i].model)
  }

  // ---------------------------------------------------------------------------
  // load_config
  // ---------------------------------------------------------------------------

  lemma KeepStep(us: seq<Upstream>, i: nat)
    requires i < |us|
    ensures KeepUsable(us[..i + 1]) == KeepUsable(us[..i]) + (if Usable(us[i]) then [us[i]] else [])
  {
    assert us[..i + 1][..i] == us[..i];
  }

  /** The entry loop of `load_config`: `models` is None when the file has no
      "models" key or it is null; an empty list behaves the same way. */
  method LoadConfig(models: Option<seq<RawEntry>>) returns (r: Result<Table, ConfigError>)
    ensures var kept := Kept(models.GetOr([]));
      && (r.Success? <==> DistinctModels(kept))
      && (r.Success? ==> r.value == kept)
      && (r.Failure? ==> exists j :: FirstRepeat(kept, j) && r.error == DuplicateModel(kept[j].model))
  {
    var items := models.GetOr([]);
    ghost var us := NormalizeAll(items);
    var out: Table := [];
    var i := 0;
    while i < |items|
      invariant 0 <= i <= |items|
      invariant out == KeepUsable(us[..i])
      invariant DistinctModels(out)
    {
      var u := Normalize(items[i]);
      LoadStep(us, i, out);
      if u.model == "" || u.baseUrl == "" {
        i := i + 1;
        continue;
      }
      if HasModel(out, u.model) {
        return Failure(DuplicateModel(u.model));
      }
      out := out + [u];
      i := i + 1;
    }
    assert us[..i] == us;
    return Success(out);
  }

  /** One pass of the entry loop: a skipped entry changes nothing, a new model extends the
      table, and a taken model is the file's first repeat. */
  lemma LoadStep(us: seq<Upstream>, i: nat, out: Table)
    requires i < |us| && out == KeepUsable(us[..i]) && DistinctModels(out)
    ensures !Usable(us[i]) ==> KeepUsable(us[..i + 1]) == out
    ensures Usable(us[i]) && !HasModel(out, us[i].model) ==>
      KeepUsable(us[..i + 1]) == out + [us[i]] && DistinctModels(out + [us[i]])
    ensures Usable(us[i]) && HasModel(out, us[i].model) ==>
      var kept := KeepUsable(us);
      !DistinctModels(kept) && exists j :: FirstRepeat(kept, j) && kept[j].model == us[i].model
  {
    KeepStep(us, i);
    if Usable(us[i]) {
      if HasModel(out, us[i].model) {
        RepeatIsFirst(us, i);
      } else {
        ExtendDistinct(out, us[i]);
      }
    }
  }

  /** The entry at which the loop first meets a taken model is the first repeat of the whole file. */
  lemma RepeatIsFirst(us: seq<Upstream>, i: nat)
    requires i < |us|
    requires DistinctModels(KeepUsable(us[..i]))
    requires Usable(us[i]) && HasModel(KeepUsable(us[..i]), us[i].model)
    ensures var kept := KeepUsable(us);
      && !DistinctModels(kept)
      && FirstRepeat(kept, |KeepUsable(us[..i])|)
      && kept[|KeepUsable(us[..i])|].model == us[i].model
  {
    var out, u, kept := KeepUsable(us[..i]), us[i], KeepUsable(us);
    KeepStep(us, i);
    KeepPrefix(us, i + 1);
    assert kept[..|out| + 1] == out + [u];
    assert kept[..|out|] == out;
    var p :| 0 <= p < |out| && out[p].model == u.model;
    assert kept[p].model == kept[|out|].model;
  }

  lemma ExtendDistinct(out: Table, u: Upstream)
    requires DistinctModels(out) && !HasModel(out, u.model)
    ensures DistinctModels(out + [u])
  {
    forall i, j | 0 <= i < j < |out| + 1
      ensures (out + [u])[i].model != (out + [u])[j].model
    {
      if j == |out| {
        assert out[i].model != u.model;
      }
    }
  }

  /** The usable entries of a prefix are a prefix of the usable entries. */
  lemma {:induction false} KeepPrefix(us: seq<Upstream>, n: nat)
    requires n <= |us|
    ensures StartsWith(KeepUsable(us), KeepUsable(us[..n]))
    decreases |us| - n
  {
    if n < |us| {
      KeepPrefix(us, n + 1);
      KeepStep(us, n);
      var whole, longer, shorter := KeepUsable(us), KeepUsable(us[..n + 1]), KeepUsable(us[..n]);
      assert longer[..|shorter|] == shorter;
      assert whole[..|longer|] == longer;
      assert whole[..|shorter|] == longer[..|shorter|];
    } else {
      assert us[..n] == us;
    }
  }

  /** Each kept entry is one of the input entries. */
  lemma {:induction false} KeptFromInput(us: seq<Upstream>, i: nat)
    requires i < |KeepUsable(us)|
    ensures KeepUsable(us)[i] in us
  {
    var n := |us| - 1;
    if i < |KeepUsable(us[..n])| {
      KeptFromInput(us[..n], i);
      assert us[..n] <= us;
    }
  }

  /** Every table `LoadConfig` accepts has distinct, non-empty, trimmed models and
      non-empty base URLs without a trailing "/". */
  lemma KeptWellFormed(items: seq<RawEntry>)
    requires DistinctModels(Kept(items))
    ensures WellFormed(Kept(items))
  {
    var t := Kept(items);
    forall i | 0 <= i < |t|
      ensures Strip(t[i].model) == t[i].model && Strip(t[i].apiKey) == t[i].apiKey
      ensures t[i].baseUrl[|t[i].baseUrl| - 1] != '/'
    {
      KeptEntryTrimmed(items, i);
    }
  }

  lemma KeptEntryTrimmed(items: seq<RawEntry>, i: nat)
    requires i < |Kept(items)|
    ensures var u := Kept(items)[i];
      Strip(u.model) == u.model && Strip(u.apiKey) == u.apiKey && u.baseUrl[|u.baseUrl| - 1] != '/'
  {
    var us := NormalizeAll(items);
    KeptFromInput(us, i);
    var k :| 0 <= k < |us| && us[k] == Kept(items)[i];
    NormalizeIsTrimmed(items[k]);
  }


  /** A normalised entry has stripped model and key and no trailing "/" on a non-empty base URL. */
  lemma NormalizeIsTrimmed(e: RawEntry)
    ensures var u := Normalize(e);
      && Strip(u.model) == u.model
      && Strip(u.apiKey) == u.apiKey
      && (u.baseUrl != "" ==> u.baseUrl[|u.baseUrl| - 1] != '/')
  {
    StripIdempotent(e.model);
    StripIdempotent(e.apiKey);
  }

  /** Stripping twice is stripping once. */
  lemma StripIdempotent(s: string)
    ensures Strip(Strip(s)) == Strip(s)
  {
    var r := Strip(s);
    StripIsMaximalInfix(s);
    if |r| > 0 {
      StripNoop(r);
    }
  }

  /** A model is in the loaded table iff some usable entry of the file names it. */
  lemma LookupInLoaded(items: seq<RawEntry>, m: string)
    ensures Lookup(Kept(items), m).Some? <==> exists e :: e in items && Usable(Normalize(e)) && Normalize(e).model == m
  {
    var us := NormalizeAll(items);
    KeptMembership(us, m);
    if exists u :: u in us && Usable(u) && u.model == m {
      var u :| u in us && Usable(u) && u.model == m;
      var k :| 0 <= k < |us| && us[k] == u;
      assert items[k] in items;
    }
    if exists e :: e in items && Usable(Normalize(e)) && Normalize(e).model == m {
      var e :| e in items && Usable(Normalize(e)) && Normalize(e).model == m;
      var k :| 0 <= k < |items| && items[k] == e;
      assert us[k] in us;
    }
  }

  lemma KeptMembership(us: seq<Upstream>, m: string)
    ensures HasModel(KeepUsable(us), m) <==> exists u :: u in us && Usable(u) && u.model == m
  {
    if HasModel(KeepUsable(us), m) {
      KeptModelFromInput(us, m);
    }
    if exists u :: u in us && Usable(u) && u.model == m {
      var u :| u in us && Usable(u) && u.model == m;
      UsableModelKept(us, u);
    }
  }

  lemma {:induction false} KeptModelFromInput(us: seq<Upstream>, m: string)
    requires HasModel(KeepUsable(us), m)
    ensures exists u :: u in us && Usable(u) && u.model == m
  {
    var n := |us| - 1;
    var pre := KeepUsable(us[..n]);
    var k := KeepUsable(us);
    var p :| 0 <= p < |k| && k[p].model == m;
    if p < |pre| {
      assert pre[p].model == m;
      KeptModelFromInput(us[..n], m);
      var u :| u in us[..n] && Usable(u) && u.model == m;
      assert u in us;
    } else {
      assert us[n] in us;
    }
  }

  lemma {:induction false} UsableModelKept(us: seq<Upstream>, u: Upstream)
    requires u in us && Usable(u)
    ensures HasModel(KeepUsable(us), u.model)
  {
    var n := |us| - 1;
    var pre := KeepUsable(us[..n]);
    var k := KeepUsable(us);
    if u in us[..n] {
      UsableModelKept(us[..n], u);
      var p :| 0 <= p < |pre| && pre[p].model == u.model;
      assert k[p] == pre[p];
    } else {
      assert u == us[n];
      assert k[|pre|] == u;
    }
  }
}
