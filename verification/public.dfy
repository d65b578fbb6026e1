/**
 * The public router (app/routers/public.py): the health report, which groups
 * the configured models by upstream and probes each upstream once, and the
 * model list. The probe GETs are an oracle from URL to reply; latency and
 * logging are not represented.
 */
module Public {
  import opened Wrappers
  import opened Text
  import opened Config
  import opened Errors
  import Settings
  import Upstreams

  /** `_cfg(request)`: with no provider installed the table is empty; otherwise it is
      whatever `provider.get()` yields, which may fail. */
  function Cfg(provider: Option<ConfigRead>): ConfigRead {
    provider.GetOr(Success([]))
  }

  /** The 500 both routers answer with when the table cannot be read. */
  function ConfigFailure(e: ConfigError): ApiError {
    ApiError(500, "Configuration error: " + ErrorText(e), InvalidRequest, Some("config_error"))
  }

  /** `_public_health_details_enabled()`: `API_PUBLIC_HEALTH_DETAILS`, off by default. */
  predicate PublicDetails(raw: Option<string>) {
    Settings.EnvBool(raw, false)
  }

  // ---------------------------------------------------------------------------
  // Grouping by base URL
  // ---------------------------------------------------------------------------

  /** An insertion-ordered `dict[str, list[str]]`: its keys in insertion order and its mapping. */
  datatype Groups = Groups(keys: seq<string>, members: map<string, seq<string>>)

  /** `by_upstream[b].append(m)` on a `defaultdict(list)`. */
  function GroupAdd(g: Groups, b: string, m: string): Groups {
    if b in g.members then Groups(g.keys, g.members[b := g.members[b] + [m]])
    else Groups(g.keys + [b], g.members[b := [m]])
  }

  /** The grouping loop of `_build_health_payload`, over the table in order. */
  function GroupByBaseUrl(t: Table): Groups {
    if |t| == 0 then Groups([], map[])
    else GroupAdd(GroupByBaseUrl(t[..|t| - 1]), t[|t| - 1].baseUrl, t[|t| - 1].model)
  }

  /** Reference: the models of the entries served by `b`, in table order. */
  function ModelsAt(t: Table, b: string): seq<string> {
    if |t| == 0 then []
    else ModelsAt(t[..|t| - 1], b) + (if t[|t| - 1].baseUrl == b then [t[|t| - 1].model] else [])
  }

  /** Reference: the distinct base URLs of the table, in order of first appearance. */
  function BaseUrls(t: Table): seq<string> {
    if |t| == 0 then []
    else
      var pre := BaseUrls(t[..|t| - 1]);
      if t[|t| - 1].baseUrl in pre then pre else pre + [t[|t| - 1].baseUrl]
  }

  /** Each upstream's group holds exactly its models, in table order; an upstream without
      models has no group; and the groups come in order of first appearance. */
  lemma {:induction false} GroupingIsFilter(t: Table, b: string)
    ensures b in GroupByBaseUrl(t).members <==> ModelsAt(t, b) != []
    ensures b in GroupByBaseUrl(t).members ==> GroupByBaseUrl(t).members[b] == ModelsAt(t, b)
    ensures b in GroupByBaseUrl(t).keys <==> b in GroupByBaseUrl(t).members
  {
    if |t| > 0 {
      GroupingIsFilter(t[..|t| - 1], b);
      GroupingIsFilter(t[..|t| - 1], t[|t| - 1].baseUrl);
    }
  }

  lemma {:induction false} GroupKeysInOrder(t: Table)
    ensures GroupByBaseUrl(t).keys == BaseUrls(t)
  {
    if |t| > 0 {
      var n := |t| - 1;
      GroupKeysInOrder(t[..n]);
      GroupingIsFilter(t[..n], t[n].baseUrl);
    }
  }

  lemma {:induction false} BaseUrlsDistinct(t: Table)
    ensures forall i, j :: 0 <= i < j < |BaseUrls(t)| ==> BaseUrls(t)[i] != BaseUrls(t)[j]
  {
    if |t| > 0 {
      BaseUrlsDistinct(t[..|t| - 1]);
    }
  }

  lemma {:induction false} BaseUrlsCover(t: Table, b: string)
    ensures b in BaseUrls(t) <==> exists k :: 0 <= k < |t| && t[k].baseUrl == b
  {
    if |t| > 0 {
      var n := |t| - 1;
      BaseUrlsCover(t[..n], b);
      if exists k :: 0 <= k < |t| && t[k].baseUrl == b {
        var k :| 0 <= k < |t| && t[k].baseUrl == b;
        if k < n {
          assert t[..n][k].baseUrl == b;
        }
      }
      if b in BaseUrls(t[..n]) {
        var k :| 0 <= k < n && t[..n][k].baseUrl == b;
        assert t[k].baseUrl == b;
      }
    }
  }

  // ---------------------------------------------------------------------------
  // Probing one upstream
  // ---------------------------------------------------------------------------

  /** The outcome of one probe GET: it raised (with its text), or it answered with a status. */
  datatype ProbeReply = ProbeError(detail: string) | ProbeStatus(code: int)

  /** The probe client, as a function from URL to outcome. */
  type Prober = string -> ProbeReply

  /** One entry of `results`: `ok`, the models, `error`, and the URLs probed in order. */
  datatype UpstreamHealth = UpstreamHealth(ok: bool, models: seq<string>, error: Option<string>, probed: seq<string>)

  function HealthUrl(b: string): string {
    Upstreams.JoinUpstreamUrl(b, "/health")
  }

  function ModelsUrl(b: string): string {
    Upstreams.JoinUpstreamUrl(b, "/v1/models")
  }

  /** Reference: an upstream is healthy when either endpoint answers 200. */
  predicate UpstreamOk(b: string, probe: Prober) {
    probe(HealthUrl(b)) == ProbeStatus(200) || probe(ModelsUrl(b)) == ProbeStatus(200)
  }

  /** The body of the per-upstream loop of `_build_health_payload`. */
  function CheckUpstream(b: string, models: seq<string>, probe: Prober): (h: UpstreamHealth)
    ensures h.ok <==> UpstreamOk(b, probe)
    ensures h.models == models
    ensures h.probed == if probe(HealthUrl(b)) == ProbeStatus(200) then [HealthUrl(b)] else [HealthUrl(b), ModelsUrl(b)]
    ensures h.error.None? <==> probe(HealthUrl(b)) == ProbeStatus(200)
  {
    var first := probe(HealthUrl(b));
    var err1: Option<string> :=
      match first
      case ProbeStatus(c) => if c == 200 then None else Some("/health -> " + IntToString(c))
      case ProbeError(d) => Some("/health error: " + d);
    if first == ProbeStatus(200) then UpstreamHealth(true, models, err1, [HealthUrl(b)])
    else
      var second := probe(ModelsUrl(b));
      var err2: Option<string> :=
        match second
        case ProbeStatus(c) => if c == 200 then err1 else Some(err1.GetOr("") + "; /v1/models -> " + IntToString(c))
        case ProbeError(d) => Some(err1.GetOr("") + "; /v1/models error: " + d);
      UpstreamHealth(second == ProbeStatus(200), models, err2, [HealthUrl(b), ModelsUrl(b)])
  }

  // ---------------------------------------------------------------------------
  // The health payload
  // ---------------------------------------------------------------------------

  /** The payload: "ok" or "degraded", and the per-upstream results when details are included. */
  datatype HealthPayload = HealthPayload(status: string, upstreams: Option<seq<(string, UpstreamHealth)>>)

  /** `_build_health_payload(request, include_details=...)` once the table is read. */
  method BuildHealthPayload(t: Table, probe: Prober, includeDetails: bool) returns (p: HealthPayload)
    ensures p.status == "ok" || p.status == "degraded"
    ensures p.status == "ok" <==> forall k :: 0 <= k < |t| ==> UpstreamOk(t[k].baseUrl, probe)
    ensures p.upstreams.Some? <==> includeDetails
    ensures p.upstreams.Some? ==> |p.upstreams.value| == |BaseUrls(t)|
    ensures p.upstreams.Some? ==> forall i :: 0 <= i < |p.upstreams.value| ==>
      ReportsUpstream(t, probe, BaseUrls(t)[i], p.upstreams.value[i])
  {
    var groups := GroupByBaseUrl(t);
    GroupKeysInOrder(t);
    var results: seq<(string, UpstreamHealth)> := [];
    var overallOk := true;
    var i := 0;
    while i < |groups.keys|
      invariant 0 <= i <= |groups.keys|
      invariant |results| == i
      invariant i <= |BaseUrls(t)| && ReportsAll(t, probe, results)
      invariant overallOk <==> forall j :: 0 <= j < i ==> UpstreamOk(BaseUrls(t)[j], probe)
    {
      var b := groups.keys[i];
      GroupReport(t, probe, i);
      var h := CheckUpstream(b, groups.members[b], probe);
      ReportsExtend(t, probe, results, (b, h));
      results := results + [(b, h)];
      overallOk := overallOk && h.ok;
      i := i + 1;
    }
    HealthOverTable(t, probe, overallOk);
    assert forall j :: 0 <= j < |results| ==> ReportsUpstream(t, probe, BaseUrls(t)[j], results[j]);
    var status := if overallOk then "ok" else "degraded";
    if includeDetails {
      return HealthPayload(status, Some(results));
    }
    return HealthPayload(status, None);
  }

  /** The `i`-th group is the `i`-th distinct base URL, and checking it reports on that upstream. */
  lemma GroupReport(t: Table, probe: Prober, i: nat)
    requires i < |GroupByBaseUrl(t).keys|
    ensures var g := GroupByBaseUrl(t);
      && i < |BaseUrls(t)| && g.keys[i] == BaseUrls(t)[i] && g.keys[i] in g.members
      && ReportsUpstream(t, probe, BaseUrls(t)[i], (g.keys[i], CheckUpstream(g.keys[i], g.members[g.keys[i]], probe)))
  {
    var g := GroupByBaseUrl(t);
    GroupKeysInOrder(t);
    GroupingIsFilter(t, g.keys[i]);
  }

  /** `entry` is the report on upstream `b`: its name, and the check of `b` listing all of its
      models, with the check's verdict, error and probed URLs. */
  predicate ReportsUpstream(t: Table, probe: Prober, b: string, entry: (string, UpstreamHealth)) {
    entry.0 == b && entry.1 == CheckUpstream(b, ModelsAt(t, b), probe)
  }

  /** `results` reports on the first `|results|` distinct upstreams, in order. */
  predicate ReportsAll(t: Table, probe: Prober, results: seq<(string, UpstreamHealth)>) {
    |results| <= |BaseUrls(t)| && forall j :: 0 <= j < |results| ==> ReportsUpstream(t, probe, BaseUrls(t)[j], results[j])
  }

  lemma ReportsExtend(t: Table, probe: Prober, results: seq<(string, UpstreamHealth)>, entry: (string, UpstreamHealth))
    requires ReportsAll(t, probe, results) && |results| < |BaseUrls(t)|
    requires ReportsUpstream(t, probe, BaseUrls(t)[|results|], entry)
    ensures ReportsAll(t, probe, results + [entry])
  {
  }

  /** Checking every distinct upstream is checking every configured model's upstream. */
  lemma HealthOverTable(t: Table, probe: Prober, overallOk: bool)
    requires overallOk <==> forall j :: 0 <= j < |BaseUrls(t)| ==> UpstreamOk(BaseUrls(t)[j], probe)
    ensures overallOk <==> forall k :: 0 <= k < |t| ==> UpstreamOk(t[k].baseUrl, probe)
  {
    if overallOk {
      forall k | 0 <= k < |t| ensures UpstreamOk(t[k].baseUrl, probe) {
        var b := t[k].baseUrl;
        BaseUrlsCover(t, b);
        var j :| 0 <= j < |BaseUrls(t)| && BaseUrls(t)[j] == b;
      }
    } else {
      var j :| 0 <= j < |BaseUrls(t)| && !UpstreamOk(BaseUrls(t)[j], probe);
      BaseUrlsCover(t, BaseUrls(t)[j]);
      var k :| 0 <= k < |t| && t[k].baseUrl == BaseUrls(t)[j];
    }
  }

  /** `GET /health`: details only when the environment switch is on. */
  method Health(provider: Option<ConfigRead>, detailsRaw: Option<string>, probe: Prober) returns (r: Result<HealthPayload, ApiError>)
    ensures Cfg(provider).Failure? ==> r == Failure(ConfigFailure(Cfg(provider).error))
    ensures Cfg(provider).Success? ==> r.Success? && (r.value.upstreams.Some? <==> PublicDetails(detailsRaw))
    ensures Cfg(provider).Success? ==>
      (r.value.status == "ok" <==> forall k :: 0 <= k < |Cfg(provider).value| ==> UpstreamOk(Cfg(provider).value[k].baseUrl, probe))
    ensures Cfg(provider).Success? && r.value.upstreams.Some? ==>
      var t := Cfg(provider).value;
      && |r.value.upstreams.value| == |BaseUrls(t)|
      && forall i :: 0 <= i < |r.value.upstreams.value| ==> ReportsUpstream(t, probe, BaseUrls(t)[i], r.value.upstreams.value[i])
  {
    match Cfg(provider)
    case Failure(e) => return Failure(ConfigFailure(e));
    case Success(t) =>
      var p := BuildHealthPayload(t, probe, PublicDetails(detailsRaw));
      return Success(p);
  }

  /** `GET /internal/health`: always with details. */
  method InternalHealth(provider: Option<ConfigRead>, probe: Prober) returns (r: Result<HealthPayload, ApiError>)
    ensures Cfg(provider).Failure? ==> r == Failure(ConfigFailure(Cfg(provider).error))
    ensures Cfg(provider).Success? ==> r.Success? && r.value.upstreams.Some?
    ensures Cfg(provider).Success? ==>
      var t := Cfg(provider).value;
      && |r.value.upstreams.value| == |BaseUrls(t)|
      && forall i :: 0 <= i < |r.value.upstreams.value| ==> ReportsUpstream(t, probe, BaseUrls(t)[i], r.value.upstreams.value[i])
    ensures Cfg(provider).Success? ==>
      (r.value.status == "ok" <==> forall k :: 0 <= k < |Cfg(provider).value| ==> UpstreamOk(Cfg(provider).value[k].baseUrl, probe))
  {
    match Cfg(provider)
    case Failure(e) => return Failure(ConfigFailure(e));
    case Success(t) =>
      var p := BuildHealthPayload(t, probe, true);
      return Success(p);
  }

  // ---------------------------------------------------------------------------
  // String order and sorting
  // ---------------------------------------------------------------------------

  /** Python's `<=` on `str`: lexicographic by code point. */
  predicate StrLe(a: string, b: string) {
    |a| == 0 || (|b| > 0 && (a[0] < b[0] || (a[0] == b[0] && StrLe(a[1..], b[1..]))))
  }

  lemma {:induction false} StrLeTotal(a: string, b: string)
    ensures StrLe(a, b) || StrLe(b, a)
  {
    if |a| > 0 && |b| > 0 && a[0] == b[0] {
      StrLeTotal(a[1..], b[1..]);
    }
  }

  lemma {:induction false} StrLeReflexive(a: string)
    ensures StrLe(a, a)
  {
    if |a| > 0 {
      StrLeReflexive(a[1..]);
    }
  }

  lemma {:induction false} StrLeAntisymmetric(a: string, b: string)
    requires StrLe(a, b) && StrLe(b, a)
    ensures a == b
  {
    if |a| > 0 {
      StrLeAntisymmetric(a[1..], b[1..]);
      assert a == [a[0]] + a[1..] && b == [b[0]] + b[1..];
    }
  }

  lemma {:induction false} StrLeTransitive(a: string, b: string, c: string)
    requires StrLe(a, b) && StrLe(b, c)
    ensures StrLe(a, c)
  {
    if |a| > 0 && a[0] == b[0] && b[0] == c[0] {
      StrLeTransitive(a[1..], b[1..], c[1..]);
    }
  }

  predicate Sorted(s: seq<string>) {
    forall i, j :: 0 <= i < j < |s| ==> StrLe(s[i], s[j])
  }

  /** Inserts `x` before the first element it does not exceed. */
  function Insert(x: string, s: seq<string>): (r: seq<string>)
    requires Sorted(s)
    ensures Sorted(r) && multiset(r) == multiset(s) + multiset{x}
  {
    if |s| == 0 then [x]
    else if StrLe(x, s[0]) then
      InsertFront(x, s);
      [x] + s
    else
      var rest := Insert(x, s[1..]);
      StrLeTotal(x, s[0]);
      InsertBehind(s, x, rest);
      assert s == [s[0]] + s[1..];
      [s[0]] + rest
  }

  lemma InsertFront(x: string, s: seq<string>)
    requires Sorted(s) && |s| > 0 && StrLe(x, s[0])
    ensures Sorted([x] + s)
  {
    forall j | 0 < j < |s| + 1 ensures StrLe(x, ([x] + s)[j]) {
      if j > 1 { StrLeTransitive(x, s[0], s[j - 1]); }
    }
  }

  lemma InsertBehind(s: seq<string>, x: string, rest: seq<string>)
    requires Sorted(s) && |s| > 0 && StrLe(s[0], x)
    requires Sorted(rest) && multiset(rest) == multiset(s[1..]) + multiset{x}
    ensures Sorted([s[0]] + rest)
  {
    forall j | 0 <= j < |rest| ensures StrLe(s[0], rest[j]) {
      assert rest[j] in multiset(rest);
      if rest[j] != x {
        assert rest[j] in multiset(s[1..]);
        var k :| 0 <= k < |s[1..]| && s[1..][k] == rest[j];
        assert s[k + 1] == rest[j];
      }
    }
  }

  /** `sorted(...)` of a list of strings. */
  function SortStrings(s: seq<string>): (r: seq<string>)
    ensures Sorted(r) && multiset(r) == multiset(s)
  {
    if |s| == 0 then []
    else
      assert s == [s[0]] + s[1..];
      Insert(s[0], SortStrings(s[1..]))
  }

  /** A multiset has one sorted arrangement, so this sort is the one Python's `sorted` returns. */
  lemma {:induction false} SortedUnique(a: seq<string>, b: seq<string>)
    requires Sorted(a) && Sorted(b) && multiset(a) == multiset(b)
    ensures a == b
  {
    if |a| > 0 {
      SortedHeads(a, b);
      assert a == [a[0]] + a[1..] && b == [b[0]] + b[1..];
      assert multiset(a[1..]) == multiset(a) - multiset{a[0]};
      assert multiset(b[1..]) == multiset(b) - multiset{b[0]};
      SortedTail(a);
      SortedTail(b);
      SortedUnique(a[1..], b[1..]);
    } else {
      assert |b| == |multiset(b)| == 0;
    }
  }

  lemma SortedTail(a: seq<string>)
    requires Sorted(a) && |a| > 0
    ensures Sorted(a[1..])
  {
    forall i, j | 0 <= i < j < |a| - 1 ensures StrLe(a[1..][i], a[1..][j]) {
      assert a[1..][i] == a[i + 1] && a[1..][j] == a[j + 1];
    }
  }

  /** The first element of a sorted arrangement is the least element of the multiset. */
  lemma SortedHeads(a: seq<string>, b: seq<string>)
    requires Sorted(a) && Sorted(b) && multiset(a) == multiset(b) && |a| > 0
    ensures |b| > 0 && a[0] == b[0]
  {
    assert a[0] in multiset(b);
    var i :| 0 <= i < |b| && b[i] == a[0];
    assert b[0] in multiset(a);
    var k :| 0 <= k < |a| && a[k] == b[0];
    StrLeReflexive(a[0]);
    assert StrLe(b[0], a[0]) by { if i > 0 { assert StrLe(b[0], b[i]); } }
    assert StrLe(a[0], b[0]) by { if k > 0 { assert StrLe(a[0], a[k]); } }
    StrLeAntisymmetric(a[0], b[0]);
  }

  // ---------------------------------------------------------------------------
  // GET /v1/models
  // ---------------------------------------------------------------------------

  /** One item of `data`. */
  datatype ModelCard = ModelCard(id: string, kind: string, ownedBy: string)

  /** `{"object": "list", "data": ...}`. */
  datatype ModelList = ModelList(kind: string, data: seq<ModelCard>)

  function Ids(cards: seq<ModelCard>): (r: seq<string>)
    ensures |r| == |cards| && forall i :: 0 <= i < |cards| ==> r[i] == cards[i].id
  {
    seq(|cards|, i requires 0 <= i < |cards| => cards[i].id)
  }

  /** `list_models(request)`. */
  function ListModels(provider: Option<ConfigRead>): (r: Result<ModelList, ApiError>)
    ensures Cfg(provider).Failure? ==> r == Failure(ConfigFailure(Cfg(provider).error))
    ensures Cfg(provider).Success? ==> r.Success? && r.value.kind == "list"
    ensures r.Success? ==> Sorted(Ids(r.value.data)) && multiset(Ids(r.value.data)) == multiset(Models(Cfg(provider).value))
    ensures r.Success? ==> forall i :: 0 <= i < |r.value.data| ==> r.value.data[i].kind == "model" && r.value.data[i].ownedBy == "proxy"
  {
    match Cfg(provider)
    case Failure(e) => Failure(ConfigFailure(e))
    case Success(t) =>
      var ids := SortStrings(Models(t));
      var cards := seq(|ids|, i requires 0 <= i < |ids| => ModelCard(ids[i], "model", "proxy"));
      assert Ids(cards) == ids;
      Success(ModelList("list", cards))
  }

  lemma {:induction false} DistinctOnce(s: seq<string>, x: string)
    requires forall i, j :: 0 <= i < j < |s| ==> s[i] != s[j]
    ensures multiset(s)[x] <= 1
  {
    if |s| > 0 {
      DistinctOnce(s[1..], x);
      assert s == [s[0]] + s[1..];
      if s[0] == x {
        assert x !in s[1..];
      }
    }
  }

  predicate Distinct(s: seq<string>) {
    forall i, j :: 0 <= i < j < |s| ==> s[i] != s[j]
  }

  /** A rearrangement of a list without repeats has none either. */
  lemma PermutationKeepsDistinct(a: seq<string>, b: seq<string>)
    requires multiset(a) == multiset(b) && Distinct(a)
    ensures Distinct(b)
  {
    forall i, j | 0 <= i < j < |b| ensures b[i] != b[j] {
      DistinctOnce(a, b[i]);
      RepeatCounts(b, i, j);
    }
  }

  lemma RepeatCounts(b: seq<string>, i: nat, j: nat)
    requires i < j < |b|
    ensures b[i] == b[j] ==> multiset(b)[b[i]] >= 2
  {
    assert b == b[..i] + [b[i]] + b[i + 1..j] + [b[j]] + b[j + 1..];
  }

  /** For a loaded table (distinct models), the listing names every model exactly once, in
      strictly increasing order. */
  lemma ListedOnceInOrder(provider: Option<ConfigRead>)
    requires Cfg(provider).Success? && DistinctModels(Cfg(provider).value)
    ensures var ids := Ids(ListModels(provider).value.data);
      && |ids| == |Cfg(provider).value|
      && Sorted(ids) && Distinct(ids)
      && forall m :: m in ids <==> HasModel(Cfg(provider).value, m)
  {
    var t := Cfg(provider).value;
    var ids := Ids(ListModels(provider).value.data);
    var ms := Models(t);
    assert |ids| == |multiset(ids)| == |multiset(ms)| == |ms|;
    PermutationKeepsDistinct(ms, ids);
    forall m ensures m in ids <==> HasModel(t, m) {
      assert m in ids <==> m in multiset(ids);
      assert m in ms <==> m in multiset(ms);
      if m in ms {
        var k :| 0 <= k < |ms| && ms[k] == m;
        assert t[k].model == m;
      }
      if HasModel(t, m) {
        var k :| 0 <= k < |t| && t[k].model == m;
        assert ms[k] == m;
      }
    }
  }
}
