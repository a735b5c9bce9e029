/** The fingerprint endpoints: the ranked collection, its pages, and one item. */
module SpreadApi {
  import opened Wrappers
  import opened Lineage
  import opened Listing
  import opened Ordering
  import opened Sequences
  import opened Cursors
  import opened MemoryStore
  import opened Stats
  import opened Sums
  import opened Spread
  import Api
  import Base64
  import Fingerprint

  // ----- Collection and item agree -----

  ghost function ListedRuns(m: Ledger, project: string): seq<Run> {
    Rows(Matching(m, NO_FILTER.(project := project)))
  }

  ghost function RunsOf(m: Ledger, fp: string): seq<Run> {
    Rows(Matching(m, NO_FILTER.(fingerprint := fp)))
  }

  lemma {:induction false} RunsWithInOrder(runs: seq<Run>, fp: string)
    requires InOrder(runs)
    ensures InOrder(RunsWith(runs, fp))
  {
    if |runs| == 0 {
    } else {
      var front, last := runs[..|runs| - 1], runs[|runs| - 1];
      RunsWithInOrder(front, fp);
      RunsWithExactly(front, fp);
      var out := RunsWith(front, fp);
      forall i | 0 <= i < |out| ensures Less(RunKey(out[i]), RunKey(last)) {
        assert out[i] in front;
        var k :| 0 <= k < |front| && front[k] == out[i];
        assert runs[k] == out[i] && runs[|runs| - 1] == last;
      }
    }
  }

  lemma PreimageNotEmpty(id: Identity, norm: string -> string)
    ensures Fingerprint.Preimage(id, norm) != ""
  {
    var fields := Fingerprint.ScalarFields(id) + Fingerprint.SortedParamFields(id, norm);
    assert Fingerprint.EncodeFields(fields) == Fingerprint.Field(fields[0]) + Fingerprint.EncodeFields(fields[1..]);
    assert ':' in Fingerprint.Field(fields[0]);
  }

  lemma FingerprintMatches(m: Ledger, fp: string, r: Run)
    requires fp != ""
    ensures r in Matching(m, NO_FILTER.(fingerprint := fp)) <==> r in m.Values && r.fingerprint == fp
  {
    assert forall x: Run :: Matches(x, NO_FILTER.(fingerprint := fp)) <==> x.fingerprint == fp;
  }

  lemma ProjectMatches(m: Ledger, project: string, r: Run)
    ensures r in Matching(m, NO_FILTER.(project := project))
       <==> r in m.Values && (project == "" || r.identity.project == project)
  {
    assert forall x: Run ::
        Matches(x, NO_FILTER.(project := project)) <==> (project == "" || x.identity.project == project);
  }

  /** The runs listed under one fingerprint are all the runs of that fingerprint. */
  lemma ListedRunsOfFingerprint(m: Ledger, norm: string -> string, id: string, project: string)
    requires Api.StampedLedger(m, norm) && id in m
    requires project == "" || project == m[id].identity.project
    ensures RunsWith(ListedRuns(m, project), m[id].fingerprint) == RunsOf(m, m[id].fingerprint)
  {
    var fp := m[id].fingerprint;
    var qp, qf := NO_FILTER.(project := project), NO_FILTER.(fingerprint := fp);
    KeyedApart(m, qp);
    KeyedApart(m, qf);
    RowsList(Matching(m, qp));
    RunsWithInOrder(ListedRuns(m, project), fp);
    RunsWithExactly(ListedRuns(m, project), fp);
    assert Api.Stamped(m[id], norm);
    PreimageNotEmpty(m[id].identity, norm);
    forall r: Run ensures r in Matching(m, qf) <==> r in Matching(m, qp) && r.fingerprint == fp {
      FingerprintMatches(m, fp, r);
      ProjectMatches(m, project, r);
      if r in m.Values && r.fingerprint == fp {
        var other :| other in m && m[other] == r;
        Api.SameFingerprintSameProject(m[id], m[other], norm);
      }
    }
    ListsUnique(RunsWith(ListedRuns(m, project), fp), Matching(m, qf));
  }

  /**
   In a ledger filled through the API, the group listed for a fingerprint,
   under no filter or its own project's, is the group its item endpoint returns.
   */
  lemma ListedGroupIsItem(m: Ledger, norm: string -> string, id: string, project: string)
    requires Api.StampedLedger(m, norm) && id in m
    requires project == "" || project == m[id].identity.project
    ensures OneOf(m[id].fingerprint, RunsOf(m, m[id].fingerprint)) in GroupsOf(ListedRuns(m, project))
  {
    var runs, fp := ListedRuns(m, project), m[id].fingerprint;
    ListedRunsOfFingerprint(m, norm, id, project);
    var q := NO_FILTER.(project := project);
    KeyedApart(m, q);
    RowsList(Matching(m, q));
    ProjectMatches(m, project, m[id]);
    assert m[id] in runs;
    FirstSeenExactly(runs);
    assert fp in FirstSeen(runs);
    var i :| 0 <= i < |FirstSeen(runs)| && FirstSeen(runs)[i] == fp;
    assert GroupsOf(runs)[i] == OneOf(fp, RunsWith(runs, fp));
  }

  lemma UnboundedPage(m: Ledger, q: Query)
    requires q.limit == 0 && q.after.None?
    ensures PageOf(m, q) == Page(Rows(Matching(m, q)), None)
  {
    NoCursorIsMatching(m, q);
  }

  /** One fingerprint's group; `None` is a 404. */
  method SpreadOne(store: Memory, fp: string) returns (g: Option<Group>)
    requires store.Valid()
    ensures g == if RunsOf(store.runs, fp) == [] then None else Some(OneOf(fp, RunsOf(store.runs, fp)))
  {
    UnboundedPage(store.runs, NO_FILTER.(fingerprint := fp));
    var page := store.List(NO_FILTER.(fingerprint := fp));
    if |page.runs| == 0 {
      return None;
    }
    var group := One(fp, page.runs);
    return Some(group);
  }

  // ----- Ranking -----

  /** Squared coefficient of variation; only a zero mean is skipped. */
  function Relative(s: MetricStat): real
    requires s.mean != 0.0
  {
    s.variance / (s.mean * s.mean)
  }

  /** The relative spread of every metric with a non-zero mean. */
  function Relatives(metrics: map<string, MetricStat>): map<string, real> {
    map k | k in metrics && metrics[k].mean != 0.0 :: Relative(metrics[k])
  }

  /** `w` is the greatest of the values, or -1 when there are none above it. */
  ghost predicate IsGreatest(w: real, values: map<string, real>) {
    && (forall k | k in values :: values[k] <= w)
    && (w == -1.0 || exists k | k in values :: values[k] == w)
    && -1.0 <= w
  }

  /** `w` is the widest relative spread among `metrics`, or -1 when none is measurable. */
  ghost predicate IsWidest(w: real, metrics: map<string, MetricStat>) {
    IsGreatest(w, Relatives(metrics))
  }

  lemma GreatestUnique(v: real, w: real, values: map<string, real>)
    requires IsGreatest(v, values) && IsGreatest(w, values)
    ensures v == w
  {
  }

  lemma WidestUnique(v: real, w: real, metrics: map<string, MetricStat>)
    requires IsWidest(v, metrics) && IsWidest(w, metrics)
    ensures v == w
  {
    GreatestUnique(v, w, Relatives(metrics));
  }

  /** The variance is the `w`-fold square of a mean that can be divided by. */
  ghost predicate SpreadsBy(s: MetricStat, w: real) {
    s.mean != 0.0 && s.variance == w * (s.mean * s.mean)
  }

  ghost predicate SpreadsAtMost(s: MetricStat, w: real) {
    s.mean != 0.0 ==> s.variance <= w * (s.mean * s.mean)
  }

  lemma GreatestOfNonNegative(w: real, values: map<string, real>)
    requires forall k | k in values :: 0.0 <= values[k]
    ensures IsGreatest(w, values) <==>
            if values.Keys == {} then w == -1.0
            else (forall k | k in values :: values[k] <= w) && exists k | k in values :: values[k] == w
  {
  }

  lemma RelativeScales(s: MetricStat, w: real)
    requires s.mean != 0.0
    ensures SpreadsBy(s, w) <==> Relative(s) == w
    ensures SpreadsAtMost(s, w) <==> Relative(s) <= w
  {
    var d := s.mean * s.mean;
    Square(s.mean);
    assert Relative(s) * d == s.variance;
    assert (w - Relative(s)) * d == w * d - s.variance;
    if Relative(s) <= w { ProductSign(w - Relative(s), d); }
    if Relative(s) > w { ProductSign(Relative(s) - w, d); }
  }

  ghost predicate Measures(value: Option<real>, s: MetricStat, w: real) {
    && (SpreadsBy(s, w) <==> value == Some(w))
    && (SpreadsAtMost(s, w) <==> (value.Some? ==> value.value <= w))
  }

  lemma RelativeMeasures(s: MetricStat, w: real)
    ensures Measures(if s.mean == 0.0 then None else Some(Relative(s)), s, w)
  {
    if s.mean != 0.0 { RelativeScales(s, w); }
  }

  ghost function ValueAt(values: map<string, real>, k: string): Option<real> {
    if k in values then Some(values[k]) else None
  }

  lemma GreatestIsWidest(w: real, metrics: map<string, MetricStat>, values: map<string, real>)
    requires values.Keys == set k | k in metrics && metrics[k].mean != 0.0
    requires forall k | k in values :: 0.0 <= values[k]
    requires forall k | k in metrics :: Measures(ValueAt(values, k), metrics[k], w)
    ensures IsGreatest(w, values) <==>
            if forall k | k in metrics :: metrics[k].mean == 0.0 then w == -1.0
            else (forall k | k in metrics :: SpreadsAtMost(metrics[k], w))
                 && exists k | k in metrics :: SpreadsBy(metrics[k], w)
  {
    GreatestOfNonNegative(w, values);
    assert forall k | k in values :: ValueAt(values, k) == Some(values[k]) && k in metrics;
    assert (forall k | k in metrics :: metrics[k].mean == 0.0) <==> values.Keys == {};
  }

  /** In terms of the summaries: -1 with no mean to divide by, otherwise the spread of one metric and of none less. */
  lemma WidestExactly(w: real, metrics: map<string, MetricStat>)
    requires AllSummaries(metrics)
    ensures IsWidest(w, metrics) <==>
            if forall k | k in metrics :: metrics[k].mean == 0.0 then w == -1.0
            else (forall k | k in metrics :: SpreadsAtMost(metrics[k], w))
                 && exists k | k in metrics :: SpreadsBy(metrics[k], w)
  {
    var values := Relatives(metrics);
    forall k | k in metrics ensures Measures(ValueAt(values, k), metrics[k], w) {
      RelativeMeasures(metrics[k], w);
    }
    forall k | k in values ensures 0.0 <= values[k] {
      var vs :| Summarizes(metrics[k], vs);
      RelativeSign(metrics[k], vs);
    }
    GreatestIsWidest(w, metrics, values);
  }

  method Widest(metrics: map<string, MetricStat>) returns (widest: real)
    ensures IsWidest(widest, metrics)
  {
    widest := -1.0;
    var left := metrics.Keys;
    ghost var values := Relatives(metrics);
    while left != {}
      invariant left <= metrics.Keys
      invariant -1.0 <= widest
      invariant forall k | k in values && k !in left :: values[k] <= widest
      invariant widest == -1.0 || exists k | k in values :: values[k] == widest
      decreases left
    {
      var k :| k in left;
      left := left - {k};
      if metrics[k].mean != 0.0 {
        var cv := Relative(metrics[k]);
        assert k in values && values[k] == cv;
        if cv > widest {
          widest := cv;
        }
      }
    }
  }

  // ----- The documented ranking key -----

  /** The metrics more than one run reported. */
  ghost function Repeated(metrics: map<string, MetricStat>): map<string, MetricStat> {
    map k | k in metrics && metrics[k].count > 1 :: metrics[k]
  }

  /** The key as documented: a metric only one run reported is skipped as well. */
  ghost predicate IsDocumentedWidest(w: real, metrics: map<string, MetricStat>) {
    IsWidest(w, Repeated(metrics))
  }

  /** Some metric can be ranked by; `repeated` says whether more than one run reported it. */
  ghost predicate Measurable(metrics: map<string, MetricStat>, repeated: bool) {
    exists k | k in metrics :: metrics[k].mean != 0.0 && (metrics[k].count > 1 <==> repeated)
  }

  ghost predicate AllSummaries(metrics: map<string, MetricStat>) {
    forall k | k in metrics :: exists vs :: Summarizes(metrics[k], vs)
  }

  lemma QuotientSign(x: real, n: real)
    requires 0.0 <= x && 0.0 < n
    ensures 0.0 <= x / n && (x == 0.0 ==> x / n == 0.0)
  {
    assert x / n * n == x;
    ProductSign(x / n, n);
  }

  /** A relative spread is never negative, and zero for a single sample. */
  lemma RelativeSign(s: MetricStat, vs: seq<real>)
    requires Summarizes(s, vs) && s.mean != 0.0
    ensures 0.0 <= Relative(s)
    ensures s.count <= 1 ==> Relative(s) == 0.0
  {
    Square(s.mean);
    StatBounds(s, vs);
    NoSpreadExactly(s, vs);
    QuotientSign(s.variance, s.mean * s.mean);
  }

  /** Zeros that a part leaves out change its greatest value only when they are all there is. */
  lemma GreatestOfPart(all: map<string, real>, part: map<string, real>, w: real, d: real)
    requires forall k | k in part :: k in all && part[k] == all[k]
    requires forall k | k in all :: 0.0 <= all[k] && (k !in part ==> all[k] == 0.0)
    requires IsGreatest(w, all) && IsGreatest(d, part)
    ensures w == d <==> part.Keys != {} || all.Keys == {}
  {
    if k :| k in part {
      assert 0.0 <= all[k] <= d;
      GreatestUnique(w, d, all);
    } else if k :| k in all {
      assert 0.0 <= w && d == -1.0;
    }
  }

  lemma WidestAsDocumented(metrics: map<string, MetricStat>, w: real, d: real)
    requires AllSummaries(metrics) && IsWidest(w, metrics) && IsDocumentedWidest(d, metrics)
    ensures w == d <==> Measurable(metrics, true) || !Measurable(metrics, false)
  {
    var all, part := Relatives(metrics), Relatives(Repeated(metrics));
    forall k | k in all ensures 0.0 <= all[k] && (k !in part ==> all[k] == 0.0) {
      var vs :| Summarizes(metrics[k], vs);
      RelativeSign(metrics[k], vs);
    }
    GreatestOfPart(all, part, w, d);
    MeasurableKeys(metrics);
  }

  lemma MeasurableKeys(metrics: map<string, MetricStat>)
    ensures Measurable(metrics, true) <==> Relatives(Repeated(metrics)).Keys != {}
    ensures Measurable(metrics, true) || Measurable(metrics, false) <==> Relatives(metrics).Keys != {}
  {
    if k :| k in Relatives(metrics) {
      assert metrics[k].mean != 0.0 && (metrics[k].count > 1 <==> metrics[k].count > 1);
    }
    if k :| k in metrics && metrics[k].mean != 0.0 {
      assert k in Relatives(metrics);
    }
    if k :| k in metrics && metrics[k].mean != 0.0 && metrics[k].count > 1 {
      assert k in Relatives(Repeated(metrics));
    }
    if k :| k in Relatives(Repeated(metrics)) {
      assert k in metrics && metrics[k].mean != 0.0 && metrics[k].count > 1;
    }
  }

  lemma GroupSummaries(fp: string, runs: seq<Run>)
    ensures AllSummaries(OneOf(fp, runs).metrics)
  {
    var terminal := TerminalRuns(runs);
    forall k | k in MetricKeys(terminal) ensures exists vs :: Summarizes(StatOf(ValuesOf(terminal, k)), vs) {
      assert Summarizes(StatOf(ValuesOf(terminal, k)), ValuesOf(terminal, k));
    }
  }

  /**
   A group ranks as documented exactly when some metric that at least two runs
   reported has a non-zero mean, or no metric reported by one run has.
   */
  lemma RanksAsDocumentedExactly(fp: string, runs: seq<Run>, w: real, d: real)
    requires IsWidest(w, OneOf(fp, runs).metrics) && IsDocumentedWidest(d, OneOf(fp, runs).metrics)
    ensures var metrics := OneOf(fp, runs).metrics;
            w == d <==> Measurable(metrics, true) || !Measurable(metrics, false)
  {
    GroupSummaries(fp, runs);
    WidestAsDocumented(OneOf(fp, runs).metrics, w, d);
  }

  lemma SingleReport(fp: string, r: Run, s: Run, k: string, v: real)
    requires Terminal(r.status) && Terminal(s.status)
    requires MetricsOf(r) == map[k := v] && MetricsOf(s) == map[]
    ensures OneOf(fp, [r, s]).metrics == map[k := StatOf([v])]
  {
    TerminalPair(r, s);
    ReportedValue(r, s, k, v);
    assert MetricStatsOf([r, s]) == map[k := StatOf([v])];
  }

  lemma TerminalPair(r: Run, s: Run)
    requires Terminal(r.status) && Terminal(s.status)
    ensures TerminalRuns([r, s]) == [r, s]
  {
    assert [r, s][..1] == [r] && [r][..0] == [];
    assert TerminalRuns([r]) == TerminalRuns([]) + [r];
  }

  lemma ReportedValue(r: Run, s: Run, k: string, v: real)
    requires MetricsOf(r) == map[k := v] && MetricsOf(s) == map[]
    ensures MetricKeys([r, s]) == {k} && ValuesOf([r, s], k) == [v]
  {
    assert [r, s][..1] == [r] && [r][..0] == [];
    assert MetricKeys([r]) == MetricKeys([]) + {k};
    assert ValuesOf([r], k) == ValuesOf([], k) + [v];
  }

  /** Two finished runs, one metric that one of them reported: ranked 0, documented as -1. */
  lemma SingleReportIsRanked(fp: string, r: Run, s: Run, k: string, v: real)
    requires Terminal(r.status) && Terminal(s.status) && v != 0.0
    requires MetricsOf(r) == map[k := v] && MetricsOf(s) == map[]
    ensures IsWidest(0.0, OneOf(fp, [r, s]).metrics) && IsDocumentedWidest(-1.0, OneOf(fp, [r, s]).metrics)
  {
    SingleReport(fp, r, s, k, v);
    var stat := StatOf([v]);
    SumConstant([v], Itself, v);
    assert stat.count == 1 && stat.mean == v;
    RelativeSign(stat, [v]);
    var metrics := map[k := stat];
    assert Relatives(metrics)[k] == 0.0;
    assert Repeated(metrics) == map[];
  }

  datatype Ranked = Ranked(widest: real, group: Group)

  /** Widest spread first, fingerprint breaking ties. */
  function RankKey(r: Ranked): Key {
    Key(-r.widest, r.group.fingerprint)
  }

  /** The wider group comes first; of equally wide ones, the smaller fingerprint. */
  ghost predicate Outranks(r: Ranked, s: Ranked) {
    || r.widest > s.widest
    || (r.widest == s.widest && Before(r.group.fingerprint, s.group.fingerprint))
  }

  ghost predicate Qualifies(r: Ranked, gs: seq<Group>, minRuns: int) {
    r.group in gs && r.group.count >= minRuns && IsWidest(r.widest, r.group.metrics)
  }

  /** `out` holds the qualifying groups, each once, in ranking order. */
  ghost predicate IsRanking(out: seq<Ranked>, gs: seq<Group>, minRuns: int) {
    && (forall i, j :: 0 <= i < j < |out| ==> Outranks(out[i], out[j]))
    && (forall r | r in out :: Qualifies(r, gs, minRuns))
    && (forall g | g in gs && g.count >= minRuns :: exists r | r in out :: r.group == g)
  }

  ghost predicate DistinctFingerprints(gs: seq<Group>) {
    forall i, j | 0 <= i < j < |gs| :: gs[i].fingerprint != gs[j].fingerprint
  }

  method Qualifying(gs: seq<Group>, minRuns: int) returns (out: seq<Ranked>)
    requires DistinctFingerprints(gs)
    ensures forall r | r in out :: Qualifies(r, gs, minRuns)
    ensures forall g | g in gs && g.count >= minRuns :: exists r | r in out :: r.group == g
    ensures forall i, j | 0 <= i < j < |out| :: out[i].group.fingerprint != out[j].group.fingerprint
  {
    out := [];
    for n := 0 to |gs|
      invariant forall r | r in out :: r.group in gs[..n] && Qualifies(r, gs, minRuns)
      invariant forall g | g in gs[..n] && g.count >= minRuns :: exists r | r in out :: r.group == g
      invariant forall i, j | 0 <= i < j < |out| :: out[i].group.fingerprint != out[j].group.fingerprint
    {
      assert gs[..n + 1] == gs[..n] + [gs[n]];
      if gs[n].count >= minRuns {
        var w := Widest(gs[n].metrics);
        ghost var before := out;
        out := out + [Ranked(w, gs[n])];
        assert out[|before|].group == gs[n];
        assert forall r | r in before :: r in out;
      }
    }
    assert gs[..|gs|] == gs;
  }

  method Rank(gs: seq<Group>, minRuns: int) returns (out: seq<Ranked>)
    requires DistinctFingerprints(gs)
    ensures IsRanking(out, gs, minRuns)
  {
    var found := Qualifying(gs, minRuns);
    out := Sort(found, RankKey);
    SortSorted(found, RankKey);
    SameMembers(out, found);
    SameMembers(found, out);
    forall i, j | 0 <= i < j < |out| ensures Outranks(out[i], out[j]) {
      StaysDistinct(found, out, i, j);
      LessTrichotomy(RankKey(out[i]), RankKey(out[j]));
    }
  }

  lemma StaysDistinct(found: seq<Ranked>, out: seq<Ranked>, i: nat, j: nat)
    requires multiset(found) == multiset(out) && i < j < |out|
    requires forall k, l | 0 <= k < l < |found| :: found[k].group.fingerprint != found[l].group.fingerprint
    ensures out[i].group.fingerprint != out[j].group.fingerprint
  {
    DistinctMultiset(found);
    MultiplicityOne(out, set r | r in found);
    SameMembers(out, found);
    assert out[i] in found && out[j] in found;
  }

  /** A group collection has one ranking. */
  lemma RankingUnique(a: seq<Ranked>, b: seq<Ranked>, gs: seq<Group>, minRuns: int)
    requires IsRanking(a, gs, minRuns) && IsRanking(b, gs, minRuns)
    ensures a == b
  {
    RankingSubset(a, b, gs, minRuns);
    RankingSubset(b, a, gs, minRuns);
    RankingSorted(a, gs, minRuns);
    RankingSorted(b, gs, minRuns);
    DistinctMultiset(a);
    DistinctMultiset(b);
    assert (set r | r in a) == (set r | r in b);
    SortedUnique(a, b, RankKey);
  }

  lemma RankingSubset(a: seq<Ranked>, b: seq<Ranked>, gs: seq<Group>, minRuns: int)
    requires IsRanking(a, gs, minRuns) && IsRanking(b, gs, minRuns)
    ensures forall r | r in a :: r in b
  {
    forall r | r in a ensures r in b {
      assert Qualifies(r, gs, minRuns);
      var s :| s in b && s.group == r.group;
      WidestUnique(r.widest, s.widest, r.group.metrics);
    }
  }

  lemma RankingSorted(a: seq<Ranked>, gs: seq<Group>, minRuns: int)
    requires IsRanking(a, gs, minRuns)
    ensures Distinct(a)
    ensures Sorted(a, RankKey) && KeysTellApart(a, RankKey)
  {
    forall i, j | 0 <= i < j < |a| ensures RankKey(a[i]) != RankKey(a[j]) && !Less(RankKey(a[j]), RankKey(a[i])) {
      LessTrichotomy(RankKey(a[i]), RankKey(a[j]));
    }
  }

  // ----- Pages of the ranking -----

  datatype SpreadPage = SpreadPage(groups: seq<Group>, nextCursor: Option<string>)

  function Groups(rs: seq<Ranked>): (gs: seq<Group>)
    ensures |gs| == |rs| && forall i | 0 <= i < |rs| :: gs[i] == rs[i].group
  {
    seq(|rs|, i requires 0 <= i < |rs| => rs[i].group)
  }

  /** Positions after which a token continues. */
  ghost predicate Resumes(gs: seq<Group>, token: string, k: nat) {
    && k <= |gs|
    && if k == 0 then token == ""
       else token != "" && DecodeSpreadCursor(token) == Some(gs[k - 1].fingerprint)
  }

  ghost predicate Tokenable(gs: seq<Group>) {
    && DistinctFingerprints(gs)
    && forall g | g in gs :: Base64.IsBytes(g.fingerprint) && g.fingerprint != ""
  }

  /** Where to go on after a fingerprint: the scan stops behind it, or at the end without finding it. */
  method FindAfter(gs: seq<Group>, fp: string) returns (start: Option<nat>)
    ensures start.None? <==> forall g | g in gs :: g.fingerprint != fp
    ensures start.Some? ==> 0 < start.value <= |gs| && gs[start.value - 1].fingerprint == fp
  {
    var idx := 0;
    while idx < |gs| && gs[idx].fingerprint != fp
      invariant 0 <= idx <= |gs|
      invariant forall k | 0 <= k < idx :: gs[k].fingerprint != fp
    {
      idx := idx + 1;
    }
    if idx == |gs| {
      return None;
    }
    assert gs[idx] in gs;
    return Some(idx + 1);
  }

  lemma TokenResumes(gs: seq<Group>, end: nat)
    requires Tokenable(gs) && 0 < end <= |gs|
    ensures Base64.IsBytes(gs[end - 1].fingerprint) && Resumes(gs, EncodeSpreadCursor(gs[end - 1].fingerprint), end)
  {
    assert gs[end - 1] in gs;
    SpreadCursorRoundTrip(gs[end - 1].fingerprint);
  }

  /** The page from a known position. */
  method PageFrom(gs: seq<Group>, limit: int, start: nat) returns (page: SpreadPage)
    requires Tokenable(gs) && limit > 0 && start <= |gs|
    ensures Continues(gs, limit, start, page)
  {
    var end := if start + limit > |gs| then |gs| else start + limit;
    if end < |gs| {
      TokenResumes(gs, end);
      return SpreadPage(gs[start..end], Some(EncodeSpreadCursor(gs[end - 1].fingerprint)));
    }
    return SpreadPage(gs[start..end], None);
  }

  /** One page of the ranking, found again by a scan for the cursor's fingerprint; `None` is a 400. */
  method ServePage(gs: seq<Group>, limit: int, token: string) returns (page: Option<SpreadPage>)
    requires Tokenable(gs) && limit > 0
    ensures page.None? <==> token != "" && (DecodeSpreadCursor(token).None?
                                            || forall g | g in gs :: g.fingerprint != DecodeSpreadCursor(token).value)
    ensures forall k | 0 <= k <= |gs| && Resumes(gs, token, k) :: page.Some? && Continues(gs, limit, k, page.value)
  {
    var start: nat := 0;
    if token != "" {
      var after := DecodeSpreadCursor(token);
      if after.None? {
        return None;
      }
      var found := FindAfter(gs, after.value);
      if found.None? {
        return None;
      }
      start := found.value;
    }
    var served := PageFrom(gs, limit, start);
    return Some(served);
  }

  /** `page` holds the next `limit` groups from position `k`, and a token exactly when more follow. */
  ghost predicate Continues(gs: seq<Group>, limit: int, k: nat, page: SpreadPage)
    requires limit > 0 && k <= |gs|
  {
    var end := if k + limit > |gs| then |gs| else k + limit;
    && page.groups == gs[k..end]
    && (page.nextCursor.Some? <==> end < |gs|)
    && (page.nextCursor.Some? ==> Resumes(gs, page.nextCursor.value, end))
  }

  // ----- The collection endpoint, request by request -----

  ghost predicate FingerprintsTokenable(m: Ledger) {
    forall id | id in m :: Base64.IsBytes(m[id].fingerprint) && m[id].fingerprint != ""
  }

  lemma RankingTokenable(m: Ledger, project: string, minRuns: int, ranking: seq<Ranked>)
    requires WellKeyed(m) && FingerprintsTokenable(m)
    requires IsRanking(ranking, GroupsOf(ListedRuns(m, project)), minRuns)
    ensures Tokenable(Groups(ranking))
  {
    var runs := ListedRuns(m, project);
    var gs := GroupsOf(runs);
    forall i | 0 <= i < |ranking|
      ensures Base64.IsBytes(ranking[i].group.fingerprint) && ranking[i].group.fingerprint != ""
    {
      assert Qualifies(ranking[i], gs, minRuns);
      GroupFingerprintStored(m, project, ranking[i].group);
    }
    RankingGroupsApart(ranking, gs, minRuns, runs);
  }

  lemma GroupFingerprintStored(m: Ledger, project: string, g: Group)
    requires WellKeyed(m) && g in GroupsOf(ListedRuns(m, project))
    ensures exists id | id in m :: m[id].fingerprint == g.fingerprint
  {
    var runs := ListedRuns(m, project);
    var q := NO_FILTER.(project := project);
    KeyedApart(m, q);
    RowsList(Matching(m, q));
    FirstSeenExactly(runs);
    var i :| 0 <= i < |GroupsOf(runs)| && GroupsOf(runs)[i] == g;
    assert FirstSeen(runs)[i] in FirstSeen(runs);
    var r :| r in runs && r.fingerprint == g.fingerprint;
    assert r in Matching(m, q);
  }

  lemma RankingGroupsApart(ranking: seq<Ranked>, gs: seq<Group>, minRuns: int, runs: seq<Run>)
    requires gs == GroupsOf(runs) && IsRanking(ranking, gs, minRuns)
    ensures DistinctFingerprints(Groups(ranking))
  {
    GroupsPartition(runs);
    forall i, j | 0 <= i < j < |ranking| ensures ranking[i].group.fingerprint != ranking[j].group.fingerprint {
      LessTrichotomy(RankKey(ranking[i]), RankKey(ranking[j]));
      assert ranking[i] in ranking && ranking[j] in ranking;
      assert Qualifies(ranking[i], gs, minRuns) && Qualifies(ranking[j], gs, minRuns);
      if ranking[i].group == ranking[j].group {
        WidestUnique(ranking[i].widest, ranking[j].widest, ranking[i].group.metrics);
      }
    }
  }

  /** Regroups and ranks the ledger afresh on every request, then serves one page. */
  method SpreadList(store: Memory, project: string, minRuns: int, limit: int, token: string, ghost ranking: seq<Ranked>)
    returns (page: Option<SpreadPage>)
    requires store.Valid() && FingerprintsTokenable(store.runs) && limit > 0
    requires IsRanking(ranking, GroupsOf(ListedRuns(store.runs, project)), minRuns)
    ensures page.None? <==>
              token != "" && (DecodeSpreadCursor(token).None?
                              || forall g | g in Groups(ranking) :: g.fingerprint != DecodeSpreadCursor(token).value)
    ensures forall k | 0 <= k <= |ranking| && Resumes(Groups(ranking), token, k) ::
              page.Some? && Continues(Groups(ranking), limit, k, page.value)
  {
    UnboundedPage(store.runs, NO_FILTER.(project := project));
    var listed := store.List(NO_FILTER.(project := project));
    var gs := Compute(listed.runs);
    GroupsPartition(listed.runs);
    var ranked := Rank(gs, minRuns);
    RankingUnique(ranked, ranking, gs, minRuns);
    RankingTokenable(store.runs, project, minRuns, ranking);
    page := ServePage(Groups(ranked), limit, token);
  }

  lemma ContinuesJoin(gs: seq<Group>, limit: int, k: nat, page: SpreadPage, out: seq<Group>)
    requires limit > 0 && k <= |gs| && out == gs[..k] && Continues(gs, limit, k, page)
    ensures |out + page.groups| <= |gs| && out + page.groups == gs[..|out + page.groups|]
    ensures page.nextCursor.None? ==> out + page.groups == gs
    ensures page.nextCursor.Some? ==> |page.groups| > 0 && Resumes(gs, page.nextCursor.value, |out + page.groups|)
  {
    var end := if k + limit > |gs| then |gs| else k + limit;
    assert gs[..k] + gs[k..end] == gs[..end];
    assert gs[..|gs|] == gs;
  }

  /** What a client that has shown `out` does with its next request. */
  method FetchNext(store: Memory, project: string, minRuns: int, limit: int, token: string, out: seq<Group>,
                   ghost ranking: seq<Ranked>)
    returns (more: seq<Group>, next: string)
    requires store.Valid() && FingerprintsTokenable(store.runs) && limit > 0
    requires IsRanking(ranking, GroupsOf(ListedRuns(store.runs, project)), minRuns)
    requires Resumes(Groups(ranking), token, |out|) && out == Groups(ranking)[..|out|]
    ensures |more| <= |ranking| && more == Groups(ranking)[..|more|]
    ensures next == "" ==> more == Groups(ranking)
    ensures next != "" ==> |out| < |more| && Resumes(Groups(ranking), next, |more|)
  {
    var page := SpreadList(store, project, minRuns, limit, token, ranking);
    ContinuesJoin(Groups(ranking), limit, |out|, page.value, out);
    more := out + page.value.groups;
    next := page.value.nextCursor.GetOr("");
  }

  /**
   Following `next_cursor` over an unchanged ledger ends, and shows the whole
   ranking: every qualifying group once, in order.
   */
  method FollowRanking(store: Memory, project: string, minRuns: int, limit: int, ghost ranking: seq<Ranked>)
    returns (out: seq<Group>)
    requires store.Valid() && FingerprintsTokenable(store.runs) && limit > 0
    requires IsRanking(ranking, GroupsOf(ListedRuns(store.runs, project)), minRuns)
    ensures out == Groups(ranking)
  {
    var token;
    out, token := FetchNext(store, project, minRuns, limit, "", [], ranking);
    while token != ""
      invariant |out| <= |ranking| && out == Groups(ranking)[..|out|]
      invariant token == "" ==> out == Groups(ranking)
      invariant token != "" ==> Resumes(Groups(ranking), token, |out|)
      decreases |ranking| - |out|, token != ""
    {
      out, token := FetchNext(store, project, minRuns, limit, token, out, ranking);
    }
  }
}
