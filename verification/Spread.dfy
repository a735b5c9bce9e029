/** Grouping runs by fingerprint and summarizing each group. */
module Spread {
  import opened Lineage
  import opened Ordering
  import opened Sequences
  import opened Stats

  datatype ProvenanceField = OfDevice | OfFrameworkVersion | OfSubmitterClaim | OfJobID

  datatype ProvenanceDiff = ProvenanceDiff(field: ProvenanceField, values: seq<string>)

  datatype Group = Group(
    fingerprint: string,
    runIDs: seq<string>,
    count: nat,
    noRepeats: bool,
    inFlight: nat,
    metrics: map<string, MetricStat>,
    provenance: seq<ProvenanceDiff>)

  // ----- One group -----

  function TerminalRuns(runs: seq<Run>): (terminal: seq<Run>)
    ensures |terminal| <= |runs|
  {
    if |runs| == 0 then []
    else
      var last := runs[|runs| - 1];
      TerminalRuns(runs[..|runs| - 1]) + if Terminal(last.status) then [last] else []
  }

  function IDs(runs: seq<Run>): (ids: seq<string>)
    ensures |ids| == |runs| && forall i | 0 <= i < |runs| :: ids[i] == runs[i].runID
  {
    seq(|runs|, i requires 0 <= i < |runs| => runs[i].runID)
  }

  /** The values runs reported for metric `k`, in run order. */
  function ValuesOf(runs: seq<Run>, k: string): seq<real> {
    if |runs| == 0 then []
    else
      var last := runs[|runs| - 1];
      ValuesOf(runs[..|runs| - 1], k) + if k in MetricsOf(last) then [MetricsOf(last)[k]] else []
  }

  function MetricKeys(runs: seq<Run>): (ks: set<string>)
    ensures forall k :: k in ks <==> |ValuesOf(runs, k)| > 0
  {
    if |runs| == 0 then {}
    else MetricKeys(runs[..|runs| - 1]) + MetricsOf(runs[|runs| - 1]).Keys
  }

  ghost function MetricStatsOf(runs: seq<Run>): map<string, MetricStat> {
    map k | k in MetricKeys(runs) :: StatOf(ValuesOf(runs, k))
  }

  function Field(f: ProvenanceField, r: Run): string {
    match f
    case OfDevice => r.provenance.device
    case OfFrameworkVersion => r.provenance.frameworkVersion
    case OfSubmitterClaim => r.provenance.submitterClaim
    case OfJobID => r.provenance.jobID
  }

  function FieldValues(f: ProvenanceField, runs: seq<Run>): set<string> {
    set r | r in runs :: Field(f, r)
  }

  /** A field is reported when the group's runs do not all agree on it. */
  ghost function DiffOf(f: ProvenanceField, runs: seq<Run>): seq<ProvenanceDiff> {
    if |FieldValues(f, runs)| > 1 then [ProvenanceDiff(f, SortedSet(FieldValues(f, runs)))] else []
  }

  ghost function ProvenanceDiffsOf(runs: seq<Run>): seq<ProvenanceDiff> {
    DiffOf(OfDevice, runs) + DiffOf(OfFrameworkVersion, runs) + DiffOf(OfSubmitterClaim, runs) + DiffOf(OfJobID, runs)
  }

  ghost function OneOf(fingerprint: string, runs: seq<Run>): Group {
    var terminal := TerminalRuns(runs);
    var repeats := |terminal| >= 2;
    Group(fingerprint, Sort(IDs(terminal), TextKey), |terminal|, !repeats, |runs| - |terminal|,
          if repeats then MetricStatsOf(terminal) else map[],
          if repeats then ProvenanceDiffsOf(terminal) else [])
  }

  lemma {:induction false} TerminalIsPart(runs: seq<Run>)
    ensures forall r :: r in TerminalRuns(runs) <==> r in runs && Terminal(r.status)
  {
    if |runs| == 0 {
    } else {
      var front, last := runs[..|runs| - 1], runs[|runs| - 1];
      TerminalIsPart(front);
      assert runs == front + [last];
    }
  }

  method CollectValues(runs: seq<Run>) returns (values: map<string, seq<real>>)
    ensures values.Keys == MetricKeys(runs)
    ensures forall k | k in values :: values[k] == ValuesOf(runs, k)
  {
    values := map[];
    for i := 0 to |runs|
      invariant values.Keys == MetricKeys(runs[..i])
      invariant forall k | k in values :: values[k] == ValuesOf(runs[..i], k)
    {
      assert runs[..i + 1][..i] == runs[..i];
      values := AppendMetrics(values, runs[..i], runs[i]);
    }
    assert runs[..|runs|] == runs;
  }

  method MetricStats(runs: seq<Run>) returns (out: map<string, MetricStat>)
    ensures out == MetricStatsOf(runs)
  {
    var values := CollectValues(runs);
    out := map[];
    var left := values.Keys;
    while left != {}
      invariant left <= values.Keys
      invariant out.Keys == values.Keys - left
      invariant forall k | k in out :: Summarizes(out[k], values[k])
      decreases left
    {
      var k :| k in left;
      var s := Stat(values[k]);
      out, left := out[k := s], left - {k};
    }
    SummariesAreStats(runs, out);
  }

  lemma SummariesAreStats(runs: seq<Run>, out: map<string, MetricStat>)
    requires out.Keys == MetricKeys(runs)
    requires forall k | k in out :: Summarizes(out[k], ValuesOf(runs, k))
    ensures out == MetricStatsOf(runs)
  {
    forall k | k in out ensures out[k] == StatOf(ValuesOf(runs, k)) {
      SummaryUnique(out[k], StatOf(ValuesOf(runs, k)), ValuesOf(runs, k));
    }
  }

  /** The values of metric `k` once run `r` is counted too. */
  function WithRun(before: seq<Run>, r: Run, k: string): seq<real> {
    ValuesOf(before, k) + if k in MetricsOf(r) then [MetricsOf(r)[k]] else []
  }

  /** Adds one run's metrics to the collected values, in whatever order they come. */
  method AppendMetrics(values: map<string, seq<real>>, ghost before: seq<Run>, r: Run)
    returns (out: map<string, seq<real>>)
    requires values.Keys == MetricKeys(before)
    requires forall k | k in values :: values[k] == ValuesOf(before, k)
    ensures out.Keys == MetricKeys(before) + MetricsOf(r).Keys
    ensures forall k | k in out :: out[k] == WithRun(before, r, k)
  {
    out := values;
    var left := MetricsOf(r).Keys;
    while left != {}
      invariant left <= MetricsOf(r).Keys
      invariant out.Keys == values.Keys + (MetricsOf(r).Keys - left)
      invariant forall k | k in out :: out[k] == if k in left then ValuesOf(before, k) else WithRun(before, r, k)
      decreases left
    {
      var k :| k in left;
      var soFar := if k in out then out[k] else [];
      assert soFar == ValuesOf(before, k);
      out := out[k := soFar + [MetricsOf(r)[k]]];
      left := left - {k};
    }
  }

  method DistinctValues(f: ProvenanceField, runs: seq<Run>) returns (values: seq<string>)
    ensures multiset(values) == multiset(FieldValues(f, runs))
  {
    var seen: set<string> := {};
    values := [];
    for i := 0 to |runs|
      invariant seen == FieldValues(f, runs[..i])
      invariant multiset(values) == multiset(seen)
    {
      var v := Field(f, runs[i]);
      FieldValuesStep(f, runs, i);
      if v !in seen {
        AddNew(values, seen, v);
        seen, values := seen + {v}, values + [v];
      }
    }
    assert runs[..|runs|] == runs;
  }

  lemma FieldValuesStep(f: ProvenanceField, runs: seq<Run>, i: nat)
    requires i < |runs|
    ensures FieldValues(f, runs[..i + 1]) == FieldValues(f, runs[..i]) + {Field(f, runs[i])}
  {
    assert runs[..i + 1] == runs[..i] + [runs[i]];
  }

  method DiffField(f: ProvenanceField, runs: seq<Run>) returns (diffs: seq<ProvenanceDiff>)
    ensures diffs == DiffOf(f, runs)
  {
    var values := DistinctValues(f, runs);
    ghost var all := FieldValues(f, runs);
    assert |values| == |multiset(values)| == |multiset(all)| == |all|;
    if |values| > 1 {
      SortedSetUnique(values, all);
      return [ProvenanceDiff(f, Sort(values, TextKey))];
    }
    return [];
  }

  method One(fingerprint: string, runs: seq<Run>) returns (g: Group)
    ensures g == OneOf(fingerprint, runs)
  {
    var terminal: seq<Run> := [];
    var inFlight := 0;
    for i := 0 to |runs|
      invariant terminal == TerminalRuns(runs[..i])
      invariant inFlight == i - |terminal|
    {
      assert runs[..i + 1][..i] == runs[..i];
      if Terminal(runs[i].status) {
        terminal := terminal + [runs[i]];
      } else {
        inFlight := inFlight + 1;
      }
    }
    assert runs[..|runs|] == runs;
    TerminalIsPart(runs);
    g := Group(fingerprint, Sort(IDs(terminal), TextKey), |terminal|, false, inFlight, map[], []);
    if |terminal| < 2 {
      return g.(noRepeats := true);
    }
    var metrics := MetricStats(terminal);
    var device := DiffField(OfDevice, terminal);
    var framework := DiffField(OfFrameworkVersion, terminal);
    var submitter := DiffField(OfSubmitterClaim, terminal);
    var job := DiffField(OfJobID, terminal);
    g := g.(metrics := metrics, provenance := device + framework + submitter + job);
  }

  // ----- All groups -----

  /** The runs of one fingerprint, in listing order. */
  function RunsWith(runs: seq<Run>, fp: string): seq<Run> {
    if |runs| == 0 then []
    else
      var last := runs[|runs| - 1];
      RunsWith(runs[..|runs| - 1], fp) + if last.fingerprint == fp then [last] else []
  }

  /** Fingerprints in order of first appearance. */
  function FirstSeen(runs: seq<Run>): seq<string> {
    if |runs| == 0 then []
    else
      var order, fp := FirstSeen(runs[..|runs| - 1]), runs[|runs| - 1].fingerprint;
      if fp in order then order else order + [fp]
  }

  ghost function GroupsOf(runs: seq<Run>): (gs: seq<Group>)
    ensures |gs| == |FirstSeen(runs)|
    ensures forall i | 0 <= i < |gs| :: gs[i] == OneOf(FirstSeen(runs)[i], RunsWith(runs, FirstSeen(runs)[i]))
  {
    seq(|FirstSeen(runs)|, i requires 0 <= i < |FirstSeen(runs)| =>
      OneOf(FirstSeen(runs)[i], RunsWith(runs, FirstSeen(runs)[i])))
  }

  method CollectByFingerprint(runs: seq<Run>) returns (byFP: map<string, seq<Run>>, order: seq<string>)
    ensures order == FirstSeen(runs)
    ensures forall fp | fp in order :: fp in byFP && byFP[fp] == RunsWith(runs, fp)
  {
    byFP, order := map[], [];
    for i := 0 to |runs|
      invariant order == FirstSeen(runs[..i])
      invariant forall fp | fp in byFP :: fp in order && byFP[fp] == RunsWith(runs[..i], fp)
      invariant forall fp | fp in order :: fp in byFP
    {
      var r := runs[i];
      assert runs[..i + 1][..i] == runs[..i];
      if r.fingerprint !in byFP {
        NotSeenYet(runs[..i], r.fingerprint);
        order := order + [r.fingerprint];
        byFP := byFP[r.fingerprint := [r]];
      } else {
        byFP := byFP[r.fingerprint := byFP[r.fingerprint] + [r]];
      }
    }
    assert runs[..|runs|] == runs;
  }

  lemma {:induction false} NotSeenYet(runs: seq<Run>, fp: string)
    requires fp !in FirstSeen(runs)
    ensures RunsWith(runs, fp) == []
  {
    if |runs| == 0 {
    } else {
      NotSeenYet(runs[..|runs| - 1], fp);
    }
  }

  method Compute(runs: seq<Run>) returns (groups: seq<Group>)
    ensures groups == GroupsOf(runs)
  {
    var byFP, order := CollectByFingerprint(runs);
    ghost var all := GroupsOf(runs);
    groups := [];
    for i := 0 to |order|
      invariant groups == all[..i]
    {
      var g := One(order[i], byFP[order[i]]);
      OneMore(all, i);
      groups := groups + [g];
    }
  }

  // ----- Grouping is a partition -----

  function Members(gs: seq<Group>): nat {
    if |gs| == 0 then 0 else gs[0].count + gs[0].inFlight + Members(gs[1..])
  }

  function Sizes(order: seq<string>, runs: seq<Run>): nat {
    if |order| == 0 then 0 else |RunsWith(runs, order[0])| + Sizes(order[1..], runs)
  }

  lemma {:induction false} FirstSeenExactly(runs: seq<Run>)
    ensures Distinct(FirstSeen(runs))
    ensures forall fp :: fp in FirstSeen(runs) <==> exists r :: r in runs && r.fingerprint == fp
  {
    if |runs| == 0 {
    } else {
      var front, last := runs[..|runs| - 1], runs[|runs| - 1];
      FirstSeenExactly(front);
      assert runs == front + [last];
    }
  }

  /** Before the first run of the later fingerprint there is one of the earlier. */
  ghost predicate SeenBefore(runs: seq<Run>, earlier: string, later: string, p: int) {
    && 0 <= p < |runs| && runs[p].fingerprint == earlier
    && forall k | 0 <= k <= p :: runs[k].fingerprint != later
  }

  /** Fingerprints come in the order in which they first appear. */
  lemma {:induction false} FirstSeenInOrder(runs: seq<Run>, i: nat, j: nat)
    requires i < j < |FirstSeen(runs)|
    ensures exists p :: SeenBefore(runs, FirstSeen(runs)[i], FirstSeen(runs)[j], p)
  {
    var front, last := runs[..|runs| - 1], runs[|runs| - 1];
    var order := FirstSeen(front);
    FirstSeenExactly(front);
    if j < |order| {
      FirstSeenInOrder(front, i, j);
      var p :| SeenBefore(front, order[i], order[j], p);
      assert FirstSeen(runs)[i] == order[i] && FirstSeen(runs)[j] == order[j];
      assert SeenBefore(runs, order[i], order[j], p);
    } else {
      assert FirstSeen(runs)[i] == order[i] && FirstSeen(runs)[j] == last.fingerprint;
      assert order[i] in order;
      var r :| r in front && r.fingerprint == order[i];
      var p :| 0 <= p < |front| && front[p] == r;
      assert forall k | 0 <= k <= p :: runs[k] == front[k] && front[k].fingerprint in order;
      assert SeenBefore(runs, order[i], last.fingerprint, p);
    }
  }

  lemma {:induction false} RunsWithExactly(runs: seq<Run>, fp: string)
    ensures forall r :: r in RunsWith(runs, fp) <==> r in runs && r.fingerprint == fp
  {
    if |runs| == 0 {
    } else {
      var front, last := runs[..|runs| - 1], runs[|runs| - 1];
      RunsWithExactly(front, fp);
      assert runs == front + [last];
    }
  }

  lemma {:induction false} SizesGrow(order: seq<string>, front: seq<Run>, last: Run)
    requires Distinct(order)
    ensures Sizes(order, front + [last]) == Sizes(order, front) + if last.fingerprint in order then 1 else 0
  {
    var runs := front + [last];
    assert runs[..|runs| - 1] == front;
    if |order| == 0 {
    } else {
      SizesGrow(order[1..], front, last);
      assert order == [order[0]] + order[1..];
    }
  }

  lemma {:induction false} SizesAppend(order: seq<string>, fp: string, runs: seq<Run>)
    ensures Sizes(order + [fp], runs) == Sizes(order, runs) + |RunsWith(runs, fp)|
  {
    if |order| == 0 {
      assert order + [fp] == [fp];
      assert Sizes([fp], runs) == |RunsWith(runs, fp)| + Sizes([], runs);
    } else {
      assert (order + [fp])[1..] == order[1..] + [fp];
      SizesAppend(order[1..], fp, runs);
    }
  }

  /** Every run is counted under exactly one first-seen fingerprint. */
  lemma {:induction false} SizesTotal(runs: seq<Run>)
    ensures Sizes(FirstSeen(runs), runs) == |runs|
  {
    if |runs| == 0 {
    } else {
      var front, last := runs[..|runs| - 1], runs[|runs| - 1];
      var order, fp := FirstSeen(front), last.fingerprint;
      assert runs == front + [last];
      SizesTotal(front);
      FirstSeenExactly(front);
      FirstSeenExactly(runs);
      SizesGrow(FirstSeen(runs), front, last);
      if fp !in order {
        SizesAppend(order, fp, front);
        NotSeenYet(front, fp);
      }
    }
  }

  lemma {:induction false} MembersAreSizes(gs: seq<Group>, order: seq<string>, runs: seq<Run>)
    requires |gs| == |order|
    requires forall i | 0 <= i < |gs| :: gs[i] == OneOf(order[i], RunsWith(runs, order[i]))
    ensures Members(gs) == Sizes(order, runs)
  {
    if |gs| == 0 {
    } else {
      MembersAreSizes(gs[1..], order[1..], runs);
      TerminalIsPart(RunsWith(runs, order[0]));
    }
  }

  ghost predicate HasGroup(gs: seq<Group>, fp: string) {
    exists i | 0 <= i < |gs| :: gs[i].fingerprint == fp
  }

  lemma GroupFor(runs: seq<Run>, r: Run)
    requires r in runs
    ensures HasGroup(GroupsOf(runs), r.fingerprint)
  {
    FirstSeenExactly(runs);
    assert r.fingerprint in FirstSeen(runs);
    var i :| 0 <= i < |FirstSeen(runs)| && FirstSeen(runs)[i] == r.fingerprint;
    assert GroupsOf(runs)[i].fingerprint == r.fingerprint;
  }

  /**
   Grouping partitions its input: fingerprints are distinct, every run's
   fingerprint has a group, and finished and in-flight members sum to the
   number of runs.
   */
  lemma GroupsPartition(runs: seq<Run>)
    ensures Members(GroupsOf(runs)) == |runs|
    ensures forall i, j | 0 <= i < j < |GroupsOf(runs)| ::
              GroupsOf(runs)[i].fingerprint != GroupsOf(runs)[j].fingerprint
    ensures forall r | r in runs :: HasGroup(GroupsOf(runs), r.fingerprint)
  {
    SizesTotal(runs);
    FirstSeenExactly(runs);
    MembersAreSizes(GroupsOf(runs), FirstSeen(runs), runs);
    forall r | r in runs { GroupFor(runs, r); }
  }
}
