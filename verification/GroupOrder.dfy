/** A group's summary depends on which runs it has, not on the order they are listed in. */
module GroupOrder {
  import opened Wrappers
  import opened Lineage
  import opened Ordering
  import opened Sums
  import opened Stats
  import opened Spread

  // ----- Picking from a rearranged sequence -----

  function Picked<U>(u: Option<U>): seq<U> {
    if u.None? then [] else [u.value]
  }

  /** What `f` makes of each element, where it makes anything. */
  function Pick<T, U>(s: seq<T>, f: T -> Option<U>): seq<U> {
    if |s| == 0 then [] else Pick(s[..|s| - 1], f) + Picked(f(s[|s| - 1]))
  }

  lemma {:induction false} PickConcat<T, U>(a: seq<T>, b: seq<T>, f: T -> Option<U>)
    ensures Pick(a + b, f) == Pick(a, f) + Pick(b, f)
  {
    if |b| == 0 {
      assert a + b == a;
    } else {
      var front := b[..|b| - 1];
      assert (a + b)[..|a + b| - 1] == a + front;
      PickConcat(a, front, f);
    }
  }

  lemma PickWithout<T, U>(s: seq<T>, k: nat, f: T -> Option<U>)
    requires k < |s|
    ensures multiset(Pick(s, f)) == multiset(Picked(f(s[k]))) + multiset(Pick(Without(s, k), f))
  {
    SplitAt(s, k);
    PickMiddle(s[..k], s[k], s[k + 1..], f);
  }

  lemma PickMiddle<T, U>(front: seq<T>, x: T, back: seq<T>, f: T -> Option<U>)
    ensures multiset(Pick(front + [x] + back, f)) == multiset(Picked(f(x))) + multiset(Pick(front + back, f))
  {
    PickAround(front, x, back, f);
    PickConcat(front, back, f);
    MiddleFirst(Pick(front, f), Picked(f(x)), Pick(back, f));
  }

  lemma PickAround<T, U>(front: seq<T>, x: T, back: seq<T>, f: T -> Option<U>)
    ensures Pick(front + [x] + back, f) == Pick(front, f) + Picked(f(x)) + Pick(back, f)
  {
    PickConcat(front + [x], back, f);
    PickLast(front, x, f);
  }

  lemma PickLast<T, U>(front: seq<T>, x: T, f: T -> Option<U>)
    ensures Pick(front + [x], f) == Pick(front, f) + Picked(f(x))
  {
    assert (front + [x])[..|front|] == front;
  }

  lemma MiddleFirst<U>(a: seq<U>, b: seq<U>, c: seq<U>)
    ensures multiset(a + b + c) == multiset(b) + multiset(a + c)
  {
  }

  lemma {:induction false} PickPermuted<T, U>(a: seq<T>, b: seq<T>, f: T -> Option<U>)
    requires multiset(a) == multiset(b)
    ensures multiset(Pick(a, f)) == multiset(Pick(b, f))
    decreases |a|
  {
    SameMembers(a, b);
    if |a| == 0 {
    } else {
      assert a[0] in b;
      var k :| 0 <= k < |b| && b[k] == a[0];
      WithoutMultiset(a, 0);
      WithoutMultiset(b, k);
      PickWithout(a, 0, f);
      PickWithout(b, k, f);
      assert multiset(Without(a, 0)) == multiset(a) - multiset{a[0]};
      assert multiset(Without(b, k)) == multiset(b) - multiset{a[0]};
      PickPermuted(Without(a, 0), Without(b, k), f);
    }
  }

  // ----- The parts of a group -----

  function IfTerminal(r: Run): Option<Run> {
    if Terminal(r.status) then Some(r) else None
  }

  function IDOf(r: Run): Option<string> {
    Some(r.runID)
  }

  function ValueFor(k: string): Run -> Option<real> {
    r => if k in MetricsOf(r) then Some(MetricsOf(r)[k]) else None
  }

  lemma {:induction false} TerminalRunsArePicked(runs: seq<Run>)
    ensures TerminalRuns(runs) == Pick(runs, IfTerminal)
  {
    if |runs| == 0 {
    } else {
      TerminalRunsArePicked(runs[..|runs| - 1]);
    }
  }

  lemma {:induction false} IDsArePicked(runs: seq<Run>)
    ensures IDs(runs) == Pick(runs, IDOf)
  {
    if |runs| == 0 {
    } else {
      IDsArePicked(runs[..|runs| - 1]);
      assert IDs(runs) == IDs(runs[..|runs| - 1]) + [runs[|runs| - 1].runID];
    }
  }

  lemma {:induction false} ValuesArePicked(runs: seq<Run>, k: string)
    ensures ValuesOf(runs, k) == Pick(runs, ValueFor(k))
  {
    if |runs| == 0 {
    } else {
      ValuesArePicked(runs[..|runs| - 1], k);
    }
  }

  lemma TerminalPermuted(a: seq<Run>, b: seq<Run>)
    requires multiset(a) == multiset(b)
    ensures multiset(TerminalRuns(a)) == multiset(TerminalRuns(b))
  {
    TerminalRunsArePicked(a);
    TerminalRunsArePicked(b);
    PickPermuted(a, b, IfTerminal);
  }

  lemma SortedIDsPermuted(a: seq<Run>, b: seq<Run>)
    requires multiset(a) == multiset(b)
    ensures Sort(IDs(a), TextKey) == Sort(IDs(b), TextKey)
  {
    IDsArePicked(a);
    IDsArePicked(b);
    PickPermuted(a, b, IDOf);
    SameSorted(IDs(a), IDs(b));
  }

  lemma ValuesPermuted(a: seq<Run>, b: seq<Run>, k: string)
    requires multiset(a) == multiset(b)
    ensures multiset(ValuesOf(a, k)) == multiset(ValuesOf(b, k)) && |ValuesOf(a, k)| == |ValuesOf(b, k)|
  {
    ValuesArePicked(a, k);
    ValuesArePicked(b, k);
    PickPermuted(a, b, ValueFor(k));
    SameMembers(ValuesOf(a, k), ValuesOf(b, k));
  }

  lemma MetricStatsPermuted(a: seq<Run>, b: seq<Run>)
    requires multiset(a) == multiset(b)
    ensures MetricStatsOf(a) == MetricStatsOf(b)
  {
    forall k ensures k in MetricKeys(a) <==> k in MetricKeys(b) { ValuesPermuted(a, b, k); }
    forall k | k in MetricKeys(a) ensures StatOf(ValuesOf(a, k)) == StatOf(ValuesOf(b, k)) {
      ValuesPermuted(a, b, k);
      StatPermuted(StatOf(ValuesOf(a, k)), ValuesOf(a, k), ValuesOf(b, k));
      SummaryUnique(StatOf(ValuesOf(a, k)), StatOf(ValuesOf(b, k)), ValuesOf(b, k));
    }
  }

  lemma FieldValuesPermuted(f: ProvenanceField, a: seq<Run>, b: seq<Run>)
    requires multiset(a) == multiset(b)
    ensures FieldValues(f, a) == FieldValues(f, b)
  {
    SameMembers(a, b);
    SameMembers(b, a);
  }

  lemma ProvenanceDiffsPermuted(a: seq<Run>, b: seq<Run>)
    requires multiset(a) == multiset(b)
    ensures ProvenanceDiffsOf(a) == ProvenanceDiffsOf(b)
  {
    FieldValuesPermuted(OfDevice, a, b);
    FieldValuesPermuted(OfFrameworkVersion, a, b);
    FieldValuesPermuted(OfSubmitterClaim, a, b);
    FieldValuesPermuted(OfJobID, a, b);
  }

  /** However its runs are ordered, a group is summarized alike. */
  lemma GroupPermuted(fp: string, a: seq<Run>, b: seq<Run>)
    requires multiset(a) == multiset(b)
    ensures OneOf(fp, a) == OneOf(fp, b)
  {
    SameMembers(a, b);
    TerminalPermuted(a, b);
    var s, t := TerminalRuns(a), TerminalRuns(b);
    SameMembers(s, t);
    SortedIDsPermuted(s, t);
    MetricStatsPermuted(s, t);
    ProvenanceDiffsPermuted(s, t);
  }

  // ----- Which fields a group reports -----

  ghost predicate Reports(diffs: seq<ProvenanceDiff>, f: ProvenanceField) {
    exists d | d in diffs :: d.field == f
  }

  ghost predicate Disagree(runs: seq<Run>, f: ProvenanceField) {
    exists r, s | r in runs && s in runs :: Field(f, r) != Field(f, s)
  }

  lemma TwoValues(values: set<string>, x: string, y: string)
    requires x in values && y in values && x != y
    ensures |values| > 1
  {
    assert |values - {x}| >= 1 by { assert y in values - {x}; }
  }

  lemma ManyValuesDisagree(f: ProvenanceField, runs: seq<Run>)
    ensures |FieldValues(f, runs)| > 1 <==> Disagree(runs, f)
  {
    var values := FieldValues(f, runs);
    if |values| > 1 {
      var x :| x in values;
      assert |values - {x}| >= 1;
      var y :| y in values - {x};
    }
    if Disagree(runs, f) {
      var r, s :| r in runs && s in runs && Field(f, r) != Field(f, s);
      TwoValues(values, Field(f, r), Field(f, s));
    }
  }

  /** A group reports a provenance field exactly when two of its finished runs disagree on it. */
  lemma ReportedExactly(fp: string, runs: seq<Run>, f: ProvenanceField)
    ensures Reports(OneOf(fp, runs).provenance, f) <==> Disagree(TerminalRuns(runs), f)
  {
    var terminal := TerminalRuns(runs);
    ManyValuesDisagree(f, terminal);
    if Disagree(terminal, f) { assert |terminal| >= 2; }
    ReportsOwn(terminal, f);
  }

  lemma ReportsOwn(runs: seq<Run>, f: ProvenanceField)
    ensures Reports(ProvenanceDiffsOf(runs), f) <==> |FieldValues(f, runs)| > 1
  {
    var d, w, s, j := DiffOf(OfDevice, runs), DiffOf(OfFrameworkVersion, runs),
                      DiffOf(OfSubmitterClaim, runs), DiffOf(OfJobID, runs);
    assert forall x :: x in d + w + s + j <==> x in d || x in w || x in s || x in j;
    if |FieldValues(f, runs)| > 1 {
      assert DiffOf(f, runs)[0] in DiffOf(f, runs);
    }
  }

  // ----- A group in terms of the runs it was made from -----

  ghost predicate Finished(runs: seq<Run>, r: Run) {
    r in runs && r.status in {Succeeded, Failed, Cancelled}
  }

  lemma FinishedAreTerminal(runs: seq<Run>, r: Run)
    ensures r in TerminalRuns(runs) <==> Finished(runs, r)
  {
    TerminalIsPart(runs);
  }

  ghost predicate DifferIn(f: ProvenanceField, r: Run, s: Run) {
    match f
    case OfDevice => r.provenance.device != s.provenance.device
    case OfFrameworkVersion => r.provenance.frameworkVersion != s.provenance.frameworkVersion
    case OfSubmitterClaim => r.provenance.submitterClaim != s.provenance.submitterClaim
    case OfJobID => r.provenance.jobID != s.provenance.jobID
  }

  lemma FieldsDiffer(f: ProvenanceField, r: Run, s: Run)
    ensures Field(f, r) != Field(f, s) <==> DifferIn(f, r, s)
  {
  }

  /** Two finished runs have something else in the column. */
  ghost predicate ColumnDiffers(runs: seq<Run>, f: ProvenanceField) {
    exists r, s :: Finished(runs, r) && Finished(runs, s) && DifferIn(f, r, s)
  }

  lemma DisagreeInColumn(runs: seq<Run>, f: ProvenanceField)
    ensures Disagree(TerminalRuns(runs), f) <==> ColumnDiffers(runs, f)
  {
    if Disagree(TerminalRuns(runs), f) {
      var r, s :| r in TerminalRuns(runs) && s in TerminalRuns(runs) && Field(f, r) != Field(f, s);
      FinishedAreTerminal(runs, r);
      FinishedAreTerminal(runs, s);
      FieldsDiffer(f, r, s);
    }
    if ColumnDiffers(runs, f) {
      var r, s :| Finished(runs, r) && Finished(runs, s) && DifferIn(f, r, s);
      FinishedAreTerminal(runs, r);
      FinishedAreTerminal(runs, s);
      FieldsDiffer(f, r, s);
    }
  }

  /** A group reports exactly the columns on which its finished runs differ. */
  lemma ColumnReported(fp: string, runs: seq<Run>, f: ProvenanceField)
    ensures Reports(OneOf(fp, runs).provenance, f) <==> ColumnDiffers(runs, f)
  {
    ReportedExactly(fp, runs, f);
    DisagreeInColumn(runs, f);
  }

  /** A group lists the ids of its finished runs, and no other. */
  lemma IDsExactly(fp: string, runs: seq<Run>, id: string)
    ensures id in OneOf(fp, runs).runIDs <==> exists r | Finished(runs, r) :: r.runID == id
  {
    var terminal := TerminalRuns(runs);
    forall r: Run { FinishedAreTerminal(runs, r); }
    SameMembers(Sort(IDs(terminal), TextKey), IDs(terminal));
    SameMembers(IDs(terminal), Sort(IDs(terminal), TextKey));
    if id in IDs(terminal) {
      var i :| 0 <= i < |terminal| && IDs(terminal)[i] == id;
      assert Finished(runs, terminal[i]);
    }
    if r :| Finished(runs, r) && r.runID == id {
      var i :| 0 <= i < |terminal| && terminal[i] == r;
      assert IDs(terminal)[i] == id;
    }
  }

  /** Where in the listing a finished run reports `v` for the metric. */
  ghost function ReportedAt(runs: seq<Run>, k: string, v: real): (at: set<int>)
    ensures forall i :: i in at <==> 0 <= i < |runs| && Reporting(runs[i], k, v)
  {
    set i | 0 <= i < |runs| && Reporting(runs[i], k, v)
  }

  ghost predicate Reporting(r: Run, k: string, v: real) {
    r.status in {Succeeded, Failed, Cancelled} && k in MetricsOf(r) && MetricsOf(r)[k] == v
  }

  lemma ReportedAtLast(front: seq<Run>, last: Run, k: string, v: real)
    ensures |ReportedAt(front + [last], k, v)| == |ReportedAt(front, k, v)| + if Reporting(last, k, v) then 1 else 0
  {
    assert ReportedAt(front + [last], k, v)
        == ReportedAt(front, k, v) + if Reporting(last, k, v) then {|front|} else {};
  }

  lemma ValuesLast(front: seq<Run>, last: Run, k: string, v: real)
    ensures multiset(ValuesOf(TerminalRuns(front + [last]), k))[v]
         == multiset(ValuesOf(TerminalRuns(front), k))[v] + if Reporting(last, k, v) then 1 else 0
  {
    var before := TerminalRuns(front);
    assert (front + [last])[..|front|] == front;
    if Terminal(last.status) {
      assert TerminalRuns(front + [last]) == before + [last];
      assert (before + [last])[..|before|] == before;
    } else {
      assert TerminalRuns(front + [last]) == before;
    }
  }

  lemma {:induction false} ValuesCounted(runs: seq<Run>, k: string, v: real)
    ensures multiset(ValuesOf(TerminalRuns(runs), k))[v] == |ReportedAt(runs, k, v)|
  {
    if |runs| == 0 {
      assert ReportedAt(runs, k, v) == {};
    } else {
      var front, last := runs[..|runs| - 1], runs[|runs| - 1];
      ValuesCounted(front, k, v);
      assert runs == front + [last];
      ReportedAtLast(front, last, k, v);
      ValuesLast(front, last, k, v);
    }
  }

  /**
   A group with repeats summarizes each metric its finished runs reported, over
   exactly the values they reported, each as often as it was.
   */
  lemma MetricsExactly(fp: string, runs: seq<Run>, k: string) returns (vs: seq<real>)
    ensures forall v :: multiset(vs)[v] == |ReportedAt(runs, k, v)|
    ensures var g := OneOf(fp, runs);
            && (k in g.metrics <==> !g.noRepeats && |vs| > 0)
            && (k in g.metrics ==> Summarizes(g.metrics[k], vs))
  {
    vs := ValuesOf(TerminalRuns(runs), k);
    forall v { ValuesCounted(runs, k, v); }
  }

  ghost function FinishedAt(runs: seq<Run>): (at: set<int>)
    ensures forall i :: i in at <==> 0 <= i < |runs| && runs[i].status in {Succeeded, Failed, Cancelled}
  {
    set i | 0 <= i < |runs| && runs[i].status in {Succeeded, Failed, Cancelled}
  }

  lemma FinishedAtLast(front: seq<Run>, last: Run)
    ensures FinishedAt(front + [last]) == FinishedAt(front) + if Terminal(last.status) then {|front|} else {}
  {
  }

  lemma {:induction false} TerminalCount(runs: seq<Run>)
    ensures |TerminalRuns(runs)| == |FinishedAt(runs)|
  {
    if |runs| == 0 {
      assert FinishedAt(runs) == {};
    } else {
      var front, last := runs[..|runs| - 1], runs[|runs| - 1];
      TerminalCount(front);
      assert runs == front + [last];
      FinishedAtLast(front, last);
    }
  }

  /** Finished runs are counted, the rest are in flight, and fewer than two finished ones are no repeats. */
  lemma CountsExactly(fp: string, runs: seq<Run>)
    ensures var g := OneOf(fp, runs);
            && g.count == |FinishedAt(runs)|
            && g.count + g.inFlight == |runs|
            && (g.noRepeats <==> g.count < 2)
            && (g.noRepeats ==> g.metrics == map[] && g.provenance == [])
  {
    TerminalCount(runs);
  }
}
