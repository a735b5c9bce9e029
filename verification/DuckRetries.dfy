/**
 Sending a write to the tables again: what is promised of a retry, and exactly
 when the tables keep that promise.
 */
module DuckRetries {
  import opened Wrappers
  import opened Lineage
  import opened Patching
  import opened Ordering
  import opened Sequences
  import opened MemoryStore
  import opened DuckTables
  import opened DuckListing
  import Api
  import Text

  // ----- Recording again -----

  lemma ReadBackRunsEqual(r: Run, again: Run)
    requires Sorted(AttemptedOf(r.capture), TextKey) && Distinct(AttemptedOf(r.capture))
    requires again == r.(startedAt := again.startedAt)
    ensures RunsEqual(ReadBack(r), again)
       <==> && again.startedAt.ns == Text.WrapInt64(r.startedAt.ns)
            && (r.endedAt.Some? ==> Text.FitsInt64(r.endedAt.value.ns))
            && NoEmpties(r)
  {
    SortedDistinctIsSortedSet(AttemptedOf(r.capture));
    var back := ReadBack(r);
    var a := back.(startedAt := NO_INSTANT, endedAt := None);
    var b := again.(startedAt := NO_INSTANT, endedAt := None);
    assert back.identity == r.identity <==> r.identity.params != Some(map[]);
    assert back.metrics == r.metrics <==> r.metrics != Some(map[]);
    assert back.capture == r.capture <==> (r.capture.Some? ==> r.capture.value.attempted != Some([]));
    assert a == b <==> back.identity == r.identity && back.metrics == r.metrics && back.capture == r.capture;
  }

  lemma NormalizedNoEmpties(r: Run)
    ensures NoEmpties(NormalizeCapture(r)) <==> NoEmpties(r)
  {
  }

  /**
   A new run accepted by the tables and posted again, possibly with another
   start time, is accepted unchanged exactly when it is valid, starts at the
   stored instant, ends within range, and holds no empty map or list.
   */
  lemma RecordAgainExactly(t: Tables, run: Run, startedAt: Instant)
    requires Consistent(t) && run.runID !in t.runs && RecordedT(t, run).1.None?
    ensures var n, again := RecordedT(t, run).0, run.(startedAt := startedAt);
            RecordedT(n, again) == (n, None) <==>
              && Lineage.Valid(again)
              && startedAt.ns == Text.WrapInt64(run.startedAt.ns)
              && (run.endedAt.Some? ==> Text.FitsInt64(run.endedAt.value.ns))
              && NoEmpties(run)
  {
    var r := NormalizeCapture(run);
    NormalizedSorted(run);
    InsertedStoredSelf(t, r);
    NormalizedStart(run, startedAt);
    NormalizedNoEmpties(run);
    ReadBackRunsEqual(r, r.(startedAt := startedAt));
  }

  /** Posted again as it was, a new run is accepted exactly when its instants fit and it holds no empty map or list. */
  lemma RecordTwiceExactly(t: Tables, run: Run)
    requires Consistent(t) && run.runID !in t.runs && RecordedT(t, run).1.None?
    ensures var n := RecordedT(t, run).0;
            RecordedT(n, run) == (n, None) <==> InstantsFit(run) && NoEmpties(run)
  {
    RecordAgainExactly(t, run, run.startedAt);
  }

  /** An empty params map: accepted once, and then a conflict with itself. */
  lemma EmptyParamsConflict(t: Tables, run: Run)
    requires Consistent(t) && run.runID !in t.runs && RecordedT(t, run).1.None?
    requires run.identity.params == Some(map[])
    ensures RecordedT(RecordedT(t, run).0, run).1 == Some(Conflict)
  {
    RecordTwiceExactly(t, run);
  }

  /** What a Get returns can be recorded again. */
  lemma StoredRecordsAgain(t: Tables, id: string)
    requires Consistent(t) && id in t.runs && Lineage.Valid(Stored(t, id))
    ensures RecordedT(t, Stored(t, id)) == (t, None)
  {
    var r := Stored(t, id);
    var fields := AttemptedOf(r.capture);
    NormalizedSorted(r);
    SortedUnique(AttemptedOf(NormalizeCapture(r).capture), fields, TextKey);
  }

  /**
   Over the tables, posting a payload again changes nothing exactly when it
   names its run and the second stamp describes what is stored. For a run
   already known before, that is the same start time; for a new one, the
   start time as stored, an end within range, and no empty map or list.
   */
  lemma RepostExactly(t: Tables, run: Run, now: int, assignedID: string, later: int, otherID: string,
                      norm: string -> string)
    requires Consistent(t) && RecordedT(t, Api.Stamp(run, now, assignedID, norm)).1.None?
    requires otherID !in RecordedT(t, Api.Stamp(run, now, assignedID, norm)).0.runs
    ensures var first, again := Api.Stamp(run, now, assignedID, norm), Api.Stamp(run, later, otherID, norm);
            var n := RecordedT(t, first).0;
            RecordedT(n, again) == (n, None) <==>
              && run.runID != ""
              && if run.runID in t.runs then again.startedAt.ns == first.startedAt.ns
                 else && Lineage.Valid(again)
                      && again.startedAt.ns == Text.WrapInt64(first.startedAt.ns)
                      && (run.endedAt.Some? ==> Text.FitsInt64(run.endedAt.value.ns))
                      && NoEmpties(run)
  {
    var first, again := Api.Stamp(run, now, assignedID, norm), Api.Stamp(run, later, otherID, norm);
    if run.runID == "" {
      NewIDIsInserted(RecordedT(t, first).0, again);
    } else {
      assert again == first.(startedAt := again.startedAt);
      if run.runID in t.runs {
        KnownRunAgain(t, first, again.startedAt);
      } else {
        RecordAgainExactly(t, first, again.startedAt);
      }
    }
  }

  lemma NewIDIsInserted(t: Tables, run: Run)
    requires run.runID !in t.runs
    ensures RecordedT(t, run) != (t, None)
  {
    var r := NormalizeCapture(run);
    assert r.runID in Inserted(t, r).runs;
  }

  lemma KnownRunAgain(t: Tables, run: Run, startedAt: Instant)
    requires Consistent(t) && run.runID in t.runs && RecordedT(t, run).1.None?
    ensures RecordedT(t, run).0 == t
    ensures RecordedT(t, run.(startedAt := startedAt)) == (t, None) <==> startedAt.ns == run.startedAt.ns
  {
    NormalizedStart(run, startedAt);
  }

  // ----- Patching again -----

  ghost function AfterT(t: Tables, ws: seq<Write>): Tables
    decreases |ws|
  {
    if |ws| == 0 then t else AfterT(DuckAnswer(t, WriteCall(ws[0])).0, ws[1..])
  }

  /** The patch of an already stored terminal run writes what is there. */
  lemma OverwrittenBySelf(t: Tables, id: string, p: Patch, now: int)
    requires Consistent(t) && id in t.runs && Terminal(Stored(t, id).status)
    requires ApplyPatch(Stored(t, id), p, now).Ok?
    ensures UpdatedT(t, id, p, now) == (t, Ok(Stored(t, id)))
  {
    var r, delta := Stored(t, id), p.metrics.GetOr(map[]);
    LoadedEntries(t.metrics, id);
    EntriesPresent(t.metrics, id, delta);
    var row := t.runs[id];
    assert ConsistentRow(row) && Nanos(r.endedAt) == row.endedAtNs;
    assert row.(status := r.status, endedAtNs := Nanos(r.endedAt), provenance := r.provenance) == row;
    assert t.runs[id := row] == t.runs;
  }

  lemma EntriesPresent<V>(table: map<(string, string), V>, id: string, m: map<string, V>)
    requires forall k | k in m :: k in EntriesFor(table, id) && EntriesFor(table, id)[k] == m[k]
    ensures table + EntriesOf(id, m) == table
  {
  }

  /** A terminal run stays as it is through any write. */
  lemma StepKeepsTerminal(t: Tables, w: Write, id: string)
    requires Consistent(t) && id in t.runs && Terminal(Stored(t, id).status)
    ensures var n := DuckAnswer(t, WriteCall(w)).0;
            Consistent(n) && id in n.runs && Stored(n, id) == Stored(t, id)
  {
    AnswerAgrees(t, WriteCall(w));
    match w {
      case RecordRun(run) => RecordKeepsOthers(t, run, id);
      case UpdateRun(other, p, now) => UpdateKeepsTerminal(t, other, p, now, id);
    }
  }

  lemma RecordKeepsOthers(t: Tables, run: Run, id: string)
    requires Consistent(t) && id in t.runs
    ensures id in RecordedT(t, run).0.runs && Stored(RecordedT(t, run).0, id) == Stored(t, id)
  {
    var r := NormalizeCapture(run);
    if r.runID !in t.runs { InsertedStoredOther(t, r, id); }
  }

  lemma UpdateKeepsTerminal(t: Tables, other: string, p: Patch, now: int, id: string)
    requires Consistent(t) && id in t.runs && Terminal(Stored(t, id).status)
    ensures id in UpdatedT(t, other, p, now).0.runs && Stored(UpdatedT(t, other, p, now).0, id) == Stored(t, id)
  {
    if other in t.runs && ApplyPatch(Stored(t, other), p, now).Ok? {
      if other == id {
        OverwrittenBySelf(t, id, p, now);
      } else {
        OverwrittenStoredOther(t, other, ApplyPatch(Stored(t, other), p, now).value, p, id);
      }
    }
  }

  lemma {:induction false} HistoryKeepsTerminal(t: Tables, ws: seq<Write>, id: string)
    requires Consistent(t) && id in t.runs && Terminal(Stored(t, id).status)
    ensures Consistent(AfterT(t, ws)) && id in AfterT(t, ws).runs && Stored(AfterT(t, ws), id) == Stored(t, id)
    decreases |ws|
  {
    if |ws| == 0 {
    } else {
      StepKeepsTerminal(t, ws[0], id);
      HistoryKeepsTerminal(DuckAnswer(t, WriteCall(ws[0])).0, ws[1..], id);
    }
  }

  /** The end time a patch names, if it names one, comes back from the tables. */
  predicate EndFits(p: Patch) {
    p.endedAt.Some? ==> Text.FitsInt64(p.endedAt.value.ns)
  }

  /** A patch that finished a run, applied to what the tables kept of the result. */
  lemma FinishOnReadBack(r: Run, p: Patch, now: int, later: int)
    requires InstantsFit(r) && InUTC(r) && r.metrics != Some(map[])
    requires ApplyPatch(r, p, now).Ok? && Terminal(ApplyPatch(r, p, now).value.status)
    ensures var back := UpdateReadBack(r, ApplyPatch(r, p, now).value, p);
            && (ApplyPatch(back, p, later).Ok? <==> Terminal(r.status) || EndFits(p))
            && (ApplyPatch(back, p, later).Ok? ==> ApplyPatch(back, p, later).value == back)
  {
    var u := ApplyPatch(r, p, now).value;
    UpdateReadBackExact(r, p, now);
    if Terminal(r.status) {
      ApplyIdempotent(r, p, now, later);
    } else {
      FinishedIsNoop(r, p, now);
    }
  }

  /**
   A patch that finished a run and is sent again after any other writes leaves
   the tables as they are. It is accepted exactly when the run was finished
   already or the end time it names fits, and answered with the identical run
   exactly when the tables could hold the update.
   */
  lemma FinishRetriesExactly(t: Tables, id: string, p: Patch, now: int, ws: seq<Write>, later: int)
    requires Consistent(t) && id in t.runs
    requires ApplyPatch(Stored(t, id), p, now).Ok? && Terminal(ApplyPatch(Stored(t, id), p, now).value.status)
    ensures var r, done := Stored(t, id), UpdatedT(t, id, p, now);
            var n := AfterT(done.0, ws);
            && UpdatedT(n, id, p, later).0 == n
            && (UpdatedT(n, id, p, later).1.Ok? <==> Terminal(r.status) || EndFits(p))
            && (UpdatedT(n, id, p, later).1 == done.1 <==> UpdateFits(r, p, now))
  {
    var r, done := Stored(t, id), UpdatedT(t, id, p, now);
    var u := ApplyPatch(r, p, now).value;
    var back := UpdateReadBack(r, u, p);
    StoredFits(t, id);
    ApplyEvolves(r, p, now);
    OverwrittenConsistent(t, id, u, p);
    OverwrittenStoredSelf(t, id, u, p);
    HistoryKeepsTerminal(done.0, ws, id);
    FinishOnReadBack(r, p, now, later);
    UpdateReadBackExact(r, p, now);
    if ApplyPatch(back, p, later).Ok? { OverwrittenBySelf(AfterT(done.0, ws), id, p, later); }
  }

  /** A finish whose end time wraps is accepted once and refused from then on. */
  lemma LateFinishIsRefused(t: Tables, id: string, p: Patch, now: int, later: int)
    requires Consistent(t) && id in t.runs && !Terminal(Stored(t, id).status)
    requires ApplyPatch(Stored(t, id), p, now).Ok? && Terminal(ApplyPatch(Stored(t, id), p, now).value.status)
    requires !EndFits(p)
    ensures UpdatedT(UpdatedT(t, id, p, now).0, id, p, later).1 == Err(IllegalTransition)
  {
    FinishRetriesExactly(t, id, p, now, [], later);
    var n := UpdatedT(t, id, p, now).0;
    assert AfterT(n, []) == n;
  }

  /**
   An accepted patch sent again at once leaves the tables as they are and gets
   the identical answer exactly when it did not finish the run or the tables
   could hold the update.
   */
  lemma RetryAtOnceExactly(t: Tables, id: string, p: Patch, now: int, later: int)
    requires Consistent(t) && UpdatedT(t, id, p, now).1.Ok?
    ensures var r, done := Stored(t, id), UpdatedT(t, id, p, now);
            UpdatedT(done.0, id, p, later) == done <==> !Terminal(done.1.value.status) || UpdateFits(r, p, now)
  {
    var r, done := Stored(t, id), UpdatedT(t, id, p, now);
    var u := done.1.value;
    if Terminal(u.status) {
      FinishRetriesExactly(t, id, p, now, [], later);
      assert AfterT(done.0, []) == done.0;
    } else {
      StoredFits(t, id);
      ApplyEvolves(r, p, now);
      OverwrittenStoredSelf(t, id, u, p);
      UnfinishedOnReadBack(r, p, now, later);
      OverwrittenTwice(t, id, u, p);
    }
  }

  lemma UnfinishedOnReadBack(r: Run, p: Patch, now: int, later: int)
    requires InstantsFit(r) && InUTC(r) && r.metrics != Some(map[])
    requires ApplyPatch(r, p, now).Ok? && !Terminal(ApplyPatch(r, p, now).value.status)
    ensures var u := ApplyPatch(r, p, now).value; ApplyPatch(UpdateReadBack(r, u, p), p, later) == Ok(u)
  {
    var u := ApplyPatch(r, p, now).value;
    ApplyIdempotent(r, p, now, later);
    var delta := p.metrics.GetOr(map[]);
    assert MetricsOf(r) + delta + delta == MetricsOf(r) + delta;
    assert MetricsOf(r) + map[] == MetricsOf(r);
  }

  lemma OverwrittenTwice(t: Tables, id: string, u: Run, p: Patch)
    requires id in t.runs
    ensures Overwritten(Overwritten(t, id, u, p), id, u, p) == Overwritten(t, id, u, p)
  {
    var n := Overwritten(t, id, u, p);
    assert n.runs[id := n.runs[id]] == n.runs;
    var added := EntriesOf(id, p.metrics.GetOr(map[]));
    assert t.metrics + added + added == t.metrics + added;
  }
}
