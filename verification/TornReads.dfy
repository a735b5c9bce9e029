/**
 Reads that overlap writes.

 The relational backend reads a run with several statements outside any
 transaction. Each sees some committed state, no earlier than the one before.
 */
module TornReads {
  import opened Wrappers
  import opened Lineage
  import opened Patching
  import opened Listing
  import opened MemoryStore
  import opened DuckTables
  import opened DuckListing
  import opened Sequences
  import Text

  /** An end time still follows the start once both are truncated to 64 bits; always so when they fit. */
  predicate EndsInOrder(r: Run) {
    r.endedAt.Some? ==> Text.WrapInt64(r.startedAt.ns) <= Text.WrapInt64(r.endedAt.value.ns)
  }

  /** Whatever the write stores keeps its end behind its start. */
  ghost predicate KeepsOrder(t: Tables, w: Write) {
    match w
    case RecordRun(run) =>
      Lineage.Valid(run) && run.runID !in t.runs && Distinct(AttemptedOf(run.capture)) ==> EndsInOrder(run)
    case UpdateRun(id, p, now) =>
      id in t.runs && ApplyPatch(Stored(t, id), p, now).Ok? ==> EndsInOrder(ApplyPatch(Stored(t, id), p, now).value)
  }

  ghost function Committed(t: Tables, w: Write): Tables {
    DuckAnswer(t, WriteCall(w)).0
  }

  ghost predicate Commits(t: Tables, n: Tables) {
    exists w: Write :: KeepsOrder(t, w) && n == Committed(t, w)
  }

  /** Successive committed states, each one write after the last. */
  ghost predicate History(h: seq<Tables>) {
    && |h| > 0
    && Consistent(h[0])
    && Sound(Abs(h[0]))
    && forall i | 0 <= i < |h| - 1 :: Commits(h[i], h[i + 1])
  }

  /** Truncation is all that can make a run invalid on its way through the tables. */
  lemma ReadBackValid(r: Run)
    requires Lineage.Valid(r)
    ensures Lineage.Valid(ReadBack(r)) <==> EndsInOrder(r)
    ensures ReadBack(r).runID == r.runID
  {
    var fields := set f | f in AttemptedOf(r.capture);
    assert forall f | f in AttemptedOf(ReadBack(r).capture) :: f in fields;
  }

  lemma InsertGrows(m: Ledger, r: Run)
    requires Sound(m) && r.runID !in m
    ensures Grows(m, m[r.runID := r]) <==> Lineage.Valid(r)
  {
    assert m[r.runID := r][r.runID] == r;
  }

  lemma InsertCommitGrows(t: Tables, r: Run)
    requires Consistent(t) && Sound(Abs(t)) && Lineage.Valid(r) && r.runID !in t.runs
    ensures Consistent(Inserted(t, r))
    ensures Grows(Abs(t), Abs(Inserted(t, r))) <==> EndsInOrder(r)
  {
    InsertedAbs(t, r);
    InsertedConsistent(t, r);
    ReadBackValid(r);
    InsertGrows(Abs(t), ReadBack(r));
  }

  lemma SameGrows(m: Ledger)
    requires Sound(m)
    ensures Grows(m, m)
  {
  }

  lemma RecordCommitGrows(t: Tables, run: Run)
    requires Consistent(t) && Sound(Abs(t))
    ensures Consistent(RecordedT(t, run).0)
    ensures Grows(Abs(t), Abs(RecordedT(t, run).0)) <==> KeepsOrder(t, RecordRun(run))
  {
    var r := NormalizeCapture(run);
    NormalizedDistinct(run);
    SameGrows(Abs(t));
    if Lineage.Valid(run) && r.runID !in t.runs && Distinct(AttemptedOf(r.capture)) {
      assert RecordedT(t, run).0 == Inserted(t, r);
      InsertCommitGrows(t, r);
    } else {
      assert RecordedT(t, run).0 == t;
    }
  }

  /** Nor is what the tables lose of an update a step back for the run. */
  lemma UpdateReadBackEvolves(r: Run, p: Patch, now: int)
    requires Lineage.Valid(r) && InstantsFit(r) && InUTC(r) && r.metrics != Some(map[])
    requires ApplyPatch(r, p, now).Ok?
    ensures var u := ApplyPatch(r, p, now).value;
            var back := UpdateReadBack(r, u, p);
            Evolves(r, back) && Lineage.Valid(back) <==> EndsInOrder(u)
  {
    ApplyEvolves(r, p, now);
    UpdateReadBackExact(r, p, now);
  }

  lemma ReplaceGrows(m: Ledger, id: string, u: Run)
    requires Sound(m) && id in m
    ensures Grows(m, m[id := u]) <==> Evolves(m[id], u) && Lineage.Valid(u)
  {
    var n := m[id := u];
    assert n[id] == u;
  }

  lemma UpdateCommitGrows(t: Tables, id: string, p: Patch, now: int)
    requires Consistent(t) && Sound(Abs(t))
    ensures Consistent(UpdatedT(t, id, p, now).0)
    ensures Grows(Abs(t), Abs(UpdatedT(t, id, p, now).0)) <==> KeepsOrder(t, UpdateRun(id, p, now))
  {
    if id in t.runs && ApplyPatch(Stored(t, id), p, now).Ok? {
      var r := Stored(t, id);
      var u := ApplyPatch(r, p, now).value;
      assert r == Abs(t)[id];
      StoredFits(t, id);
      ApplyEvolves(r, p, now);
      OverwrittenAbs(t, id, u, p);
      OverwrittenConsistent(t, id, u, p);
      UpdateReadBackEvolves(r, p, now);
      ReplaceGrows(Abs(t), id, UpdateReadBack(r, u, p));
    }
  }

  /** A committed write only grows the ledger exactly when it keeps ends behind starts. */
  lemma CommitGrows(t: Tables, w: Write)
    requires Consistent(t) && Sound(Abs(t))
    ensures Consistent(Committed(t, w))
    ensures Grows(Abs(t), Abs(Committed(t, w))) <==> KeepsOrder(t, w)
  {
    match w {
      case RecordRun(run) => RecordCommitGrows(t, run);
      case UpdateRun(id, p, now) => UpdateCommitGrows(t, id, p, now);
    }
  }

  lemma StepGrowsTables(t: Tables, n: Tables)
    requires Consistent(t) && Sound(Abs(t)) && Commits(t, n)
    ensures Consistent(n) && Grows(Abs(t), Abs(n))
  {
    var w: Write :| KeepsOrder(t, w) && n == Committed(t, w);
    CommitGrows(t, w);
  }

  lemma {:induction false} HistoryStaysSound(h: seq<Tables>, j: nat)
    requires History(h) && j < |h|
    ensures Consistent(h[j]) && Sound(Abs(h[j]))
  {
    if j == 0 {
    } else {
      HistoryStaysSound(h, j - 1);
      assert Commits(h[j - 1], h[j - 1 + 1]);
      StepGrowsTables(h[j - 1], h[j]);
    }
  }

  /** Any later committed ledger has grown from any earlier one. */
  lemma {:induction false} LaterGrows(h: seq<Tables>, i: nat, j: nat)
    requires History(h) && i <= j < |h|
    ensures Grows(Abs(h[i]), Abs(h[j]))
    decreases j - i
  {
    HistoryStaysSound(h, i);
    if i < j {
      assert Commits(h[i], h[i + 1]);
      StepGrowsTables(h[i], h[i + 1]);
      LaterGrows(h, i + 1, j);
      GrowsTransitive(Abs(h[i]), Abs(h[i + 1]), Abs(h[j]));
    }
  }

  /** Filling a row in from later states changes nothing but its metrics. */
  lemma TornHydration(h: seq<Tables>, t0: nat, t1: nat, t2: nat, t3: nat, id: string)
    requires History(h) && t0 <= t1 <= t2 <= t3 < |h|
    requires id in h[t0].runs
    ensures id in h[t2].runs
    ensures Hydrated(Bare(id, h[t0].runs[id]), h[t1].params, h[t2].metrics, h[t3].attempted)
         == Stored(h[t0], id).(metrics := Stored(h[t2], id).metrics)
  {
    LaterGrows(h, t0, t1);
    LaterGrows(h, t0, t2);
    LaterGrows(h, t0, t3);
    assert id in Abs(h[t0]);
    var now, a, b, c := Stored(h[t0], id), Stored(h[t1], id), Stored(h[t2], id), Stored(h[t3], id);
    assert Evolves(now, a) && Evolves(now, b) && Evolves(now, c);
    assert a.identity == now.identity && c.capture == now.capture;
  }

  /**
   What a torn read may show of a run that stood as `whole` when its row was
   read and as `later` when its metrics were: a valid run with params and
   capture as recorded and at least its row's metrics, and the committed run
   itself if that was terminal.
   */
  ghost predicate TornView(seen: Run, whole: Run, later: Run) {
    && seen == whole.(metrics := later.metrics)
    && Lineage.Valid(seen)
    && MetricsOf(whole).Keys <= MetricsOf(seen).Keys
    && (Terminal(seen.status) ==> seen == whole)
  }

  lemma EvolvedTornView(whole: Run, later: Run)
    requires Evolves(whole, later) && Lineage.Valid(whole)
    ensures TornView(whole.(metrics := later.metrics), whole, later)
  {
  }

  lemma TornRow(h: seq<Tables>, t0: nat, t1: nat, t2: nat, t3: nat, id: string)
    requires History(h) && t0 <= t1 <= t2 <= t3 < |h|
    requires id in h[t0].runs
    ensures id in h[t2].runs
    ensures TornView(Hydrated(Bare(id, h[t0].runs[id]), h[t1].params, h[t2].metrics, h[t3].attempted),
                     Stored(h[t0], id), Stored(h[t2], id))
  {
    TornHydration(h, t0, t1, t2, t3, id);
    LaterGrows(h, t0, t2);
    HistoryStaysSound(h, t0);
    var m, n := Abs(h[t0]), Abs(h[t2]);
    assert id in m;
    assert m[id] == Stored(h[t0], id) && n[id] == Stored(h[t2], id);
    EvolvedTornView(m[id], n[id]);
  }

  /** A read spread over four commits shows the run of the first with the metrics of the third. */
  lemma TornGet(h: seq<Tables>, t0: nat, t1: nat, t2: nat, t3: nat, id: string)
    requires History(h) && t0 <= t1 <= t2 <= t3 < |h|
    requires id in h[t0].runs
    ensures id in Abs(h[t2])
    ensures Read(h[t0], h[t1], h[t2], h[t3], id).Ok?
    ensures TornView(Read(h[t0], h[t1], h[t2], h[t3], id).value, Abs(h[t0])[id], Abs(h[t2])[id])
  {
    TornRow(h, t0, t1, t2, t3, id);
  }

  /** Row `i` of a trimmed scan belongs to some stored id. */
  lemma ScannedRow(t: Tables, q: Query, i: nat) returns (id: string)
    requires i < |Trimmed(Limited(Rows(Selected(t, q)), q.limit), q.limit).runs|
    ensures id in t.runs && Trimmed(Limited(Rows(Selected(t, q)), q.limit), q.limit).runs[i] == Bare(id, t.runs[id])
  {
    SelectedApart(t, q);
    RowsList(Selected(t, q));
    var scan := Rows(Selected(t, q));
    var bare := Trimmed(Limited(scan, q.limit), q.limit).runs[i];
    assert bare == scan[i];
    assert bare in Selected(t, q);
    id :| id in t.runs && RowSelected(id, t.runs[id], q) && bare == Bare(id, t.runs[id]);
  }

  lemma TornListRow(h: seq<Tables>, t0: nat, t1: nat, t2: nat, t3: nat, q: Query, i: nat)
    requires History(h) && t0 <= t1 <= t2 <= t3 < |h|
    requires i < |ReadPage(h[t0], h[t0], h[t0], h[t0], q).runs|
    ensures ReadPage(h[t0], h[t0], h[t0], h[t0], q).runs[i].runID in h[t2].runs
    ensures TornView(ReadPage(h[t0], h[t1], h[t2], h[t3], q).runs[i],
                     ReadPage(h[t0], h[t0], h[t0], h[t0], q).runs[i],
                     Stored(h[t2], ReadPage(h[t0], h[t0], h[t0], h[t0], q).runs[i].runID))
  {
    var id := ScannedRow(h[t0], q, i);
    TornRow(h, t0, t1, t2, t3, id);
  }

  /**
   A page spread over four commits has the rows, order and cursor of the first
   commit's page, each row a torn view of the run stored then.
   */
  lemma TornList(h: seq<Tables>, t0: nat, t1: nat, t2: nat, t3: nat, q: Query)
    requires History(h) && t0 <= t1 <= t2 <= t3 < |h| && WindowFits(q)
    ensures ReadPage(h[t0], h[t1], h[t2], h[t3], q).next == PageOf(Abs(h[t0]), q).next
    ensures |ReadPage(h[t0], h[t1], h[t2], h[t3], q).runs| == |PageOf(Abs(h[t0]), q).runs|
    ensures forall i | 0 <= i < |PageOf(Abs(h[t0]), q).runs| ::
              && PageOf(Abs(h[t0]), q).runs[i].runID in Abs(h[t2])
              && TornView(ReadPage(h[t0], h[t1], h[t2], h[t3], q).runs[i], PageOf(Abs(h[t0]), q).runs[i],
                          Abs(h[t2])[PageOf(Abs(h[t0]), q).runs[i].runID])
  {
    HistoryStaysSound(h, t0);
    ListAgrees(h[t0], q);
    forall i | 0 <= i < |PageOf(Abs(h[t0]), q).runs| {
      TornListRow(h, t0, t1, t2, t3, q, i);
    }
  }
}
