/** The reference store: a map of runs, and what every sequence of calls keeps. */
module MemoryStore {
  import opened Wrappers
  import opened Lineage
  import opened Patching
  import opened Listing
  import opened Ordering
  import opened Cursors
  import Filters

  // ----- One call, as a function of the ledger -----

  function Recorded(m: Ledger, run: Run): (Ledger, Option<Error>) {
    match Validate(run)
    case Some(flaw) => (m, Some(Invalid(flaw)))
    case None =>
      var r := NormalizeCapture(run);
      if r.runID in m then (m, if m[r.runID] == r then None else Some(Conflict))
      else (m[r.runID := r], None)
  }

  function Updated(m: Ledger, id: string, p: Patch, now: int): (Ledger, Result<Run, Error>) {
    if id !in m then (m, Err(NotFound))
    else
      match ApplyPatch(m[id], p, now)
      case Err(e) => (m, Err(e))
      case Ok(u) => (m[id := u], Ok(u))
  }

  function Fetched(m: Ledger, id: string): Result<Run, Error> {
    if id in m then Ok(m[id]) else Err(NotFound)
  }

  // ----- The store object -----

  class Memory {
    var runs: Ledger

    ghost predicate Valid()
      reads this
    {
      WellKeyed(runs)
    }

    constructor ()
      ensures Valid() && runs == map[]
    {
      runs := map[];
    }

    method Record(run: Run) returns (err: Option<Error>)
      requires Valid()
      modifies this
      ensures Valid()
      ensures (runs, err) == Recorded(old(runs), run)
    {
      var flaw := Validate(run);
      if flaw.Some? {
        return Some(Invalid(flaw.value));
      }
      var r := NormalizeCapture(run);
      if r.runID in runs {
        if runs[r.runID] != r {
          return Some(Conflict);
        }
        return None;
      }
      runs := runs[r.runID := r];
      return None;
    }

    method Update(id: string, p: Patch, now: int) returns (res: Result<Run, Error>)
      requires Valid()
      modifies this
      ensures Valid()
      ensures (runs, res) == Updated(old(runs), id, p, now)
    {
      if id !in runs {
        return Err(NotFound);
      }
      res := Apply(runs[id], p, now);
      if res.Ok? {
        ApplyEvolves(runs[id], p, now);
        runs := runs[id := res.value];
      }
    }

    method Get(id: string) returns (res: Result<Run, Error>)
      ensures res == Fetched(runs, id)
    {
      if id !in runs {
        return Err(NotFound);
      }
      return Ok(runs[id]);
    }

    /** Filter, sort, binary search, slice. */
    method List(q: Query) returns (page: Page)
      requires Valid()
      ensures page == PageOf(runs, q)
      ensures Filters.IsPage(page, runs, q)
    {
      Filters.PageIsExact(runs, q);
      KeyedApart(runs, q);
      var found := Collect(runs, q);
      SortedCollectionIsRows(found, Matching(runs, q));
      var out := Sort(found, RunKey);
      if q.after.Some? {
        RowsList(Matching(runs, q));
        var i := SearchAfter(out, q.after.value);
        SuffixIsBeyond(runs, q, i);
        out := out[i..];
      } else {
        NoCursorIsMatching(runs, q);
      }
      return Paginate(out, q.limit);
    }
  }

  method Collect(m: Ledger, q: Query) returns (out: seq<Run>)
    requires WellKeyed(m)
    ensures multiset(out) == multiset(Matching(m, q))
  {
    out := [];
    var left := m.Keys;
    ghost var seen: set<Run> := {};
    while left != {}
      invariant left <= m.Keys
      invariant seen == set id | id in m && id !in left && Matches(m[id], q) :: m[id]
      invariant multiset(out) == multiset(seen)
      decreases left
    {
      var id :| id in left;
      left := left - {id};
      if Matches(m[id], q) {
        assert m[id] !in seen;
        out := out + [m[id]];
        seen := seen + {m[id]};
      }
    }
    assert seen == Matching(m, q);
  }

  /** `sort.Search`: the first index from which rows lie beyond the cursor. */
  method SearchAfter(rows: seq<Run>, c: Cursor) returns (i: nat)
    requires InOrder(rows)
    ensures i <= |rows|
    ensures forall k | 0 <= k < |rows| :: IsAfterCursor(rows[k], c) <==> i <= k
  {
    i := 0;
    var j := |rows|;
    while i < j
      invariant i <= j <= |rows|
      invariant forall k | 0 <= k < i :: !IsAfterCursor(rows[k], c)
      invariant forall k | j <= k < |rows| :: IsAfterCursor(rows[k], c)
    {
      var h := (i + j) / 2;
      forall k | 0 <= k < h && !IsAfterCursor(rows[h], c) ensures !IsAfterCursor(rows[k], c) {
        BeyondIsMonotone(rows[k], rows[h], c);
      }
      forall k | h < k < |rows| && IsAfterCursor(rows[h], c) ensures IsAfterCursor(rows[k], c) {
        BeyondIsMonotone(rows[h], rows[k], c);
      }
      if IsAfterCursor(rows[h], c) {
        j := h;
      } else {
        i := h + 1;
      }
    }
  }

  lemma BeyondIsMonotone(a: Run, b: Run, c: Cursor)
    requires Less(RunKey(a), RunKey(b))
    ensures IsAfterCursor(a, c) ==> IsAfterCursor(b, c)
  {
    if IsAfterCursor(a, c) { LessTransitive(CursorKey(c), RunKey(a), RunKey(b)); }
  }

  // ----- Every sequence of calls -----

  /** A write as a client sends it; `now` is the clock an update may read. */
  datatype Write = RecordRun(run: Run) | UpdateRun(id: string, patch: Patch, now: int)

  function Step(m: Ledger, w: Write): Ledger {
    match w
    case RecordRun(run) => Recorded(m, run).0
    case UpdateRun(id, p, now) => Updated(m, id, p, now).0
  }

  function After(m: Ledger, ws: seq<Write>): Ledger
    decreases |ws|
  {
    if |ws| == 0 then m else After(Step(m, ws[0]), ws[1..])
  }

  ghost predicate Sound(m: Ledger) {
    WellKeyed(m) && forall id | id in m :: Lineage.Valid(m[id])
  }

  /** `n` is a ledger that `m` may grow into. */
  ghost predicate Grows(m: Ledger, n: Ledger) {
    && Sound(n)
    && forall id | id in m :: id in n && Evolves(m[id], n[id])
  }

  lemma RecordGrows(m: Ledger, run: Run)
    requires Sound(m)
    ensures Grows(m, Recorded(m, run).0)
  {
    assert Validate(NormalizeCapture(run)) == Validate(run);
  }

  lemma UpdateGrows(m: Ledger, id: string, p: Patch, now: int)
    requires Sound(m)
    ensures Grows(m, Updated(m, id, p, now).0)
  {
    if id in m && ApplyPatch(m[id], p, now).Ok? {
      ApplyEvolves(m[id], p, now);
    }
  }

  lemma StepGrows(m: Ledger, w: Write)
    requires Sound(m)
    ensures Grows(m, Step(m, w))
  {
    match w {
      case RecordRun(run) => RecordGrows(m, run);
      case UpdateRun(id, p, now) => UpdateGrows(m, id, p, now);
    }
  }

  lemma GrowsTransitive(a: Ledger, b: Ledger, c: Ledger)
    requires Grows(a, b) && Grows(b, c)
    ensures Grows(a, c)
  {
    forall id | id in a ensures id in c && Evolves(a[id], c[id]) {
      EvolvesTransitive(a[id], b[id], c[id]);
    }
  }

  /**
   Over every sequence of calls, every stored run stays valid, keeps identity,
   fingerprint, capture and start time, moves only forward through its
   lifecycle, never loses a metric, and is frozen once terminal.
   */
  lemma {:induction false} HistoryGrows(m: Ledger, ws: seq<Write>)
    requires Sound(m)
    ensures Grows(m, After(m, ws))
    decreases |ws|
  {
    if |ws| == 0 {
    } else {
      StepGrows(m, ws[0]);
      var next := Step(m, ws[0]);
      HistoryGrows(next, ws[1..]);
      GrowsTransitive(m, next, After(m, ws));
    }
  }

  /** One call moves a run's status by one legal transition at most. */
  lemma StepIsLegal(m: Ledger, w: Write, id: string)
    requires Sound(m) && id in m
    ensures id in Step(m, w)
    ensures Step(m, w)[id].status == m[id].status || Legal(m[id].status, Step(m, w)[id].status)
  {
    if w.UpdateRun? && w.id == id && ApplyPatch(m[id], w.patch, w.now).Ok? {
      ApplyEvolves(m[id], w.patch, w.now);
    }
  }

  ghost predicate RunningAfter(m: Ledger, ws: seq<Write>, i: nat, id: string)
    requires i <= |ws|
  {
    var n := After(m, ws[..i]);
    id in n && n[id].status == Running
  }

  lemma AfterFirst(m: Ledger, ws: seq<Write>, i: nat)
    requires i < |ws|
    ensures After(m, ws[..i + 1]) == After(Step(m, ws[0]), ws[1..][..i])
  {
    assert ws[..i + 1][0] == ws[0] && ws[..i + 1][1..] == ws[1..][..i];
  }

  /** No run skips its running stage: one that was created and is terminal was running in between. */
  lemma {:induction false} FinishedHadRun(m: Ledger, ws: seq<Write>, id: string)
    requires Sound(m) && id in m && m[id].status == Created
    requires id in After(m, ws) && Terminal(After(m, ws)[id].status)
    ensures exists i | 0 <= i <= |ws| :: RunningAfter(m, ws, i, id)
    decreases |ws|
  {
    if |ws| == 0 {
      assert false;
    } else {
      var n := Step(m, ws[0]);
      StepGrows(m, ws[0]);
      StepIsLegal(m, ws[0], id);
      if n[id].status == Running {
        AfterFirst(m, ws, 0);
        assert After(n, ws[1..][..0]) == n;
        assert RunningAfter(m, ws, 1, id);
      } else {
        FinishedHadRun(n, ws[1..], id);
        var i :| 0 <= i <= |ws[1..]| && RunningAfter(n, ws[1..], i, id);
        AfterFirst(m, ws, i);
        assert RunningAfter(m, ws, i + 1, id);
      }
    }
  }

  /** A run once stored is found from then on, under its id, as a later version of what was recorded. */
  lemma RecordedStaysFound(m: Ledger, run: Run, ws: seq<Write>)
    requires Sound(m) && Recorded(m, run).1.None?
    ensures var found := Fetched(After(Recorded(m, run).0, ws), run.runID);
            found.Ok? && Evolves(NormalizeCapture(run), found.value)
  {
    RecordGrows(m, run);
    HistoryGrows(Recorded(m, run).0, ws);
    assert Recorded(m, run).0[run.runID] == NormalizeCapture(run);
  }

  /** An accepted patch can be sent again at once: same run, same ledger. */
  lemma RetryAtOnce(m: Ledger, id: string, p: Patch, now: int, later: int)
    requires Updated(m, id, p, now).1.Ok?
    ensures Updated(Updated(m, id, p, now).0, id, p, later) == Updated(m, id, p, now)
  {
    ApplyIdempotent(m[id], p, now, later);
    var n := Updated(m, id, p, now).0;
    assert n[id := n[id]] == n;
  }

  /**
   A patch that finished a run can be sent again after any other calls, at any
   time, and answers with the identical run.
   */
  lemma FinishRetriesForever(m: Ledger, id: string, p: Patch, now: int, ws: seq<Write>, later: int)
    requires Sound(m)
    requires Updated(m, id, p, now).1.Ok? && Terminal(Updated(m, id, p, now).1.value.status)
    ensures var done := Updated(m, id, p, now);
            var n := After(done.0, ws);
            Updated(n, id, p, later) == (n, done.1)
  {
    StepGrows(m, UpdateRun(id, p, now));
    var done := Updated(m, id, p, now);
    HistoryGrows(done.0, ws);
    var n := After(done.0, ws);
    assert Evolves(done.0[id], n[id]);
    ApplyIdempotent(m[id], p, now, later);
    assert n[id := n[id]] == n;
  }
}
