/** The relational backend's listing, and whole call sequences against it. */
module DuckListing {
  import opened Wrappers
  import opened Lineage
  import opened Patching
  import opened Listing
  import opened Ordering
  import opened Cursors
  import opened MemoryStore
  import opened DuckTables
  import Text

  /** The instants and ids a query's bounds and cursor let through. */
  predicate InWindow(q: Query, ns: int, id: string) {
    && (q.since.Some? ==> q.since.value <= ns)
    && (q.until.Some? ==> ns < q.until.value)
    && (q.after.Some? ==>
          var after := q.after.value;
          ns < after.startedAt || (ns == after.startedAt && Before(after.runID, id)))
  }

  function Bound(t: Option<int>): Option<int> {
    if t.None? then None else Some(Text.WrapInt64(t.value))
  }

  /** Instants are bound as `UnixNano`. */
  function Truncated(q: Query): Query {
    q.(since := Bound(q.since), until := Bound(q.until),
       after := if q.after.None? then None
                else Some(Cursor(Text.WrapInt64(q.after.value.startedAt), q.after.value.runID)))
  }

  /** The WHERE clause. */
  predicate RowSelected(id: string, row: Row, q: Query) {
    && Passes(q.project, row.identity.project)
    && Passes(q.gitCommit, row.identity.gitCommit)
    && Passes(q.fingerprint, row.fingerprint)
    && (q.status == Unset || row.status == q.status)
    && Passes(q.device, row.provenance.device)
    && Passes(q.submitterClaim, row.provenance.submitterClaim)
    && Passes(q.jobID, row.provenance.jobID)
    && Passes(q.captureClient, row.captureClient)
    && InWindow(Truncated(q), row.startedAtNs, id)
  }

  ghost function Selected(t: Tables, q: Query): set<Run> {
    set id | id in t.runs && RowSelected(id, t.runs[id], q) :: Bare(id, t.runs[id])
  }

  ghost function HydratedAll(rs: seq<Run>, params: map<(string, string), string>,
                             metrics: map<(string, string), real>, attempted: set<(string, string)>): (out: seq<Run>)
    ensures |out| == |rs|
    ensures forall i | 0 <= i < |rs| :: out[i] == Hydrated(rs[i], params, metrics, attempted)
  {
    seq(|rs|, i requires 0 <= i < |rs| => Hydrated(rs[i], params, metrics, attempted))
  }

  /** ORDER BY and LIMIT n+1. */
  function Limited(rows: seq<Run>, limit: int): seq<Run> {
    if limit > 0 && |rows| > limit + 1 then rows[..limit + 1] else rows
  }

  /** The extra row, if fetched, is trimmed and proves that more follow. */
  function Trimmed(fetched: seq<Run>, limit: int): Page {
    if limit > 0 && |fetched| > limit then Page(fetched[..limit], Some(CursorAt(fetched[limit - 1])))
    else Page(fetched, None)
  }

  ghost function FillPage(page: Page, params: map<(string, string), string>,
                          metrics: map<(string, string), real>, attempted: set<(string, string)>): Page {
    page.(runs := HydratedAll(page.runs, params, metrics, attempted))
  }

  /** `List`: one statement scans rows, three more fill them in. */
  ghost function ReadPage(scan: Tables, params: Tables, metrics: Tables, attempted: Tables, q: Query): Page {
    FillPage(Trimmed(Limited(Rows(Selected(scan, q)), q.limit), q.limit),
             params.params, metrics.metrics, attempted.attempted)
  }

  /** The first storable instant the lower bound lets through. */
  function Lowest(q: Query): int {
    if q.since.Some? && q.since.value > Text.INT64_MIN then q.since.value else Text.INT64_MIN
  }

  function Min(a: int, b: int): int {
    if a < b then a else b
  }

  /** The last storable instant the upper bound and the cursor let through. */
  function Highest(q: Query): int {
    Min(Text.INT64_MAX, Min(if q.until.Some? then q.until.value - 1 else Text.INT64_MAX,
                            if q.after.Some? then q.after.value.startedAt else Text.INT64_MAX))
  }

  /** Of the runs started at the last instant, the cursor lets through only those with a later id. */
  predicate CutsTie(q: Query) {
    q.after.Some? && q.after.value.startedAt == Highest(q)
  }

  /** Truncating the query's instants leaves its bounds where they are, or its window empty. */
  predicate WindowFits(q: Query) {
    var p := Truncated(q);
    if Lowest(q) > Highest(q) then Lowest(p) > Highest(p)
    else Lowest(p) == Lowest(q) && Highest(p) == Highest(q) && CutsTie(p) == CutsTie(q)
  }

  /** Truncation moves no storable start time into or out of the window. */
  ghost predicate SameWindow(q: Query) {
    forall ns: int, id: string | Text.FitsInt64(ns) :: InWindow(q, ns, id) <==> InWindow(Truncated(q), ns, id)
  }

  lemma WindowIs(q: Query, ns: int, id: string)
    requires Text.FitsInt64(ns)
    ensures InWindow(q, ns, id)
       <==> Lowest(q) <= ns <= Highest(q) && (CutsTie(q) && ns == Highest(q) ==> Before(q.after.value.runID, id))
  {
  }

  lemma LaterID(id: string)
    ensures Before(id, id + "+") && !Before(id, id)
  {
    if |id| == 0 {
    } else {
      LaterID(id[1..]);
      assert (id + "+")[1..] == id[1..] + "+";
    }
  }

  lemma SameInstant(q: Query, p: Query, aid: string, ns: int)
    requires SameCursorID(q, p, aid) && Text.FitsInt64(ns)
    requires InWindow(q, ns, aid + "+") <==> InWindow(p, ns, aid + "+")
    ensures Lowest(q) <= ns <= Highest(q) <==> Lowest(p) <= ns <= Highest(p)
  {
    LaterID(aid);
    WindowIs(q, ns, aid + "+");
    WindowIs(p, ns, aid + "+");
  }

  /** A window that is not empty shows its bounds, and whether it cuts the tie, at these four places. */
  lemma BoundsShow(q: Query, p: Query, aid: string)
    requires SameCursorID(q, p, aid) && Lowest(q) <= Highest(q)
    requires forall ns: int, id: string | Text.FitsInt64(ns) :: InWindow(q, ns, id) <==> InWindow(p, ns, id)
    ensures Lowest(p) == Lowest(q) && Highest(p) == Highest(q) && CutsTie(p) == CutsTie(q)
  {
    SameInstant(q, p, aid, Lowest(q));
    SameInstant(q, p, aid, Highest(q));
    SameInstant(q, p, aid, Lowest(p));
    SameInstant(q, p, aid, Highest(p));
    LaterID(aid);
    WindowIs(q, Highest(q), aid);
    WindowIs(p, Highest(q), aid);
    assert InWindow(q, Highest(q), aid) <==> InWindow(p, Highest(q), aid);
  }

  /** `aid` is the run id of whatever cursors there are. */
  predicate SameCursorID(q: Query, p: Query, aid: string) {
    (q.after.Some? ==> q.after.value.runID == aid) && (p.after.Some? ==> p.after.value.runID == aid)
  }

  /** Comparing the bounds decides whether the windows are the same. */
  lemma WindowFitsExactly(q: Query)
    ensures WindowFits(q) <==> SameWindow(q)
  {
    var p, aid := Truncated(q), if q.after.Some? then q.after.value.runID else "";
    if SameWindow(q) {
      if Lowest(q) <= Highest(q) {
        BoundsShow(q, p, aid);
      } else if Lowest(p) <= Highest(p) {
        BoundsShow(p, q, aid);
      }
    }
    if WindowFits(q) {
      forall ns: int, id: string | Text.FitsInt64(ns) ensures InWindow(q, ns, id) <==> InWindow(p, ns, id) {
        WindowIs(q, ns, id);
        WindowIs(p, ns, id);
      }
    }
  }

  predicate FitsOption(t: Option<int>) {
    t.Some? ==> Text.FitsInt64(t.value)
  }

  predicate QueryFits(q: Query) {
    FitsOption(q.since) && FitsOption(q.until) && (q.after.Some? ==> Text.FitsInt64(q.after.value.startedAt))
  }

  lemma FittingQueryFits(q: Query)
    requires QueryFits(q)
    ensures WindowFits(q)
  {
  }

  /** What the tables' filter selects, in terms of the run a row stands for. */
  lemma SelectedMeans(t: Tables, id: string, q: Query)
    requires id in t.runs && (!t.runs[id].captureDeclared ==> t.runs[id].captureClient == "")
    ensures RowSelected(id, t.runs[id], q)
       <==> && Matches(Stored(t, id), q.(since := None, until := None))
            && InWindow(Truncated(q), t.runs[id].startedAtNs, id)
    ensures Stored(t, id).startedAt.ns == t.runs[id].startedAtNs && Stored(t, id).runID == id
  {
    var row, r := t.runs[id], Stored(t, id);
    assert r.identity.project == row.identity.project && r.identity.gitCommit == row.identity.gitCommit;
  }

  lemma MatchesInWindow(r: Run, q: Query)
    ensures Matches(r, q) && (q.after.Some? ==> IsAfterCursor(r, q.after.value))
       <==> Matches(r, q.(since := None, until := None)) && InWindow(q, r.startedAt.ns, r.runID)
  {
  }

  lemma SelectedExactly(t: Tables, id: string, q: Query)
    requires Consistent(t) && WindowFits(q) && id in t.runs
    ensures RowSelected(id, t.runs[id], q)
       <==> Matches(Stored(t, id), q) && (q.after.Some? ==> IsAfterCursor(Stored(t, id), q.after.value))
  {
    assert ConsistentRow(t.runs[id]);
    WindowFitsExactly(q);
    SelectedMeans(t, id, q);
    MatchesInWindow(Stored(t, id), q);
  }

  lemma SelectedApart(t: Tables, q: Query)
    ensures OneRunPerID(Selected(t, q))
  {
  }

  lemma HydratedInOrder(scan: seq<Run>, t: Tables)
    requires InOrder(scan)
    ensures InOrder(HydratedAll(scan, t.params, t.metrics, t.attempted))
  {
    var out := HydratedAll(scan, t.params, t.metrics, t.attempted);
    forall i, j | 0 <= i < j < |out| ensures Less(RunKey(out[i]), RunKey(out[j])) {
      assert RunKey(out[i]) == RunKey(scan[i]) && RunKey(out[j]) == RunKey(scan[j]);
    }
  }

  /** Hydrating the ordered scan gives the reference listing. */
  lemma HydratedScanIsListing(t: Tables, q: Query)
    requires Consistent(t) && WindowFits(q)
    ensures HydratedAll(Rows(Selected(t, q)), t.params, t.metrics, t.attempted) == Rows(Beyond(Abs(t), q))
  {
    var scan := Rows(Selected(t, q));
    var out := HydratedAll(scan, t.params, t.metrics, t.attempted);
    SelectedApart(t, q);
    RowsList(Selected(t, q));
    HydratedInOrder(scan, t);
    HydratedScanMembers(t, q, scan, out);
    KeyedApart(Abs(t), q);
    ListsUnique(out, Beyond(Abs(t), q));
  }

  lemma ScannedIsBeyond(t: Tables, q: Query, bare: Run)
    requires Consistent(t) && WindowFits(q) && bare in Selected(t, q)
    ensures Hydrated(bare, t.params, t.metrics, t.attempted) in Beyond(Abs(t), q)
  {
    var id :| id in t.runs && RowSelected(id, t.runs[id], q) && bare == Bare(id, t.runs[id]);
    SelectedExactly(t, id, q);
    assert Abs(t)[id] == Stored(t, id);
  }

  lemma BeyondIsScanned(t: Tables, q: Query, r: Run) returns (bare: Run)
    requires Consistent(t) && WindowFits(q) && r in Beyond(Abs(t), q)
    ensures bare in Selected(t, q) && Hydrated(bare, t.params, t.metrics, t.attempted) == r
  {
    var m := Abs(t);
    var id :| id in m && Matches(m[id], q) && (q.after.Some? ==> IsAfterCursor(m[id], q.after.value)) && m[id] == r;
    assert m[id] == Stored(t, id);
    SelectedExactly(t, id, q);
    bare := Bare(id, t.runs[id]);
  }

  lemma HydratedScanMembers(t: Tables, q: Query, scan: seq<Run>, out: seq<Run>)
    requires Consistent(t) && WindowFits(q)
    requires (forall r | r in scan :: r in Selected(t, q)) && (forall r | r in Selected(t, q) :: r in scan)
    requires out == HydratedAll(scan, t.params, t.metrics, t.attempted)
    ensures forall r | r in out :: r in Beyond(Abs(t), q)
    ensures forall r | r in Beyond(Abs(t), q) :: r in out
  {
    forall r | r in out ensures r in Beyond(Abs(t), q) {
      var i :| 0 <= i < |out| && out[i] == r;
      assert scan[i] in scan;
      ScannedIsBeyond(t, q, scan[i]);
    }
    forall r | r in Beyond(Abs(t), q) ensures r in out {
      var bare := BeyondIsScanned(t, q, r);
      var i :| 0 <= i < |scan| && scan[i] == bare;
      assert out[i] == r;
    }
  }

  /** One row too many, trimmed, is the same as cutting the whole listing. */
  lemma TrimIsPaginate(all: seq<Run>, limit: int, t: Tables)
    ensures FillPage(Trimmed(Limited(all, limit), limit), t.params, t.metrics, t.attempted)
         == Paginate(HydratedAll(all, t.params, t.metrics, t.attempted), limit)
  {
    var out := HydratedAll(all, t.params, t.metrics, t.attempted);
    if limit > 0 && |all| > limit {
      var kept := all[..limit];
      assert Limited(all, limit)[..limit] == kept;
      assert HydratedAll(kept, t.params, t.metrics, t.attempted) == out[..limit];
      assert CursorAt(out[limit - 1]) == CursorAt(all[limit - 1]);
    }
  }

  /**
   Filter, keyset predicate, ORDER BY, LIMIT n+1 and trim give the very page
   and cursor of the reference store's filter, sort, search and slice.
   */
  lemma ListAgrees(t: Tables, q: Query)
    requires Consistent(t) && WindowFits(q)
    ensures ReadPage(t, t, t, t, q) == PageOf(Abs(t), q)
  {
    HydratedScanIsListing(t, q);
    TrimIsPaginate(Rows(Selected(t, q)), q.limit, t);
  }

  // ----- Which queries the tables can answer -----

  /** A row that passes every text filter of `q`. */
  function RowFor(q: Query, ns: int): Row {
    Row(Identity(q.project, q.gitCommit, false, "", "", "", 0, None), q.fingerprint, CURRENT_FINGERPRINT_VERSION,
        Provenance("", q.device, "", q.submitterClaim, q.jobID, ""),
        q.captureClient != "", q.captureClient, q.status, ns, None)
  }

  function OneRow(q: Query, ns: int, id: string): Tables {
    Tables(map[id := RowFor(q, ns)], map[], map[], {})
  }

  lemma OneRowMatches(q: Query, ns: int, id: string)
    requires Text.FitsInt64(ns)
    ensures Consistent(OneRow(q, ns, id))
    ensures Matches(Stored(OneRow(q, ns, id), id), q.(since := None, until := None))
    ensures Stored(OneRow(q, ns, id), id).startedAt.ns == ns && Stored(OneRow(q, ns, id), id).runID == id
  {
    var t := OneRow(q, ns, id);
    assert KeysFor(t.params.Keys, id) == {} && KeysFor(t.metrics.Keys, id) == {};
  }

  lemma EmptyRows(s: set<Run>)
    requires OneRunPerID(s)
    ensures Rows(s) == [] <==> s == {}
  {
    RowsList(s);
    if Rows(s) != [] { assert Rows(s)[0] in s; }
    if r :| r in s { assert r in Rows(s); }
  }

  lemma PagesAreEmpty(t: Tables, q: Query)
    requires Consistent(t)
    ensures ReadPage(t, t, t, t, q).runs == [] <==> Selected(t, q) == {}
    ensures PageOf(Abs(t), q).runs == [] <==> Beyond(Abs(t), q) == {}
  {
    SelectedApart(t, q);
    EmptyRows(Selected(t, q));
    KeyedApart(Abs(t), q);
    EmptyRows(Beyond(Abs(t), q));
  }

  lemma OneRowSelected(q: Query, ns: int, id: string)
    requires Text.FitsInt64(ns)
    ensures Selected(OneRow(q, ns, id), q) == {} <==> !InWindow(Truncated(q), ns, id)
  {
    var t := OneRow(q, ns, id);
    OneRowMatches(q, ns, id);
    SelectedMeans(t, id, q);
    if RowSelected(id, t.runs[id], q) { assert Bare(id, t.runs[id]) in Selected(t, q); }
  }

  lemma OneRowBeyond(q: Query, ns: int, id: string)
    requires Text.FitsInt64(ns)
    ensures Beyond(Abs(OneRow(q, ns, id)), q) == {} <==> !InWindow(q, ns, id)
  {
    var m := Abs(OneRow(q, ns, id));
    OneRowMatches(q, ns, id);
    assert m.Keys == {id};
    MatchesInWindow(m[id], q);
    if InWindow(q, ns, id) { assert m[id] in Beyond(m, q); }
  }

  lemma WindowMovesRow(q: Query, ns: int, id: string)
    requires Text.FitsInt64(ns) && InWindow(q, ns, id) != InWindow(Truncated(q), ns, id)
    ensures var t := OneRow(q, ns, id); ReadPage(t, t, t, t, q) != PageOf(Abs(t), q)
  {
    OneRowMatches(q, ns, id);
    OneRowSelected(q, ns, id);
    OneRowBeyond(q, ns, id);
    PagesAreEmpty(OneRow(q, ns, id), q);
  }

  /** A query is answered alike in every state exactly when truncation leaves its bounds as they are. */
  lemma ListAgreesExactly(q: Query)
    ensures (forall t | Consistent(t) :: ReadPage(t, t, t, t, q) == PageOf(Abs(t), q)) <==> WindowFits(q)
  {
    WindowFitsExactly(q);
    if WindowFits(q) {
      forall t | Consistent(t) ensures ReadPage(t, t, t, t, q) == PageOf(Abs(t), q) { ListAgrees(t, q); }
    } else {
      var ns: int, id: string :| Text.FitsInt64(ns) && InWindow(q, ns, id) != InWindow(Truncated(q), ns, id);
      OneRowMatches(q, ns, id);
      WindowMovesRow(q, ns, id);
      assert Consistent(OneRow(q, ns, id));
    }
  }

  /** An instant past 64 bits wraps: nothing starts that late, yet the tables list everything. */
  lemma LateSinceWraps()
    ensures !WindowFits(NO_FILTER.(since := Some(Text.INT64_MAX + 1)))
  {
    var q := NO_FILTER.(since := Some(Text.INT64_MAX + 1));
    assert Truncated(q).since == Some(Text.INT64_MIN);
  }

  /** So do an upper bound past the range, which then lets nothing through, and a cursor before it, which lets all. */
  lemma LateUntilWraps(after: string)
    ensures !WindowFits(NO_FILTER.(until := Some(Text.INT64_MAX + 2)))
    ensures !WindowFits(NO_FILTER.(after := Some(Cursor(Text.INT64_MIN - 1, after))))
  {
    assert Truncated(NO_FILTER.(until := Some(Text.INT64_MAX + 2))).until == Some(Text.INT64_MIN + 1);
    var early := NO_FILTER.(after := Some(Cursor(Text.INT64_MIN - 1, after)));
    assert Truncated(early).after == Some(Cursor(Text.INT64_MAX, after));
  }

  // ----- Whole call sequences -----

  datatype Call = WriteCall(write: Write) | GetCall(id: string) | ListCall(query: Query)

  datatype Reply =
    | RecordReply(err: Option<Error>)
    | UpdateReply(updated: Result<Run, Error>)
    | GetReply(got: Result<Run, Error>)
    | ListReply(page: Page)

  ghost function MemoryAnswer(m: Ledger, c: Call): (Ledger, Reply) {
    match c
    case WriteCall(RecordRun(run)) => (Recorded(m, run).0, RecordReply(Recorded(m, run).1))
    case WriteCall(UpdateRun(id, p, now)) => (Updated(m, id, p, now).0, UpdateReply(Updated(m, id, p, now).1))
    case GetCall(id) => (m, GetReply(Fetched(m, id)))
    case ListCall(q) => (m, ListReply(PageOf(m, q)))
  }

  ghost function DuckAnswer(t: Tables, c: Call): (Tables, Reply) {
    match c
    case WriteCall(RecordRun(run)) => (RecordedT(t, run).0, RecordReply(RecordedT(t, run).1))
    case WriteCall(UpdateRun(id, p, now)) => (UpdatedT(t, id, p, now).0, UpdateReply(UpdatedT(t, id, p, now).1))
    case GetCall(id) => (t, GetReply(Read(t, t, t, t, id)))
    case ListCall(q) => (t, ListReply(ReadPage(t, t, t, t, q)))
  }

  ghost function MemoryReplies(m: Ledger, cs: seq<Call>): seq<Reply>
    decreases |cs|
  {
    if |cs| == 0 then [] else [MemoryAnswer(m, cs[0]).1] + MemoryReplies(MemoryAnswer(m, cs[0]).0, cs[1..])
  }

  ghost function DuckReplies(t: Tables, cs: seq<Call>): seq<Reply>
    decreases |cs|
  {
    if |cs| == 0 then [] else [DuckAnswer(t, cs[0]).1] + DuckReplies(DuckAnswer(t, cs[0]).0, cs[1..])
  }

  /** Calls the tables answer like the reference store, in the state they are in. */
  ghost predicate Answerable(t: Tables, c: Call) {
    match c
    case WriteCall(RecordRun(run)) => RecordFits(t, run)
    case WriteCall(UpdateRun(id, p, now)) =>
      id in t.runs && ApplyPatch(Stored(t, id), p, now).Ok? ==> UpdateFits(Stored(t, id), p, now)
    case GetCall(_) => true
    case ListCall(q) => WindowFits(q)
  }

  /** Every call of a sequence is answerable when its turn comes. */
  ghost predicate AllAnswerable(t: Tables, cs: seq<Call>)
    decreases |cs|
  {
    |cs| == 0 || (Answerable(t, cs[0]) && AllAnswerable(DuckAnswer(t, cs[0]).0, cs[1..]))
  }

  /** Calls whose content the tables can hold, whatever is already stored. */
  ghost predicate CallFits(c: Call) {
    match c
    case WriteCall(RecordRun(run)) => Canonical(run)
    case WriteCall(UpdateRun(id, p, now)) =>
      && (p.endedAt.Some? ==> Text.FitsInt64(p.endedAt.value.ns) && p.endedAt.value.zone == UTC)
      && Text.FitsInt64(now) && p.metrics != Some(map[])
    case GetCall(_) => true
    case ListCall(q) => WindowFits(q)
  }

  /** A write is answered and stored alike exactly when it is answerable; so is any answerable read. */
  lemma AnswerAgrees(t: Tables, c: Call)
    requires Consistent(t)
    ensures Consistent(DuckAnswer(t, c).0)
    ensures Answerable(t, c) ==> (Abs(DuckAnswer(t, c).0), DuckAnswer(t, c).1) == MemoryAnswer(Abs(t), c)
    ensures c.WriteCall? && (Abs(DuckAnswer(t, c).0), DuckAnswer(t, c).1) == MemoryAnswer(Abs(t), c) ==>
              Answerable(t, c)
  {
    match c {
      case WriteCall(RecordRun(run)) => RecordAgrees(t, run);
      case WriteCall(UpdateRun(id, p, now)) => UpdateAgrees(t, id, p, now);
      case GetCall(id) =>
      case ListCall(q) => if WindowFits(q) { ListAgrees(t, q); }
    }
  }

  lemma FittingIsAnswerable(t: Tables, c: Call)
    requires Consistent(t) && CallFits(c)
    ensures Answerable(t, c)
  {
  }

  /** On every sequence of answerable calls the two backends give the same replies. */
  lemma {:induction false} BackendsAgree(t: Tables, cs: seq<Call>)
    requires Consistent(t) && AllAnswerable(t, cs)
    ensures DuckReplies(t, cs) == MemoryReplies(Abs(t), cs)
    decreases |cs|
  {
    if |cs| == 0 {
    } else {
      AnswerAgrees(t, cs[0]);
      BackendsAgree(DuckAnswer(t, cs[0]).0, cs[1..]);
    }
  }

  /** Calls that fit are answerable whatever came before, so the backends agree on every sequence of them. */
  lemma {:induction false} FittingCallsAnswerable(t: Tables, cs: seq<Call>)
    requires Consistent(t) && forall c | c in cs :: CallFits(c)
    ensures AllAnswerable(t, cs)
    decreases |cs|
  {
    if |cs| == 0 {
    } else {
      FittingIsAnswerable(t, cs[0]);
      AnswerAgrees(t, cs[0]);
      FittingCallsAnswerable(DuckAnswer(t, cs[0]).0, cs[1..]);
    }
  }
}
