/** What a listing returns, filter by filter and row by row. */
module Filters {
  import opened Wrappers
  import opened Lineage
  import opened Listing
  import opened Ordering
  import opened Cursors

  /** The run is what every filter that is set asks for. */
  ghost predicate Selects(q: Query, r: Run) {
    && (q.project == "" || r.identity.project == q.project)
    && (q.gitCommit == "" || r.identity.gitCommit == q.gitCommit)
    && (q.fingerprint == "" || r.fingerprint == q.fingerprint)
    && (q.status.Unset? || r.status == q.status)
    && (q.device == "" || r.provenance.device == q.device)
    && (q.submitterClaim == "" || r.provenance.submitterClaim == q.submitterClaim)
    && (q.jobID == "" || r.provenance.jobID == q.jobID)
    && (q.captureClient == "" || (r.capture.Some? && r.capture.value.client == q.captureClient))
    && (q.since.Some? ==> r.startedAt.ns >= q.since.value)
    && (q.until.Some? ==> r.startedAt.ns < q.until.value)
  }

  /** The run started before the position, or at its instant with a later id. */
  ghost predicate LiesBeyond(r: Run, c: Cursor) {
    r.startedAt.ns < c.startedAt || (r.startedAt.ns == c.startedAt && Before(c.runID, r.runID))
  }

  /** `r` is stored, selected, and beyond the query's cursor if there is one. */
  ghost predicate Entitled(m: Ledger, q: Query, r: Run) {
    && r.runID in m && m[r.runID] == r && Selects(q, r)
    && (q.after.Some? ==> LiesBeyond(r, q.after.value))
  }

  /** Later starts come first, and of equal starts the smaller id. */
  ghost predicate NewestFirst(rows: seq<Run>) {
    forall i, j | 0 <= i < j < |rows| ::
      || rows[i].startedAt.ns > rows[j].startedAt.ns
      || (rows[i].startedAt.ns == rows[j].startedAt.ns && Before(rows[i].runID, rows[j].runID))
  }

  /**
   The page holds entitled runs only, newest first. It holds all of them unless
   it is full; then it hands over the position of its last row, more of them
   follow, and every one it does not hold lies beyond that position.
   */
  ghost predicate IsPage(page: Page, m: Ledger, q: Query) {
    && NewestFirst(page.runs)
    && (forall r | r in page.runs :: Entitled(m, q, r))
    && (q.limit > 0 ==> |page.runs| <= q.limit)
    && (page.next.None? ==> forall r: Run | Entitled(m, q, r) :: r in page.runs)
    && (page.next.Some? ==>
          var c, n := page.next.value, |page.runs|;
          && 0 < q.limit == n && c.startedAt == page.runs[n - 1].startedAt.ns && c.runID == page.runs[n - 1].runID
          && (forall r: Run | Entitled(m, q, r) :: r in page.runs || LiesBeyond(r, c))
          && exists r: Run :: Entitled(m, q, r) && r !in page.runs)
  }

  lemma EntitledExactly(m: Ledger, q: Query, r: Run)
    requires WellKeyed(m)
    ensures r in Beyond(m, q) <==> Entitled(m, q, r)
  {
  }

  lemma OrderIsNewestFirst(rows: seq<Run>)
    requires InOrder(rows)
    ensures NewestFirst(rows)
  {
  }

  /** A row of the rest lies beyond the last one on the page, and is not on it. */
  lemma RestLiesBeyond(rows: seq<Run>, n: nat, k: nat)
    requires InOrder(rows) && 0 < n <= k < |rows|
    ensures rows[k] !in rows[..n] && LiesBeyond(rows[k], CursorAt(rows[n - 1]))
  {
    assert Less(RunKey(rows[n - 1]), RunKey(rows[k]));
    forall i | 0 <= i < n ensures rows[i] != rows[k] {
      LessTrichotomy(RunKey(rows[i]), RunKey(rows[k]));
    }
  }

  lemma CutLeadsOn(rows: seq<Run>, n: nat)
    requires InOrder(rows) && 0 < n < |rows|
    ensures rows[n] !in rows[..n]
    ensures forall r | r in rows :: r in rows[..n] || LiesBeyond(r, CursorAt(rows[n - 1]))
  {
    forall r | r in rows ensures r in rows[..n] || LiesBeyond(r, CursorAt(rows[n - 1])) {
      var k :| 0 <= k < |rows| && rows[k] == r;
      if k < n { assert rows[..n][k] == r; } else { RestLiesBeyond(rows, n, k); }
    }
    RestLiesBeyond(rows, n, n);
  }

  /** The page a query is answered with is that page. */
  lemma PageIsExact(m: Ledger, q: Query)
    requires WellKeyed(m)
    ensures IsPage(PageOf(m, q), m, q)
  {
    KeyedApart(m, q);
    RowsList(Beyond(m, q));
    var rows, page := Rows(Beyond(m, q)), PageOf(m, q);
    forall r: Run ensures r in rows <==> Entitled(m, q, r) { EntitledExactly(m, q, r); }
    OrderIsNewestFirst(page.runs);
    if page.next.Some? {
      CutLeadsOn(rows, q.limit);
      assert rows[q.limit] in rows;
      assert Entitled(m, q, rows[q.limit]);
    }
  }

  lemma NewestFirstIsOrder(rows: seq<Run>)
    requires NewestFirst(rows)
    ensures InOrder(rows)
  {
  }

  lemma JoinInOrder(front: seq<Run>, back: seq<Run>)
    requires InOrder(front) && InOrder(back) && |front| > 0
    requires forall r | r in back :: Less(RunKey(front[|front| - 1]), RunKey(r))
    ensures InOrder(front + back)
  {
    var last := front[|front| - 1];
    forall i, j | 0 <= i < |front| <= j < |front + back| ensures Less(RunKey(front[i]), RunKey((front + back)[j])) {
      assert (front + back)[j] == back[j - |front|] && back[j - |front|] in back;
      if i < |front| - 1 { LessTransitive(RunKey(front[i]), RunKey(last), RunKey((front + back)[j])); }
    }
  }

  lemma FullPageIsPrefix(page: Page, m: Ledger, q: Query)
    requires WellKeyed(m) && IsPage(page, m, q) && page.next.Some?
    ensures |page.runs| < |Rows(Beyond(m, q))| && page.runs == Rows(Beyond(m, q))[..|page.runs|]
  {
    var all := Beyond(m, q);
    var rest := set r | r in all && r !in page.runs;
    KeyedApart(m, q);
    RowsList(rest);
    NewestFirstIsOrder(page.runs);
    forall r: Run ensures r in all <==> Entitled(m, q, r) { EntitledExactly(m, q, r); }
    JoinInOrder(page.runs, Rows(rest));
    ListsUnique(page.runs + Rows(rest), all);
    var r: Run :| Entitled(m, q, r) && r !in page.runs;
    assert r in Rows(rest);
  }

  /** No other page is: rows, order, length and cursor are all determined. */
  lemma PageIsDetermined(page: Page, m: Ledger, q: Query)
    requires WellKeyed(m) && IsPage(page, m, q)
    ensures page == PageOf(m, q)
  {
    if page.next.Some? {
      FullPageIsPrefix(page, m, q);
    } else {
      forall r: Run ensures r in Beyond(m, q) <==> Entitled(m, q, r) { EntitledExactly(m, q, r); }
      NewestFirstIsOrder(page.runs);
      KeyedApart(m, q);
      ListsUnique(page.runs, Beyond(m, q));
    }
  }

  // ----- One filter at a time -----

  /** `q` returns, in one unbounded page, exactly the stored runs that `pick` picks. */
  ghost predicate ReturnsExactly(m: Ledger, q: Query, pick: Run -> bool) {
    forall r: Run :: r in PageOf(m, q).runs <==> r.runID in m && m[r.runID] == r && pick(r)
  }

  lemma UnboundedReturns(m: Ledger, q: Query, pick: Run -> bool)
    requires WellKeyed(m) && q.limit == 0 && q.after.None? && forall r: Run :: Selects(q, r) <==> pick(r)
    ensures ReturnsExactly(m, q, pick)
  {
    PageIsExact(m, q);
    forall r: Run ensures r in PageOf(m, q).runs <==> r.runID in m && m[r.runID] == r && pick(r) {
      assert Entitled(m, q, r) <==> r.runID in m && m[r.runID] == r && pick(r);
    }
  }

  /** Each filter alone. */
  lemma TextFilters(m: Ledger, text: string)
    requires WellKeyed(m) && text != ""
    ensures ReturnsExactly(m, NO_FILTER.(project := text), (r: Run) => r.identity.project == text)
    ensures ReturnsExactly(m, NO_FILTER.(gitCommit := text), (r: Run) => r.identity.gitCommit == text)
    ensures ReturnsExactly(m, NO_FILTER.(fingerprint := text), (r: Run) => r.fingerprint == text)
    ensures ReturnsExactly(m, NO_FILTER.(device := text), (r: Run) => r.provenance.device == text)
    ensures ReturnsExactly(m, NO_FILTER.(submitterClaim := text), (r: Run) => r.provenance.submitterClaim == text)
    ensures ReturnsExactly(m, NO_FILTER.(jobID := text), (r: Run) => r.provenance.jobID == text)
    ensures ReturnsExactly(m, NO_FILTER.(captureClient := text),
                           (r: Run) => r.capture.Some? && r.capture.value.client == text)
  {
    UnboundedReturns(m, NO_FILTER.(project := text), (r: Run) => r.identity.project == text);
    UnboundedReturns(m, NO_FILTER.(gitCommit := text), (r: Run) => r.identity.gitCommit == text);
    UnboundedReturns(m, NO_FILTER.(fingerprint := text), (r: Run) => r.fingerprint == text);
    UnboundedReturns(m, NO_FILTER.(device := text), (r: Run) => r.provenance.device == text);
    UnboundedReturns(m, NO_FILTER.(submitterClaim := text), (r: Run) => r.provenance.submitterClaim == text);
    UnboundedReturns(m, NO_FILTER.(jobID := text), (r: Run) => r.provenance.jobID == text);
    UnboundedReturns(m, NO_FILTER.(captureClient := text),
                     (r: Run) => r.capture.Some? && r.capture.value.client == text);
  }

  lemma OtherFilters(m: Ledger, status: Status, ns: int)
    requires WellKeyed(m) && status != Unset
    ensures ReturnsExactly(m, NO_FILTER, (r: Run) => true)
    ensures ReturnsExactly(m, NO_FILTER.(status := status), (r: Run) => r.status == status)
    ensures ReturnsExactly(m, NO_FILTER.(since := Some(ns)), (r: Run) => ns <= r.startedAt.ns)
    ensures ReturnsExactly(m, NO_FILTER.(until := Some(ns)), (r: Run) => r.startedAt.ns < ns)
  {
    UnboundedReturns(m, NO_FILTER, (r: Run) => true);
    UnboundedReturns(m, NO_FILTER.(status := status), (r: Run) => r.status == status);
    UnboundedReturns(m, NO_FILTER.(since := Some(ns)), (r: Run) => ns <= r.startedAt.ns);
    UnboundedReturns(m, NO_FILTER.(until := Some(ns)), (r: Run) => r.startedAt.ns < ns);
  }
}
