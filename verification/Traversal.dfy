/** Following cursors through a ledger that is being written to. */
module Traversal {
  import opened Wrappers
  import opened Lineage
  import opened Patching
  import opened Listing
  import opened Ordering
  import opened MemoryStore

  lemma CutListing(rows: seq<Run>, limit: int, k: nat)
    requires InOrder(rows) && k < |rows|
    ensures var page := Paginate(rows, limit);
            rows[k] in page.runs || (page.next.Some? && Less(CursorKey(page.next.value), RunKey(rows[k])))
  {
    var page := Paginate(rows, limit);
    if k < |page.runs| { assert page.runs[k] == rows[k]; }
  }

  lemma CutWindow(rows: seq<Run>, limit: int, a: nat)
    requires InOrder(rows) && a < |Paginate(rows, limit).runs|
    ensures Paginate(rows, limit).runs[a] == rows[a] && rows[a] in rows
    ensures Paginate(rows, limit).next.Some? ==> !Less(CursorKey(Paginate(rows, limit).next.value), RunKey(rows[a]))
  {
    if Paginate(rows, limit).next.Some? {
      LessTrichotomy(RunKey(rows[a]), RunKey(rows[limit - 1]));
    }
  }

  ghost predicate EndsAtCursor(page: Page) {
    && InOrder(page.runs)
    && (page.next.Some? ==> |page.runs| > 0 && page.next.value == CursorAt(page.runs[|page.runs| - 1]))
  }

  lemma CutInOrder(rows: seq<Run>, limit: int)
    requires InOrder(rows)
    ensures EndsAtCursor(Paginate(rows, limit))
  {
  }

  /** A row the query is entitled to is on the page, or beyond the cursor it hands over. */
  lemma OnPageOrBeyond(m: Ledger, q: Query, id: string)
    requires WellKeyed(m) && id in m && Matches(m[id], q)
    requires q.after.Some? ==> Less(CursorKey(q.after.value), RunKey(m[id]))
    ensures var page := PageOf(m, q);
            m[id] in page.runs || (page.next.Some? && Less(CursorKey(page.next.value), RunKey(m[id])))
  {
    KeyedApart(m, q);
    RowsList(Beyond(m, q));
    assert m[id] in Beyond(m, q);
    var rows := Rows(Beyond(m, q));
    var k :| 0 <= k < |rows| && rows[k] == m[id];
    CutListing(rows, q.limit, k);
  }

  /** A row on the page was ahead of the query's cursor and is not ahead of the next one. */
  lemma RowWindow(m: Ledger, q: Query, a: nat)
    requires WellKeyed(m) && a < |PageOf(m, q).runs|
    ensures var r := PageOf(m, q).runs[a];
            && r.runID in m && m[r.runID] == r
            && (q.after.Some? ==> Less(CursorKey(q.after.value), RunKey(r)))
            && (PageOf(m, q).next.Some? ==> !Less(CursorKey(PageOf(m, q).next.value), RunKey(r)))
  {
    KeyedApart(m, q);
    RowsList(Beyond(m, q));
    CutWindow(Rows(Beyond(m, q)), q.limit, a);
  }

  lemma PageInOrder(m: Ledger, q: Query)
    requires WellKeyed(m)
    ensures EndsAtCursor(PageOf(m, q))
  {
    KeyedApart(m, q);
    RowsList(Beyond(m, q));
    CutInOrder(Rows(Beyond(m, q)), q.limit);
  }

  /** Some sequence of writes turns `m` into `n`. */
  ghost predicate Reaches(m: Ledger, n: Ledger) {
    exists ws: seq<Write> :: n == After(m, ws)
  }

  lemma ReachesGrows(m: Ledger, n: Ledger)
    requires Sound(m) && Reaches(m, n)
    ensures Grows(m, n)
  {
    var ws: seq<Write> :| n == After(m, ws);
    HistoryGrows(m, ws);
  }

  ghost predicate WrittenTo(ms: seq<Ledger>) {
    |ms| > 0 && Sound(ms[0]) && forall i | 0 <= i < |ms| - 1 :: Reaches(ms[i], ms[i + 1])
  }

  lemma {:induction false} WrittenToGrows(ms: seq<Ledger>, i: nat, j: nat)
    requires WrittenTo(ms) && i <= j < |ms|
    ensures Sound(ms[i]) && Grows(ms[i], ms[j])
    decreases j
  {
    if j == 0 {
    } else {
      var k := j - 1;
      WrittenToGrows(ms, if i < j then i else k, k);
      assert Reaches(ms[k], ms[k + 1]);
      ReachesGrows(ms[k], ms[j]);
      if i < j { GrowsTransitive(ms[i], ms[k], ms[j]); }
    }
  }

  /** The query that fetches page `i`. */
  ghost function Asked(q: Query, limits: seq<int>, pages: seq<Page>, i: nat): Query
    requires i < |limits| == |pages|
  {
    q.(limit := limits[i], after := if i == 0 then None else pages[i - 1].next)
  }

  /** Every page but the last handed over a cursor. */
  ghost predicate HandOver(pages: seq<Page>) {
    forall i | 0 <= i < |pages| - 1 :: pages[i].next.Some?
  }

  /** The last page handed over none. */
  ghost predicate Ended(pages: seq<Page>) {
    |pages| > 0 && pages[|pages| - 1].next.None?
  }

  /**
   A cursor traversal: page `i` is read from ledger `ms[i]`, any writes may
   happen in between, and every page but the last handed over a cursor.
   */
  ghost predicate Traverses(ms: seq<Ledger>, q: Query, limits: seq<int>, pages: seq<Page>) {
    && 0 < |ms| == |limits| == |pages|
    && WrittenTo(ms)
    && (forall i | 0 <= i < |ms| :: Answers(ms[i], q, limits, pages, i))
    && HandOver(pages)
  }

  lemma FirstPage(m: Ledger, q: Query, limit: int)
    requires Sound(m)
    ensures Traverses([m], q, [limit], [PageOf(m, q.(limit := limit, after := None))])
  {
  }

  lemma WrittenToOnceMore(ms: seq<Ledger>, n: Ledger)
    requires WrittenTo(ms) && Reaches(ms[|ms| - 1], n)
    ensures WrittenTo(ms + [n])
  {
    var more := ms + [n];
    forall i | 0 <= i < |more| - 1 ensures Reaches(more[i], more[i + 1]) {
      if i < |ms| - 1 { assert more[i] == ms[i] && more[i + 1] == ms[i + 1]; }
    }
  }

  lemma AskedBefore(q: Query, limits: seq<int>, pages: seq<Page>, limit: int, page: Page, i: nat)
    requires i < |limits| == |pages|
    ensures Asked(q, limits + [limit], pages + [page], i) == Asked(q, limits, pages, i)
  {
  }

  lemma AskedLast(q: Query, limits: seq<int>, pages: seq<Page>, limit: int, page: Page)
    requires 0 < |limits| == |pages|
    ensures Asked(q, limits + [limit], pages + [page], |limits|) == q.(limit := limit, after := pages[|pages| - 1].next)
  {
  }

  /** Page `i` answers the query that fetches it. */
  ghost predicate Answers(m: Ledger, q: Query, limits: seq<int>, pages: seq<Page>, i: nat)
    requires i < |limits| == |pages|
  {
    pages[i] == PageOf(m, Asked(q, limits, pages, i))
  }

  lemma AnswersStill(m: Ledger, q: Query, limits: seq<int>, pages: seq<Page>, limit: int, page: Page, i: nat)
    requires i < |limits| == |pages| && Answers(m, q, limits, pages, i)
    ensures Answers(m, q, limits + [limit], pages + [page], i)
  {
    AskedBefore(q, limits, pages, limit, page, i);
    assert (pages + [page])[i] == pages[i];
  }

  lemma AnswersLast(n: Ledger, q: Query, limits: seq<int>, pages: seq<Page>, limit: int, page: Page)
    requires 0 < |limits| == |pages| && page == PageOf(n, q.(limit := limit, after := pages[|pages| - 1].next))
    ensures Answers(n, q, limits + [limit], pages + [page], |limits|)
  {
    AskedLast(q, limits, pages, limit, page);
    assert (pages + [page])[|limits|] == page;
  }

  lemma HandOverOnceMore(pages: seq<Page>, page: Page)
    requires |pages| > 0 && HandOver(pages) && pages[|pages| - 1].next.Some?
    ensures HandOver(pages + [page])
  {
  }

  /** A traversal that was handed a cursor can go on, whatever was written meanwhile. */
  lemma FollowCursor(ms: seq<Ledger>, q: Query, limits: seq<int>, pages: seq<Page>, n: Ledger, limit: int, page: Page)
    requires Traverses(ms, q, limits, pages) && pages[|pages| - 1].next.Some? && Reaches(ms[|ms| - 1], n)
    requires page == PageOf(n, q.(limit := limit, after := pages[|pages| - 1].next))
    ensures Traverses(ms + [n], q, limits + [limit], pages + [page])
  {
    WrittenToOnceMore(ms, n);
    HandOverOnceMore(pages, page);
    forall i | 0 <= i < |ms + [n]| ensures Answers((ms + [n])[i], q, limits + [limit], pages + [page], i) {
      if i < |ms| {
        AnswersStill(ms[i], q, limits, pages, limit, page, i);
      } else {
        AnswersLast(n, q, limits, pages, limit, page);
      }
    }
  }

  /** The next page leaves fewer rows to read. */
  lemma BeyondShrinks(m: Ledger, q: Query, limit: int)
    requires WellKeyed(m) && PageOf(m, q).next.Some?
    ensures Beyond(m, q.(limit := limit, after := PageOf(m, q).next)) < Beyond(m, q)
  {
    var page := PageOf(m, q);
    var next := q.(limit := limit, after := page.next);
    var a := |page.runs| - 1;
    PageInOrder(m, q);
    RowWindow(m, q, a);
    assert RowBeyond(m, q, page.runs[a].runID) && !RowBeyond(m, next, page.runs[a].runID);
    forall id | id in m && RowBeyond(m, next, id) ensures RowBeyond(m, q, id) {
      if q.after.Some? {
        LessTransitive(CursorKey(q.after.value), CursorKey(page.next.value), RunKey(m[id]));
      }
    }
  }

  ghost predicate RowBeyond(m: Ledger, q: Query, id: string)
    requires id in m
    ensures WellKeyed(m) ==> (RowBeyond(m, q, id) <==> m[id] in Beyond(m, q))
  {
    Matches(m[id], q) && (q.after.Some? ==> Less(CursorKey(q.after.value), RunKey(m[id])))
  }

  /** The rows left to read when a traversal read its last page. */
  ghost function LeftToRead(ms: seq<Ledger>, q: Query, limits: seq<int>, pages: seq<Page>): set<Run>
    requires 0 < |ms| == |limits| == |pages|
  {
    Beyond(ms[|ms| - 1], Asked(q, limits, pages, |ms| - 1))
  }

  /** With no write in between, another page leaves less to read. */
  lemma LeftShrinks(ms: seq<Ledger>, q: Query, limits: seq<int>, pages: seq<Page>, limit: int, page: Page)
    requires 0 < |ms| == |limits| == |pages| && Answers(ms[|ms| - 1], q, limits, pages, |ms| - 1)
    requires pages[|pages| - 1].next.Some? && WellKeyed(ms[|ms| - 1])
    ensures LeftToRead(ms + [ms[|ms| - 1]], q, limits + [limit], pages + [page]) < LeftToRead(ms, q, limits, pages)
  {
    LeftOnceMore(ms, q, limits, pages, ms[|ms| - 1], limit, page);
    BeyondShrinks(ms[|ms| - 1], Asked(q, limits, pages, |ms| - 1), limit);
  }

  lemma LeftOnceMore(ms: seq<Ledger>, q: Query, limits: seq<int>, pages: seq<Page>, m: Ledger, limit: int, page: Page)
    requires 0 < |ms| == |limits| == |pages|
    ensures LeftToRead(ms + [m], q, limits + [limit], pages + [page])
         == Beyond(m, q.(limit := limit, after := pages[|pages| - 1].next))
  {
    AskedLast(q, limits, pages, limit, page);
    assert (ms + [m])[|ms|] == m;
  }

  lemma ReadOn(ms: seq<Ledger>, q: Query, limits: seq<int>, pages: seq<Page>, limit: int) returns (page: Page)
    requires Traverses(ms, q, limits, pages) && pages[|pages| - 1].next.Some?
    ensures Traverses(ms + [ms[|ms| - 1]], q, limits + [limit], pages + [page])
    ensures LeftToRead(ms + [ms[|ms| - 1]], q, limits + [limit], pages + [page]) < LeftToRead(ms, q, limits, pages)
  {
    var m := ms[|ms| - 1];
    page := PageOf(m, q.(limit := limit, after := pages[|pages| - 1].next));
    WrittenToGrows(ms, |ms| - 1, |ms| - 1);
    LeftShrinks(ms, q, limits, pages, limit, page);
    assert m == After(m, []);
    FollowCursor(ms, q, limits, pages, m, limit, page);
  }

  /** `more` is `s` followed by nothing but `x`. */
  ghost predicate Repeats<T>(s: seq<T>, x: T, more: seq<T>) {
    s <= more && forall i | |s| <= i < |more| :: more[i] == x
  }

  lemma RepeatsOn<T>(s: seq<T>, x: T, more: seq<T>)
    requires Repeats(s + [x], x, more)
    ensures Repeats(s, x, more)
  {
    assert more[|s|] == (s + [x])[|s|];
  }

  /** A traversal carried on over the unchanged ledger, with one page size, until it ended. */
  ghost predicate CarriedOn(ms: seq<Ledger>, limits: seq<int>, pages: seq<Page>, limit: int,
                            all: seq<Ledger>, sizes: seq<int>, read: seq<Page>) {
    |ms| > 0 && Repeats(ms, ms[|ms| - 1], all) && Repeats(limits, limit, sizes) && pages <= read && Ended(read)
  }

  lemma CarriedOnMore(ms: seq<Ledger>, limits: seq<int>, pages: seq<Page>, limit: int, page: Page,
                      all: seq<Ledger>, sizes: seq<int>, read: seq<Page>)
    requires |ms| > 0
    requires CarriedOn(ms + [ms[|ms| - 1]], limits + [limit], pages + [page], limit, all, sizes, read)
    ensures CarriedOn(ms, limits, pages, limit, all, sizes, read)
  {
    RepeatsOn(ms, ms[|ms| - 1], all);
    RepeatsOn(limits, limit, sizes);
    assert pages <= pages + [page];
  }

  /** Every traversal comes to its end once the writes stop, whatever the page size. */
  lemma {:induction false} CanEnd(ms: seq<Ledger>, q: Query, limits: seq<int>, pages: seq<Page>, limit: int)
    returns (all: seq<Ledger>, sizes: seq<int>, read: seq<Page>)
    requires Traverses(ms, q, limits, pages)
    ensures Traverses(all, q, sizes, read) && CarriedOn(ms, limits, pages, limit, all, sizes, read)
    decreases LeftToRead(ms, q, limits, pages)
  {
    if Ended(pages) {
      all, sizes, read := ms, limits, pages;
    } else {
      var page := ReadOn(ms, q, limits, pages, limit);
      all, sizes, read := CanEnd(ms + [ms[|ms| - 1]], q, limits + [limit], pages + [page], limit);
      CarriedOnMore(ms, limits, pages, limit, page, all, sizes, read);
    }
  }

  /** So any sound ledger can be read to the end, for any filter and page size. */
  lemma ScanEnds(m: Ledger, q: Query, limit: int) returns (all: seq<Ledger>, sizes: seq<int>, read: seq<Page>)
    requires Sound(m)
    ensures Traverses(all, q, sizes, read) && Ended(read)
    ensures Repeats([m], m, all) && Repeats([limit], limit, sizes)
  {
    FirstPage(m, q, limit);
    all, sizes, read := CanEnd([m], q, [limit], [PageOf(m, q.(limit := limit, after := None))], limit);
  }

  lemma StatesGrow(ms: seq<Ledger>, q: Query, limits: seq<int>, pages: seq<Page>, i: nat, j: nat)
    requires Traverses(ms, q, limits, pages) && i <= j < |ms|
    ensures Sound(ms[i]) && Grows(ms[i], ms[j])
  {
    WrittenToGrows(ms, i, j);
  }

  /** `k` lies ahead of where the traversal stands before page `i`. */
  ghost predicate Ahead(pages: seq<Page>, i: nat, k: Key)
    requires i <= |pages|
  {
    i == 0 || (pages[i - 1].next.Some? && Less(CursorKey(pages[i - 1].next.value), k))
  }

  /** Every row of page `i` was ahead when it was read, and is not ahead afterwards. */
  lemma PageWindow(ms: seq<Ledger>, q: Query, limits: seq<int>, pages: seq<Page>, i: nat, a: nat)
    requires Traverses(ms, q, limits, pages) && i < |ms| && a < |pages[i].runs|
    ensures Ahead(pages, i, RunKey(pages[i].runs[a]))
    ensures i < |ms| - 1 ==> !Ahead(pages, i + 1, RunKey(pages[i].runs[a]))
    ensures pages[i].runs[a].runID in ms[i] && ms[i][pages[i].runs[a].runID] == pages[i].runs[a]
  {
    StatesGrow(ms, q, limits, pages, i, i);
    RowWindow(ms[i], Asked(q, limits, pages, i), a);
  }

  lemma PositionAdvances(ms: seq<Ledger>, q: Query, limits: seq<int>, pages: seq<Page>, i: nat)
    requires Traverses(ms, q, limits, pages) && 0 < i < |ms| - 1
    ensures Less(CursorKey(pages[i - 1].next.value), CursorKey(pages[i].next.value))
  {
    StatesGrow(ms, q, limits, pages, i, i);
    PageInOrder(ms[i], Asked(q, limits, pages, i));
    PageWindow(ms, q, limits, pages, i, |pages[i].runs| - 1);
  }

  /** Every page but the last ends beyond where the one before it ended. */
  ghost predicate Advancing(pages: seq<Page>) {
    && HandOver(pages)
    && forall i | 0 < i < |pages| - 1 :: Less(CursorKey(pages[i - 1].next.value), CursorKey(pages[i].next.value))
  }

  lemma PositionsAdvance(ms: seq<Ledger>, q: Query, limits: seq<int>, pages: seq<Page>)
    requires Traverses(ms, q, limits, pages)
    ensures Advancing(pages)
  {
    forall i | 0 < i < |pages| - 1 ensures Less(CursorKey(pages[i - 1].next.value), CursorKey(pages[i].next.value)) {
      PositionAdvances(ms, q, limits, pages, i);
    }
  }

  /** Positions only move forward. */
  lemma {:induction false} AheadEarlier(pages: seq<Page>, i: nat, j: nat, k: Key)
    requires Advancing(pages) && i <= j < |pages| && Ahead(pages, j, k)
    ensures Ahead(pages, i, k)
    decreases j - i
  {
    if i < j {
      AheadEarlier(pages, i + 1, j, k);
      if i > 0 { LessTransitive(CursorKey(pages[i - 1].next.value), CursorKey(pages[i].next.value), k); }
    }
  }

  /** No run is returned twice, whatever the filter and whatever was written meanwhile. */
  lemma NeverTwice(ms: seq<Ledger>, q: Query, limits: seq<int>, pages: seq<Page>, i: nat, a: nat, j: nat, b: nat)
    requires Traverses(ms, q, limits, pages)
    requires i <= j < |ms| && a < |pages[i].runs| && b < |pages[j].runs| && (i, a) != (j, b)
    ensures pages[i].runs[a].runID != pages[j].runs[b].runID
  {
    if i < j {
      NotOnLaterPage(ms, q, limits, pages, i, a, j, b);
    } else {
      StatesGrow(ms, q, limits, pages, i, i);
      OnceOnPage(ms[i], Asked(q, limits, pages, i), a, b);
    }
  }

  lemma OnceOnPage(m: Ledger, q: Query, a: nat, b: nat)
    requires WellKeyed(m) && a < |PageOf(m, q).runs| && b < |PageOf(m, q).runs| && a != b
    ensures PageOf(m, q).runs[a].runID != PageOf(m, q).runs[b].runID
  {
    PageInOrder(m, q);
    DistinctInOrder(PageOf(m, q).runs);
    RowWindow(m, q, a);
    RowWindow(m, q, b);
  }

  lemma SameRowSameKey(m: Ledger, n: Ledger, x: Run, y: Run)
    requires Grows(m, n) && x.runID in m && m[x.runID] == x && y.runID in n && n[y.runID] == y
    ensures x.runID == y.runID ==> RunKey(x) == RunKey(y)
  {
  }

  lemma NotOnLaterPage(ms: seq<Ledger>, q: Query, limits: seq<int>, pages: seq<Page>, i: nat, a: nat, j: nat, b: nat)
    requires Traverses(ms, q, limits, pages)
    requires i < j < |ms| && a < |pages[i].runs| && b < |pages[j].runs|
    ensures pages[i].runs[a].runID != pages[j].runs[b].runID
  {
    var x, y := pages[i].runs[a], pages[j].runs[b];
    PageWindow(ms, q, limits, pages, i, a);
    PageWindow(ms, q, limits, pages, j, b);
    PositionsAdvance(ms, q, limits, pages);
    AheadEarlier(pages, i + 1, j, RunKey(y));
    StatesGrow(ms, q, limits, pages, i, j);
    SameRowSameKey(ms[i], ms[j], x, y);
  }

  /** Filters on fields no update can change. */
  predicate FixedFilter(q: Query) {
    q.status == Unset && q.device == "" && q.submitterClaim == "" && q.jobID == ""
  }

  ghost predicate Visited(pages: seq<Page>, id: string) {
    exists i, a | 0 <= i < |pages| && 0 <= a < |pages[i].runs| :: pages[i].runs[a].runID == id
  }

  lemma FixedFilterStays(r: Run, s: Run, q: Query)
    requires FixedFilter(q) && Evolves(r, s)
    ensures Matches(r, q) <==> Matches(s, q)
  {
  }

  /** A matching row ahead of page `i` is on it, or still ahead afterwards. */
  lemma OnPageOrStillAhead(ms: seq<Ledger>, q: Query, limits: seq<int>, pages: seq<Page>, i: nat, id: string)
    requires Traverses(ms, q, limits, pages) && i < |ms| && id in ms[i] && Matches(ms[i][id], q)
    requires Ahead(pages, i, RunKey(ms[i][id]))
    ensures ms[i][id] in pages[i].runs || Ahead(pages, i + 1, RunKey(ms[i][id]))
    ensures ms[i][id].runID == id
  {
    StatesGrow(ms, q, limits, pages, i, i);
    OnPageOrBeyond(ms[i], Asked(q, limits, pages, i), id);
  }

  lemma StillMatching(ms: seq<Ledger>, q: Query, limits: seq<int>, pages: seq<Page>, i: nat, id: string)
    requires Traverses(ms, q, limits, pages) && FixedFilter(q)
    requires i < |ms| - 1 && id in ms[i] && Matches(ms[i][id], q)
    ensures id in ms[i + 1] && Matches(ms[i + 1][id], q) && RunKey(ms[i + 1][id]) == RunKey(ms[i][id])
  {
    StatesGrow(ms, q, limits, pages, i, i + 1);
    GrownStillMatches(ms[i], ms[i + 1], q, id);
  }

  lemma GrownStillMatches(m: Ledger, n: Ledger, q: Query, id: string)
    requires Grows(m, n) && FixedFilter(q) && id in m && Matches(m[id], q)
    ensures id in n && Matches(n[id], q) && RunKey(n[id]) == RunKey(m[id])
  {
    FixedFilterStays(m[id], n[id], q);
  }

  /** A matching row ahead of a traversal that runs to the end is reached. */
  lemma {:induction false} CaughtUp(ms: seq<Ledger>, q: Query, limits: seq<int>, pages: seq<Page>, i: nat, id: string)
    requires Traverses(ms, q, limits, pages) && Ended(pages)
    requires FixedFilter(q) && i < |ms| && id in ms[i] && Matches(ms[i][id], q)
    requires Ahead(pages, i, RunKey(ms[i][id]))
    ensures Visited(pages, id)
    decreases |ms| - i
  {
    OnPageOrStillAhead(ms, q, limits, pages, i, id);
    if ms[i][id] in pages[i].runs {
      var a :| 0 <= a < |pages[i].runs| && pages[i].runs[a] == ms[i][id];
      assert pages[i].runs[a].runID == id;
    } else {
      StillMatching(ms, q, limits, pages, i, id);
      CaughtUp(ms, q, limits, pages, i + 1, id);
    }
  }

  lemma WasAhead(ms: seq<Ledger>, q: Query, limits: seq<int>, pages: seq<Page>, born: nat, i: nat, a: nat)
    requires Traverses(ms, q, limits, pages) && i < |ms| && a < |pages[i].runs| && born < |ms|
    requires pages[i].runs[a].runID in ms[born]
    requires forall n | 0 <= n < born :: pages[i].runs[a].runID !in ms[n]
    ensures Ahead(pages, born, RunKey(ms[born][pages[i].runs[a].runID]))
  {
    PageWindow(ms, q, limits, pages, i, a);
    assert born <= i;
    StatesGrow(ms, q, limits, pages, born, i);
    PositionsAdvance(ms, q, limits, pages);
    AheadEarlier(pages, born, i, RunKey(pages[i].runs[a]));
  }

  /**
   A traversal to the end, filtering on fixed fields, visits a matching run
   exactly when the run was there at the start or appeared ahead of the
   position the traversal had reached.
   */
  lemma VisitsExactly(ms: seq<Ledger>, q: Query, limits: seq<int>, pages: seq<Page>, born: nat, id: string)
    requires Traverses(ms, q, limits, pages) && Ended(pages) && FixedFilter(q)
    requires born < |ms| && id in ms[born] && Matches(ms[born][id], q)
    requires forall i | 0 <= i < born :: id !in ms[i]
    ensures Visited(pages, id) <==> born == 0 || Ahead(pages, born, RunKey(ms[born][id]))
  {
    if Ahead(pages, born, RunKey(ms[born][id])) {
      CaughtUp(ms, q, limits, pages, born, id);
    }
    if Visited(pages, id) {
      var i, a :| 0 <= i < |pages| && 0 <= a < |pages[i].runs| && pages[i].runs[a].runID == id;
      WasAhead(ms, q, limits, pages, born, i, a);
    }
  }
}
