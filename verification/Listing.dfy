/** Listing order, filters and pages, independent of the backend that answers. */
module Listing {
  import opened Wrappers
  import opened Lineage
  import opened Ordering
  import opened Sequences
  import opened Cursors

  /** A run ledger: what a store holds, by run id. */
  type Ledger = map<string, Run>

  ghost predicate WellKeyed(m: Ledger) {
    forall id | id in m :: m[id].runID == id
  }

  /** An empty text, `Unset` or `None` does not filter; `limit <= 0` is unbounded. */
  datatype Query = Query(
    project: string,
    gitCommit: string,
    fingerprint: string,
    status: Status,
    device: string,
    submitterClaim: string,
    jobID: string,
    captureClient: string,
    since: Option<int>,
    until: Option<int>,
    limit: int,
    after: Option<Cursor>)

  const NO_FILTER := Query("", "", "", Unset, "", "", "", "", None, None, 0, None)

  datatype Page = Page(runs: seq<Run>, next: Option<Cursor>)

  predicate Passes(filter: string, value: string) {
    filter == "" || value == filter
  }

  predicate Matches(r: Run, q: Query) {
    && Passes(q.project, r.identity.project)
    && Passes(q.gitCommit, r.identity.gitCommit)
    && Passes(q.fingerprint, r.fingerprint)
    && (q.status == Unset || r.status == q.status)
    && Passes(q.device, r.provenance.device)
    && Passes(q.submitterClaim, r.provenance.submitterClaim)
    && Passes(q.jobID, r.provenance.jobID)
    && (q.captureClient == "" || (r.capture.Some? && r.capture.value.client == q.captureClient))
    && (q.since.Some? ==> q.since.value <= r.startedAt.ns)
    && (q.until.Some? ==> r.startedAt.ns < q.until.value)
  }

  /** Newest first, run id breaking ties. */
  function RunKey(r: Run): Key {
    Key(-(r.startedAt.ns as real), r.runID)
  }

  function CursorKey(c: Cursor): Key {
    Key(-(c.startedAt as real), c.runID)
  }

  function CursorAt(r: Run): Cursor {
    Cursor(r.startedAt.ns, r.runID)
  }

  predicate IsAfterCursor(r: Run, c: Cursor) {
    if r.startedAt.ns == c.startedAt then Before(c.runID, r.runID) else r.startedAt.ns < c.startedAt
  }

  lemma AfterCursorIsOrder(r: Run, c: Cursor)
    ensures IsAfterCursor(r, c) <==> Less(CursorKey(c), RunKey(r))
  {
  }

  ghost predicate InOrder(s: seq<Run>) {
    forall i, j :: 0 <= i < j < |s| ==> Less(RunKey(s[i]), RunKey(s[j]))
  }

  ghost predicate OneRunPerID(s: set<Run>) {
    forall x, y :: x in s && y in s && x.runID == y.runID ==> x == y
  }

  /** `out` lists exactly the runs of `s`, each once, in listing order. */
  ghost predicate Lists(out: seq<Run>, s: set<Run>) {
    && InOrder(out)
    && (forall r | r in out :: r in s)
    && (forall r | r in s :: r in out)
  }

  lemma DistinctInOrder(s: seq<Run>)
    requires InOrder(s)
    ensures Distinct(s)
    ensures Sorted(s, RunKey)
  {
    forall i, j | 0 <= i < j < |s| ensures s[i] != s[j] && !Less(RunKey(s[j]), RunKey(s[i])) {
      LessTrichotomy(RunKey(s[i]), RunKey(s[j]));
    }
  }

  lemma {:induction false} DistinctMultiset<T>(s: seq<T>)
    requires Distinct(s)
    ensures multiset(s) == multiset(set x | x in s)
  {
    if |s| == 0 {
    } else {
      var front, last := s[..|s| - 1], s[|s| - 1];
      DistinctMultiset(front);
      assert s == front + [last];
      assert (set x | x in s) == (set x | x in front) + {last};
      assert last !in front;
    }
  }

  lemma {:induction false} MultiplicityOne<T>(s: seq<T>, all: set<T>)
    requires multiset(s) == multiset(all)
    ensures Distinct(s)
  {
    forall i, j | 0 <= i < j < |s| ensures s[i] != s[j] {
      assert s == s[..j] + [s[j]] + s[j + 1..];
      assert multiset(s[..j])[s[j]] + 1 <= multiset(s)[s[j]] == multiset(all)[s[j]] <= 1;
      assert s[j] !in s[..j];
      assert s[i] in s[..j];
    }
  }

  lemma SortLists(found: seq<Run>, s: set<Run>)
    requires OneRunPerID(s) && multiset(found) == multiset(s)
    ensures Lists(Sort(found, RunKey), s)
  {
    var out := Sort(found, RunKey);
    SortSorted(found, RunKey);
    assert forall x | x in out :: x in multiset(out);
    assert forall x | x in s :: x in multiset(out);
    MultiplicityOne(out, s);
    forall i, j | 0 <= i < j < |out| ensures Less(RunKey(out[i]), RunKey(out[j])) {
      LessTrichotomy(RunKey(out[i]), RunKey(out[j]));
      assert out[i] in out && out[j] in out;
      assert out[i] in s && out[j] in s && out[i] != out[j];
    }
  }

  /** The rows of a set of runs, in listing order. */
  ghost function Rows(s: set<Run>): seq<Run> {
    if OneRunPerID(s) then
      SortLists(Elements(s), s);
      var out :| Lists(out, s); out
    else []
  }

  lemma RowsList(s: set<Run>)
    requires OneRunPerID(s)
    ensures Lists(Rows(s), s)
  {
  }

  /** There is one way to list a set of runs. */
  lemma ListsUnique(out: seq<Run>, s: set<Run>)
    requires OneRunPerID(s) && Lists(out, s)
    ensures out == Rows(s)
  {
    var rows := Rows(s);
    DistinctInOrder(out);
    DistinctInOrder(rows);
    DistinctMultiset(out);
    DistinctMultiset(rows);
    assert (set x | x in out) == s == (set x | x in rows);
    SortedUnique(out, rows, RunKey);
  }

  lemma SortedCollectionIsRows(found: seq<Run>, s: set<Run>)
    requires OneRunPerID(s) && multiset(found) == multiset(s)
    ensures Sort(found, RunKey) == Rows(s)
  {
    SortLists(found, s);
    ListsUnique(Sort(found, RunKey), s);
  }

  // ----- Filters, cursors and pages over a ledger -----

  ghost function Matching(m: Ledger, q: Query): set<Run> {
    set id | id in m && Matches(m[id], q) :: m[id]
  }

  /** Matching rows strictly beyond the query's cursor. */
  ghost function Beyond(m: Ledger, q: Query): set<Run> {
    set id | id in m && Matches(m[id], q) && (q.after.Some? ==> IsAfterCursor(m[id], q.after.value)) :: m[id]
  }

  lemma KeyedApart(m: Ledger, q: Query)
    requires WellKeyed(m)
    ensures OneRunPerID(Matching(m, q)) && OneRunPerID(Beyond(m, q))
  {
  }

  function Paginate(rows: seq<Run>, limit: int): Page {
    if limit <= 0 || |rows| <= limit then Page(rows, None)
    else Page(rows[..limit], Some(CursorAt(rows[limit - 1])))
  }

  /** The page a query is entitled to. */
  ghost function PageOf(m: Ledger, q: Query): Page {
    Paginate(Rows(Beyond(m, q)), q.limit)
  }

  lemma SuffixLists(all: seq<Run>, s: set<Run>, t: set<Run>, c: Cursor, i: nat)
    requires Lists(all, s) && i <= |all|
    requires forall k | 0 <= k < |all| :: IsAfterCursor(all[k], c) <==> i <= k
    requires forall r | r in t :: r in s && IsAfterCursor(r, c)
    requires forall r | r in s && IsAfterCursor(r, c) :: r in t
    ensures Lists(all[i..], t)
  {
    forall r | r in t ensures r in all[i..] {
      var k :| 0 <= k < |all| && all[k] == r;
      assert all[i..][k - i] == r;
    }
  }

  /** The part of an ordered listing behind a cursor is the ordered listing of what is beyond it. */
  lemma SuffixIsBeyond(m: Ledger, q: Query, i: nat)
    requires WellKeyed(m) && q.after.Some?
    requires i <= |Rows(Matching(m, q))|
    requires forall k | 0 <= k < |Rows(Matching(m, q))| ::
               IsAfterCursor(Rows(Matching(m, q))[k], q.after.value) <==> i <= k
    ensures Rows(Matching(m, q))[i..] == Rows(Beyond(m, q))
  {
    KeyedApart(m, q);
    RowsList(Matching(m, q));
    SuffixLists(Rows(Matching(m, q)), Matching(m, q), Beyond(m, q), q.after.value, i);
    ListsUnique(Rows(Matching(m, q))[i..], Beyond(m, q));
  }

  lemma NoCursorIsMatching(m: Ledger, q: Query)
    requires q.after.None?
    ensures Matching(m, q) == Beyond(m, q)
  {
  }
}
