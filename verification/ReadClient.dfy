/** The read client's paging loop, through the API's own tokens. */
module ReadClient {
  import opened Wrappers
  import opened Lineage
  import opened Listing
  import opened Ordering
  import opened Cursors
  import opened MemoryStore
  import opened Api
  import Text
  import Base64

  const PAGE_SIZE := 500

  /** Everything the filter selects, newest first. */
  ghost function Everything(m: Ledger, filter: Query): seq<Run> {
    Rows(Matching(m, filter))
  }

  ghost function UpTo<T>(s: seq<T>, limit: Option<int>): seq<T> {
    if limit.None? then s
    else if limit.value <= 0 then []
    else if |s| <= limit.value then s
    else s[..limit.value]
  }

  /** Asking again after the `k`-th row continues exactly there. */
  lemma ContinuesAt(m: Ledger, filter: Query, k: nat)
    requires WellKeyed(m) && 0 < k <= |Everything(m, filter)|
    ensures Rows(Beyond(m, filter.(after := Some(CursorAt(Everything(m, filter)[k - 1])))))
         == Everything(m, filter)[k..]
  {
    var all := Everything(m, filter);
    var c := CursorAt(all[k - 1]);
    var q := filter.(after := Some(c));
    KeyedApart(m, filter);
    RowsList(Matching(m, filter));
    SameMatching(m, filter, q);
    forall j | 0 <= j < |all| ensures IsAfterCursor(all[j], c) <==> k <= j {
      AfterCursorIsOrder(all[j], c);
      LessTrichotomy(RunKey(all[j]), RunKey(all[k - 1]));
    }
    SuffixIsBeyond(m, q, k);
  }

  lemma SameMatching(m: Ledger, a: Query, b: Query)
    requires b == a.(limit := b.limit, after := b.after)
    ensures Matching(m, a) == Matching(m, b)
  {
    assert forall id | id in m :: Matches(m[id], a) <==> Matches(m[id], b);
  }

  /** The page after `k` rows, for a page size of `want`. */
  lemma NextPage(m: Ledger, filter: Query, k: nat, want: int, after: Option<Cursor>)
    requires WellKeyed(m) && k <= |Everything(m, filter)|
    requires if k == 0 then after.None? else after == Some(CursorAt(Everything(m, filter)[k - 1]))
    ensures PageOf(m, filter.(limit := want, after := after)) == Paginate(Everything(m, filter)[k..], want)
  {
    var all, q := Everything(m, filter), filter.(limit := want, after := after);
    if k == 0 {
      NoCursorIsMatching(m, q);
      SameMatching(m, filter, q);
      assert all[0..] == all;
    } else {
      ContinuesAt(m, filter, k);
      var p := filter.(after := after);
      assert Beyond(m, p) == Beyond(m, q) by {
        assert forall id | id in m :: Matches(m[id], p) <==> Matches(m[id], q);
      }
    }
  }

  lemma LimitText(want: int)
    requires 0 < want <= PAGE_SIZE
    ensures ParseLimit(Text.OfInt(want)) == Some(want)
  {
    Text.ParsePrinted(want);
  }

  /** `cursor` is the token a client holds after `k` rows of the listing `all`. */
  ghost predicate Holds(all: seq<Run>, k: nat, cursor: string) {
    && k <= |all|
    && if k == 0 then cursor == "" else cursor != "" && DecodeCursor(cursor) == Some(CursorAt(all[k - 1]))
  }

  lemma TokenHolds(all: seq<Run>, k: nat)
    requires 0 < k <= |all| && TokenSafe(all[k - 1])
    ensures Holds(all, k, EncodeCursor(CursorAt(all[k - 1])))
  {
    CursorRoundTrip(CursorAt(all[k - 1]));
  }

  /** What a page cut from the rest of the listing looks like from the whole. */
  ghost predicate Cut(all: seq<Run>, k: nat, want: int, page: Page) {
    && |page.runs| <= want && k + |page.runs| <= |all|
    && page.runs == all[k..k + |page.runs|]
    && (page.next.None? ==> k + |page.runs| == |all|)
    && (page.next.Some? ==>
          0 < |page.runs| == want && k + want < |all| && page.next.value == CursorAt(all[k + want - 1]))
  }

  lemma CutFrom(all: seq<Run>, k: nat, want: int)
    requires k <= |all| && want > 0
    ensures Cut(all, k, want, Paginate(all[k..], want))
  {
  }

  /**
   What a response means to a client that has `k` rows: the next ones, and a
   token exactly when rows remain, which leads on from its row if a token can
   carry that row's position.
   */
  ghost predicate Advances(all: seq<Run>, k: nat, want: int, runs: seq<Run>, next: Option<string>) {
    && |runs| <= want && k + |runs| <= |all|
    && runs == all[k..k + |runs|]
    && (next.None? ==> k + |runs| == |all|)
    && (next.Some? ==> 0 < |runs| == want && k + want < |all|
                       && (TokenSafe(all[k + |runs| - 1]) ==> Holds(all, k + |runs|, next.value)))
  }

  lemma ResponseAdvances(all: seq<Run>, k: nat, want: int, page: Page, resp: Response)
    requires Cut(all, k, want, page) && Carries(resp, page)
    ensures Advances(all, k, want, resp.runs, resp.nextCursor)
  {
    if page.next.Some? && TokenSafe(all[k + want - 1]) { TokenHolds(all, k + want); }
  }

  /** One request; `None` is an error answer, which only an unknown status can draw. */
  method FetchPage(store: Memory, filter: Query, ghost all: seq<Run>, ghost k: nat, want: int, cursor: string)
    returns (resp: Option<Response>)
    requires store.Valid() && ByteIDs(store.runs) && all == Everything(store.runs, filter)
    requires 0 < want <= PAGE_SIZE && Holds(all, k, cursor)
    ensures resp.Some? <==> KnownStatus(filter)
    ensures resp.Some? ==> Advances(all, k, want, resp.value.runs, resp.value.nextCursor)
  {
    LimitText(want);
    resp := ListRuns(store, filter, Text.OfInt(want), cursor);
    if resp.None? {
      return;
    }
    ghost var q := Requested(filter, Text.OfInt(want), cursor);
    NextPage(store.runs, filter, k, want, q.after);
    CutFrom(all, k, want);
    ResponseAdvances(all, k, want, PageOf(store.runs, q), resp.value);
  }

  /** A client that has shown `out` and goes on with `cursor`, or is done. */
  ghost predicate Underway(all: seq<Run>, limit: Option<int>, out: seq<Run>, cursor: Option<string>) {
    if cursor.None? then out == UpTo(all, limit)
    else out <= all && Holds(all, |out|, cursor.value) && (limit.Some? ==> |out| < limit.value)
  }

  /** The rows a client pages on from: the last one of every full page before its limit. */
  ghost predicate BoundariesSafe(all: seq<Run>, limit: Option<int>) {
    forall k | 0 < k < |all| && k % PAGE_SIZE == 0 && (limit.Some? ==> k < limit.value) :: TokenSafe(all[k - 1])
  }

  lemma TurnUnderway(all: seq<Run>, limit: Option<int>, out: seq<Run>, want: int, runs: seq<Run>, token: Option<string>)
    requires out <= all && Advances(all, |out|, want, runs, token)
    requires limit.Some? ==> |out| < limit.value && |out| + want <= limit.value
    requires |out| % PAGE_SIZE == 0 && BoundariesSafe(all, limit)
    requires want == PAGE_SIZE || limit == Some(|out| + want)
    ensures token.Some? && (limit.Some? ==> |out + runs| < limit.value) ==> |out + runs| % PAGE_SIZE == 0
    ensures token.None? || (limit.Some? && |out + runs| >= limit.value) ==> Underway(all, limit, out + runs, None)
    ensures token.Some? && (limit.Some? ==> |out + runs| < limit.value) ==> Underway(all, limit, out + runs, token)
  {
    var n := |out| + |runs|;
    assert all[..|out|] + all[|out|..n] == all[..n];
    assert out + runs == all[..n] && all[..|all|] == all;
    if token.Some? && (limit.Some? ==> n < limit.value) {
      assert n == |out| + PAGE_SIZE && n % PAGE_SIZE == 0;
      assert TokenSafe(all[n - 1]);
    }
  }

  /** The page size to ask for next. */
  function Want(limit: Option<int>, shown: int): (want: int)
    requires limit.Some? ==> shown < limit.value
    ensures 0 < want <= PAGE_SIZE
    ensures limit.Some? ==> shown + want <= limit.value
    ensures want == PAGE_SIZE || limit == Some(shown + want)
  {
    if limit.None? || PAGE_SIZE < limit.value - shown then PAGE_SIZE else limit.value - shown
  }

  /**
   Follows `next_cursor` until the server stops handing one over. On an
   unchanged ledger that terminates, with the first `limit` rows of the full
   listing, or all of them; `None` is the error an unknown status raises.
   */
  method Runs(store: Memory, filter: Query, limit: Option<int>) returns (res: Option<seq<Run>>)
    requires store.Valid() && ByteIDs(store.runs) && BoundariesSafe(Everything(store.runs, filter), limit)
    ensures res.None? <==> !KnownStatus(filter) && (limit.Some? ==> limit.value > 0)
    ensures res.Some? ==> res.value == UpTo(Everything(store.runs, filter), limit)
  {
    if limit.Some? && limit.value <= 0 {
      return Some([]);
    }
    ghost var all := Everything(store.runs, filter);
    var out: seq<Run> := [];
    var cursor := "";
    while true
      invariant Underway(all, limit, out, Some(cursor)) && |out| % PAGE_SIZE == 0
      invariant out != [] ==> KnownStatus(filter)
      decreases |all| - |out|
    {
      var want := Want(limit, |out|);
      var resp := FetchPage(store, filter, all, |out|, want, cursor);
      if resp.None? {
        return None;
      }
      var next := resp.value.nextCursor;
      TurnUnderway(all, limit, out, want, resp.value.runs, next);
      out := out + resp.value.runs;
      if next.None? || (limit.Some? && |out| >= limit.value) {
        return Some(out);
      }
      cursor := next.value;
    }
    assert false;
  }

  // ----- Rows a token cannot name -----

  /** The rows a listing has left after `r`, and those the token for `r` leads to. */
  ghost predicate TokenContinues(r: Run, m: Ledger)
    requires Base64.IsBytes(r.runID)
  {
    Beyond(m, NO_FILTER.(after := DecodeCursor(EncodeCursor(CursorAt(r)))))
      == Beyond(m, NO_FILTER.(after := Some(CursorAt(r))))
  }

  /**
   Paging from a row continues behind it, whatever else the ledger holds,
   exactly when the row has an id and a start time that fits 64 bits: a later
   one skips rows, an earlier one shows the row itself again.
   */
  lemma TokenContinuesExactly(r: Run)
    requires Base64.IsBytes(r.runID)
    ensures (forall m: Ledger | WellKeyed(m) && r in m.Values :: TokenContinues(r, m)) <==> TokenSafe(r)
  {
    if TokenSafe(r) {
      CursorRoundTrip(CursorAt(r));
    } else {
      var next := r.(runID := r.runID + "+", startedAt := Instant(r.startedAt.ns - 1, UTC));
      var m: Ledger := map[r.runID := r, next.runID := next];
      assert |next.runID| == |r.runID| + 1;
      assert m[r.runID] == r && m[next.runID] == next;
      TokenStrays(r, next, m);
    }
  }

  lemma WrapStrays(ns: int)
    requires !Text.FitsInt64(ns)
    ensures Text.WrapInt64(ns) < ns - 1 || ns < Text.WrapInt64(ns)
  {
  }

  lemma TokenStrays(r: Run, next: Run, m: Ledger)
    requires Base64.IsBytes(r.runID) && !TokenSafe(r)
    requires next.startedAt.ns == r.startedAt.ns - 1 && next.runID != r.runID
    requires r.runID in m && m[r.runID] == r && next.runID in m && m[next.runID] == next && WellKeyed(m)
    ensures !TokenContinues(r, m)
  {
    var c := CursorAt(r);
    DecodedToken(c);
    BeforeTrichotomy(r.runID, r.runID);
    var token := DecodeCursor(EncodeCursor(c));
    BeyondRow(m, NO_FILTER.(after := token), r);
    BeyondRow(m, NO_FILTER.(after := Some(c)), r);
    BeyondRow(m, NO_FILTER.(after := token), next);
    BeyondRow(m, NO_FILTER.(after := Some(c)), next);
    if r.runID != "" { WrapStrays(r.startedAt.ns); }
  }

  lemma BeyondRow(m: Ledger, q: Query, r: Run)
    requires WellKeyed(m) && r.runID in m && m[r.runID] == r
    ensures r in Beyond(m, q) <==> Matches(r, q) && (q.after.Some? ==> IsAfterCursor(r, q.after.value))
  {
  }
}
