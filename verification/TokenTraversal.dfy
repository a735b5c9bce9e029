/** Cursor traversals as a client sees them: through tokens, while the ledger is written to. */
module TokenTraversal {
  import opened Listing
  import opened Ordering
  import opened Cursors
  import opened Api
  import opened Traversal

  /** The token request `i` is sent with: the one the response before it carried. */
  function TokenFor(resps: seq<Response>, i: nat): string
    requires i <= |resps|
  {
    if i == 0 then "" else resps[i - 1].nextCursor.GetOr("")
  }

  /** A listing request is not refused, and answered with `resp`. */
  ghost predicate Served(m: Ledger, filter: Query, limit: string, token: string, resp: Response) {
    && ParseLimit(limit).Some? && (token == "" || DecodeCursor(token).Some?) && KnownStatus(filter)
    && Carries(resp, PageOf(m, Requested(filter, limit, token)))
  }

  /**
   A token traversal: request `i` is served from ledger `ms[i]`, any writes may
   happen in between, and every response but the last carried a token.
   */
  ghost predicate TokenTraverses(ms: seq<Ledger>, filter: Query, limits: seq<string>, resps: seq<Response>) {
    && 0 < |ms| == |limits| == |resps|
    && WrittenTo(ms)
    && (forall i | 0 <= i < |ms| :: Served(ms[i], filter, limits[i], TokenFor(resps, i), resps[i]))
    && (forall i | 0 <= i < |ms| - 1 :: resps[i].nextCursor.Some?)
  }

  /** Every row's position survives the trip through a token. */
  ghost predicate SafeRows(m: Ledger) {
    forall id | id in m :: TokenSafe(m[id])
  }

  function Sizes(limits: seq<string>): (sizes: seq<int>)
    ensures |sizes| == |limits|
    ensures forall i | 0 <= i < |limits| :: ParseLimit(limits[i]).Some? ==> sizes[i] == ParseLimit(limits[i]).value
  {
    seq(|limits|, i requires 0 <= i < |limits| => ParseLimit(limits[i]).GetOr(0))
  }

  /** The pages the responses were made from. */
  ghost function PagesBehind(ms: seq<Ledger>, filter: Query, limits: seq<string>, resps: seq<Response>): (ps: seq<Page>)
    requires TokenTraverses(ms, filter, limits, resps)
    ensures |ps| == |ms|
    ensures forall i | 0 <= i < |ms| :: ps[i] == PageOf(ms[i], Requested(filter, limits[i], TokenFor(resps, i)))
  {
    seq(|ms|, i requires 0 <= i < |ms| =>
      assert Served(ms[i], filter, limits[i], TokenFor(resps, i), resps[i]);
      PageOf(ms[i], Requested(filter, limits[i], TokenFor(resps, i))))
  }

  /** A response tells a client the page: its rows, and a token that leads on exactly from its end. */
  ghost predicate Tells(resp: Response, page: Page) {
    && resp.runs == page.runs
    && (resp.nextCursor.Some? <==> page.next.Some?)
    && (resp.nextCursor.Some? ==>
          resp.nextCursor.value != "" && DecodeCursor(resp.nextCursor.value) == page.next)
  }

  ghost predicate TellAll(resps: seq<Response>, pages: seq<Page>) {
    |resps| == |pages| && forall i | 0 <= i < |pages| :: Tells(resps[i], pages[i])
  }

  lemma CarriesTells(m: Ledger, q: Query, resp: Response)
    requires WellKeyed(m) && SafeRows(m) && Carries(resp, PageOf(m, q))
    ensures Tells(resp, PageOf(m, q))
  {
    if PageOf(m, q).next.Some? {
      CursorNamesStored(m, q);
      CursorRoundTrip(PageOf(m, q).next.value);
    }
  }

  lemma ServedTells(ms: seq<Ledger>, filter: Query, limits: seq<string>, resps: seq<Response>)
    requires TokenTraverses(ms, filter, limits, resps)
    requires forall k | 0 <= k < |ms| :: SafeRows(ms[k])
    ensures TellAll(resps, PagesBehind(ms, filter, limits, resps))
  {
    var pages := PagesBehind(ms, filter, limits, resps);
    forall i | 0 <= i < |ms| ensures Tells(resps[i], pages[i]) {
      assert Served(ms[i], filter, limits[i], TokenFor(resps, i), resps[i]);
      WrittenToGrows(ms, i, i);
      CarriesTells(ms[i], Requested(filter, limits[i], TokenFor(resps, i)), resps[i]);
    }
  }

  /** The query a token asks is the one its cursor asks. */
  lemma TokenAsks(filter: Query, limits: seq<string>, resps: seq<Response>, pages: seq<Page>, i: nat)
    requires i < |limits| == |resps| && TellAll(resps, pages) && ParseLimit(limits[i]).Some?
    requires i > 0 ==> resps[i - 1].nextCursor.Some?
    ensures Requested(filter, limits[i], TokenFor(resps, i)) == Asked(filter, Sizes(limits), pages, i)
  {
    if i > 0 { assert Tells(resps[i - 1], pages[i - 1]); }
  }

  /** Where positions survive tokens, following tokens is following the cursors behind them. */
  lemma TokensFollowCursors(ms: seq<Ledger>, filter: Query, limits: seq<string>, resps: seq<Response>)
    requires TokenTraverses(ms, filter, limits, resps)
    requires forall k | 0 <= k < |ms| :: SafeRows(ms[k])
    ensures Traverses(ms, filter, Sizes(limits), PagesBehind(ms, filter, limits, resps))
    ensures TellAll(resps, PagesBehind(ms, filter, limits, resps))
  {
    var pages := PagesBehind(ms, filter, limits, resps);
    ServedTells(ms, filter, limits, resps);
    forall i | 0 <= i < |ms| ensures Answers(ms[i], filter, Sizes(limits), pages, i) {
      assert Served(ms[i], filter, limits[i], TokenFor(resps, i), resps[i]);
      TokenAsks(filter, limits, resps, pages, i);
    }
    forall i | 0 <= i < |pages| - 1 ensures pages[i].next.Some? {
      assert Tells(resps[i], pages[i]);
    }
  }

  /** No run comes back twice through tokens, whatever the filter and whatever was written between requests. */
  lemma TokensNeverTwice(ms: seq<Ledger>, filter: Query, limits: seq<string>, resps: seq<Response>,
                         i: nat, a: nat, j: nat, b: nat)
    requires TokenTraverses(ms, filter, limits, resps)
    requires forall k | 0 <= k < |ms| :: SafeRows(ms[k])
    requires i <= j < |ms| && a < |resps[i].runs| && b < |resps[j].runs| && (i, a) != (j, b)
    ensures resps[i].runs[a].runID != resps[j].runs[b].runID
  {
    var pages := PagesBehind(ms, filter, limits, resps);
    TokensFollowCursors(ms, filter, limits, resps);
    assert Tells(resps[i], pages[i]) && Tells(resps[j], pages[j]);
    NeverTwice(ms, filter, Sizes(limits), pages, i, a, j, b);
  }

  ghost predicate Returned(resps: seq<Response>, id: string) {
    exists i, a | 0 <= i < |resps| && 0 <= a < |resps[i].runs| :: resps[i].runs[a].runID == id
  }

  /** `k` lies beyond the token request `i` is sent with. */
  ghost predicate BeyondToken(resps: seq<Response>, i: nat, k: Key)
    requires i <= |resps|
  {
    i == 0 || (DecodeCursor(TokenFor(resps, i)).Some? && Less(CursorKey(DecodeCursor(TokenFor(resps, i)).value), k))
  }

  lemma ReturnedIsVisited(resps: seq<Response>, pages: seq<Page>, id: string)
    requires TellAll(resps, pages)
    ensures Returned(resps, id) <==> Visited(pages, id)
  {
    if Returned(resps, id) {
      var i, a :| 0 <= i < |resps| && 0 <= a < |resps[i].runs| && resps[i].runs[a].runID == id;
      assert Tells(resps[i], pages[i]);
      assert pages[i].runs[a].runID == id;
    }
    if Visited(pages, id) {
      var i, a :| 0 <= i < |pages| && 0 <= a < |pages[i].runs| && pages[i].runs[a].runID == id;
      assert Tells(resps[i], pages[i]);
      assert resps[i].runs[a].runID == id;
    }
  }

  lemma BeyondTokenIsAhead(resps: seq<Response>, pages: seq<Page>, i: nat, k: Key)
    requires TellAll(resps, pages) && i <= |resps| && (i > 0 ==> resps[i - 1].nextCursor.Some?)
    ensures BeyondToken(resps, i, k) <==> Ahead(pages, i, k)
  {
    if i > 0 { assert Tells(resps[i - 1], pages[i - 1]); }
  }

  /**
   A token traversal that runs until no token comes back, filtering on fixed
   fields, returns a matching run exactly when the run was there at the start
   or appeared beyond the token the traversal had reached.
   */
  lemma TokensVisitExactly(ms: seq<Ledger>, filter: Query, limits: seq<string>, resps: seq<Response>,
                           born: nat, id: string)
    requires TokenTraverses(ms, filter, limits, resps) && resps[|resps| - 1].nextCursor.None? && FixedFilter(filter)
    requires forall k | 0 <= k < |ms| :: SafeRows(ms[k])
    requires born < |ms| && id in ms[born] && Matches(ms[born][id], filter)
    requires forall i | 0 <= i < born :: id !in ms[i]
    ensures Returned(resps, id) <==> born == 0 || BeyondToken(resps, born, RunKey(ms[born][id]))
  {
    var pages := PagesBehind(ms, filter, limits, resps);
    TokensFollowCursors(ms, filter, limits, resps);
    assert Tells(resps[|resps| - 1], pages[|pages| - 1]);
    ReturnedIsVisited(resps, pages, id);
    BeyondTokenIsAhead(resps, pages, born, RunKey(ms[born][id]));
    VisitsExactly(ms, filter, Sizes(limits), pages, born, id);
  }
}
