/** The HTTP API's own rules: stamping on record, page limits, cursor tokens. */
module Api {
  import opened Wrappers
  import opened Lineage
  import opened Patching
  import opened Listing
  import opened Cursors
  import opened MemoryStore
  import Filters
  import Fingerprint
  import Text
  import Base64

  /** Go's zero `time.Time`, 1 January of year 1. */
  const ZERO_TIME: int := -62135596800_000_000_000

  /** 1969 years before 1970, with a leap day every 4 years but not every 100, unless every 400. */
  lemma ZeroTimeIsYearOne()
    ensures ZERO_TIME == -(1969 * 365 + 1969 / 4 - 1969 / 100 + 1969 / 400) * 24 * 60 * 60 * 1_000_000_000
  {
  }

  const DEFAULT_LIST_LIMIT := 50
  const MAX_LIST_LIMIT := 500

  /** The run a POST stores: the server decides fingerprint and version, and fills the gaps. */
  ghost function Stamp(run: Run, now: int, assignedID: string, norm: string -> string): Run {
    run.(startedAt := if run.startedAt.ns == ZERO_TIME then Instant(now, UTC) else run.startedAt,
         status := if run.status == Unset then Created else run.status,
         fingerprint := Fingerprint.Preimage(run.identity, norm),
         fingerprintVersion := CURRENT_FINGERPRINT_VERSION,
         runID := if run.runID == "" then assignedID else run.runID)
  }

  /** POST /runs: stamps the run, then records it. */
  method RecordRunHandler(store: Memory, run: Run, now: int, assignedID: string, norm: string -> string)
    returns (stored: Run, err: Option<Error>)
    requires store.Valid()
    modifies store
    ensures store.Valid()
    ensures stored == Stamp(run, now, assignedID, norm)
    ensures (store.runs, err) == Recorded(old(store.runs), stored)
  {
    stored := run;
    if stored.startedAt.ns == ZERO_TIME {
      stored := stored.(startedAt := Instant(now, UTC));
    }
    if stored.status == Unset {
      stored := stored.(status := Created);
    }
    var fingerprint := Fingerprint.Compute(stored.identity, norm);
    stored := stored.(fingerprint := fingerprint, fingerprintVersion := CURRENT_FINGERPRINT_VERSION);
    if stored.runID == "" {
      stored := stored.(runID := assignedID);
    }
    err := store.Record(stored);
  }

  /**
   The row a POST under a new id leaves: what the payload says, with an unset
   status read as created, a missing start time as the server's clock, the
   fingerprint of its own identity, and an id if it named none.
   */
  lemma PostStoresRow(m: Ledger, run: Run, now: int, assignedID: string, norm: string -> string)
    requires Recorded(m, Stamp(run, now, assignedID, norm)).1.None?
    requires (if run.runID == "" then assignedID else run.runID) !in m
    ensures var id := if run.runID == "" then assignedID else run.runID;
            var n := Recorded(m, Stamp(run, now, assignedID, norm)).0;
            && n.Keys == m.Keys + {id}
            && (forall k | k in m :: n[k] == m[k])
            && var r := n[id];
               && r.runID == id && r.identity == run.identity && r.provenance == run.provenance
               && r.endedAt == run.endedAt && r.metrics == run.metrics
               && r.status == (if run.status == Unset then Created else run.status)
               && r.startedAt == (if run.startedAt.ns == ZERO_TIME then Instant(now, UTC) else run.startedAt)
               && r.fingerprint == Fingerprint.Preimage(run.identity, norm) && r.fingerprintVersion == 2
               && (r.capture.Some? <==> run.capture.Some?)
               && (r.capture.Some? ==> r.capture.value.client == run.capture.value.client)
               && multiset(AttemptedOf(r.capture)) == multiset(AttemptedOf(run.capture))
  {
    var stored := Stamp(run, now, assignedID, norm);
    assert Recorded(m, stored).0 == m[stored.runID := NormalizeCapture(stored)];
  }

  /** A write request. `assignedID` is what the server picks when the client names no run. */
  datatype Request =
    | Post(run: Run, now: int, assignedID: string)
    | PatchRun(id: string, patch: Patch, at: int)

  ghost function AsWrite(req: Request, norm: string -> string): Write {
    match req
    case Post(run, now, assignedID) => RecordRun(Stamp(run, now, assignedID, norm))
    case PatchRun(id, p, at) => UpdateRun(id, p, at)
  }

  ghost function Served(m: Ledger, reqs: seq<Request>, norm: string -> string): Ledger
    decreases |reqs|
  {
    if |reqs| == 0 then m else Served(Step(m, AsWrite(reqs[0], norm)), reqs[1..], norm)
  }

  ghost predicate Stamped(r: Run, norm: string -> string) {
    && r.fingerprint == Fingerprint.Preimage(r.identity, norm)
    && r.fingerprintVersion == CURRENT_FINGERPRINT_VERSION
    && r.runID != ""
    && ValidStatus(r.status)
  }

  ghost predicate StampedLedger(m: Ledger, norm: string -> string) {
    Sound(m) && forall id | id in m :: Stamped(m[id], norm)
  }

  lemma RequestKeepsStamps(m: Ledger, req: Request, norm: string -> string)
    requires StampedLedger(m, norm)
    requires req.Post? ==> req.assignedID != ""
    ensures StampedLedger(Step(m, AsWrite(req, norm)), norm)
  {
    var w := AsWrite(req, norm);
    StepGrows(m, w);
    var n := Step(m, w);
    forall id | id in n ensures Stamped(n[id], norm) {
      if id in m {
        StampSurvives(m[id], n[id], norm);
      } else {
        NewRunIsStamped(m, req, norm, id);
      }
    }
  }

  lemma StampSurvives(a: Run, b: Run, norm: string -> string)
    requires Stamped(a, norm) && Evolves(a, b)
    ensures Stamped(b, norm)
  {
  }

  lemma NewRunIsStamped(m: Ledger, req: Request, norm: string -> string, id: string)
    requires req.Post? ==> req.assignedID != ""
    requires id !in m && id in Step(m, AsWrite(req, norm))
    ensures Stamped(Step(m, AsWrite(req, norm))[id], norm)
  {
    var run := Stamp(req.run, req.now, req.assignedID, norm);
    assert Step(m, RecordRun(run))[id] == NormalizeCapture(run);
  }

  /**
   Every run of a ledger filled through the API carries the fingerprint of its
   own identity, whatever was posted and patched.
   */
  lemma {:induction false} ServedIsStamped(m: Ledger, reqs: seq<Request>, norm: string -> string)
    requires StampedLedger(m, norm)
    requires forall r | r in reqs :: r.Post? ==> r.assignedID != ""
    ensures StampedLedger(Served(m, reqs, norm), norm)
    decreases |reqs|
  {
    if |reqs| == 0 {
    } else {
      assert reqs[0] in reqs;
      RequestKeepsStamps(m, reqs[0], norm);
      ServedIsStamped(Step(m, AsWrite(reqs[0], norm)), reqs[1..], norm);
    }
  }

  lemma SameFingerprintSameProject(a: Run, b: Run, norm: string -> string)
    requires Stamped(a, norm) && Stamped(b, norm) && a.fingerprint == b.fingerprint
    ensures a.identity.project == b.identity.project
  {
    Fingerprint.PreimageEqual(a.identity, b.identity, norm);
  }

  /**
   Posting an accepted run back, with the id and start time it was given, is
   accepted by the reference store at any later time and changes nothing.
   */
  lemma RepostIdempotent(m: Ledger, run: Run, now: int, assignedID: string, later: int, otherID: string,
                         norm: string -> string)
    requires now != ZERO_TIME && assignedID != ""
    requires Recorded(m, Stamp(run, now, assignedID, norm)).1.None?
    ensures var stored := Stamp(run, now, assignedID, norm);
            var n := Recorded(m, stored).0;
            && Stamp(stored, later, otherID, norm) == stored
            && Recorded(n, Stamp(stored, later, otherID, norm)) == (n, None)
  {
  }

  /**
   In the reference store, posting the same payload again changes nothing exactly when it names its run,
   and its start time too unless the clock stood still.
   */
  lemma RepostExactly(m: Ledger, run: Run, now: int, assignedID: string, later: int, otherID: string,
                      norm: string -> string)
    requires Recorded(m, Stamp(run, now, assignedID, norm)).1.None?
    requires otherID !in Recorded(m, Stamp(run, now, assignedID, norm)).0
    ensures var n := Recorded(m, Stamp(run, now, assignedID, norm)).0;
            Recorded(n, Stamp(run, later, otherID, norm)) == (n, None) <==>
              run.runID != "" && (run.startedAt.ns != ZERO_TIME || later == now)
  {
    var first, again := Stamp(run, now, assignedID, norm), Stamp(run, later, otherID, norm);
    var n := Recorded(m, first).0;
    assert n[first.runID] == NormalizeCapture(first);
    if run.runID == "" {
      assert Recorded(n, again) == (n, None) ==> otherID in n;
    }
  }

  /** A payload that names no run is stored again beside its first row, the same but for the id. */
  lemma RepostAddsRow(m: Ledger, run: Run, now: int, assignedID: string, later: int, otherID: string,
                      norm: string -> string)
    requires run.runID == "" && run.startedAt.ns != ZERO_TIME
    requires Recorded(m, Stamp(run, now, assignedID, norm)).1.None?
    requires otherID !in Recorded(m, Stamp(run, now, assignedID, norm)).0
    ensures var n := Recorded(m, Stamp(run, now, assignedID, norm)).0;
            && assignedID in n
            && Recorded(n, Stamp(run, later, otherID, norm)) == (n[otherID := n[assignedID].(runID := otherID)], None)
  {
    var first, again := Stamp(run, now, assignedID, norm), Stamp(run, later, otherID, norm);
    assert Recorded(m, first).0[assignedID] == NormalizeCapture(first);
    assert again == first.(runID := otherID);
    assert NormalizeCapture(again) == NormalizeCapture(first).(runID := otherID);
  }

  // ----- GET /runs -----

  function ParseLimit(s: string): Option<int> {
    if s == "" then Some(DEFAULT_LIST_LIMIT)
    else
      match Text.ParseInt64(s)
      case None => None
      case Some(n) => if n <= 0 then None else Some(if n > MAX_LIST_LIMIT then MAX_LIST_LIMIT else n)
  }

  datatype Response = Response(runs: seq<Run>, nextCursor: Option<string>)

  /** Run ids as Go strings. */
  ghost predicate ByteIDs(m: Ledger) {
    forall id | id in m :: Base64.IsBytes(m[id].runID)
  }

  /** Rows whose position survives the trip through a token. */
  predicate TokenSafe(r: Run) {
    Base64.IsBytes(r.runID) && r.runID != "" && Text.FitsInt64(r.startedAt.ns)
  }

  /** A response is a page with its cursor, if any, as a token. */
  ghost predicate Carries(resp: Response, page: Page) {
    && resp.runs == page.runs
    && (page.next.None? ==> resp.nextCursor.None?)
    && (page.next.Some? ==>
          Base64.IsBytes(page.next.value.runID) && resp.nextCursor == Some(EncodeCursor(page.next.value)))
  }

  /** A response carries a page that holds exactly what the query is entitled to. */
  ghost predicate CarriesExactly(resp: Response, m: Ledger, q: Query) {
    exists page :: Carries(resp, page) && Filters.IsPage(page, m, q)
  }

  /** The status a listing may filter on. */
  predicate KnownStatus(filter: Query) {
    filter.status == Unset || ValidStatus(filter.status)
  }

  /** The query a request with these parameters asks. */
  function Requested(filter: Query, limit: string, cursor: string): Query
    requires ParseLimit(limit).Some?
  {
    filter.(limit := ParseLimit(limit).value, after := if cursor == "" then None else DecodeCursor(cursor))
  }

  /** The page size a limit parameter asks for: 50 by default, 500 at most. */
  ghost predicate AsksFor(limit: string, size: int) {
    if limit == "" then size == 50
    else
      && Text.ParseInt64(limit).Some? && Text.ParseInt64(limit).value > 0
      && size == if Text.ParseInt64(limit).value > 500 then 500 else Text.ParseInt64(limit).value
  }

  lemma ParseLimitExactly(limit: string, size: int)
    ensures ParseLimit(limit) == Some(size) <==> AsksFor(limit, size)
  {
  }

  /** A number is refused as a limit exactly when it is not positive or does not fit 64 bits. */
  lemma LimitOfNumber(n: int)
    ensures (exists size :: AsksFor(Text.OfInt(n), size)) <==> 0 < n <= Text.INT64_MAX
    ensures 0 < n <= 500 ==> AsksFor(Text.OfInt(n), n)
    ensures 500 < n <= Text.INT64_MAX ==> AsksFor(Text.OfInt(n), 500)
  {
    Text.ParsePrinted(n);
    if 0 < n <= Text.INT64_MAX { assert AsksFor(Text.OfInt(n), if n > 500 then 500 else n); }
  }

  /** Answers a listing request; `None` is a 400. */
  method ListRuns(store: Memory, filter: Query, limit: string, cursor: string) returns (resp: Option<Response>)
    requires store.Valid()
    requires ByteIDs(store.runs)
    ensures resp.None? <==>
              ParseLimit(limit).None? || (cursor != "" && DecodeCursor(cursor).None?) || !KnownStatus(filter)
    ensures resp.Some? ==> Carries(resp.value, PageOf(store.runs, Requested(filter, limit, cursor)))
    ensures resp.None? <==>
              || (forall size :: !AsksFor(limit, size))
              || (cursor != "" && DecodeCursor(cursor).None?)
              || filter.status !in {Unset, Created, Running, Succeeded, Failed, Cancelled}
    ensures forall size | resp.Some? && AsksFor(limit, size) ::
              var q := filter.(limit := size, after := if cursor == "" then None else DecodeCursor(cursor));
              CarriesExactly(resp.value, store.runs, q)
  {
    forall size { ParseLimitExactly(limit, size); }
    if ParseLimit(limit).Some? { ParseLimitExactly(limit, ParseLimit(limit).value); }
    var n := ParseLimit(limit);
    if n.None? {
      return None;
    }
    var after: Option<Cursor> := None;
    if cursor != "" {
      after := DecodeCursor(cursor);
      if after.None? {
        return None;
      }
    }
    if filter.status != Unset && !ValidStatus(filter.status) {
      return None;
    }
    var q := filter.(limit := n.value, after := after);
    var page := store.List(q);
    assert AsksFor(limit, n.value);
    if page.next.None? {
      return Some(Response(page.runs, None));
    }
    CursorNamesStored(store.runs, q);
    return Some(Response(page.runs, Some(EncodeCursor(page.next.value))));
  }

  /** The cursor of a page is the position of a stored run. */
  lemma CursorNamesStored(m: Ledger, q: Query)
    requires WellKeyed(m) && PageOf(m, q).next.Some?
    ensures var c := PageOf(m, q).next.value; c.runID in m && c == CursorAt(m[c.runID])
  {
    KeyedApart(m, q);
    RowsList(Beyond(m, q));
    var rows := Rows(Beyond(m, q));
    assert rows[q.limit - 1] in rows;
    assert rows[q.limit - 1] in Beyond(m, q);
  }
}
