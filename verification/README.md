# Run-ledger, verified

Run-ledger records machine-learning runs: what was trained, from which commit,
with which parameters, and what came out. This project models its logic in
Dafny and proves what the system promises: that identity is content-addressed,
that a finished run is frozen, that its two storage backends agree, that pages
neither repeat nor skip rows while the ledger is written to, and that a client
whose messages are lost neither loses nor double-counts a run.

Verify everything with `dafny verify dfyconfig.toml`.

## How it is laid out

| modules | what they hold |
|---|---|
| `Lineage`, `Numbers`, `Fingerprint`, `ParamIdentity` | the run record, number spellings, the hashed bytes, which runs are one experiment |
| `Validity`, `Acceptance`, `Filters` | which records, updates and rows a store accepts and returns, in terms of fields |
| `Patching`, `MemoryStore`, `Listing`, `Traversal`, `TokenTraversal` | the lifecycle, the reference store, listing order, traversals under writes by cursor and by token |
| `DuckTables`, `DuckListing`, `DuckStore`, `DuckRetries`, `TornReads` | the relational store, its refinement of the reference store, writes sent again, reads that overlap commits |
| `Base64`, `Cursors`, `Api`, `ReadClient` | tokens, stamping, listing requests, the client's paging loop |
| `Compare`, `Stats`, `Spread`, `GroupOrder`, `SpreadApi`, `Auc` | diffs, group statistics, the ranking and its pages, the example's AUC |
| `WriteClient`, `FinishedRows`, `Replay`, `Resending` | the recording client and its rows, the spool, and what a record sent again does to the ledger |
| `Wrappers`, `Sequences`, `Ordering`, `Sums`, `Text` | options, plain facts about sequences, orders and sorting, real sums, decimal text |

## How things are represented

- A Go string is a `string` whose characters are bytes; tokens need that
  explicitly (`Base64.IsBytes`). A nil map or list is `None`, an empty one
  `Some`, because the backends treat them differently.
- An instant is an integer number of nanoseconds since 1970 and the zone it was
  written in: `Z` is `UTC`, anything else an `Offset`. `UnixNano` truncates to 64
  bits (`Text.WrapInt64`). Go's `reflect.DeepEqual` compares zones, `time.Equal`
  does not. The clock is a parameter `now`, in UTC.
- SHA-256 is opaque: a fingerprint is the byte sequence that is hashed.
- float64 is a parameter `Float64(round, format)`. What is assumed of it is
  `Numbers.Faithful`: zero parses to zero and prints as "0", and a printed float
  matches the number pattern and parses back to itself. Parsing depends on the
  exact value only. The assumptions can be met (`ParamIdentity.WholeNumbersFaithful`).
- Metric values are exact reals. A standard deviation is kept as the variance
  and a coefficient of variation as its square, which ranks alike.
- `sort.Slice`, `sort.Strings` and ORDER BY are `Ordering.Sort`. Listings,
  rankings, key lists and attempted lists are shown to have exactly one ordered
  result; where keys tie (`Auc.SortIndices`, `DuckStore.CollectRows`) only
  orderedness is relied on. Iteration over a Go map picks an arbitrary remaining
  key.
- A SQL statement reads some committed state; a transaction is one step.
- A run id the server assigns is an arbitrary fresh non-empty string.

## Where the code and its documentation differ

The model follows the code.

- `paramsEqual` reads a missing key as "" (internal/store/store.go:352-356), so
  it is not map equality when a patch sends an empty value. Identity is still
  never written. `Patching.ParamsEqualExact` gives the exact condition and
  `Patching.EmptyParamPasses` a patch that passes for the params it contradicts.
- The in-memory store is the reference every backend must reproduce
  (internal/store/store.go:175-177). The tables part from it on content they
  cannot hold (empty maps and lists, repeated attempted fields, zones other than
  UTC, instants outside int64 nanoseconds) and on known ids posted with the same
  instants in another zone. `DuckTables.RecordAgrees`, `DuckTables.UpdateAgrees`
  and `DuckListing.ListAgreesExactly` say exactly when;
  `DuckTables.EmptyMetricPatchDiverges`, `DuckTables.RespelledInstantDiverges` and
  `DuckListing.LateSinceWraps` are inputs on which they differ.
- Recording identical content again is promised to be idempotent of every backend
  (README.md:337-339, internal/store/conformance.go:43-53). The in-memory store keeps
  the promise. The tables keep it for a new run exactly when its instants fit and
  it holds no empty map or list: `DuckRetries.RecordTwiceExactly`, with
  `DuckRetries.EmptyParamsConflict` as an input and `DuckRetries.RepostExactly`
  for POST.
- A retried finish is meant to be harmless (internal/store/store.go:214-224). The
  tables refuse it when the run was still open and the end time named lies outside
  int64 nanoseconds: `DuckRetries.FinishRetriesExactly`,
  `DuckRetries.LateFinishIsRefused`.
- `Widest` is documented to skip a metric only one run reported
  (internal/spread/spread.go:73-76); its loop skips only a zero mean.
  `SpreadApi.RanksAsDocumentedExactly` says when the two keys agree and
  `SpreadApi.SingleReportIsRanked` gives groups where they do not.
- Replay is documented as idempotent, a line sent twice landing on one run id
  (python/runledger/replay.py:5-13). A record posted without an id gets a random
  suffix (internal/api/api.go:418), and no spooled line names its run, so each
  delivery is a row of its own: `Api.RepostAddsRow`,
  `Resending.ReplaysCountDeliveries`, `Resending.CrashedReplaysCountAgain`.
- A cursor token cuts its instant to 64 bits, so it leads on past a row
  exactly when that row has an id and a start time that fits:
  `ReadClient.TokenContinuesExactly`.

## Model

| member | source | states |
|---|---|---|
| `Base64.DecodeEncode` | internal/api/api.go:640-646 | decoding unpadded base64url undoes encoding, for every byte string |
| `Cursors.CursorRoundTrip` | internal/api/api.go:638-663 | a token decodes to its cursor exactly when the instant fits int64 and the run id is not empty, colons and negative instants included |
| `Cursors.DecodeCursorExactly` | internal/api/api.go:645-663 | a token is accepted exactly when it is base64 for version v1, a decimal instant that fits int64 and a run id, between colons |
| `Base64.SymbolExactly` | internal/api/api.go:640-643 | the alphabet is upper case, lower case, digits, then - and _ |
| `Base64.DecodesExactly` | internal/api/api.go:645-646 | a token is base64 exactly when, line ends aside, it holds alphabet characters only and its length leaves no stray one |
| `Cursors.SpreadCursorRoundTrip` | internal/api/api.go:826-843 | the same for fingerprint tokens: exactly when the fingerprint is not empty |
| `Cursors.DecodeSpreadCursorExactly` | internal/api/api.go:831-843 | a fingerprint token is accepted exactly when it is base64 for v1 and a fingerprint |
| `Lineage.NormalizeCapture` | internal/lineage/run.go:208-213 | only the capture changes, its fields are rearranged, and validity is unaffected |
| `Lineage.NormalizeIgnoresOrder` | internal/lineage/run.go:208-213 | any two orders of the same attempted fields normalize alike |
| `Validity.BlankExactly` | internal/lineage/run.go:274-285 | a text counts as empty exactly when it is a sequence of the white-space code points in UTF-8 |
| `Validity.RecordRefusesFirst` | internal/store/memory.go:25-46 | a record is refused for the first of six flaws, each written out in its fields; a flawless one is stored under a new id, and under a known one accepted when identical and a conflict otherwise |
| `Validity.TablesRefuseFirst` | internal/store/duckdb.go:220-295 | the tables refuse the same records, and store a flawless new one exactly when its attempted fields are distinct |
| `Validity.StoredAreTrustworthy` | internal/lineage/run.go:274-300 | after any writes to an empty store, each run has a project, a commit and, if dirty, a config hash that are not white space, a known or empty status, known attempted fields, and no end before its start |
| `Validity.TablesAreTrustworthy` | internal/lineage/run.go:274-300 | the same of the tables, but for the end, which truncation may move (`TornReads.CommitGrows`) |
| `Numbers.ScanExact` | internal/lineage/run.go:367-367 | a text is read as a spelling exactly when that spelling fits the number pattern and renders as that text, so a number has one reading |
| `Numbers.ZeroLiteralExact` | internal/lineage/run.go:412-427 | a literal counts as zero exactly when the number it denotes is 0 |
| `Numbers.ValueOfDigits` | internal/lineage/run.go:377-410 | a literal of digits denotes their count, and a minus sign negates |
| `Numbers.ValueOfFraction` | internal/lineage/run.go:377-410 | digits behind the point divide by ten each |
| `Numbers.ValueOfExponent` | internal/lineage/run.go:377-410 | an exponent moves the point by so many places, to the left with a minus sign |
| `Numbers.NormalizeLiteral` | internal/lineage/run.go:377-410 | a literal becomes its float's text unless it is out of range or a non-zero number that rounds to zero |
| `Numbers.NormalizeOther` | internal/lineage/run.go:377-410 | a text that is no literal stays as it is |
| `Numbers.IsZeroLiteral` | internal/lineage/run.go:417-427 | the loop answers whether no non-zero digit precedes the exponent |
| `Numbers.NormalizeIdempotent` | internal/lineage/run.go:377-410 | normalizing twice is normalizing once |
| `Numbers.OneTextPerNumber` | internal/lineage/run.go:377-410 | all in-range spellings of one rational normalize to one text |
| `Numbers.ZeroSpellingsNormalize` | internal/lineage/run.go:377-410 | every spelling of zero normalizes to "0" |
| `Numbers.MergedExactly` | internal/lineage/run.go:377-410 | two different texts are merged exactly when both are in-range literals of one float |
| `Ordering.CollectSorted` | internal/lineage/run.go:324-328 | collecting keys in any order and sorting gives the one ordered listing of the set |
| `Ordering.BeforeExactly` | internal/store/memory.go:110-117 | one id comes before another exactly when it is the smaller byte, or the end, where the two first part |
| `Fingerprint.EncodeFieldsInjective` | internal/lineage/run.go:313-333 | length-prefixed encoding loses nothing: equal bytes mean equal field lists |
| `Fingerprint.PreimageEqual` | internal/lineage/run.go:313-333 | two runs hash the same bytes exactly when the seven scalar fields agree and the params have the same keys with equal normalized values |
| `Fingerprint.PreimageBegins` | internal/lineage/run.go:321-322 | the hashed bytes begin with the seven scalars in the order the code writes them |
| `Fingerprint.FieldsHashed` | internal/lineage/run.go:315-320 | each field is hashed as its decimal length, a colon and its bytes |
| `Fingerprint.ParamsHashed` | internal/lineage/run.go:324-331 | each parameter follows as its key and its normalized value |
| `Fingerprint.ParamsInKeyOrder` | internal/lineage/run.go:324-331 | in the byte order of the keys, each once |
| `Fingerprint.Compute` | internal/lineage/run.go:313-333 | whatever the map order, the loop feeds the hash the fields of `Preimage` |
| `ParamIdentity.SameExperimentExactly` | internal/lineage/run.go:313-410 | two runs are one experiment exactly when scalars agree and each param has the same text or spells the same float |
| `ParamIdentity.WholeNumbersFaithful` | internal/lineage/run.go:377-410 | the assumptions made about float64 are satisfiable |
| `Patching.MergeMetrics` | internal/store/store.go:266-275 | the two copying loops yield the old metrics overridden by the patch's |
| `Patching.Apply` | internal/store/store.go:208-281 | the field-by-field update refines `ApplyPatch`, error by error; the `Acceptance` rows say what that accepts and writes |
| `Acceptance.OpenRunAccepts` | internal/store/store.go:195-281 | a patch of a valid unfinished run is accepted exactly when each identity field it names is the stored one, its status is none, the same or one of the four legal moves, and the end is not before the start; otherwise which of the four errors refuses it |
| `Acceptance.OpenRunBecomes` | internal/store/store.go:225-275 | then status and each provenance field are the patch's where it names one and the old one elsewhere, and nothing else changes but end and metrics |
| `Acceptance.OpenRunEnds` | internal/store/store.go:232-245 | the end is the patch's, else the run's, else the clock's if the patch finishes it |
| `Acceptance.FinishedRunAccepts` | internal/store/store.go:214-224 | a finished run accepts a patch exactly when everything it names already holds, and stays as it is; otherwise which error refuses it |
| `Acceptance.EveryOutcomeReached` | internal/store/store.go:192-203 | a created run can be taken to each of the three outcomes by two patches |
| `Acceptance.UpdateIsStored` | internal/store/memory.go:48-61 | an update is answered with what is stored, touches no other run, and a refusal stores nothing |
| `Patching.ApplyEvolves` | internal/store/store.go:195-281 | an accepted patch keeps identity, fingerprint, capture, start time and validity, moves status by one legal transition at most, loses no metric, freezes terminal runs, and ends a run no earlier than it started |
| `Patching.MetricsMerged` | internal/store/store.go:266-275 | reported metrics override key by key, all others keep their values, no other key appears |
| `Patching.EmptyPatchIsNoop` | internal/store/store.go:208-281 | a patch that names nothing is accepted on every valid run and changes nothing |
| `Patching.ApplyIdempotent` | internal/store/store.go:208-324 | any accepted patch applied again, at any later time, succeeds with the same run |
| `Patching.ParamsEqualExact` | internal/store/store.go:348-358 | the comparison means map equality for every stored map exactly when the patch holds no empty value |
| `Patching.EmptyParamPasses` | internal/store/store.go:348-358 | on a run whose one param is another, a patch that sets a param to "" is accepted and changes nothing, though the params differ |
| `MemoryStore.Memory.Record` | internal/store/memory.go:25-46 | refines `Recorded`: invalid refused, identical re-record accepted, any difference a conflict, a zone included, otherwise stored normalized; the `Validity` rows say what is invalid |
| `MemoryStore.Memory.Update` | internal/store/memory.go:48-61 | refines `Updated` and keeps every run under its own id |
| `MemoryStore.RecordedStaysFound` | internal/store/memory.go:25-71 | an accepted run is found under its id after any other calls, as a later version of what was recorded |
| `MemoryStore.Memory.List` | internal/store/memory.go:73-150 | filter, sort, binary search and slice give the first rows strictly beyond the cursor in the one listing order, and a cursor exactly when rows remain; filter by filter as in `Filters.PageIsExact` |
| `Filters.PageIsExact` | internal/store/memory.go:73-150 | a page holds stored runs that meet every filter set, field by field, and lie beyond the cursor, newest first; all of them, or a full page and a cursor beyond which the rest lie |
| `Filters.PageIsDetermined` | internal/store/memory.go:73-150 | no other page does |
| `Filters.TextFilters` | internal/store/memory.go:78-101 | each text filter alone returns exactly the stored runs with that value |
| `Filters.OtherFilters` | internal/store/memory.go:78-106 | so do status and the two bounds, one inclusive, one exclusive, and no filter returns everything |
| `MemoryStore.Collect` | internal/store/memory.go:76-109 | the filter loop finds each matching run once, whatever the map order |
| `MemoryStore.SearchAfter` | internal/store/memory.go:118-126 | binary search finds the index from which exactly all rows lie beyond the cursor |
| `Listing.AfterCursorIsOrder` | internal/store/memory.go:133-138 | lying beyond a cursor is the listing order itself |
| `Listing.ListsUnique` | internal/store/memory.go:110-117 | a set of runs has exactly one ordered listing |
| `Listing.SuffixIsBeyond` | internal/store/memory.go:118-126 | cutting the full listing at the cursor is listing what lies beyond it |
| `MemoryStore.HistoryGrows` | internal/store/store.go:195-281 | over every sequence of Record and Update, every stored run stays valid and only evolves as `ApplyEvolves` allows |
| `MemoryStore.FinishedHadRun` | internal/store/store.go:192-203 | a run that was created and is terminal after some calls was running after some of them |
| `MemoryStore.RetryAtOnce` | internal/store/store.go:208-324 | in the reference store an accepted patch sent again leaves the same ledger and answer |
| `MemoryStore.FinishRetriesForever` | internal/store/store.go:208-324 | in the reference store a patch that finished a run can be sent again after any other calls, always with the identical run |
| `DuckTables.ReadBackExact` | internal/store/duckdb.go:220-308 | a run survives the tables exactly when its instants fit and are in UTC, it holds no empty map or list, and its attempted fields are distinct |
| `DuckTables.RecordAgrees` | internal/store/duckdb.go:220-308 | Record gives the reference store's answer and ledger exactly when the run is invalid, or new and canonical, or known and either in UTC or of other content |
| `DuckTables.RespelledInstantDiverges` | internal/store/duckdb.go:730-763 | a run posted again with its start time in another zone is accepted from the tables and a conflict in memory |
| `DuckTables.UpdateAgrees` | internal/store/duckdb.go:314-365 | writing the listed columns and the metric delta equals storing the whole merged run exactly when the run is absent, the patch refused, or what it stores fits: an end time in range and UTC, no empty metric map on a run without metrics |
| `DuckTables.EmptyMetricPatchDiverges` | internal/store/duckdb.go:314-365 | an empty metric map sent to a run without metrics is stored by one backend only |
| `DuckRetries.RecordTwiceExactly` | internal/store/duckdb.go:220-295 | a new run the tables accepted is accepted again, changing nothing, exactly when its instants fit and it holds no empty map or list |
| `DuckRetries.RecordAgainExactly` | internal/store/duckdb.go:730-763 | with another start time it is exactly when that is valid and is the instant stored, the end time fits, and no map or list is empty |
| `DuckRetries.EmptyParamsConflict` | internal/store/duckdb.go:730-763 | a run with an empty params map is accepted once and then conflicts with itself |
| `DuckRetries.StoredRecordsAgain` | internal/store/duckdb.go:220-308 | a valid run read from the tables can be recorded again and changes nothing |
| `DuckRetries.RepostExactly` | internal/api/api.go:393-420 | over the tables, posting a payload again changes nothing exactly when it names its run and the second stamp describes what is stored: the same start time for a known run; for a new one a valid start time as stored, an end in range, no empty map or list |
| `DuckRetries.RetryAtOnceExactly` | internal/store/duckdb.go:314-365 | over the tables an accepted patch sent again at once gets the same tables and answer exactly when it left the run unfinished or what it stored fits |
| `DuckRetries.FinishRetriesExactly` | internal/store/duckdb.go:314-365 | over the tables a finishing patch sent again after any writes changes nothing, is accepted exactly when the run was finished before or the end time named fits, and gets the identical answer exactly when the update fits |
| `DuckRetries.LateFinishIsRefused` | internal/store/duckdb.go:314-365 | finishing an open run with an end time outside int64 is accepted once and an illegal transition when sent again |
| `DuckStore.DuckDB.Record` | internal/store/duckdb.go:220-295 | the row-by-row transaction refines `RecordedT`; a broken primary key changes nothing |
| `DuckStore.DuckDB.Update` | internal/store/duckdb.go:314-365 | the column update and metric upsert refine `UpdatedT` |
| `DuckStore.DuckDB.Get` | internal/store/duckdb.go:377-403 | four statements assemble the run its tables stand for |
| `DuckStore.DuckDB.List` | internal/store/duckdb.go:495-618 | scan, order, LIMIT n+1, trim and batched fill refine `ReadPage`, and give the page of `Filters.PageIsExact` for every query whose window survives truncation |
| `DuckStore.Upsert` | internal/store/duckdb.go:348-359 | row-by-row upserts override exactly the given keys of that run |
| `DuckStore.InsertFields` | internal/store/duckdb.go:285-292 | succeeds exactly when the fields are distinct, and then adds exactly them |
| `DuckStore.Load` | internal/store/duckdb.go:454-493 | the rows of one run become a map that is nil exactly when there are none |
| `DuckStore.FillKV` | internal/store/duckdb.go:620-680 | rows arriving in any order fill every run of a page with exactly its own entries |
| `DuckStore.FillAttempted` | internal/store/duckdb.go:689-724 | each declared capture gets its own fields, ordered; an undeclared one gets none |
| `DuckStore.Hydrate` | internal/store/duckdb.go:620-724 | the batched fill of a page equals filling each run alone |
| `DuckStore.Scan` | internal/store/duckdb.go:495-600 | the scan yields each row the WHERE clause selects once |
| `DuckListing.TrimIsPaginate` | internal/store/duckdb.go:556-617 | fetching one row too many and trimming is slicing the whole listing |
| `DuckListing.ListAgrees` | internal/store/duckdb.go:495-618 | in every state the page and next cursor are those of the reference store, for every query whose window survives truncation of its instants to 64 bits |
| `DuckListing.ListAgreesExactly` | internal/store/duckdb.go:495-618 | a query is answered alike in every state exactly when `WindowFits` says so: truncation leaves its least and greatest instant and its cut within a tie alone, or its window empty |
| `DuckListing.WindowFitsExactly` | internal/store/duckdb.go:520-534 | that check on the bounds of the query is the same as selecting the same positions, for every instant the tables hold and every id |
| `DuckListing.FittingQueryFits` | internal/store/duckdb.go:520-534 | it holds whenever since, until and the cursor fit int64 nanoseconds |
| `DuckListing.LateSinceWraps` | internal/store/duckdb.go:520-523 | it fails for a lower bound just past the int64 range |
| `DuckListing.LateUntilWraps` | internal/store/duckdb.go:524-534 | and for an upper bound past it or a cursor before it |
| `DuckListing.BackendsAgree` | internal/store/duckdb.go:220-618 | every finite sequence of Record, Update, Get and List calls gets the same replies from both backends, as long as each call is one the tables can answer in its state, the exact condition for writes |
| `DuckListing.FittingCallsAnswerable` | internal/store/duckdb.go:220-618 | so it is for every sequence of canonical runs, patches with a UTC end time in range and no empty metric map, and queries whose window survives truncation, whatever is already stored |
| `TornReads.CommitGrows` | internal/store/duckdb.go:220-365 | a commit leaves every run valid and only evolved exactly when what it stores still ends no earlier than it starts once cut to 64 bits; instants that fit always do |
| `TornReads.LaterGrows` | internal/store/duckdb.go:314-403 | over any commits of that kind, any later committed state has only grown from any earlier one |
| `TornReads.TornGet` | internal/store/duckdb.go:377-403 | a Get whose statements see four different commits is valid, has params and capture as recorded and at least its row's metrics, and equals one committed run if terminal |
| `TornReads.TornList` | internal/store/duckdb.go:556-724 | a List torn the same way has the rows, order and cursor of its first statement's commit, each row as in `TornGet`, for a query whose window survives truncation |
| `Traversal.FollowCursor` | internal/store/store.go:99-112 | a traversal handed a cursor can continue from it in any ledger reached meanwhile, so the two results below speak of every interleaving |
| `Traversal.NeverTwice` | internal/store/memory.go:110-150 | a cursor traversal with arbitrary writes between pages never returns a run twice, for any filter and page sizes |
| `Traversal.VisitsExactly` | internal/store/store.go:99-112 | run to its end on a filter updates cannot change, it visits a matching run exactly when that run was there at the start or was inserted ahead of the position reached |
| `Traversal.ScanEnds` | internal/store/store.go:99-112 | any ledger left alone is read to the end, for any filter and page size |
| `Traversal.CanEnd` | internal/store/store.go:99-112 | and so is the rest of any traversal once writes stop |
| `TokenTraversal.TokensFollowCursors` | internal/api/api.go:566-663 | following response tokens under writes is following the cursors behind them, in ledgers whose rows have ids and start times that fit |
| `TokenTraversal.TokensNeverTwice` | internal/api/api.go:566-663 | so no run comes back twice through tokens, for any filter, limits and writes in between |
| `TokenTraversal.TokensVisitExactly` | internal/api/api.go:566-663 | and, until no token comes back, a matching run is returned exactly when it was there at the start or appeared beyond the token reached, for filters updates cannot change |
| `Api.RecordRunHandler` | internal/api/api.go:379-440 | the handler stores the stamped run and nothing else |
| `Api.PostStoresRow` | internal/api/api.go:393-425 | the row a POST under a new id leaves is the payload's, with unset status read as created, a missing start time as the clock's, its own fingerprint and an id |
| `Api.ZeroTimeIsYearOne` | internal/api/api.go:393-395 | a missing start time is the first instant of year 1 |
| `Api.ServedIsStamped` | internal/api/api.go:393-420 | over every sequence of requests each stored run carries the fingerprint of its own identity, the current version, an id and a known status |
| `Api.SameFingerprintSameProject` | internal/api/api.go:393-420 | equal fingerprints force equal projects |
| `Api.RepostIdempotent` | internal/api/api.go:393-420 | in the reference store, posting an accepted run back, with the id and start time it was given, is accepted at any later time, stamps nothing new and leaves the ledger as it is; over the tables see `DuckRetries.RecordTwiceExactly` |
| `Api.RepostExactly` | internal/api/api.go:393-420 | in the reference store, posting the same payload again changes nothing exactly when it names its run and its start time, or its run while the clock stands still; over the tables see `DuckRetries.RepostExactly` |
| `Api.RepostAddsRow` | internal/api/api.go:407-420 | a payload that names no run is stored again, the same but for its id |
| `Api.ListRuns` | internal/api/api.go:566-630 | refused exactly for a bad limit, a bad token or an unknown status, otherwise the page of `Filters.PageIsExact` at the decoded cursor with its own token; 50 rows by default and 500 at most |
| `Api.LimitOfNumber` | internal/api/api.go:880-892 | a number is a limit exactly when it is positive and fits int64, and 500 at most is asked for; `ListRuns` states the default of 50 |
| `Text.ParseInt64Exactly` | internal/api/api.go:880-892 | an integer parameter is an optional sign and digits that fit int64, and nothing else |
| `ReadClient.FetchPage` | python/runledger/read.py:168-195 | one request gives a client that has k rows the next ones, and a token exactly when rows remain, which leads on from its last row if that row has an id and a start time that fits int64 nanoseconds; only an unknown status is an error |
| `ReadClient.Runs` | python/runledger/read.py:168-195 | on an unchanged ledger the loop ends with the first `limit` rows of the full listing, or all of them, unless it asks for an unknown status; the last rows of its full pages before the limit must be ones a token leads on from |
| `ReadClient.TokenContinuesExactly` | internal/api/api.go:638-663 | the token for a row leads to the rows behind it, whatever the ledger holds, exactly when the row has an id and a start time that fits |
| `Compare.IsSameExperiment` | internal/compare/compare.go:106-112 | stored fingerprints decide when both exist, computed ones otherwise |
| `Compare.Runs` | internal/compare/compare.go:114-167 | the appending loop and its flag refine `RunsDiff`: the differing pairs in order |
| `Compare.ReportedByName` | internal/compare/compare.go:114-167 | a field is in the diff exactly when the two runs show different things under its name, with its kind and what each side shows |
| `Compare.IdentityShown` | internal/compare/compare.go:114-167 | what a run shows under each identity name: project, commit, dirt and seed always, empty text and missing params as unrecorded |
| `Compare.CircumstanceShown` | internal/compare/compare.go:114-203 | the same of provenance, client and metrics |
| `Compare.SameExperimentExactly` | internal/compare/compare.go:106-112 | two runs are one experiment by their stored fingerprints if both have one, else when scalars and normalized params agree |
| `Compare.DifferentExperimentsShow` | internal/compare/compare.go:114-167 | different fingerprints always show at least one identity field |
| `Compare.SameExperimentsShowOnlySpelling` | internal/compare/compare.go:114-167 | equal fingerprints show no identity field but params both runs set to different spellings of one value |
| `Compare.UnattributableAsShown` | internal/compare/compare.go:114-167 | unattributable exactly when it is one experiment and some metric shows differently, for any formatter |
| `Compare.UnattributableExactly` | internal/compare/compare.go:114-167 | where the formatter tells the compared values apart: exactly when it is one experiment and the metric maps differ |
| `Compare.EmptyDiffAsShown` | internal/compare/compare.go:114-236 | the diff is empty exactly when identity, provenance, status text and capture declaration agree and every metric shows alike, for any formatter |
| `Compare.EmptyDiffExactly` | internal/compare/compare.go:114-236 | where the formatter tells the compared values apart: exactly when all of these and the metrics agree |
| `Compare.EmptyDiffOfValid` | internal/compare/compare.go:114-236 | for valid runs: exactly when identity, provenance, status, client and attempted fields agree and every metric shows alike |
| `Compare.AttemptedOrderIgnored` | internal/compare/compare.go:188-197 | the order of attempted fields never shows |
| `Compare.DiffSwapped` | internal/compare/compare.go:114-167 | exchanging the runs exchanges the sides and changes nothing else |
| `Stats.Stat` | internal/spread/spread.go:204-223 | the two loops give the least and greatest value, the mean and the population variance |
| `Stats.StatBounds` | internal/spread/spread.go:204-223 | min <= mean <= max, and variance <= (max - mean)(mean - min) <= (max - min)^2 / 4 |
| `Stats.NoSpreadExactly` | internal/spread/spread.go:204-223 | the spread is zero exactly when all values are equal |
| `Stats.StatPermuted` | internal/spread/spread.go:204-223 | the order of the values does not matter |
| `Spread.MetricStats` | internal/spread/spread.go:182-197 | each metric any run reported is summarized over exactly the runs that reported it |
| `Spread.DiffField` | internal/spread/spread.go:238-256 | a field is reported, with its distinct values in order, exactly when the runs disagree on it |
| `Spread.One` | internal/spread/spread.go:155-180 | terminal runs are listed, counted and summarized, all others only counted as in flight |
| `Spread.Compute` | internal/spread/spread.go:129-143 | one group per fingerprint, in order of first appearance, over exactly that fingerprint's runs |
| `Spread.FirstSeenInOrder` | internal/spread/spread.go:129-143 | of two groups the one whose fingerprint appears first in the listing is first |
| `Spread.GroupsPartition` | internal/spread/spread.go:129-180 | group fingerprints are distinct, every run has a group, and counts plus in-flight sum to the number of runs |
| `GroupOrder.GroupPermuted` | internal/spread/spread.go:155-256 | the order in which runs are listed changes nothing in a group |
| `GroupOrder.ReportedExactly` | internal/spread/spread.go:238-256 | a provenance field is reported exactly when two finished runs disagree on it |
| `GroupOrder.ColumnReported` | internal/spread/spread.go:238-256 | each of the four columns is reported exactly when two finished runs differ in that column |
| `GroupOrder.IDsExactly` | internal/spread/spread.go:155-180 | a group lists exactly the ids of its finished runs |
| `GroupOrder.CountsExactly` | internal/spread/spread.go:155-180 | count and in-flight split the runs into finished and other, and a group has no repeats exactly when fewer than two finished |
| `GroupOrder.MetricsExactly` | internal/spread/spread.go:155-197 | with repeats each metric some finished run reported is summarized over exactly the values finished runs reported, and no other metric |
| `SpreadApi.Widest` | internal/spread/spread.go:80-91 | the greatest squared relative spread over metrics with a non-zero mean, -1 without any |
| `SpreadApi.WidestExactly` | internal/spread/spread.go:80-91 | that is -1 without a non-zero mean, else the ratio of variance to squared mean of one metric and at least that of every other |
| `SpreadApi.RanksAsDocumentedExactly` | internal/spread/spread.go:73-91 | a group ranks as documented exactly when some metric two runs reported has a non-zero mean, or none that a single run reported has |
| `SpreadApi.SingleReportIsRanked` | internal/spread/spread.go:73-91 | two finished runs with one metric that one of them reported rank 0 instead of the documented -1 |
| `SpreadApi.Rank` | internal/api/api.go:756-771 | the groups with enough runs, each once: of any two, the earlier is wider, or as wide with the smaller fingerprint |
| `SpreadApi.RankingUnique` | internal/api/api.go:756-771 | a collection of groups has exactly one ranking |
| `SpreadApi.ServePage` | internal/api/api.go:773-803 | refused exactly when the token is malformed or names no ranked fingerprint, otherwise the next groups, and a token exactly when more follow |
| `SpreadApi.SpreadList` | internal/api/api.go:708-803 | each request regroups and ranks afresh and serves the page of that one ranking |
| `SpreadApi.FollowRanking` | internal/api/api.go:756-803 | on an unchanged ledger the pages end and concatenate to the full ranking, each qualifying group once |
| `SpreadApi.SpreadOne` | internal/api/api.go:859-873 | the group of all runs with that fingerprint, not found exactly when there is none |
| `SpreadApi.ListedGroupIsItem` | internal/api/api.go:743-771 | in a ledger filled through the API, the group listed for a fingerprint, unfiltered or under its project, is the item endpoint's group |
| `Auc.TieGroupRank` | examples/churn/train.py:147-154 | the average position of a tie group is the mid-rank of its score |
| `Auc.MidRanks` | examples/churn/train.py:144-154 | the nested loops give every index the mid-rank of its score |
| `Auc.RankFormula` | examples/churn/train.py:155-156 | the rank sum less the triangle number counts correctly ordered pairs, ties half |
| `Auc.RankAuc` | examples/churn/train.py:138-156 | the rank-based AUC equals the pairwise fraction for all scores and 0/1 labels, lies in [0, 1], and is undefined exactly when a class is empty |
| `WriteClient.RunClient.SendPost` | python/runledger/_run.py:559-611 | the client learns an id exactly when an accepted answer arrives |
| `WriteClient.RunClient.RecordStart` | python/runledger/_run.py:492-502 | the start write refines `Started` and never spools |
| `WriteClient.RunClient.Finish` | python/runledger/_run.py:504-547 | the first call patches or posts and spools the whole record if unacknowledged; later calls do nothing; the `FinishedRows` rows say what the ledger then holds |
| `WriteClient.OneOutcome` | python/runledger/_run.py:492-637 | from the start of a run, for every pattern of lost messages and repeated triggers: at most one finish write, with the first trigger's status; no spool line once acknowledged, else exactly one complete record unless the disk failed; at most one finished row |
| `FinishedRows.AcknowledgedIsStored` | python/runledger/_run.py:480-547 | whatever is lost, each row of the client is as its start left it or tells the outcome: the first trigger's status, an end, the identity, provenance, capture and start it set out with, and the last logged value of each metric; once acknowledged exactly one does and the others are running |
| `FinishedRows.AnsweredIsAcknowledged` | python/runledger/_run.py:504-611 | a finish that is answered is acknowledged exactly when the whole record is one the ledger accepts, and then nothing is spooled |
| `WriteClient.CountedOnce` | internal/spread/spread.go:155-180 | two rows of one client run counted in a group are the same row, finished with the first trigger's status |
| `WriteClient.AddsAtMostOne` | internal/spread/spread.go:155-180 | one client run adds at most one to any group's count, nothing before a finish trigger fires, and exactly its rows left running to the runs in flight |
| `Replay.RecordsOfRewrite` | python/runledger/replay.py:110-141 | the rewritten file holds the kept records followed by the appended ones |
| `Replay.LinesExactly` | python/runledger/replay.py:189-189 | lines are the text between newlines, a last one without its newline included |
| `Replay.RecordsExactly` | python/runledger/replay.py:189-189 | a line is a record exactly when it holds a character that is not white space |
| `Replay.RewriteDropsSettled` | python/runledger/replay.py:110-141 | what the rewrite drops is exactly what the server answered for |
| `Replay.AppendLines` | python/runledger/replay.py:144-151 | the quarantine file gains exactly the rejected lines, in order |
| `Replay.ReplaySpool` | python/runledger/replay.py:182-237 | a completed call splits the initial records into accepted, quarantined and a kept suffix; both files come out exactly: that suffix followed by what was appended, even if the last line lacked its newline, and the rejected lines added; a spool without records is left alone |
| `Replay.CompletedIsExecution` | python/runledger/replay.py:182-237 | a call run to its end is an execution of the event system from Begin to Finish, with whole lines appended before its tail read |
| `Replay.CompleteCall` | python/runledger/replay.py:182-237 | `ReplaySpool` leaves exactly the files, and the counts, that execution ends in |
| `Replay.StepKeeps` | python/runledger/replay.py:110-237 | every step, a crash at any point included, keeps the account of records |
| `Replay.NoRecordLost` | python/runledger/replay.py:110-237 | over any sequence of replays, crashes and appends before a tail read, each spooled record is in the spool, accepted or refused |
| `Resending.EachDeliveryCounts` | internal/spread/spread.go:155-180 | every delivery of a spooled record adds one to its group's count |
| `Resending.CrashesResend` | python/runledger/replay.py:182-237 | any number of replays can each get the first record accepted and crash before the rewrite, the ledger storing it every time |
| `Resending.JointIsReplay` | python/runledger/replay.py:182-237 | replay and ledger stepping together do nothing the replay alone could not |
| `Resending.ReplaysCountDeliveries` | internal/spread/spread.go:155-180 | over any sequence of replays, crashes and appends, a group's count grows by exactly the accepted deliveries of its finished records |
| `Resending.CrashedReplaysCountAgain` | python/runledger/replay.py:182-237 | a client's spooled record, accepted by n replays that crash so, is stored and counted n times in one joint run of replay and ledger |

## Left out

- HTTP routing, authentication, JSON, logging and metrics export: library wrappers without a deep invariant.
- SHA-256, the SQL engine, float64 rounding and NaN or infinite metrics: opaque or replaced by exact values, as described above.
- Monotonic clock readings: `UTC()` strips them before a run is stored.
- Goroutines and locks in the stores: each call, and each SQL statement of a read, is one step.
- Migrations, `Close` and database errors other than the broken primary key.
- Fingerprint version 1: coverage of a diff is claimed within one fingerprint contract only.
- Parsing of `since`, `until` and `min_runs`: easy members; the handlers are modelled from the parsed values on.
- Rendering a field name in a diff: names are a datatype, so two fields never collide.
- Lines appended between the tail read and the file replacement, two replays at once, and rejected lines not yet quarantined when a crash follows the replacement: outside what the code guarantees.
- `dry_run`, and line separators other than the newline: the spool's JSON lines never contain one unescaped.
- Signals, `atexit` and thread identity in the client: a finish trigger simply fires.
- WriteClient.OneOutcome: other writers may do anything to the ledger except change this client's own rows, because nobody else knows their ids.
- Capture of git, host and device facts, dataset hashing, the command line, the dashboard and the completeness report: I/O, rendering and counting.
