/**
 The relational backend's state and calls as functions of its tables, and how
 far they agree with the reference store.
 */
module DuckTables {
  import opened Wrappers
  import opened Lineage
  import opened Patching
  import opened Listing
  import opened Ordering
  import opened Sequences
  import opened MemoryStore
  import Text

  /** One row of `runs`. `identity.params` lives in its own table, so it is nil here. */
  datatype Row = Row(
    identity: Identity,
    fingerprint: string,
    fingerprintVersion: int,
    provenance: Provenance,
    captureDeclared: bool,
    captureClient: string,
    status: Status,
    startedAtNs: int,
    endedAtNs: Option<int>)

  /** The side tables are keyed by (run id, key) or (run id, field). */
  datatype Tables = Tables(
    runs: map<string, Row>,
    params: map<(string, string), string>,
    metrics: map<(string, string), real>,
    attempted: set<(string, string)>)

  /** What the schema and `Record` guarantee about the tables. */
  ghost predicate Consistent(t: Tables) {
    && (forall k | k in t.params :: k.0 in t.runs)
    && (forall k | k in t.metrics :: k.0 in t.runs)
    && (forall k | k in t.attempted :: k.0 in t.runs && t.runs[k.0].captureDeclared)
    && (forall id | id in t.runs :: ConsistentRow(t.runs[id]))
  }

  ghost predicate ConsistentRow(row: Row) {
    && row.identity.params.None?
    && (!row.captureDeclared ==> row.captureClient == "")
    && Text.FitsInt64(row.startedAtNs)
    && (row.endedAtNs.Some? ==> Text.FitsInt64(row.endedAtNs.value))
  }

  // ----- Reading -----

  function KeysFor(keys: set<(string, string)>, id: string): (r: set<string>)
    ensures forall k :: k in r <==> (id, k) in keys
  {
    set k | k in keys && k.0 == id :: k.1
  }

  function EntriesFor<V>(table: map<(string, string), V>, id: string): map<string, V> {
    map k | k in KeysFor(table.Keys, id) :: table[(id, k)]
  }

  /** A map is only allocated once a row turns up. */
  function LoadKV<V>(table: map<(string, string), V>, id: string): Option<map<string, V>> {
    NilIf(KeysFor(table.Keys, id) == {}, EntriesFor(table, id))
  }

  ghost function LoadAttempted(table: set<(string, string)>, id: string): Option<seq<string>> {
    NilIf(KeysFor(table, id) == {}, SortedSet(KeysFor(table, id)))
  }

  /** Instants come back in UTC, whatever zone they were written in. */
  function AtUTC(ns: Option<int>): Option<Instant> {
    if ns.None? then None else Some(Instant(ns.value, UTC))
  }

  /** A run as scanned from its row alone. */
  function Bare(id: string, row: Row): Run {
    Run(id, row.identity, row.fingerprint, row.fingerprintVersion, row.provenance, row.status,
        Instant(row.startedAtNs, UTC), AtUTC(row.endedAtNs), None,
        if row.captureDeclared then Some(Capture(row.captureClient, None)) else None)
  }

  /** A scanned run with its side-table rows filled in. */
  ghost function Hydrated(r: Run, params: map<(string, string), string>,
                          metrics: map<(string, string), real>, attempted: set<(string, string)>): Run {
    r.(identity := r.identity.(params := LoadKV(params, r.runID)),
       metrics := LoadKV(metrics, r.runID),
       capture := if r.capture.None? then None
                  else Some(r.capture.value.(attempted := LoadAttempted(attempted, r.runID))))
  }

  /** `get`: four statements, each reading some committed state. */
  ghost function Read(row: Tables, params: Tables, metrics: Tables, attempted: Tables, id: string): Result<Run, Error> {
    if id !in row.runs then Err(NotFound)
    else Ok(Hydrated(Bare(id, row.runs[id]), params.params, metrics.metrics, attempted.attempted))
  }

  ghost function Stored(t: Tables, id: string): Run
    requires id in t.runs
  {
    Hydrated(Bare(id, t.runs[id]), t.params, t.metrics, t.attempted)
  }

  /** The ledger the tables stand for. */
  ghost function Abs(t: Tables): Ledger {
    map id | id in t.runs :: Stored(t, id)
  }

  // ----- Writing -----

  function ToRow(r: Run): Row {
    Row(r.identity.(params := None), r.fingerprint, r.fingerprintVersion, r.provenance,
        r.capture.Some?, if r.capture.Some? then r.capture.value.client else "",
        r.status, Text.WrapInt64(r.startedAt.ns), Nanos(r.endedAt))
  }

  function Nanos(t: Option<Instant>): Option<int> {
    if t.None? then None else Some(Text.WrapInt64(t.value.ns))
  }

  const NO_INSTANT := Instant(0, UTC)

  predicate EndedAtEqual(a: Option<Instant>, b: Option<Instant>) {
    if a.None? || b.None? then a.None? && b.None? else a.value.ns == b.value.ns
  }

  /** Identical content, instants compared without their zones. */
  predicate RunsEqual(a: Run, b: Run) {
    && a.startedAt.ns == b.startedAt.ns
    && EndedAtEqual(a.endedAt, b.endedAt)
    && a.(startedAt := NO_INSTANT, endedAt := None) == b.(startedAt := NO_INSTANT, endedAt := None)
  }

  function EntriesOf<V>(id: string, m: map<string, V>): map<(string, string), V> {
    map k | k in m :: (id, k) := m[k]
  }

  function FieldsOf(id: string, fields: seq<string>): set<(string, string)> {
    set f | f in fields :: (id, f)
  }

  function Inserted(t: Tables, r: Run): Tables {
    Tables(t.runs[r.runID := ToRow(r)],
           t.params + EntriesOf(r.runID, ParamsOf(r.identity)),
           t.metrics + EntriesOf(r.runID, MetricsOf(r)),
           t.attempted + FieldsOf(r.runID, AttemptedOf(r.capture)))
  }

  ghost function RecordedT(t: Tables, run: Run): (Tables, Option<Error>) {
    match Validate(run)
    case Some(flaw) => (t, Some(Invalid(flaw)))
    case None =>
      var r := NormalizeCapture(run);
      if r.runID in t.runs then (t, if RunsEqual(Stored(t, r.runID), r) then None else Some(Conflict))
      else if !Distinct(AttemptedOf(r.capture)) then (t, Some(ConstraintViolated))
      else (Inserted(t, r), None)
  }

  /** Only the listed columns and the patch's own metrics are written. */
  function Overwritten(t: Tables, id: string, u: Run, p: Patch): Tables
    requires id in t.runs
  {
    t.(runs := t.runs[id := t.runs[id].(status := u.status, endedAtNs := Nanos(u.endedAt), provenance := u.provenance)],
       metrics := t.metrics + EntriesOf(id, p.metrics.GetOr(map[])))
  }

  ghost function UpdatedT(t: Tables, id: string, p: Patch, now: int): (Tables, Result<Run, Error>) {
    if id !in t.runs then (t, Err(NotFound))
    else
      match ApplyPatch(Stored(t, id), p, now)
      case Err(e) => (t, Err(e))
      case Ok(u) => (Overwritten(t, id, u, p), Ok(u))
  }

  // ----- Agreement with the reference store -----

  predicate InstantsFit(r: Run) {
    Text.FitsInt64(r.startedAt.ns) && (r.endedAt.Some? ==> Text.FitsInt64(r.endedAt.value.ns))
  }

  predicate InUTC(r: Run) {
    r.startedAt.zone == UTC && (r.endedAt.Some? ==> r.endedAt.value.zone == UTC)
  }

  /** No map or list is present but empty. */
  predicate NoEmpties(r: Run) {
    && r.identity.params != Some(map[])
    && r.metrics != Some(map[])
    && (r.capture.Some? ==> r.capture.value.attempted != Some([]))
  }

  /** Runs the tables can hold without loss. */
  ghost predicate Canonical(r: Run) {
    InstantsFit(r) && InUTC(r) && NoEmpties(r) && Distinct(AttemptedOf(r.capture))
  }

  /** What comes back after inserting `r` and reading it again. */
  ghost function ReadBack(r: Run): Run {
    r.(identity := r.identity.(params := if ParamsOf(r.identity) == map[] then None else r.identity.params),
       startedAt := Instant(Text.WrapInt64(r.startedAt.ns), UTC),
       endedAt := AtUTC(Nanos(r.endedAt)),
       metrics := if MetricsOf(r) == map[] then None else r.metrics,
       capture := if r.capture.None? then None
                  else Some(Capture(r.capture.value.client,
                                    if AttemptedOf(r.capture) == [] then None
                                    else Some(SortedSet(set f | f in AttemptedOf(r.capture))))))
  }

  lemma EntriesAddedElsewhere<V>(table: map<(string, string), V>, id: string, m: map<string, V>, other: string)
    requires other != id
    ensures LoadKV(table + EntriesOf(id, m), other) == LoadKV(table, other)
  {
    var after := table + EntriesOf(id, m);
    assert KeysFor(after.Keys, other) == KeysFor(table.Keys, other);
    assert EntriesFor(after, other) == EntriesFor(table, other);
  }

  lemma EntriesAdded<V>(table: map<(string, string), V>, id: string, m: map<string, V>)
    ensures LoadKV(table + EntriesOf(id, m), id)
         == if m == map[] then LoadKV(table, id) else Some(EntriesFor(table, id) + m)
  {
    if m == map[] {
      assert table + EntriesOf(id, m) == table;
    } else {
      EntriesMerged(table, id, m);
    }
  }

  lemma EntriesMerged<V>(table: map<(string, string), V>, id: string, m: map<string, V>)
    ensures KeysFor((table + EntriesOf(id, m)).Keys, id) == KeysFor(table.Keys, id) + m.Keys
    ensures EntriesFor(table + EntriesOf(id, m), id) == EntriesFor(table, id) + m
  {
    var after := table + EntriesOf(id, m);
    assert forall k :: (id, k) in after <==> (id, k) in table || k in m;
  }

  lemma FieldsAdded(table: set<(string, string)>, id: string, fields: seq<string>, other: string)
    requires KeysFor(table, id) == {}
    ensures KeysFor(table + FieldsOf(id, fields), other)
         == if other == id then set f | f in fields else KeysFor(table, other)
  {
    var after := table + FieldsOf(id, fields);
    assert forall f :: (other, f) in after <==> (other, f) in table || (other == id && f in fields);
    if other == id {
      assert forall f :: f in KeysFor(after, id) <==> f in fields;
    }
  }

  lemma NothingUnder(t: Tables, id: string)
    requires Consistent(t) && id !in t.runs
    ensures KeysFor(t.params.Keys, id) == {} && KeysFor(t.metrics.Keys, id) == {} && KeysFor(t.attempted, id) == {}
    ensures EntriesFor(t.params, id) == map[] && EntriesFor(t.metrics, id) == map[]
  {
    assert forall k :: (id, k) !in t.params && (id, k) !in t.metrics && (id, k) !in t.attempted;
  }

  lemma LoadInserted<V>(table: map<(string, string), V>, id: string, m: Option<map<string, V>>)
    requires KeysFor(table.Keys, id) == {} && EntriesFor(table, id) == map[]
    ensures LoadKV(table + EntriesOf(id, m.GetOr(map[])), id) == if m.GetOr(map[]) == map[] then None else m
  {
    EntriesAdded(table, id, m.GetOr(map[]));
    assert map[] + m.GetOr(map[]) == m.GetOr(map[]);
  }

  lemma LoadInsertedAttempted(table: set<(string, string)>, id: string, fields: seq<string>)
    requires KeysFor(table, id) == {}
    ensures LoadAttempted(table + FieldsOf(id, fields), id)
         == if fields == [] then None else Some(SortedSet(set f | f in fields))
  {
    FieldsAdded(table, id, fields, id);
    if fields != [] { assert fields[0] in (set f | f in fields); }
  }

  lemma LoadAttemptedElsewhere(table: set<(string, string)>, id: string, fields: seq<string>, other: string)
    requires KeysFor(table, id) == {} && other != id
    ensures LoadAttempted(table + FieldsOf(id, fields), other) == LoadAttempted(table, other)
  {
    FieldsAdded(table, id, fields, other);
  }

  lemma LoadInsertedRows(t: Tables, r: Run)
    requires Consistent(t) && r.runID !in t.runs
    ensures var n := Inserted(t, r);
            && LoadKV(n.params, r.runID) == ReadBack(r).identity.params
            && LoadKV(n.metrics, r.runID) == ReadBack(r).metrics
  {
    NothingUnder(t, r.runID);
    LoadInserted(t.params, r.runID, r.identity.params);
    LoadInserted(t.metrics, r.runID, r.metrics);
  }

  lemma LoadInsertedFields(t: Tables, r: Run)
    requires Consistent(t) && r.runID !in t.runs && r.capture.Some?
    ensures LoadAttempted(Inserted(t, r).attempted, r.runID) == ReadBack(r).capture.value.attempted
  {
    NothingUnder(t, r.runID);
    LoadInsertedAttempted(t.attempted, r.runID, AttemptedOf(r.capture));
  }

  lemma InsertedStoredSelf(t: Tables, r: Run)
    requires Consistent(t) && r.runID !in t.runs
    ensures Stored(Inserted(t, r), r.runID) == ReadBack(r)
  {
    LoadInsertedRows(t, r);
    if r.capture.Some? { LoadInsertedFields(t, r); }
  }

  lemma InsertedStoredOther(t: Tables, r: Run, other: string)
    requires Consistent(t) && r.runID !in t.runs && other in t.runs
    ensures Stored(Inserted(t, r), other) == Stored(t, other)
  {
    NothingUnder(t, r.runID);
    EntriesAddedElsewhere(t.params, r.runID, ParamsOf(r.identity), other);
    EntriesAddedElsewhere(t.metrics, r.runID, MetricsOf(r), other);
    LoadAttemptedElsewhere(t.attempted, r.runID, AttemptedOf(r.capture), other);
  }

  ghost predicate SameRow(t: Tables, n: Tables, id: string) {
    id in t.runs && id in n.runs && Stored(n, id) == Stored(t, id)
  }

  /** Only the run under `id` is another. */
  ghost predicate OthersKept(t: Tables, n: Tables, id: string) {
    && n.runs.Keys == t.runs.Keys + {id}
    && forall other | other in t.runs && other != id :: SameRow(t, n, other)
  }

  lemma AbsAt(t: Tables, id: string)
    requires id in t.runs
    ensures Abs(t)[id] == Stored(t, id)
  {
  }

  lemma SameRowSameEntry(t: Tables, n: Tables, id: string)
    requires SameRow(t, n, id)
    ensures Abs(n)[id] == Abs(t)[id]
  {
    AbsAt(t, id);
    AbsAt(n, id);
  }

  lemma OthersSameEntry(t: Tables, n: Tables, id: string)
    requires OthersKept(t, n, id)
    ensures forall other | other in t.runs && other != id :: Abs(n)[other] == Abs(t)[other]
  {
    forall other | other in t.runs && other != id ensures Abs(n)[other] == Abs(t)[other] {
      assert SameRow(t, n, other);
      SameRowSameEntry(t, n, other);
    }
  }

  lemma OneEntryChanged<K, V>(m: map<K, V>, n: map<K, V>, k: K, v: V)
    requires n.Keys == m.Keys + {k} && n[k] == v && forall other | other in m && other != k :: n[other] == m[other]
    ensures n == m[k := v]
  {
  }

  lemma AbsKeys(t: Tables)
    ensures Abs(t).Keys == t.runs.Keys
  {
  }

  lemma AbsChanged(t: Tables, n: Tables, id: string, r: Run, m: Ledger, a: Ledger)
    requires OthersKept(t, n, id) && Stored(n, id) == r && m == Abs(t) && a == Abs(n)
    ensures a == m[id := r]
  {
    AbsKeys(t);
    AbsKeys(n);
    OthersSameEntry(t, n, id);
    AbsAt(n, id);
    OneEntryChanged(m, a, id, r);
  }

  lemma InsertedKeeps(t: Tables, r: Run)
    requires Consistent(t) && r.runID !in t.runs
    ensures OthersKept(t, Inserted(t, r), r.runID)
  {
    forall other | other in t.runs ensures SameRow(t, Inserted(t, r), other) {
      InsertedStoredOther(t, r, other);
    }
  }

  lemma InsertedAbs(t: Tables, r: Run)
    requires Consistent(t) && r.runID !in t.runs
    ensures Abs(Inserted(t, r)) == Abs(t)[r.runID := ReadBack(r)]
  {
    InsertedKeeps(t, r);
    InsertedStoredSelf(t, r);
    AbsChanged(t, Inserted(t, r), r.runID, ReadBack(r), Abs(t), Abs(Inserted(t, r)));
  }

  lemma RowConsistent(r: Run)
    ensures ConsistentRow(ToRow(r))
  {
  }

  /** Side-table rows belong to a stored run, and attempted fields to a declared capture. */
  lemma InsertedRowsOwned(t: Tables, r: Run)
    requires Consistent(t) && r.runID !in t.runs
    ensures var n := Inserted(t, r);
            && (forall k | k in n.params :: k.0 in n.runs)
            && (forall k | k in n.metrics :: k.0 in n.runs)
            && (forall k | k in n.attempted :: k.0 in n.runs && n.runs[k.0].captureDeclared)
  {
    var n := Inserted(t, r);
    forall k | k in n.attempted ensures k.0 in n.runs && n.runs[k.0].captureDeclared {
      if k !in t.attempted { assert k.0 == r.runID && AttemptedOf(r.capture) != []; }
    }
  }

  lemma InsertedConsistent(t: Tables, r: Run)
    requires Consistent(t) && r.runID !in t.runs
    ensures Consistent(Inserted(t, r))
  {
    InsertedRowsOwned(t, r);
    RowConsistent(r);
  }

  lemma SortedDistinctIsSortedSet(s: seq<string>)
    requires Sorted(s, TextKey)
    ensures Distinct(s) <==> s == SortedSet(set f | f in s)
  {
    var all := set f | f in s;
    if Distinct(s) {
      DistinctMultiset(s);
      SortSorted(s, TextKey);
      SortedUnique(s, Sort(s, TextKey), TextKey);
      SortedSetUnique(s, all);
    }
    if s == SortedSet(all) {
      MultiplicityOne(s, all);
    }
  }

  lemma NormalizedSorted(run: Run)
    ensures Sorted(AttemptedOf(NormalizeCapture(run).capture), TextKey)
  {
    if |AttemptedOf(run.capture)| >= 2 {
      SortSorted(AttemptedOf(run.capture), TextKey);
    }
  }

  lemma DistinctTogether<T>(a: seq<T>, b: seq<T>)
    requires multiset(a) == multiset(b) && Distinct(a)
    ensures Distinct(b)
  {
    DistinctMultiset(a);
    MultiplicityOne(b, set f | f in a);
  }

  lemma NormalizedDistinct(run: Run)
    ensures Distinct(AttemptedOf(NormalizeCapture(run).capture)) <==> Distinct(AttemptedOf(run.capture))
  {
    var a, b := AttemptedOf(run.capture), AttemptedOf(NormalizeCapture(run).capture);
    if Distinct(a) { DistinctTogether(a, b); }
    if Distinct(b) { DistinctTogether(b, a); }
  }

  lemma NormalizedCanonical(run: Run)
    ensures Canonical(NormalizeCapture(run)) <==> Canonical(run)
  {
    NormalizedDistinct(run);
    var a, b := AttemptedOf(run.capture), AttemptedOf(NormalizeCapture(run).capture);
    assert |multiset(a)| == |multiset(b)|;
  }

  /** A run whose attempted fields are sorted is read back unchanged exactly when it is canonical. */
  lemma ReadBackExact(r: Run)
    requires Sorted(AttemptedOf(r.capture), TextKey)
    ensures ReadBack(r) == r <==> Canonical(r)
  {
    SortedDistinctIsSortedSet(AttemptedOf(r.capture));
    var back := ReadBack(r);
    assert back.startedAt == r.startedAt && back.endedAt == r.endedAt <==> InstantsFit(r) && InUTC(r);
    assert back.identity == r.identity <==> r.identity.params != Some(map[]);
    assert back.metrics == r.metrics <==> r.metrics != Some(map[]);
  }

  lemma SameEntry(m: Ledger, id: string, a: Run, b: Run)
    ensures m[id := a] == m[id := b] <==> a == b
  {
    assert m[id := a][id] == a && m[id := b][id] == b;
  }

  /**
   What the tables can answer for like the reference store: a run refused as
   invalid, a known id with other content or the same instants in UTC, or a new
   run they can hold.
   */
  ghost predicate RecordFits(t: Tables, run: Run) {
    Lineage.Valid(run) ==>
      if run.runID in t.runs then InUTC(run) || !RunsEqual(Stored(t, run.runID), NormalizeCapture(run))
      else Canonical(run)
  }

  /** Between runs in UTC the two comparisons agree; another zone is a difference for one of them only. */
  lemma ComparisonsAgree(stored: Run, r: Run)
    requires InUTC(stored)
    ensures stored == r <==> RunsEqual(stored, r) && InUTC(r)
  {
  }

  /**
   Recording gives the same answer and the same ledger as the reference store
   exactly when the tables can answer for the run.
   */
  lemma RecordAgrees(t: Tables, run: Run)
    requires Consistent(t)
    ensures Consistent(RecordedT(t, run).0)
    ensures (Abs(RecordedT(t, run).0), RecordedT(t, run).1) == Recorded(Abs(t), run) <==> RecordFits(t, run)
  {
    var r := NormalizeCapture(run);
    if run.runID in t.runs {
      StoredFits(t, run.runID);
      ComparisonsAgree(Stored(t, run.runID), r);
    } else if Lineage.Valid(run) {
      NormalizedSorted(run);
      NormalizedCanonical(run);
      ReadBackExact(r);
      InsertedAbs(t, r);
      InsertedConsistent(t, r);
      SameEntry(Abs(t), r.runID, ReadBack(r), r);
    }
  }

  lemma LoadedEntries<V>(table: map<(string, string), V>, id: string)
    ensures LoadKV(table, id).GetOr(map[]) == EntriesFor(table, id)
    ensures LoadKV(table, id) != Some(map[])
  {
    if KeysFor(table.Keys, id) == {} {
      assert EntriesFor(table, id) == map[];
    } else {
      var k :| k in KeysFor(table.Keys, id);
      assert k in EntriesFor(table, id);
    }
  }

  /**
   Where the comparisons part: a run posted again with its start time spelled
   in another zone is accepted from the tables and a conflict in memory.
   */
  lemma RespelledInstantDiverges(t: Tables, r: Run, seconds: int)
    requires Consistent(t) && Lineage.Valid(r) && Canonical(r) && r.runID !in t.runs
    ensures var again := r.(startedAt := r.startedAt.(zone := Offset(seconds)));
            && RecordedT(RecordedT(t, r).0, again).1 == None
            && Recorded(Recorded(Abs(t), r).0, again).1 == Some(Conflict)
  {
    CanonicalIsStored(t, r);
    RespelledAgain(RecordedT(t, r).0, Recorded(Abs(t), r).0, r, Offset(seconds));
  }

  lemma CanonicalIsStored(t: Tables, r: Run)
    requires Consistent(t) && Lineage.Valid(r) && Canonical(r) && r.runID !in t.runs
    ensures var n := NormalizeCapture(r);
            && r.runID in RecordedT(t, r).0.runs && Stored(RecordedT(t, r).0, r.runID) == n
            && Recorded(Abs(t), r).0 == Abs(t)[r.runID := n]
  {
    var n := NormalizeCapture(r);
    NormalizedCanonical(r);
    NormalizedSorted(r);
    InsertedStoredSelf(t, n);
    ReadBackExact(n);
  }

  lemma RespelledAgain(t: Tables, m: Ledger, r: Run, zone: Zone)
    requires Lineage.Valid(r) && r.startedAt.zone != zone
    requires r.runID in t.runs && Stored(t, r.runID) == NormalizeCapture(r)
    requires r.runID in m && m[r.runID] == NormalizeCapture(r)
    ensures var again := r.(startedAt := r.startedAt.(zone := zone));
            RecordedT(t, again).1 == None && Recorded(m, again).1 == Some(Conflict)
  {
    var again := r.(startedAt := r.startedAt.(zone := zone));
    NormalizedStart(r, again.startedAt);
    RespelledValid(r, zone);
  }

  lemma RespelledValid(r: Run, zone: Zone)
    ensures Validate(r.(startedAt := r.startedAt.(zone := zone))) == Validate(r)
  {
  }

  lemma NormalizedStart(r: Run, startedAt: Instant)
    ensures NormalizeCapture(r.(startedAt := startedAt)) == NormalizeCapture(r).(startedAt := startedAt)
  {
  }

  /** What an overwritten run reads back as. */
  ghost function UpdateReadBack(r: Run, u: Run, p: Patch): Run {
    var delta := p.metrics.GetOr(map[]);
    u.(endedAt := AtUTC(Nanos(u.endedAt)), metrics := if delta == map[] then r.metrics else Some(MetricsOf(r) + delta))
  }

  lemma OverwrittenStoredSelf(t: Tables, id: string, u: Run, p: Patch)
    requires Consistent(t) && id in t.runs && Evolves(Stored(t, id), u)
    ensures Stored(Overwritten(t, id, u, p), id) == UpdateReadBack(Stored(t, id), u, p)
  {
    var r, n := Stored(t, id), Overwritten(t, id, u, p);
    EntriesAdded(t.metrics, id, p.metrics.GetOr(map[]));
    LoadedEntries(t.metrics, id);
    var row := n.runs[id];
    assert row == t.runs[id].(status := u.status, endedAtNs := Nanos(u.endedAt), provenance := u.provenance);
    var got, want := Stored(n, id), UpdateReadBack(r, u, p);
    assert got.identity == r.identity == want.identity;
    assert got.capture == r.capture == want.capture;
    assert got.metrics == want.metrics;
  }

  lemma OverwrittenStoredOther(t: Tables, id: string, u: Run, p: Patch, other: string)
    requires Consistent(t) && id in t.runs && other in t.runs && other != id
    ensures Stored(Overwritten(t, id, u, p), other) == Stored(t, other)
  {
    EntriesAddedElsewhere(t.metrics, id, p.metrics.GetOr(map[]), other);
  }

  lemma OverwrittenConsistent(t: Tables, id: string, u: Run, p: Patch)
    requires Consistent(t) && id in t.runs
    ensures Consistent(Overwritten(t, id, u, p))
  {
  }

  lemma OverwrittenKeeps(t: Tables, id: string, u: Run, p: Patch)
    requires Consistent(t) && id in t.runs
    ensures OthersKept(t, Overwritten(t, id, u, p), id)
  {
    forall other | other in t.runs && other != id ensures SameRow(t, Overwritten(t, id, u, p), other) {
      OverwrittenStoredOther(t, id, u, p, other);
    }
  }

  lemma OverwrittenAbs(t: Tables, id: string, u: Run, p: Patch)
    requires Consistent(t) && id in t.runs && Evolves(Stored(t, id), u)
    ensures Abs(Overwritten(t, id, u, p)) == Abs(t)[id := UpdateReadBack(Stored(t, id), u, p)]
  {
    var n := Overwritten(t, id, u, p);
    OverwrittenKeeps(t, id, u, p);
    OverwrittenStoredSelf(t, id, u, p);
    AbsChanged(t, n, id, UpdateReadBack(Stored(t, id), u, p), Abs(t), Abs(n));
  }

  /**
   What the tables can store of an update: an end time that fits and is in UTC,
   and no empty metric map on a run without metrics.
   */
  ghost predicate UpdateFits(r: Run, p: Patch, now: int) {
    Terminal(r.status) ||
    (&& (p.endedAt.Some? ==> Text.FitsInt64(p.endedAt.value.ns) && p.endedAt.value.zone == UTC)
     && (p.endedAt.None? && r.endedAt.None? && p.status.Some? && Terminal(p.status.value) ==> Text.FitsInt64(now))
     && !(p.metrics == Some(map[]) && r.metrics.None?))
  }

  lemma StoredFits(t: Tables, id: string)
    requires Consistent(t) && id in t.runs
    ensures var r := Stored(t, id); InstantsFit(r) && InUTC(r) && r.metrics != Some(map[])
  {
    LoadedEntries(t.metrics, id);
  }

  lemma UpdateReadBackExact(r: Run, p: Patch, now: int)
    requires InstantsFit(r) && InUTC(r) && r.metrics != Some(map[])
    requires ApplyPatch(r, p, now).Ok?
    ensures UpdateReadBack(r, ApplyPatch(r, p, now).value, p) == ApplyPatch(r, p, now).value <==> UpdateFits(r, p, now)
  {
    var u := ApplyPatch(r, p, now).value;
    var delta := p.metrics.GetOr(map[]);
    if Terminal(r.status) {
      assert MetricsOf(r) + delta == MetricsOf(r);
      if delta != map[] {
        var k :| k in delta;
        assert k in MetricsOf(r);
      }
    } else {
      assert MetricsOf(r) + map[] == MetricsOf(r);
    }
  }

  /**
   Updating gives the same answer and the same ledger as the reference store
   exactly when the run is absent, the patch is refused, or `UpdateFits`: the
   listed columns and the metric delta then equal the whole merged run.
   */
  lemma UpdateAgrees(t: Tables, id: string, p: Patch, now: int)
    requires Consistent(t)
    ensures Consistent(UpdatedT(t, id, p, now).0)
    ensures (Abs(UpdatedT(t, id, p, now).0), UpdatedT(t, id, p, now).1) == Updated(Abs(t), id, p, now)
       <==> id !in t.runs || ApplyPatch(Stored(t, id), p, now).Err? || UpdateFits(Stored(t, id), p, now)
  {
    if id in t.runs && ApplyPatch(Stored(t, id), p, now).Ok? {
      var r := Stored(t, id);
      var u := ApplyPatch(r, p, now).value;
      ApplyEvolves(r, p, now);
      OverwrittenAbs(t, id, u, p);
      OverwrittenConsistent(t, id, u, p);
      StoredFits(t, id);
      UpdateReadBackExact(r, p, now);
      SameEntry(Abs(t), id, UpdateReadBack(r, u, p), u);
    }
  }

  /**
   Where the backends part: an empty metric map sent to a run that has none is
   stored as such by one and not at all by the other.
   */
  lemma EmptyMetricPatchDiverges(t: Tables, id: string, now: int)
    requires Consistent(t) && id in t.runs
    requires Lineage.Valid(Stored(t, id)) && !Terminal(Stored(t, id).status) && Stored(t, id).metrics.None?
    ensures var p := NO_CHANGE.(metrics := Some(map[]));
            && UpdatedT(t, id, p, now).1 == Updated(Abs(t), id, p, now).1
            && Abs(UpdatedT(t, id, p, now).0) != Updated(Abs(t), id, p, now).0
  {
    var p, r := NO_CHANGE.(metrics := Some(map[])), Stored(t, id);
    EmptyMetricsAccepted(r, now);
    assert Abs(t)[id] == r && !UpdateFits(r, p, now);
    UpdateAgrees(t, id, p, now);
  }

  lemma EmptyMetricsAccepted(r: Run, now: int)
    requires Lineage.Valid(r) && !Terminal(r.status) && r.metrics.None?
    ensures ApplyPatch(r, NO_CHANGE.(metrics := Some(map[])), now) == Ok(r.(metrics := Some(map[])))
  {
    var u := r.(metrics := Some(map[]));
    assert Validate(u) == Validate(r);
    assert MetricsOf(r) + map[] == map[];
  }
}
