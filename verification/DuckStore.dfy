/** The relational store as it runs: transactions row by row, reads filled in place. */
module DuckStore {
  import opened Wrappers
  import opened Lineage
  import opened Patching
  import opened Listing
  import opened Ordering
  import opened Sequences
  import opened DuckTables
  import opened DuckListing
  import Filters

  class DuckDB {
    var tables: Tables

    ghost predicate Valid()
      reads this
    {
      Consistent(tables)
    }

    constructor ()
      ensures Valid() && tables == Tables(map[], map[], map[], {})
    {
      tables := Tables(map[], map[], map[], {});
    }

    method Record(run: Run) returns (err: Option<Error>)
      requires Valid()
      modifies this
      ensures Valid()
      ensures (tables, err) == RecordedT(old(tables), run)
    {
      var flaw := Validate(run);
      if flaw.Some? {
        return Some(Invalid(flaw.value));
      }
      var r := NormalizeCapture(run);
      var existing := Get(r.runID);
      if existing.Ok? {
        if RunsEqual(existing.value, r) {
          return None;
        }
        return Some(Conflict);
      }
      // The transaction works on a copy; an error abandons it.
      var tx := tables.(runs := tables.runs[r.runID := ToRow(r)]);
      var params := Upsert(tx.params, r.runID, ParamsOf(r.identity));
      var metrics := Upsert(tx.metrics, r.runID, MetricsOf(r));
      NothingUnder(tables, r.runID);
      var attempted, ok := InsertFields(tx.attempted, r.runID, AttemptedOf(r.capture));
      if !ok {
        return Some(ConstraintViolated);
      }
      InsertedConsistent(tables, r);
      tables := tx.(params := params, metrics := metrics, attempted := attempted);
      return None;
    }

    method Update(id: string, p: Patch, now: int) returns (res: Result<Run, Error>)
      requires Valid()
      modifies this
      ensures Valid()
      ensures (tables, res) == UpdatedT(old(tables), id, p, now)
    {
      var existing := Get(id);
      if existing.Err? {
        return Err(existing.error);
      }
      res := Apply(existing.value, p, now);
      if res.Err? {
        return;
      }
      var u := res.value;
      var row := tables.runs[id].(status := u.status, endedAtNs := Nanos(u.endedAt), provenance := u.provenance);
      var metrics := Upsert(tables.metrics, id, p.metrics.GetOr(map[]));
      OverwrittenConsistent(tables, id, u, p);
      tables := tables.(runs := tables.runs[id := row], metrics := metrics);
    }

    method Get(id: string) returns (res: Result<Run, Error>)
      ensures res == Read(tables, tables, tables, tables, id)
    {
      if id !in tables.runs {
        return Err(NotFound);
      }
      var r := Bare(id, tables.runs[id]);
      var params := Load(tables.params, id);
      var metrics := Load(tables.metrics, id);
      r := r.(identity := r.identity.(params := params), metrics := metrics);
      if r.capture.Some? {
        var fields := KeysFor(tables.attempted, id);
        var sorted := CollectSorted(fields);
        r := r.(capture := Some(r.capture.value.(attempted := if fields == {} then None else Some(sorted))));
      }
      return Ok(r);
    }

    /** Scan, order, fetch one row too many, trim, then fill the page in batches. */
    method List(q: Query) returns (page: Page)
      ensures page == ReadPage(tables, tables, tables, tables, q)
      ensures Valid() && WindowFits(q) ==> Filters.IsPage(page, Abs(tables), q)
    {
      var found := Scan(tables, q);
      var bare := Trimmed(Limited(Sort(found, RunKey), q.limit), q.limit);
      ScanOrdered(tables, q, found);
      PageApart(tables, q);
      var runs := Hydrate(bare.runs, tables.params, tables.metrics, tables.attempted);
      if Valid() && WindowFits(q) {
        ListAgrees(tables, q);
        assert WellKeyed(Abs(tables));
        Filters.PageIsExact(Abs(tables), q);
      }
      return bare.(runs := runs);
    }
  }

  method Scan(t: Tables, q: Query) returns (out: seq<Run>)
    ensures multiset(out) == multiset(Selected(t, q))
  {
    out := [];
    var left := t.runs.Keys;
    ghost var seen: set<Run> := {};
    while left != {}
      invariant left <= t.runs.Keys
      invariant seen == set id | id in t.runs && id !in left && RowSelected(id, t.runs[id], q) :: Bare(id, t.runs[id])
      invariant multiset(out) == multiset(seen)
      decreases left
    {
      var id :| id in left;
      left := left - {id};
      if RowSelected(id, t.runs[id], q) {
        var r := Bare(id, t.runs[id]);
        assert r !in seen by { assert forall x | x in seen :: x.runID != id; }
        AddNew(out, seen, r);
        out := out + [r];
        seen := seen + {r};
      }
    }
    assert seen == Selected(t, q);
  }

  lemma ScanOrdered(t: Tables, q: Query, found: seq<Run>)
    requires multiset(found) == multiset(Selected(t, q))
    ensures Sort(found, RunKey) == Rows(Selected(t, q))
  {
    SelectedApart(t, q);
    SortedCollectionIsRows(found, Selected(t, q));
  }

  /** A trimmed page names no run twice. */
  lemma TrimmedApart(rows: seq<Run>, s: set<Run>, limit: int)
    requires Lists(rows, s) && OneRunPerID(s)
    ensures var runs := Trimmed(Limited(rows, limit), limit).runs;
            forall i, j | 0 <= i < j < |runs| :: runs[i].runID != runs[j].runID
  {
    ScannedApart(rows, s);
  }

  lemma PageApart(t: Tables, q: Query)
    ensures var runs := Trimmed(Limited(Rows(Selected(t, q)), q.limit), q.limit).runs;
            forall i, j | 0 <= i < j < |runs| :: runs[i].runID != runs[j].runID
  {
    SelectedApart(t, q);
    RowsList(Selected(t, q));
    TrimmedApart(Rows(Selected(t, q)), Selected(t, q), q.limit);
  }

  lemma ScannedApart(runs: seq<Run>, s: set<Run>)
    requires InOrder(runs) && OneRunPerID(s) && forall r | r in runs :: r in s
    ensures forall i, j | 0 <= i < j < |runs| :: runs[i].runID != runs[j].runID
  {
    DistinctInOrder(runs);
  }

  /** Fills params, metrics and attempted fields of a whole page, one batched query each. */
  method Hydrate(bare: seq<Run>, params: map<(string, string), string>,
                 metrics: map<(string, string), real>, attempted: set<(string, string)>) returns (runs: seq<Run>)
    requires forall i, j | 0 <= i < j < |bare| :: bare[i].runID != bare[j].runID
    ensures runs == HydratedAll(bare, params, metrics, attempted)
  {
    var ids := seq(|bare|, i requires 0 <= i < |bare| => bare[i].runID);
    var declared := seq(|bare|, i requires 0 <= i < |bare| => bare[i].capture.Some?);
    var ps := new Option<map<string, string>>[|bare|](_ => None);
    FillKV(params, ids, ps);
    var ms := new Option<map<string, real>>[|bare|](_ => None);
    FillKV(metrics, ids, ms);
    var fs := new Option<seq<string>>[|bare|](_ => None);
    FillAttempted(attempted, ids, declared, fs);
    runs := [];
    for i := 0 to |bare|
      invariant |runs| == i
      invariant forall k | 0 <= k < i :: runs[k] == Hydrated(bare[k], params, metrics, attempted)
    {
      var r := bare[i];
      r := r.(identity := r.identity.(params := ps[i]), metrics := ms[i]);
      if r.capture.Some? {
        r := r.(capture := Some(r.capture.value.(attempted := fs[i])));
      }
      runs := runs + [r];
    }
  }

  method IndexByID(ids: seq<string>) returns (byID: map<string, nat>)
    requires Distinct(ids)
    ensures forall i | 0 <= i < |ids| :: ids[i] in byID && byID[ids[i]] == i
    ensures forall id | id in byID :: byID[id] < |ids| && ids[byID[id]] == id
  {
    byID := map[];
    for n := 0 to |ids|
      invariant forall i | 0 <= i < n :: ids[i] in byID && byID[ids[i]] == i
      invariant forall id | id in byID :: byID[id] < n && ids[byID[id]] == id
    {
      byID := byID[ids[n] := n];
    }
  }

  lemma LoadKVOne<V>(table: map<(string, string), V>, id: string, key: string, v: V, other: string)
    ensures LoadKV(table[(id, key) := v], other)
         == if other == id then Some(LoadKV(table, id).GetOr(map[])[key := v]) else LoadKV(table, other)
  {
    var after := table[(id, key) := v];
    if other == id {
      LoadedEntries(table, id);
      assert key in KeysFor(after.Keys, id);
      assert EntriesFor(after, id) == EntriesFor(table, id)[key := v];
    } else {
      assert KeysFor(after.Keys, other) == KeysFor(table.Keys, other);
      assert EntriesFor(after, other) == EntriesFor(table, other);
    }
  }

  ghost predicate Part<K, V>(part: map<K, V>, whole: map<K, V>) {
    forall k | k in part :: k in whole && part[k] == whole[k]
  }

  lemma PartGrows<K, V>(part: map<K, V>, whole: map<K, V>, k: K)
    requires Part(part, whole) && k in whole
    ensures Part(part[k := whole[k]], whole)
  {
  }

  /** Of `m`, the entries in `done` are written and the keys in `left` are not. */
  ghost predicate Split<K, V>(left: set<K>, done: map<K, V>, m: map<K, V>) {
    && left <= m.Keys
    && (forall k | k in done :: k in m && done[k] == m[k])
    && (forall k | k in m :: k in done || k in left)
  }

  lemma SplitMoves<K, V>(left: set<K>, done: map<K, V>, m: map<K, V>, k: K)
    requires Split(left, done, m) && k in left
    ensures Split(left - {k}, done[k := m[k]], m)
  {
  }

  lemma SplitEnds<K, V>(done: map<K, V>, m: map<K, V>)
    requires Split({}, done, m)
    ensures done == m
  {
  }

  lemma LoadKVOfPart<V>(table: map<(string, string), V>, part: map<(string, string), V>, id: string)
    requires Part(part, table)
    requires forall k | k in table && k.0 == id :: k in part
    ensures LoadKV(part, id) == LoadKV(table, id)
  {
    assert KeysFor(part.Keys, id) == KeysFor(table.Keys, id);
    assert EntriesFor(part, id) == EntriesFor(table, id);
  }

  ghost predicate Filled<V>(slots: seq<Option<map<string, V>>>, table: map<(string, string), V>, ids: seq<string>) {
    |slots| == |ids| && forall i | 0 <= i < |ids| :: slots[i] == LoadKV(table, ids[i])
  }

  lemma FilledOne<V>(slots: seq<Option<map<string, V>>>, table: map<(string, string), V>, ids: seq<string>,
                     i: nat, key: string, v: V)
    requires Filled(slots, table, ids) && Distinct(ids) && i < |ids|
    ensures Filled(slots[i := Some(slots[i].GetOr(map[])[key := v])], table[(ids[i], key) := v], ids)
  {
    forall j | 0 <= j < |ids| { LoadKVOne(table, ids[i], key, v, ids[j]); }
  }

  /** One row into the slot of its run. */
  method FillOne<V>(slots: array<Option<map<string, V>>>, ghost seen: map<(string, string), V>, ids: seq<string>,
                    i: nat, row: (string, string), v: V)
    requires Filled(slots[..], seen, ids) && Distinct(ids) && i < |ids| && ids[i] == row.0
    modifies slots
    ensures Filled(slots[..], seen[row := v], ids)
  {
    FilledOne(slots[..], seen, ids, i, row.1, v);
    ghost var before := slots[..];
    slots[i] := Some(slots[i].GetOr(map[])[row.1 := v]);
    assert slots[..] == before[i := Some(before[i].GetOr(map[])[row.1 := v])];
    assert row == (ids[i], row.1);
  }

  lemma FilledWhole<V>(slots: seq<Option<map<string, V>>>, seen: map<(string, string), V>,
                       table: map<(string, string), V>, ids: seq<string>)
    requires Filled(slots, seen, ids) && Part(seen, table)
    requires forall k | k in table && k.0 in ids :: k in seen
    ensures Filled(slots, table, ids)
  {
    forall i | 0 <= i < |ids| ensures slots[i] == LoadKV(table, ids[i]) {
      LoadKVOfPart(table, seen, ids[i]);
    }
  }

  /** Of the rows the page asks for, `seen` have reached their slot and `left` have not. */
  ghost predicate Filling<V>(slots: seq<Option<map<string, V>>>, seen: map<(string, string), V>,
                              table: map<(string, string), V>, left: set<(string, string)>, ids: seq<string>) {
    && Filled(slots, seen, ids) && Part(seen, table)
    && (forall k | k in left :: k in table && k.0 in ids)
    && (forall k | k in table && k.0 in ids :: k in seen || k in left)
  }

  /** WHERE run_id IN (...). */
  method RowsFor<V>(table: map<(string, string), V>, ids: seq<string>) returns (rows: set<(string, string)>)
    ensures forall k :: k in rows <==> k in table && k.0 in ids
  {
    rows := set k | k in table.Keys && k.0 in ids;
  }

  /** The next row into its slot. */
  method FillNext<V>(slots: array<Option<map<string, V>>>, ghost seen: map<(string, string), V>,
                     table: map<(string, string), V>, left: set<(string, string)>, ids: seq<string>,
                     i: nat, row: (string, string))
    requires Filling(slots[..], seen, table, left, ids) && Distinct(ids)
    requires row in left && i < |ids| && ids[i] == row.0
    modifies slots
    ensures Filling(slots[..], seen[row := table[row]], table, left - {row}, ids)
  {
    PartGrows(seen, table, row);
    FillOne(slots, seen, ids, i, row, table[row]);
  }

  /** Rows of the listed runs, in whatever order they arrive, each into its run's slot. */
  method FillKV<V>(table: map<(string, string), V>, ids: seq<string>, slots: array<Option<map<string, V>>>)
    requires Distinct(ids) && slots.Length == |ids|
    requires forall i | 0 <= i < slots.Length :: slots[i] == None
    modifies slots
    ensures forall i | 0 <= i < |ids| :: slots[i] == LoadKV(table, ids[i])
  {
    var byID := IndexByID(ids);
    var left := RowsFor(table, ids);
    ghost var seen: map<(string, string), V> := map[];
    while left != {}
      invariant Filling(slots[..], seen, table, left, ids)
      decreases left
    {
      var row :| row in left;
      FillNext(slots, seen, table, left, ids, byID[row.0], row);
      left, seen := left - {row}, seen[row := table[row]];
    }
    FilledWhole(slots[..], seen, table, ids);
  }

  /** ORDER BY field, whatever the run. */
  function FieldKey(row: (string, string)): Key {
    TextKey(row.1)
  }

  function FieldsIn(rows: seq<(string, string)>, id: string): seq<string> {
    if |rows| == 0 then []
    else
      var front, last := rows[..|rows| - 1], rows[|rows| - 1];
      FieldsIn(front, id) + if last.0 == id then [last.1] else []
  }

  /** What a slot holds after these rows: nil until the first of the run's fields. */
  function FieldSlot(rows: seq<(string, string)>, id: string): Option<seq<string>> {
    NilIf(FieldsIn(rows, id) == [], FieldsIn(rows, id))
  }

  lemma FieldsInStep(rows: seq<(string, string)>, n: nat, id: string)
    requires n < |rows|
    ensures FieldsIn(rows[..n + 1], id)
         == if rows[n].0 == id then FieldsIn(rows[..n], id) + [rows[n].1] else FieldsIn(rows[..n], id)
  {
    assert rows[..n + 1][..n] == rows[..n];
  }

  /** Picking one run's rows out of an ordered result keeps them ordered and distinct. */
  lemma {:induction false} FieldsInOrder(rows: seq<(string, string)>, id: string)
    requires Distinct(rows) && Sorted(rows, FieldKey)
    ensures forall f :: f in FieldsIn(rows, id) <==> (id, f) in rows
    ensures Distinct(FieldsIn(rows, id)) && Sorted(FieldsIn(rows, id), TextKey)
  {
    if |rows| == 0 {
    } else {
      var front, last := rows[..|rows| - 1], rows[|rows| - 1];
      assert rows == front + [last];
      FieldsInOrder(front, id);
      var fs := FieldsIn(front, id);
      forall i | 0 <= i < |fs| ensures !Less(TextKey(last.1), TextKey(fs[i])) && (last.0 == id ==> fs[i] != last.1) {
        assert (id, fs[i]) in front;
        var k :| 0 <= k < |front| && front[k] == (id, fs[i]);
        assert rows[k] == (id, fs[i]) && rows[|rows| - 1] == last;
        assert !Less(FieldKey(rows[|rows| - 1]), FieldKey(rows[k]));
      }
    }
  }

  lemma FieldsInIsLoad(rows: seq<(string, string)>, table: set<(string, string)>, id: string)
    requires Distinct(rows) && Sorted(rows, FieldKey)
    requires forall f :: (id, f) in rows <==> (id, f) in table
    ensures FieldSlot(rows, id) == LoadAttempted(table, id)
  {
    FieldsInOrder(rows, id);
    var fs := FieldsIn(rows, id);
    SortedDistinctIsSortedSet(fs);
    assert (set f | f in fs) == KeysFor(table, id);
    if fs != [] { assert fs[0] in KeysFor(table, id); }
  }

  method CollectRows(table: set<(string, string)>, ids: set<string>) returns (rows: seq<(string, string)>)
    ensures Distinct(rows) && Sorted(rows, FieldKey)
    ensures forall row :: row in rows <==> row in table && row.0 in ids
  {
    var wanted := set row | row in table && row.0 in ids;
    var left := wanted;
    rows := [];
    while left != {}
      invariant left <= wanted
      invariant multiset(rows) == multiset(wanted - left)
      decreases left
    {
      var row :| row in left;
      assert wanted - (left - {row}) == (wanted - left) + {row};
      rows, left := rows + [row], left - {row};
    }
    assert wanted - left == wanted;
    SortSorted(rows, FieldKey);
    rows := Sort(rows, FieldKey);
    MultiplicityOne(rows, wanted);
    assert forall row :: row in rows <==> row in multiset(rows);
  }

  ghost predicate FieldsFilled(slots: seq<Option<seq<string>>>, rows: seq<(string, string)>, ids: seq<string>,
                               declared: seq<bool>) {
    && |slots| == |ids| == |declared|
    && forall i | 0 <= i < |ids| :: slots[i] == if declared[i] then FieldSlot(rows, ids[i]) else None
  }

  lemma FieldsFilledOne(slots: seq<Option<seq<string>>>, rows: seq<(string, string)>, n: nat, ids: seq<string>,
                        declared: seq<bool>, i: nat)
    requires n < |rows| && FieldsFilled(slots, rows[..n], ids, declared) && Distinct(ids)
    requires i < |ids| && ids[i] == rows[n].0
    ensures FieldsFilled(if declared[i] then slots[i := Some(slots[i].GetOr([]) + [rows[n].1])] else slots,
                         rows[..n + 1], ids, declared)
  {
    var now := if declared[i] then slots[i := Some(slots[i].GetOr([]) + [rows[n].1])] else slots;
    forall j | 0 <= j < |ids|
      ensures now[j] == if declared[j] then FieldSlot(rows[..n + 1], ids[j]) else None
    {
      FieldsInStep(rows, n, ids[j]);
      if j != i { assert now[j] == slots[j]; }
    }
  }

  /** Fields arrive ordered and are appended to the run they belong to, if it declared a capture. */
  method FillAttempted(table: set<(string, string)>, ids: seq<string>, declared: seq<bool>,
                       slots: array<Option<seq<string>>>)
    requires Distinct(ids) && slots.Length == |ids| == |declared|
    requires forall i | 0 <= i < slots.Length :: slots[i] == None
    modifies slots
    ensures forall i | 0 <= i < |ids| :: slots[i] == if declared[i] then LoadAttempted(table, ids[i]) else None
  {
    var byID := IndexByID(ids);
    var rows := CollectRows(table, byID.Keys);
    for n := 0 to |rows|
      invariant FieldsFilled(slots[..], rows[..n], ids, declared)
    {
      var row := rows[n];
      assert row in rows;
      var i := byID[row.0];
      FieldsFilledOne(slots[..], rows, n, ids, declared, i);
      if declared[i] {
        slots[i] := Some(slots[i].GetOr([]) + [row.1]);
      }
    }
    assert rows[..|rows|] == rows;
    forall i | 0 <= i < |ids| ensures FieldSlot(rows, ids[i]) == LoadAttempted(table, ids[i]) {
      FieldsInIsLoad(rows, table, ids[i]);
    }
  }

  /** `INSERT ... ON CONFLICT DO UPDATE`, one row per entry. */
  method Upsert<V>(table: map<(string, string), V>, id: string, m: map<string, V>)
    returns (out: map<(string, string), V>)
    ensures out == table + EntriesOf(id, m)
  {
    out := table;
    var left := m.Keys;
    ghost var done: map<string, V> := map[];
    assert table + EntriesOf(id, done) == table;
    while left != {}
      invariant Split(left, done, m) && out == table + EntriesOf(id, done)
      decreases left
    {
      var k :| k in left;
      UpsertOne(table, id, done, k, m[k]);
      SplitMoves(left, done, m, k);
      done := done[k := m[k]];
      out, left := out[(id, k) := m[k]], left - {k};
    }
    SplitEnds(done, m);
  }

  lemma UpsertOne<V>(table: map<(string, string), V>, id: string, done: map<string, V>, k: string, v: V)
    ensures table + EntriesOf(id, done[k := v]) == (table + EntriesOf(id, done))[(id, k) := v]
  {
  }

  /** Plain inserts: a repeated field breaks the primary key. */
  method InsertFields(table: set<(string, string)>, id: string, fields: seq<string>)
    returns (out: set<(string, string)>, ok: bool)
    requires KeysFor(table, id) == {}
    ensures ok <==> Distinct(fields)
    ensures ok ==> out == table + FieldsOf(id, fields)
  {
    out := table;
    for i := 0 to |fields|
      invariant Distinct(fields[..i])
      invariant out == table + FieldsOf(id, fields[..i])
    {
      if (id, fields[i]) in out {
        assert fields[i] !in KeysFor(table, id);
        assert fields[i] in fields[..i];
        return out, false;
      }
      assert fields[..i + 1] == fields[..i] + [fields[i]];
      assert fields[i] !in fields[..i];
      out := out + {(id, fields[i])};
    }
    assert fields[..|fields|] == fields;
    return out, true;
  }

  /** Rows of one run into a map that is nil until the first row. */
  method Load<V>(table: map<(string, string), V>, id: string) returns (out: Option<map<string, V>>)
    ensures out == LoadKV(table, id)
  {
    var keys := KeysFor(table.Keys, id);
    var left := keys;
    var done: map<string, V> := map[];
    out := None;
    while left != {}
      invariant left <= keys
      invariant done.Keys == keys - left && forall k | k in done :: done[k] == table[(id, k)]
      invariant out == if done.Keys == {} then None else Some(done)
      decreases left
    {
      var k :| k in left;
      done, left := done[k := table[(id, k)]], left - {k};
      assert k in done.Keys;
      out := Some(done);
    }
    assert done == EntriesFor(table, id);
  }
}
