/**
 The recording client: a best-effort start write, one finish write, and a spool
 line when the finish is not acknowledged.
 */
module WriteClient {
  import opened Wrappers
  import opened Lineage
  import opened Patching
  import opened Listing
  import opened MemoryStore
  import opened Api
  import opened Spread
  import opened SpreadApi
  import opened Ordering
  import opened Sequences

  /** What the network did to one request. */
  datatype Delivery = RequestLost | ResponseLost | Answered

  /** `base` holds what every payload repeats: identity, provenance, capture and start time, no id. */
  datatype Client = Client(
    base: Run,
    metrics: map<string, real>,
    status: Status,
    runID: Option<string>,
    finished: bool,
    spooled: bool)

  function StartPayload(c: Client): Run {
    c.base.(status := Running, endedAt := None, metrics := None)
  }

  /** The complete record: the fallback POST and every spool line. */
  function FullPayload(c: Client, now: int): Run {
    c.base.(status := c.status, endedAt := Some(Instant(now, UTC)), metrics := NilIf(c.metrics == map[], c.metrics))
  }

  function FinishPatch(c: Client, now: int): Patch {
    NO_CHANGE.(status := Some(c.status), endedAt := Some(Instant(now, UTC)),
               metrics := NilIf(c.metrics == map[], c.metrics))
  }

  /** A POST: the ledger afterwards, and the run id if the client learns one. */
  ghost function Posted(m: Ledger, payload: Run, now: int, assignedID: string, d: Delivery, norm: string -> string)
    : (Ledger, Option<string>)
  {
    var stored := Stamp(payload, now, assignedID, norm);
    var (n, err) := Recorded(m, stored);
    if d.RequestLost? then (m, None)
    else (n, if d.Answered? && err.None? then Some(stored.runID) else None)
  }

  /** A PATCH: the ledger afterwards, and whether it was acknowledged. */
  function PatchedRun(m: Ledger, id: string, p: Patch, now: int, d: Delivery): (Ledger, bool) {
    var (n, res) := Updated(m, id, p, now);
    if d.RequestLost? then (m, false) else (n, d.Answered? && res.Ok?)
  }

  // ----- The client object -----

  class SpoolFile {
    var records: seq<Run>

    constructor ()
      ensures records == []
    {
      records := [];
    }
  }

  class RunClient {
    const base: Run
    var metrics: map<string, real>
    var status: Status
    var runID: Option<string>
    var finished: bool
    var spooled: bool

    constructor (base: Run)
      ensures State() == Client(base, map[], Running, None, false, false)
    {
      this.base, metrics, status, runID, finished, spooled := base, map[], Running, None, false, false;
    }

    function State(): Client
      reads this
    {
      Client(base, metrics, status, runID, finished, spooled)
    }

    method LogMetric(name: string, value: real)
      modifies this`metrics
      ensures State() == old(State()).(metrics := old(metrics)[name := value])
    {
      metrics := metrics[name := value];
    }

    method SendPost(server: Memory, payload: Run, now: int, assignedID: string, d: Delivery, norm: string -> string)
      returns (ok: bool)
      requires server.Valid()
      modifies server, this`runID
      ensures server.Valid()
      ensures (server.runs, if ok then runID else None) == Posted(old(server.runs), payload, now, assignedID, d, norm)
      ensures !ok ==> runID == old(runID)
      ensures ok ==> runID.Some?
    {
      if d.RequestLost? {
        return false;
      }
      var stored, err := RecordRunHandler(server, payload, now, assignedID, norm);
      if d.ResponseLost? || err.Some? {
        return false;
      }
      runID := Some(stored.runID);
      return true;
    }

    /** The start write is never spooled. */
    method RecordStart(server: Memory, now: int, assignedID: string, d: Delivery, norm: string -> string)
      requires server.Valid()
      modifies server, this`runID
      ensures server.Valid()
      ensures (server.runs, State()) == Started(old(server.runs), old(State()), now, assignedID, d, norm)
    {
      var ok := SendPost(server, StartPayload(State()), now, assignedID, d, norm);
    }

    /** However it is triggered, only the first call counts. */
    method Finish(server: Memory, spool: SpoolFile, outcome: Status, now: int, later: int, assignedID: string,
                  d: Delivery, diskOK: bool, norm: string -> string)
      requires server.Valid()
      modifies server, spool, this
      ensures server.Valid()
      ensures (server.runs, spool.records, State())
           == Finished(old(server.runs), old(spool.records), old(State()), outcome, now, later, assignedID,
                       d, diskOK, norm)
    {
      if finished {
        return;
      }
      finished, status := true, outcome;
      var ok;
      if runID.Some? {
        ok := !d.RequestLost?;
        if ok {
          var res := server.Update(runID.value, FinishPatch(State(), now), now);
          ok := d.Answered? && res.Ok?;
        }
      } else {
        ok := SendPost(server, FullPayload(State(), now), now, assignedID, d, norm);
      }
      if !ok && diskOK {
        spool.records := spool.records + [FullPayload(State(), later)];
        spooled := true;
      }
    }
  }

  // ----- The same steps as functions -----

  ghost function Started(m: Ledger, c: Client, now: int, assignedID: string, d: Delivery, norm: string -> string)
    : (Ledger, Client)
  {
    var (n, id) := Posted(m, StartPayload(c), now, assignedID, d, norm);
    (n, if id.Some? then c.(runID := id) else c)
  }

  ghost function Acknowledged(m: Ledger, c: Client, now: int, assignedID: string, d: Delivery, norm: string -> string)
    : (Ledger, Client, bool)
  {
    if c.runID.Some? then
      var (n, ok) := PatchedRun(m, c.runID.value, FinishPatch(c, now), now, d);
      (n, c, ok)
    else
      var (n, id) := Posted(m, FullPayload(c, now), now, assignedID, d, norm);
      (n, if id.Some? then c.(runID := id) else c, id.Some?)
  }

  ghost function Finished(m: Ledger, spool: seq<Run>, c: Client, outcome: Status, now: int, later: int,
                          assignedID: string, d: Delivery, diskOK: bool, norm: string -> string)
    : (Ledger, seq<Run>, Client)
  {
    if c.finished then (m, spool, c)
    else
      var (n, c', ok) := Acknowledged(m, c.(finished := true, status := outcome), now, assignedID, d, norm);
      if ok || !diskOK then (n, spool, c')
      else (n, spool + [FullPayload(c', later)], c'.(spooled := true))
  }

  // ----- Every run of one client -----

  /**
   `mine` are the rows this client's writes created, `triggers` every finish
   trigger that fired, `writes` the finish writes attempted; the rest is what
   became of the first of them.
   */
  datatype World = World(
    ledger: Ledger,
    spool: seq<Run>,
    client: Client,
    mine: set<string>,
    triggers: seq<Status>,
    writes: seq<Status>,
    finalMetrics: map<string, real>,
    acknowledged: bool,
    diskFailed: bool)

  datatype Event =
    | Start(now: int, assignedID: string, d: Delivery)
    | Log(name: string, value: real)
    | Trigger(outcome: Status, at: int, later: int, freshID: string, delivery: Delivery, diskOK: bool)
    | Elsewhere(ledger: Ledger)

  /** Server-assigned ids are fresh; other writers leave this client's rows alone. */
  ghost predicate Enabled(w: World, e: Event) {
    match e
    case Start(_, id, _) => id != "" && id !in w.ledger && !w.client.finished && w.mine == {}
    case Log(_, _) => true
    case Trigger(outcome, _, _, id, _, _) => id != "" && id !in w.ledger && Terminal(outcome)
    case Elsewhere(n) => WellKeyed(n) && forall id | id in w.mine :: id in n && id in w.ledger && n[id] == w.ledger[id]
  }

  ghost function Next(w: World, e: Event, norm: string -> string): World {
    match e
    case Start(now, id, d) =>
      var (n, c) := Started(w.ledger, w.client, now, id, d, norm);
      w.(ledger := n, client := c, mine := w.mine + (n.Keys - w.ledger.Keys))
    case Log(name, v) => w.(client := w.client.(metrics := w.client.metrics[name := v]))
    case Trigger(outcome, now, later, id, d, diskOK) =>
      var (n, spool, c) := Finished(w.ledger, w.spool, w.client, outcome, now, later, id, d, diskOK, norm);
      var seen := w.(ledger := n, spool := spool, client := c, mine := w.mine + (n.Keys - w.ledger.Keys),
                     triggers := w.triggers + [outcome]);
      if w.client.finished then seen
      else
        var ok := Acknowledged(w.ledger, w.client.(finished := true, status := outcome), now, id, d, norm).2;
        seen.(writes := w.writes + [outcome], finalMetrics := w.client.metrics, acknowledged := ok,
              diskFailed := !diskOK)
    case Elsewhere(n) => w.(ledger := n)
  }

  /** A spool line that replay can send as it stands. */
  ghost predicate Complete(r: Run, base: Run, outcome: Status, metrics: map<string, real>) {
    r.endedAt.Some? && r == base.(status := outcome, endedAt := r.endedAt, metrics := NilIf(metrics == map[], metrics))
  }

  ghost predicate AllRunning(m: Ledger, mine: set<string>) {
    forall id | id in mine :: id in m && m[id].status == Running
  }

  ghost predicate OneFinished(m: Ledger, mine: set<string>, outcome: Status) {
    && (forall id | id in mine :: id in m && (m[id].status == Running || m[id].status == outcome))
    && forall a, b | a in mine && b in mine && m[a].status != Running && m[b].status != Running :: a == b
  }

  /** At most one of this client's rows is finished, with the first trigger's status; the others are running. */
  ghost predicate RowsInOrder(w: World) {
    && WellKeyed(w.ledger)
    && (if w.triggers == [] then AllRunning(w.ledger, w.mine) else OneFinished(w.ledger, w.mine, w.triggers[0]))
    && (w.client.runID.Some? && !w.client.finished ==> w.client.runID.value in w.mine)
  }

  /** One finish write at most, and a spool line exactly when it was not acknowledged and the disk held. */
  ghost predicate SpoolInOrder(w: World) {
    && (w.client.finished <==> w.triggers != [])
    && w.writes == (if w.triggers == [] then [] else [w.triggers[0]])
    && (w.triggers != [] ==> Terminal(w.triggers[0]) && w.client.status == w.triggers[0])
    && if w.triggers == [] || w.acknowledged || w.diskFailed then w.spool == []
       else |w.spool| == 1 && Complete(w.spool[0], w.client.base, w.triggers[0], w.finalMetrics)
  }

  ghost predicate Inv(w: World) {
    RowsInOrder(w) && SpoolInOrder(w) && w.client.base.runID == ""
  }

  lemma RecordedRow(m: Ledger, r: Run)
    requires WellKeyed(m) && r.runID !in m
    ensures Recorded(m, r) == (m[r.runID := NormalizeCapture(r)], None)
         || (Recorded(m, r).0 == m && Recorded(m, r).1.Some?)
  {
  }

  lemma PostedRow(m: Ledger, payload: Run, now: int, assignedID: string, d: Delivery, norm: string -> string)
    requires WellKeyed(m) && payload.runID == "" && payload.status != Unset && assignedID !in m
    ensures var (n, id) := Posted(m, payload, now, assignedID, d, norm);
            && WellKeyed(n)
            && (n == m || (n.Keys == m.Keys + {assignedID} && n[assignedID].status == payload.status))
            && (forall k | k in m :: k in n && n[k] == m[k])
            && (id.Some? ==> id.value == assignedID && assignedID in n)
  {
    var stored := Stamp(payload, now, assignedID, norm);
    assert stored.runID == assignedID && NormalizeCapture(stored).status == payload.status;
    RecordedRow(m, stored);
  }

  lemma StartKeeps(w: World, e: Event, norm: string -> string)
    requires Inv(w) && Enabled(w, e) && e.Start?
    ensures Inv(Next(w, e, norm))
  {
    PostedRow(w.ledger, StartPayload(w.client), e.now, e.assignedID, e.d, norm);
  }

  lemma PatchedRow(m: Ledger, id: string, p: Patch, now: int, d: Delivery)
    requires WellKeyed(m)
    ensures var (n, ok) := PatchedRun(m, id, p, now, d);
            && WellKeyed(n)
            && n.Keys == m.Keys
            && (forall k | k in m && k != id :: n[k] == m[k])
            && (id in m ==> n[id].status == m[id].status || p.status == Some(n[id].status))
  {
    if id in m && ApplyPatch(m[id], p, now).Ok? { ApplyEvolves(m[id], p, now); }
  }

  /** A write that touches one row at most, and leaves it running or finished, finishes one at most. */
  lemma FinishesOne(m: Ledger, n: Ledger, mine: set<string>, hit: string, outcome: Status)
    requires AllRunning(m, mine)
    requires forall k | k in m && k != hit :: k in n && n[k] == m[k]
    requires n.Keys == m.Keys || n.Keys == m.Keys + {hit}
    requires hit in n && (hit in mine || hit !in m) ==> n[hit].status == Running || n[hit].status == outcome
    ensures OneFinished(n, mine + (n.Keys - m.Keys), outcome)
  {
  }

  lemma TriggerKeepsRows(w: World, e: Event, norm: string -> string)
    requires Inv(w) && Enabled(w, e) && e.Trigger? && !w.client.finished
    ensures RowsInOrder(Next(w, e, norm))
  {
    var c := w.client.(finished := true, status := e.outcome);
    var n := Acknowledged(w.ledger, c, e.at, e.freshID, e.delivery, norm).0;
    if c.runID.Some? {
      PatchedRow(w.ledger, c.runID.value, FinishPatch(c, e.at), e.at, e.delivery);
      FinishesOne(w.ledger, n, w.mine, c.runID.value, e.outcome);
    } else {
      PostedRow(w.ledger, FullPayload(c, e.at), e.at, e.freshID, e.delivery, norm);
      FinishesOne(w.ledger, n, w.mine, e.freshID, e.outcome);
    }
  }

  lemma TriggerKeepsSpool(w: World, e: Event, norm: string -> string)
    requires Inv(w) && Enabled(w, e) && e.Trigger? && !w.client.finished
    ensures SpoolInOrder(Next(w, e, norm)) && Next(w, e, norm).client.base == w.client.base
  {
  }

  lemma StepKeeps(w: World, e: Event, norm: string -> string)
    requires Inv(w) && Enabled(w, e)
    ensures Inv(Next(w, e, norm))
  {
    match e {
      case Start(_, _, _) => StartKeeps(w, e, norm);
      case Log(_, _) =>
      case Trigger(_, _, _, _, _, _) =>
        if !w.client.finished {
          TriggerKeepsRows(w, e, norm);
          TriggerKeepsSpool(w, e, norm);
        }
      case Elsewhere(_) =>
    }
  }

  ghost predicate Execution(w: World, es: seq<Event>, end: World, norm: string -> string)
    decreases |es|
  {
    if |es| == 0 then w == end else Enabled(w, es[0]) && Execution(Next(w, es[0], norm), es[1..], end, norm)
  }

  ghost predicate Begins(w: World) {
    && WellKeyed(w.ledger) && w.mine == {} && w.triggers == [] && w.writes == [] && w.spool == []
    && !w.acknowledged
    && w.client == Client(w.client.base, map[], Running, None, false, false) && w.client.base.runID == ""
  }

  lemma {:induction false} ExecutionKeeps(w: World, es: seq<Event>, end: World, norm: string -> string)
    requires Inv(w) && Execution(w, es, end, norm)
    ensures Inv(end)
    decreases |es|
  {
    if |es| == 0 {
    } else {
      StepKeeps(w, es[0], norm);
      ExecutionKeeps(Next(w, es[0], norm), es[1..], end, norm);
    }
  }

  /**
   For every pattern of lost requests, lost responses and repeated triggers:
   one finish write at most, carrying the first trigger's status; no spool line
   once acknowledged, one complete record otherwise unless the disk failed; and
   at most one finished row, any other row of this client still running.
   */
  lemma OneOutcome(w: World, es: seq<Event>, end: World, norm: string -> string)
    requires Begins(w) && Execution(w, es, end, norm)
    ensures Inv(end)
  {
    ExecutionKeeps(w, es, end, norm);
  }

  lemma GroupedRun(m: Ledger, fp: string, id: string)
    requires WellKeyed(m) && id in OneOf(fp, RunsOf(m, fp)).runIDs
    ensures id in m && Terminal(m[id].status)
  {
    var q := NO_FILTER.(fingerprint := fp);
    KeyedApart(m, q);
    RowsList(Matching(m, q));
    var terminal := TerminalRuns(RunsOf(m, fp));
    TerminalIsPart(RunsOf(m, fp));
    SameMembers(Sort(IDs(terminal), TextKey), IDs(terminal));
    assert id in IDs(terminal);
    var i :| 0 <= i < |terminal| && IDs(terminal)[i] == id;
    assert terminal[i] in terminal;
    assert terminal[i] in Matching(m, q);
  }

  /** Before any replay a client run adds at most one to the members of any group it appears in. */
  lemma CountedOnce(w: World, fp: string, a: string, b: string)
    requires Inv(w) && a in w.mine && b in w.mine
    requires a in OneOf(fp, RunsOf(w.ledger, fp)).runIDs && b in OneOf(fp, RunsOf(w.ledger, fp)).runIDs
    ensures a == b && w.triggers != [] && w.ledger[a].status == w.triggers[0]
  {
    GroupedRun(w.ledger, fp, a);
    GroupedRun(w.ledger, fp, b);
  }

  // ----- What the client adds to a group -----

  /** The finished runs a group counts. */
  ghost function FinishedIn(m: Ledger, fp: string): set<Run> {
    set r | r in Matching(m, NO_FILTER.(fingerprint := fp)) && Terminal(r.status)
  }

  lemma {:induction false} TerminalStayDistinct(runs: seq<Run>)
    requires Distinct(runs)
    ensures Distinct(TerminalRuns(runs))
  {
    if |runs| == 0 {
    } else {
      var front, last := runs[..|runs| - 1], runs[|runs| - 1];
      TerminalStayDistinct(front);
      TerminalIsPart(front);
      assert last !in front;
      assert forall r | r in TerminalRuns(front) :: r != last;
    }
  }

  lemma DistinctSize<T>(s: seq<T>, all: set<T>)
    requires Distinct(s)
    requires all == set x | x in s
    ensures |s| == |all|
  {
    DistinctMultiset(s);
    assert |multiset(s)| == |multiset(all)|;
  }

  /** The runs of a group that are still in flight. */
  ghost function UnfinishedIn(m: Ledger, fp: string): set<Run> {
    set r | r in Matching(m, NO_FILTER.(fingerprint := fp)) && !Terminal(r.status)
  }

  lemma CountIsFinished(m: Ledger, fp: string)
    requires WellKeyed(m)
    ensures OneOf(fp, RunsOf(m, fp)).count == |FinishedIn(m, fp)|
  {
    var q := NO_FILTER.(fingerprint := fp);
    KeyedApart(m, q);
    RowsList(Matching(m, q));
    var runs := RunsOf(m, fp);
    DistinctInOrder(runs);
    TerminalStayDistinct(runs);
    TerminalIsPart(runs);
    assert FinishedIn(m, fp) == set r | r in TerminalRuns(runs);
    DistinctSize(TerminalRuns(runs), FinishedIn(m, fp));
  }

  lemma InFlightIsUnfinished(m: Ledger, fp: string)
    requires WellKeyed(m)
    ensures OneOf(fp, RunsOf(m, fp)).inFlight == |UnfinishedIn(m, fp)|
  {
    var q := NO_FILTER.(fingerprint := fp);
    MatchingSize(m, q);
    CountIsFinished(m, fp);
    SizesAdd(Matching(m, q), FinishedIn(m, fp), UnfinishedIn(m, fp));
  }

  lemma MatchingSize(m: Ledger, q: Query)
    requires WellKeyed(m)
    ensures |Rows(Matching(m, q))| == |Matching(m, q)|
  {
    KeyedApart(m, q);
    RowsList(Matching(m, q));
    var rows := Rows(Matching(m, q));
    DistinctInOrder(rows);
    assert Matching(m, q) == set r | r in rows;
    DistinctSize(rows, Matching(m, q));
  }

  lemma SizesAdd<T>(all: set<T>, part: set<T>, rest: set<T>)
    requires all == part + rest && part !! rest
    ensures |all| == |part| + |rest|
  {
  }

  lemma AtMostOneMore<T>(all: set<T>, others: set<T>)
    requires others <= all
    requires forall x, y | x in all && x !in others && y in all && y !in others :: x == y
    ensures |others| <= |all| <= |others| + 1
    ensures (forall x | x in all :: x in others) ==> |all| == |others|
  {
    if x :| x in all && x !in others {
      assert all == others + {x};
    } else {
      assert all == others;
    }
  }

  lemma FinishedRow(m: Ledger, fp: string, r: Run)
    requires WellKeyed(m)
    ensures r in FinishedIn(m, fp) <==>
            r.runID in m && m[r.runID] == r && Terminal(r.status) && Matches(r, NO_FILTER.(fingerprint := fp))
  {
    MatchingRow(m, NO_FILTER.(fingerprint := fp), r);
  }

  /** What a group loses without the rows `mine`: the finished ones among them. */
  lemma FinishedWithout(m: Ledger, mine: set<string>, fp: string)
    requires WellKeyed(m)
    ensures WellKeyed(m - mine) && FinishedIn(m - mine, fp) <= FinishedIn(m, fp)
    ensures forall r | r in FinishedIn(m, fp) && r !in FinishedIn(m - mine, fp) ::
              r.runID in mine && r.runID in m && m[r.runID] == r && Terminal(r.status)
  {
    var n := m - mine;
    forall r ensures r in FinishedIn(n, fp) <==> r in FinishedIn(m, fp) && r.runID !in mine {
      FinishedRow(m, fp, r);
      FinishedRow(n, fp, r);
    }
    forall r | r in FinishedIn(m, fp) { FinishedRow(m, fp, r); }
  }

  lemma OnlyOneFinished(w: World, r: Run, s: Run)
    requires Inv(w) && r.runID in w.mine && s.runID in w.mine
    requires r.runID in w.ledger && w.ledger[r.runID] == r && Terminal(r.status)
    requires s.runID in w.ledger && w.ledger[s.runID] == s && Terminal(s.status)
    ensures r == s && w.triggers != []
  {
  }

  /** This client's rows that no finish reached. */
  ghost function OrphansIn(w: World, fp: string): set<Run> {
    set r | r in Matching(w.ledger, NO_FILTER.(fingerprint := fp)) && r.runID in w.mine && r.status == Running
  }

  lemma OrphansAreUnfinished(w: World, fp: string)
    requires Inv(w)
    ensures var others := UnfinishedIn(w.ledger - w.mine, fp);
            UnfinishedIn(w.ledger, fp) == others + OrphansIn(w, fp) && others !! OrphansIn(w, fp)
  {
    var m, n, q := w.ledger, w.ledger - w.mine, NO_FILTER.(fingerprint := fp);
    forall r ensures r in Matching(n, q) <==> r in Matching(m, q) && r.runID !in w.mine {
      MatchingRow(m, q, r);
      MatchingRow(n, q, r);
    }
    forall r | r in Matching(m, q) && r.runID in w.mine ensures r.status == Running || Terminal(r.status) {
      MatchingRow(m, q, r);
    }
  }

  lemma MatchingRow(m: Ledger, q: Query, r: Run)
    requires WellKeyed(m)
    ensures r in Matching(m, q) <==> r.runID in m && m[r.runID] == r && Matches(r, q)
  {
  }

  /**
   Without this client's rows a group's count would be the same or one less,
   and the same until a finish trigger fires; its rows left running are exactly
   what it adds to the runs in flight.
   */
  lemma AddsAtMostOne(w: World, fp: string)
    requires Inv(w)
    ensures OneOf(fp, RunsOf(w.ledger - w.mine, fp)).count
         <= OneOf(fp, RunsOf(w.ledger, fp)).count
         <= OneOf(fp, RunsOf(w.ledger - w.mine, fp)).count + 1
    ensures w.triggers == [] ==> OneOf(fp, RunsOf(w.ledger, fp)).count == OneOf(fp, RunsOf(w.ledger - w.mine, fp)).count
    ensures OneOf(fp, RunsOf(w.ledger, fp)).inFlight
         == OneOf(fp, RunsOf(w.ledger - w.mine, fp)).inFlight + |OrphansIn(w, fp)|
  {
    CountsAtMostOne(w, fp);
    FinishedWithout(w.ledger, w.mine, fp);
    InFlightIsUnfinished(w.ledger, fp);
    InFlightIsUnfinished(w.ledger - w.mine, fp);
    OrphansAreUnfinished(w, fp);
    SizesAdd(UnfinishedIn(w.ledger, fp), UnfinishedIn(w.ledger - w.mine, fp), OrphansIn(w, fp));
  }

  lemma CountsAtMostOne(w: World, fp: string)
    requires Inv(w)
    ensures OneOf(fp, RunsOf(w.ledger - w.mine, fp)).count
         <= OneOf(fp, RunsOf(w.ledger, fp)).count
         <= OneOf(fp, RunsOf(w.ledger - w.mine, fp)).count + 1
    ensures w.triggers == [] ==> OneOf(fp, RunsOf(w.ledger, fp)).count == OneOf(fp, RunsOf(w.ledger - w.mine, fp)).count
  {
    FinishedWithout(w.ledger, w.mine, fp);
    CountIsFinished(w.ledger, fp);
    CountIsFinished(w.ledger - w.mine, fp);
    var all, others := FinishedIn(w.ledger, fp), FinishedIn(w.ledger - w.mine, fp);
    forall r, s | r in all && r !in others && s in all && s !in others ensures r == s && w.triggers != [] {
      OnlyOneFinished(w, r, s);
    }
    AtMostOneMore(all, others);
  }
}
