/** What a client's rows say once it has finished: the outcome, the record it began with, and every metric logged. */
module FinishedRows {
  import opened Wrappers
  import opened Lineage
  import opened Patching
  import opened Listing
  import opened MemoryStore
  import opened WriteClient
  import Acceptance
  import Api
  import Ordering

  // ----- The rows of one client -----

  /** The row repeats what the client set out with. */
  ghost predicate Repeats(r: Run, base: Run) {
    && r.identity == base.identity
    && r.provenance == base.provenance
    && (r.capture.Some? <==> base.capture.Some?)
    && (r.capture.Some? ==> r.capture.value.client == base.capture.value.client)
    && multiset(AttemptedOf(r.capture)) == multiset(AttemptedOf(base.capture))
    && (base.startedAt.ns != Api.ZERO_TIME ==> r.startedAt == base.startedAt)
  }

  ghost predicate StartRow(r: Run, base: Run) {
    Repeats(r, base) && r.status == Running && r.endedAt.None? && r.metrics.None? && Lineage.Valid(r)
  }

  ghost predicate OutcomeRow(r: Run, base: Run, outcome: Status, metrics: map<string, real>) {
    Repeats(r, base) && r.status == outcome && r.endedAt.Some? && MetricsOf(r) == metrics
  }

  /** Every row of the client is as its start left it, or has the outcome. */
  ghost predicate RowsSay(m: Ledger, mine: set<string>, base: Run, outcome: Option<Status>,
                          metrics: map<string, real>) {
    forall id | id in mine ::
      id in m
      && (StartRow(m[id], base) || (outcome.Some? && OutcomeRow(m[id], base, outcome.value, metrics)))
  }

  ghost function OutcomeOf(w: World): Option<Status> {
    if w.triggers == [] then None else Some(w.triggers[0])
  }

  ghost predicate Kept(w: World) {
    && Inv(w)
    && RowsSay(w.ledger, w.mine, w.client.base, OutcomeOf(w), w.finalMetrics)
    && (w.client.runID.Some? && !w.client.finished ==> w.mine == {w.client.runID.value})
    && (w.acknowledged ==> w.triggers != [] && exists id | id in w.mine :: w.ledger[id].status == w.triggers[0])
  }

  /** What a POST adds to the ledger, if anything. */
  lemma PostAdds(m: Ledger, payload: Run, now: int, id: string, d: Delivery, norm: string -> string)
    requires payload.runID == "" && payload.status != Unset && id !in m
    ensures var (n, learnt) := Posted(m, payload, now, id, d, norm);
            && (n == m || (n.Keys == m.Keys + {id} && (forall k | k in m :: n[k] == m[k])
                           && Repeats(n[id], payload) && n[id].status == payload.status
                           && n[id].endedAt == payload.endedAt && n[id].metrics == payload.metrics
                           && Lineage.Valid(n[id])))
            && (learnt.Some? ==> learnt.value == id && id in n)
  {
    var stored := Api.Stamp(payload, now, id, norm);
    if Recorded(m, stored).1.None? { Api.PostStoresRow(m, payload, now, id, norm); }
  }

  /** What a PATCH that ends a row makes of it, if anything. */
  lemma PatchEnds(m: Ledger, id: string, c: Client, now: int, d: Delivery)
    requires WellKeyed(m) && id in m && StartRow(m[id], c.base) && Terminal(c.status)
    ensures var (n, ok) := PatchedRun(m, id, FinishPatch(c, now), now, d);
            && n.Keys == m.Keys && (forall k | k in m && k != id :: n[k] == m[k])
            && (n[id] == m[id] || OutcomeRow(n[id], c.base, c.status, c.metrics))
            && (ok ==> n[id].status == c.status)
            && (d.Answered? ==> (ok <==> m[id].startedAt.ns <= now))
  {
    var r, p := m[id], FinishPatch(c, now);
    assert r.status == Running;
    Acceptance.OpenRunAccepts(r, p, now);
    if ApplyPatch(r, p, now).Ok? {
      Acceptance.OpenRunBecomes(r, p, now);
      Acceptance.OpenRunEnds(r, p, now);
      assert MetricsOf(r) == map[];
    }
  }

  lemma StartRowOf(r: Run, c: Client)
    requires Repeats(r, StartPayload(c)) && Lineage.Valid(r)
    requires r.status == Running && r.endedAt.None? && r.metrics.None?
    ensures StartRow(r, c.base)
  {
  }

  lemma OutcomeRowOf(r: Run, c: Client, now: int)
    requires Repeats(r, FullPayload(c, now)) && r.status == c.status
    requires r.endedAt.Some? && r.metrics == FullPayload(c, now).metrics
    ensures OutcomeRow(r, c.base, c.status, c.metrics)
  {
  }

  /** What a start POST adds to the ledger. */
  lemma StartPostAdds(m: Ledger, c: Client, now: int, id: string, d: Delivery, norm: string -> string)
    requires c.base.runID == "" && id !in m
    ensures var (n, learnt) := Posted(m, StartPayload(c), now, id, d, norm);
            && (n == m || (n.Keys == m.Keys + {id} && StartRow(n[id], c.base)))
            && (learnt.Some? ==> learnt.value == id && id in n)
  {
    var n := Posted(m, StartPayload(c), now, id, d, norm).0;
    PostAdds(m, StartPayload(c), now, id, d, norm);
    if n != m { StartRowOf(n[id], c); }
  }

  /** What a finish POST adds to the ledger. */
  lemma FinishPostAdds(m: Ledger, c: Client, now: int, id: string, d: Delivery, norm: string -> string)
    requires c.base.runID == "" && Terminal(c.status) && id !in m
    ensures var (n, learnt) := Posted(m, FullPayload(c, now), now, id, d, norm);
            && (forall k | k in m :: k in n && n[k] == m[k])
            && (n == m || (n.Keys == m.Keys + {id} && OutcomeRow(n[id], c.base, c.status, c.metrics)))
            && (learnt.Some? ==> learnt.value == id && id in n)
  {
    var n := Posted(m, FullPayload(c, now), now, id, d, norm).0;
    PostAdds(m, FullPayload(c, now), now, id, d, norm);
    if n != m { OutcomeRowOf(n[id], c, now); }
  }

  /** The start write, seen from the ledger. */
  lemma StartWrite(w: World, e: Event, norm: string -> string)
    requires Kept(w) && Enabled(w, e) && e.Start?
    ensures var (n, c) := Started(w.ledger, w.client, e.now, e.assignedID, e.d, norm);
            var mine := n.Keys - w.ledger.Keys;
            && RowsSay(n, mine, w.client.base, None, w.finalMetrics)
            && (c.runID.Some? ==> mine == {c.runID.value})
  {
    StartPostAdds(w.ledger, w.client, e.now, e.assignedID, e.d, norm);
  }

  lemma StartKeepsRows(w: World, e: Event, norm: string -> string)
    requires Kept(w) && Enabled(w, e) && e.Start?
    ensures Kept(Next(w, e, norm))
  {
    StepKeeps(w, e, norm);
    StartWrite(w, e, norm);
    assert w.mine == {};
  }

  /** A write that touches one row at most ends no other. */
  lemma EndsOneRow(m: Ledger, n: Ledger, mine: set<string>, base: Run, outcome: Status, metrics: map<string, real>,
                   hit: string)
    requires RowsSay(m, mine, base, None, map[])
    requires forall k | k in m && k != hit :: k in n && n[k] == m[k]
    requires n.Keys == m.Keys || n.Keys == m.Keys + {hit}
    requires hit in n && (hit in mine || hit !in m) ==>
               StartRow(n[hit], base) || OutcomeRow(n[hit], base, outcome, metrics)
    ensures RowsSay(n, mine + (n.Keys - m.Keys), base, Some(outcome), metrics)
  {
  }

  lemma NoneEnded(m: Ledger, mine: set<string>, base: Run, metrics: map<string, real>)
    requires RowsSay(m, mine, base, None, metrics)
    ensures RowsSay(m, mine, base, None, map[])
  {
  }

  /** The first trigger's write, seen from the ledger. */
  lemma FinishWrite(w: World, e: Event, norm: string -> string)
    requires Kept(w) && Enabled(w, e) && e.Trigger? && !w.client.finished
    ensures var c := w.client.(finished := true, status := e.outcome);
            var (n, c', ok) := Acknowledged(w.ledger, c, e.at, e.freshID, e.delivery, norm);
            var mine := w.mine + (n.Keys - w.ledger.Keys);
            && RowsSay(n, mine, w.client.base, Some(e.outcome), w.client.metrics)
            && (ok ==> exists id | id in mine :: n[id].status == e.outcome)
  {
    var c := w.client.(finished := true, status := e.outcome);
    var (n, c', ok) := Acknowledged(w.ledger, c, e.at, e.freshID, e.delivery, norm);
    NoneEnded(w.ledger, w.mine, w.client.base, w.finalMetrics);
    if c.runID.Some? {
      var id := c.runID.value;
      assert id in w.mine && StartRow(w.ledger[id], c.base);
      PatchEnds(w.ledger, id, c, e.at, e.delivery);
      EndsOneRow(w.ledger, n, w.mine, c.base, e.outcome, c.metrics, id);
    } else {
      FinishPostAdds(w.ledger, c, e.at, e.freshID, e.delivery, norm);
      EndsOneRow(w.ledger, n, w.mine, c.base, e.outcome, c.metrics, e.freshID);
    }
  }

  lemma TriggerKeepsRows(w: World, e: Event, norm: string -> string)
    requires Kept(w) && Enabled(w, e) && e.Trigger? && !w.client.finished
    ensures Kept(Next(w, e, norm))
  {
    StepKeeps(w, e, norm);
    FinishWrite(w, e, norm);
  }

  lemma StepKeepsRows(w: World, e: Event, norm: string -> string)
    requires Kept(w) && Enabled(w, e)
    ensures Kept(Next(w, e, norm))
  {
    match e {
      case Start(_, _, _) => StartKeepsRows(w, e, norm);
      case Log(_, _) => StepKeeps(w, e, norm);
      case Trigger(_, _, _, _, _, _) =>
        if w.client.finished { StepKeeps(w, e, norm); } else { TriggerKeepsRows(w, e, norm); }
      case Elsewhere(_) => StepKeeps(w, e, norm);
    }
  }

  lemma {:induction false} ExecutionKeepsRows(w: World, es: seq<Event>, end: World, norm: string -> string)
    requires Kept(w) && Execution(w, es, end, norm)
    ensures Kept(end)
    decreases |es|
  {
    if |es| == 0 {
    } else {
      StepKeepsRows(w, es[0], norm);
      ExecutionKeepsRows(Next(w, es[0], norm), es[1..], end, norm);
    }
  }

  // ----- In terms of what happened -----

  /** The status of the first trigger that fires. */
  function FirstOutcome(es: seq<Event>): Option<Status> {
    if |es| == 0 then None
    else if es[0].Trigger? then Some(es[0].outcome)
    else FirstOutcome(es[1..])
  }

  /** The last value logged under `k` before a trigger fires, else `before`. */
  function LastLogged(es: seq<Event>, k: string, before: Option<real>): Option<real> {
    if |es| == 0 || es[0].Trigger? then before
    else if es[0].Log? && es[0].name == k then LastLogged(es[1..], k, Some(es[0].value))
    else LastLogged(es[1..], k, before)
  }

  function At(m: map<string, real>, k: string): Option<real> {
    if k in m then Some(m[k]) else None
  }

  lemma {:induction false} OutcomeStays(w: World, es: seq<Event>, end: World, norm: string -> string)
    requires Kept(w) && Execution(w, es, end, norm) && w.triggers != []
    ensures end.triggers != [] && end.triggers[0] == w.triggers[0] && end.finalMetrics == w.finalMetrics
    ensures end.client.base == w.client.base
    decreases |es|
  {
    if |es| == 0 {
    } else {
      StepKeepsRows(w, es[0], norm);
      OutcomeStays(Next(w, es[0], norm), es[1..], end, norm);
    }
  }

  lemma StartedClient(m: Ledger, c: Client, now: int, id: string, d: Delivery, norm: string -> string)
    ensures var after := Started(m, c, now, id, d, norm).1; after == c.(runID := after.runID)
  {
  }

  lemma NextOther(w: World, e: Event, norm: string -> string)
    requires Enabled(w, e) && !e.Trigger?
    ensures var n := Next(w, e, norm);
            && n.client.base == w.client.base && n.triggers == w.triggers
            && n.client.metrics == if e.Log? then w.client.metrics[e.name := e.value] else w.client.metrics
  {
    if e.Start? { StartedClient(w.ledger, w.client, e.now, e.assignedID, e.d, norm); }
  }

  lemma NextTrigger(w: World, e: Event, norm: string -> string)
    requires Kept(w) && Enabled(w, e) && e.Trigger?
    ensures var n := Next(w, e, norm);
            && n.client.base == w.client.base && n.triggers == w.triggers + [e.outcome]
            && (w.triggers == [] ==> n.finalMetrics == w.client.metrics)
  {
    if !w.client.finished { TriggerKeepsSpool(w, e, norm); }
  }

  /** The outcome is the first trigger's. */
  lemma {:induction false} OutcomeIsFirst(w: World, es: seq<Event>, end: World, norm: string -> string)
    requires Kept(w) && Execution(w, es, end, norm) && w.triggers == []
    ensures OutcomeOf(end) == FirstOutcome(es) && end.client.base == w.client.base
    decreases |es|
  {
    if |es| == 0 {
    } else {
      var n := Next(w, es[0], norm);
      StepKeepsRows(w, es[0], norm);
      if es[0].Trigger? {
        NextTrigger(w, es[0], norm);
        OutcomeStays(n, es[1..], end, norm);
      } else {
        NextOther(w, es[0], norm);
        OutcomeIsFirst(n, es[1..], end, norm);
      }
    }
  }

  /** A metric's final value is the last one logged before the first trigger. */
  lemma {:induction false} FinalIsLast(w: World, es: seq<Event>, end: World, norm: string -> string, k: string)
    requires Kept(w) && Execution(w, es, end, norm) && w.triggers == []
    ensures end.triggers != [] ==> At(end.finalMetrics, k) == LastLogged(es, k, At(w.client.metrics, k))
    decreases |es|
  {
    if |es| == 0 {
    } else {
      var n := Next(w, es[0], norm);
      StepKeepsRows(w, es[0], norm);
      if es[0].Trigger? {
        NextTrigger(w, es[0], norm);
        OutcomeStays(n, es[1..], end, norm);
      } else {
        NextOther(w, es[0], norm);
        FinalIsLast(n, es[1..], end, norm, k);
      }
    }
  }

  /** The row holds the first outcome, an end, and for every metric the last value logged before it. */
  ghost predicate Tells(r: Run, base: Run, es: seq<Event>) {
    && Repeats(r, base) && r.endedAt.Some?
    && FirstOutcome(es) == Some(r.status) && r.status in {Succeeded, Failed, Cancelled}
    && forall k :: At(MetricsOf(r), k) == LastLogged(es, k, None)
  }

  lemma BeginsKept(w: World)
    requires Begins(w)
    ensures Kept(w)
  {
  }

  /**
   Whatever was lost on the way, each row of the client is still as its start
   left it or tells the outcome. An acknowledged finish means that exactly one
   tells it.
   */
  lemma AcknowledgedIsStored(w: World, es: seq<Event>, end: World, norm: string -> string)
    requires Begins(w) && Execution(w, es, end, norm)
    ensures forall id | id in end.mine ::
              id in end.ledger
              && (StartRow(end.ledger[id], w.client.base) || Tells(end.ledger[id], w.client.base, es))
    ensures end.acknowledged ==>
              exists id | id in end.mine ::
                && Tells(end.ledger[id], w.client.base, es)
                && forall other | other in end.mine && other != id :: end.ledger[other].status == Running
  {
    BeginsKept(w);
    ExecutionKeepsRows(w, es, end, norm);
    OutcomeIsFirst(w, es, end, norm);
    forall id | id in end.mine && !StartRow(end.ledger[id], w.client.base)
      ensures Tells(end.ledger[id], w.client.base, es)
    {
      forall k ensures At(MetricsOf(end.ledger[id]), k) == LastLogged(es, k, None) {
        FinalIsLast(w, es, end, norm, k);
      }
    }
    if end.acknowledged {
      var id :| id in end.mine && end.ledger[id].status == end.triggers[0];
      forall other | other in end.mine && other != id ensures end.ledger[other].status == Running {
        assert end.ledger[id].status != Running;
      }
    }
  }

  /** The record the client would send in full. */
  ghost function WholeRecord(base: Run, outcome: Status, at: int): Run {
    base.(status := outcome, endedAt := Some(Instant(at, UTC)))
  }

  lemma FullRecordValid(base: Run, outcome: Status, at: int, r: Run)
    requires Repeats(r, base) && Lineage.Valid(r) && r.startedAt == base.startedAt && Terminal(outcome)
    ensures Lineage.Valid(WholeRecord(base, outcome, at)) <==> r.startedAt.ns <= at
  {
    Ordering.SameMembers(AttemptedOf(base.capture), AttemptedOf(r.capture));
  }

  /** An answered PATCH is accepted exactly when the whole record would be. */
  lemma AnsweredPatch(m: Ledger, id: string, c: Client, now: int)
    requires WellKeyed(m) && id in m && StartRow(m[id], c.base) && Terminal(c.status)
    requires c.base.startedAt.ns != Api.ZERO_TIME
    ensures PatchedRun(m, id, FinishPatch(c, now), now, Answered).1 <==>
            Lineage.Valid(WholeRecord(c.base, c.status, now))
  {
    PatchEnds(m, id, c, now, Answered);
    FullRecordValid(c.base, c.status, now, m[id]);
  }

  lemma AnsweredPost(m: Ledger, c: Client, now: int, id: string, norm: string -> string)
    requires c.base.runID == "" && Terminal(c.status) && id !in m && c.base.startedAt.ns != Api.ZERO_TIME
    ensures Posted(m, FullPayload(c, now), now, id, Answered, norm).1.Some? <==>
            Lineage.Valid(WholeRecord(c.base, c.status, now))
  {
    var stored := Api.Stamp(FullPayload(c, now), now, id, norm);
    assert Validate(stored) == Validate(WholeRecord(c.base, c.status, now));
  }

  /** An answered finish write, as the client sees it. */
  lemma AnsweredWrite(w: World, e: Event, norm: string -> string)
    requires Kept(w) && Enabled(w, e) && e.Trigger? && !w.client.finished && e.delivery.Answered?
    requires w.client.base.startedAt.ns != Api.ZERO_TIME
    ensures var c := w.client.(finished := true, status := e.outcome);
            Acknowledged(w.ledger, c, e.at, e.freshID, e.delivery, norm).2 <==>
            Lineage.Valid(WholeRecord(w.client.base, e.outcome, e.at))
  {
    var c := w.client.(finished := true, status := e.outcome);
    if c.runID.Some? {
      assert c.runID.value in w.mine && StartRow(w.ledger[c.runID.value], c.base);
      AnsweredPatch(w.ledger, c.runID.value, c, e.at);
    } else {
      AnsweredPost(w.ledger, c, e.at, e.freshID, norm);
    }
  }

  /**
   A finish that is answered is acknowledged exactly when the record is one the
   ledger accepts, whether its start was heard of or not, and then nothing is
   spooled.
   */
  lemma AnsweredIsAcknowledged(w: World, es: seq<Event>, mid: World, e: Event, norm: string -> string)
    requires Begins(w) && w.client.base.startedAt.ns != Api.ZERO_TIME && Execution(w, es, mid, norm)
    requires FirstOutcome(es).None? && Enabled(mid, e) && e.Trigger? && e.delivery.Answered?
    ensures var end := Next(mid, e, norm);
            && (end.acknowledged <==> Lineage.Valid(WholeRecord(w.client.base, e.outcome, e.at)))
            && (end.acknowledged ==> end.spool == [])
  {
    BeginsKept(w);
    ExecutionKeepsRows(w, es, mid, norm);
    OutcomeIsFirst(w, es, mid, norm);
    TriggerKeepsRows(mid, e, norm);
    AnsweredWrite(mid, e, norm);
  }
}
