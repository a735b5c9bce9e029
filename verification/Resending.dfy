/**
 What sending a spooled record again does to the ledger.

 A replay that crashes before it rewrites the spool sends its records again.
 Spooled records name no run, so each delivery is a run of its own.
 */
module Resending {
  import opened Wrappers
  import opened Lineage
  import opened Patching
  import opened Listing
  import opened MemoryStore
  import opened Spread
  import opened SpreadApi
  import Api
  import Fingerprint
  import Replay
  import WriteClient

  /** One delivery: the server's clock, and the id it assigns. */
  datatype Delivery = Delivery(now: int, assignedID: string)

  /** The ledger after the same payload was delivered once for each of `ds`. */
  ghost function Resent(m: Ledger, payload: Run, ds: seq<Delivery>, norm: string -> string): Ledger
    decreases |ds|
  {
    if |ds| == 0 then m
    else Resent(FirstDelivered(m, payload, ds, norm), payload, ds[1..], norm)
  }

  /** Assigned ids are new to the ledger and to each other. */
  ghost predicate FreshIDs(m: Ledger, ds: seq<Delivery>) {
    && (forall i | 0 <= i < |ds| :: ds[i].assignedID !in m)
    && forall i, j | 0 <= i < j < |ds| :: ds[i].assignedID != ds[j].assignedID
  }

  /** A finished record that names no run but says when it started. */
  predicate Spooled(payload: Run) {
    && payload.runID == ""
    && payload.startedAt.ns != Api.ZERO_TIME
    && Terminal(payload.status)
    && Lineage.Valid(payload)
  }

  ghost function CountOf(m: Ledger, fp: string): nat {
    OneOf(fp, RunsOf(m, fp)).count
  }

  /** A run that a group counts. */
  predicate CountsFor(r: Run, fp: string) {
    Terminal(r.status) && Matches(r, NO_FILTER.(fingerprint := fp))
  }

  lemma FinishedGains(m: Ledger, r: Run, fp: string)
    requires WellKeyed(m) && r.runID !in m
    ensures r !in WriteClient.FinishedIn(m, fp)
    ensures WriteClient.FinishedIn(m[r.runID := r], fp)
         == WriteClient.FinishedIn(m, fp) + if CountsFor(r, fp) then {r} else {}
  {
    var n := m[r.runID := r];
    WriteClient.FinishedRow(m, fp, r);
    forall x: Run
      ensures x in WriteClient.FinishedIn(n, fp)
         <==> x in WriteClient.FinishedIn(m, fp) || (x == r && CountsFor(r, fp))
    {
      WriteClient.FinishedRow(m, fp, x);
      WriteClient.FinishedRow(n, fp, x);
    }
  }

  /** Storing a finished run of an experiment counts it in that experiment's group, and nothing else does. */
  lemma StoredCounts(m: Ledger, r: Run, fp: string)
    requires WellKeyed(m) && r.runID !in m
    ensures WellKeyed(m[r.runID := r])
    ensures CountOf(m[r.runID := r], fp) == CountOf(m, fp) + if CountsFor(r, fp) then 1 else 0
  {
    FinishedGains(m, r, fp);
    WriteClient.CountIsFinished(m, fp);
    WriteClient.CountIsFinished(m[r.runID := r], fp);
  }

  lemma InGroup(r: Run, fp: string)
    requires fp != ""
    ensures CountsFor(r, fp) <==> Terminal(r.status) && r.fingerprint == fp
  {
  }

  /** What the server makes of a payload: the ledger it leaves, and its refusal if any. */
  ghost function Handled(m: Ledger, payload: Run, d: Delivery, norm: string -> string): (Ledger, Option<Error>) {
    Recorded(m, Api.Stamp(payload, d.now, d.assignedID, norm))
  }

  /** An accepted payload that names no run is a new row. */
  lemma HandledRow(m: Ledger, payload: Run, d: Delivery, norm: string -> string) returns (r: Run)
    requires payload.runID == "" && d.assignedID !in m && Handled(m, payload, d, norm).1.None?
    ensures r.runID == d.assignedID && (Terminal(r.status) <==> Terminal(payload.status))
    ensures r.fingerprint == Fingerprint.Preimage(payload.identity, norm)
    ensures Handled(m, payload, d, norm).0 == m[d.assignedID := r]
  {
    r := NormalizeCapture(Api.Stamp(payload, d.now, d.assignedID, norm));
  }

  lemma HandledCounts(m: Ledger, payload: Run, d: Delivery, fp: string, norm: string -> string)
    requires WellKeyed(m) && payload.runID == "" && d.assignedID !in m && fp != ""
    requires Handled(m, payload, d, norm).1.None?
    ensures var n := Handled(m, payload, d, norm).0;
            && WellKeyed(n) && n.Keys == m.Keys + {d.assignedID}
            && CountOf(n, fp)
               == CountOf(m, fp)
                  + if Terminal(payload.status) && Fingerprint.Preimage(payload.identity, norm) == fp then 1 else 0
  {
    var r := HandledRow(m, payload, d, norm);
    StoredCounts(m, r, fp);
    InGroup(r, fp);
  }

  lemma SpooledAccepted(m: Ledger, payload: Run, d: Delivery, norm: string -> string)
    requires Spooled(payload) && d.assignedID !in m
    ensures Handled(m, payload, d, norm).1.None?
  {
    assert Validate(Api.Stamp(payload, d.now, d.assignedID, norm)) == Validate(payload);
  }

  ghost function FirstDelivered(m: Ledger, payload: Run, ds: seq<Delivery>, norm: string -> string): Ledger
    requires |ds| > 0
  {
    Handled(m, payload, ds[0], norm).0
  }

  lemma FreshAfterFirst(m: Ledger, n: Ledger, ds: seq<Delivery>)
    requires FreshIDs(m, ds) && |ds| > 0 && n.Keys == m.Keys + {ds[0].assignedID}
    ensures FreshIDs(n, ds[1..])
  {
  }

  /** Every delivery of a spooled record adds one to the count of its group. */
  lemma {:induction false} EachDeliveryCounts(m: Ledger, payload: Run, ds: seq<Delivery>, norm: string -> string)
    requires WellKeyed(m) && Spooled(payload) && FreshIDs(m, ds)
    ensures var fp := Fingerprint.Preimage(payload.identity, norm);
            CountOf(Resent(m, payload, ds, norm), fp) == CountOf(m, fp) + |ds|
    decreases |ds|
  {
    if |ds| == 0 {
    } else {
      var n := FirstDelivered(m, payload, ds, norm);
      SpooledAccepted(m, payload, ds[0], norm);
      SpreadApi.PreimageNotEmpty(payload.identity, norm);
      HandledCounts(m, payload, ds[0], Fingerprint.Preimage(payload.identity, norm), norm);
      FreshAfterFirst(m, n, ds);
      EachDeliveryCounts(n, payload, ds[1..], norm);
    }
  }

  // ----- Replays and the ledger they send to -----

  /** `delivered` are the lines the server accepted, in order. */
  datatype Joint = Joint(replay: Replay.World, ledger: Ledger, delivered: seq<string>)

  /** One event of a replay, and what the server would stamp a record sent by it with. */
  datatype JointEvent = JointEvent(event: Replay.Event, delivery: Delivery)

  /** The server accepted the record, whether or not the client heard of it. */
  predicate Delivers(e: Replay.Event) {
    e.Post? && (e.answer.Accepted? || e.answer.LostAnswer?)
  }

  function Line(w: Replay.World): string
    requires w.phase.Sending? && w.phase.done < |w.phase.lines|
  {
    w.phase.lines[w.phase.done]
  }

  /**
   A record that reaches the server is answered as the ledger does. Spooled
   records name no run, and assigned ids are new.
   */
  ghost predicate JointEnabled(j: Joint, e: JointEvent, parse: string -> Run, norm: string -> string) {
    && Replay.Enabled(j.replay, e.event)
    && (e.event.Post? ==>
          var payload := parse(Line(j.replay));
          && payload.runID == "" && e.delivery.assignedID !in j.ledger
          && (Delivers(e.event) ==> Handled(j.ledger, payload, e.delivery, norm).1.None?)
          && (e.event.answer.Refused? ==> Handled(j.ledger, payload, e.delivery, norm).1.Some?))
  }

  ghost function JointNext(j: Joint, e: JointEvent, parse: string -> Run, norm: string -> string): Joint
    requires JointEnabled(j, e, parse, norm)
  {
    var w := Replay.Next(j.replay, e.event);
    if Delivers(e.event) then
      var line := Line(j.replay);
      Joint(w, Handled(j.ledger, parse(line), e.delivery, norm).0, j.delivered + [line])
    else j.(replay := w)
  }

  ghost predicate JointExecution(j: Joint, es: seq<JointEvent>, end: Joint, parse: string -> Run,
                                 norm: string -> string)
    decreases |es|
  {
    if |es| == 0 then j == end
    else && JointEnabled(j, es[0], parse, norm)
         && JointExecution(JointNext(j, es[0], parse, norm), es[1..], end, parse, norm)
  }

  /** A delivered line whose run ends up counted in the group of `fp`. */
  ghost predicate LineCounts(line: string, fp: string, parse: string -> Run, norm: string -> string) {
    Terminal(parse(line).status) && Fingerprint.Preimage(parse(line).identity, norm) == fp
  }

  ghost function Deliveries(lines: seq<string>, fp: string, parse: string -> Run, norm: string -> string): nat {
    if |lines| == 0 then 0
    else Deliveries(lines[..|lines| - 1], fp, parse, norm)
         + if LineCounts(lines[|lines| - 1], fp, parse, norm) then 1 else 0
  }

  lemma OneMoreDelivery(lines: seq<string>, line: string, fp: string, parse: string -> Run, norm: string -> string)
    ensures Deliveries(lines + [line], fp, parse, norm)
         == Deliveries(lines, fp, parse, norm) + if LineCounts(line, fp, parse, norm) then 1 else 0
  {
    assert (lines + [line])[..|lines|] == lines;
  }

  /** The group of `fp` has grown by exactly the deliveries since, and each of them is among the accepted lines. */
  ghost predicate CountsDeliveries(j: Joint, end: Joint, fp: string, parse: string -> Run, norm: string -> string) {
    && WellKeyed(end.ledger)
    && CountOf(end.ledger, fp) + Deliveries(j.delivered, fp, parse, norm)
         == CountOf(j.ledger, fp) + Deliveries(end.delivered, fp, parse, norm)
    && end.replay.accepted + multiset(j.delivered) == j.replay.accepted + multiset(end.delivered)
  }

  lemma AcceptedOneMore<T>(accepted: multiset<T>, delivered: seq<T>, line: T)
    ensures accepted + multiset{line} + multiset(delivered) == accepted + multiset(delivered + [line])
  {
  }

  lemma JointStepCounts(j: Joint, e: JointEvent, fp: string, parse: string -> Run, norm: string -> string)
    requires WellKeyed(j.ledger) && fp != "" && JointEnabled(j, e, parse, norm)
    ensures CountsDeliveries(j, JointNext(j, e, parse, norm), fp, parse, norm)
  {
    if Delivers(e.event) {
      var line := Line(j.replay);
      HandledCounts(j.ledger, parse(line), e.delivery, fp, norm);
      OneMoreDelivery(j.delivered, line, fp, parse, norm);
      AcceptedOneMore(j.replay.accepted, j.delivered, line);
    }
  }

  lemma CountsTransitive(a: Joint, b: Joint, c: Joint, fp: string, parse: string -> Run, norm: string -> string)
    requires CountsDeliveries(a, b, fp, parse, norm) && CountsDeliveries(b, c, fp, parse, norm)
    ensures CountsDeliveries(a, c, fp, parse, norm)
  {
    Rebalance(a.replay.accepted, multiset(a.delivered), b.replay.accepted, multiset(b.delivered),
              c.replay.accepted, multiset(c.delivered));
  }

  lemma Rebalance<T>(x: multiset<T>, dx: multiset<T>, y: multiset<T>, dy: multiset<T>, z: multiset<T>, dz: multiset<T>)
    requires y + dx == x + dy && z + dy == y + dz
    ensures z + dx == x + dz
  {
    forall e: T ensures (z + dx)[e] == (x + dz)[e] {
      assert (y + dx)[e] == (x + dy)[e] && (z + dy)[e] == (y + dz)[e];
    }
  }

  /**
   Over any sequence of replays, crashes and appends, a group's count grows by
   exactly the deliveries of its finished records, those resent included.
   */
  lemma {:induction false} ReplaysCountDeliveries(j: Joint, es: seq<JointEvent>, end: Joint, fp: string,
                                                  parse: string -> Run, norm: string -> string)
    requires WellKeyed(j.ledger) && fp != "" && JointExecution(j, es, end, parse, norm)
    ensures CountsDeliveries(j, end, fp, parse, norm)
    decreases |es|
  {
    if |es| == 0 {
    } else {
      var n := JointNext(j, es[0], parse, norm);
      JointStepCounts(j, es[0], fp, parse, norm);
      ReplaysCountDeliveries(n, es[1..], end, fp, parse, norm);
      CountsTransitive(j, n, end, fp, parse, norm);
    }
  }

  /** The replay's side of a joint run is a run of the replay alone. */
  lemma {:induction false} JointIsReplay(j: Joint, es: seq<JointEvent>, end: Joint, parse: string -> Run,
                                         norm: string -> string)
    requires JointExecution(j, es, end, parse, norm)
    ensures Replay.Execution(j.replay, Events(es), end.replay)
    decreases |es|
  {
    if |es| == 0 {
    } else {
      JointIsReplay(JointNext(j, es[0], parse, norm), es[1..], end, parse, norm);
      assert Events(es)[1..] == Events(es[1..]);
    }
  }

  function Events(es: seq<JointEvent>): (out: seq<Replay.Event>)
    ensures |out| == |es| && forall i | 0 <= i < |es| :: out[i] == es[i].event
  {
    seq(|es|, i requires 0 <= i < |es| => es[i].event)
  }

  // ----- Crashing replays -----

  /** Replays that each get their first record accepted and crash before the rewrite. */
  function Crashes(ds: seq<Delivery>): seq<JointEvent> {
    if |ds| == 0 then []
    else [JointEvent(Replay.Begin, ds[0]), JointEvent(Replay.Post(Replay.Accepted), ds[0]),
          JointEvent(Replay.Crash, ds[0])] + Crashes(ds[1..])
  }

  function Copies(line: string, n: nat): seq<string> {
    seq(n, _ => line)
  }

  lemma CopiesMore(line: string, n: nat)
    requires n > 0
    ensures Copies(line, n) == [line] + Copies(line, n - 1)
    ensures multiset(Copies(line, n)) == multiset{line} + multiset(Copies(line, n - 1))
  {
    assert Copies(line, n) == [line] + Copies(line, n - 1);
  }

  /** The same line accepted once for each of `ds`, and still in the spool. */
  ghost function Crashed(j: Joint, ds: seq<Delivery>, parse: string -> Run, norm: string -> string): Joint
    requires |Replay.Records(j.replay.spool)| > 0
  {
    var line := Replay.Records(j.replay.spool)[0];
    var copies := Copies(line, |ds|);
    Joint(j.replay.(accepted := j.replay.accepted + multiset(copies)),
          Resent(j.ledger, parse(line), ds, norm), j.delivered + copies)
  }

  /** A joint state from which a replay may start, with a finished record first in the spool. */
  ghost predicate ReadyToReplay(j: Joint, parse: string -> Run) {
    && j.replay.phase.Idle?
    && |Replay.Records(j.replay.spool)| > 0
    && Spooled(parse(Replay.Records(j.replay.spool)[0]))
    && WellKeyed(j.ledger)
  }

  /** The joint state while the first record is being sent, and once it was accepted. */
  ghost function Begun(j: Joint): Joint {
    j.(replay := j.replay.(phase := Replay.Sending(j.replay.spool, Replay.Records(j.replay.spool), 0, [])))
  }

  lemma BeginStep(j: Joint, d: Delivery, parse: string -> Run, norm: string -> string)
    requires ReadyToReplay(j, parse)
    ensures JointEnabled(j, JointEvent(Replay.Begin, d), parse, norm)
    ensures JointNext(j, JointEvent(Replay.Begin, d), parse, norm) == Begun(j)
  {
  }

  ghost function Reached(j: Joint, d: Delivery, parse: string -> Run, norm: string -> string): Joint
    requires |Replay.Records(j.replay.spool)| > 0
  {
    var lines := Replay.Records(j.replay.spool);
    Joint(j.replay.(phase := Replay.Sending(j.replay.spool, lines, 1, []),
                    accepted := j.replay.accepted + multiset{lines[0]}),
          Handled(j.ledger, parse(lines[0]), d, norm).0, j.delivered + [lines[0]])
  }

  lemma PostStep(j: Joint, d: Delivery, parse: string -> Run, norm: string -> string)
    requires ReadyToReplay(j, parse) && d.assignedID !in j.ledger
    ensures JointEnabled(Begun(j), JointEvent(Replay.Post(Replay.Accepted), d), parse, norm)
    ensures JointNext(Begun(j), JointEvent(Replay.Post(Replay.Accepted), d), parse, norm) == Reached(j, d, parse, norm)
  {
    var line := Replay.Records(j.replay.spool)[0];
    assert Line(Begun(j).replay) == line;
    SpooledAccepted(j.ledger, parse(line), d, norm);
  }

  lemma CrashStep(j: Joint, d: Delivery, parse: string -> Run, norm: string -> string)
    requires ReadyToReplay(j, parse)
    ensures JointEnabled(Reached(j, d, parse, norm), JointEvent(Replay.Crash, d), parse, norm)
    ensures JointNext(Reached(j, d, parse, norm), JointEvent(Replay.Crash, d), parse, norm)
         == Crashed(j, [d], parse, norm)
  {
    CrashedOnce(j, d, parse, norm);
  }

  lemma ThreeSteps(j: Joint, a: JointEvent, b: JointEvent, c: JointEvent, rest: seq<JointEvent>, end: Joint,
                   parse: string -> Run, norm: string -> string)
    requires JointEnabled(j, a, parse, norm)
    requires JointEnabled(JointNext(j, a, parse, norm), b, parse, norm)
    requires JointEnabled(JointNext(JointNext(j, a, parse, norm), b, parse, norm), c, parse, norm)
    requires var n := JointNext(JointNext(JointNext(j, a, parse, norm), b, parse, norm), c, parse, norm);
             JointExecution(n, rest, end, parse, norm)
    ensures JointExecution(j, [a, b, c] + rest, end, parse, norm)
  {
    var n := JointNext(j, a, parse, norm);
    StepFirst(JointNext(n, b, parse, norm), c, rest, end, parse, norm);
    StepFirst(n, b, [c] + rest, end, parse, norm);
    StepFirst(j, a, [b] + ([c] + rest), end, parse, norm);
    assert [a] + ([b] + ([c] + rest)) == [a, b, c] + rest;
  }

  lemma StepFirst(j: Joint, a: JointEvent, rest: seq<JointEvent>, end: Joint, parse: string -> Run,
                  norm: string -> string)
    requires JointEnabled(j, a, parse, norm) && JointExecution(JointNext(j, a, parse, norm), rest, end, parse, norm)
    ensures JointExecution(j, [a] + rest, end, parse, norm)
  {
    assert ([a] + rest)[1..] == rest;
  }

  lemma OneCrash(j: Joint, d: Delivery, rest: seq<JointEvent>, end: Joint, parse: string -> Run,
                 norm: string -> string)
    requires ReadyToReplay(j, parse) && d.assignedID !in j.ledger
    requires JointExecution(Crashed(j, [d], parse, norm), rest, end, parse, norm)
    ensures JointExecution(j, [JointEvent(Replay.Begin, d), JointEvent(Replay.Post(Replay.Accepted), d),
                               JointEvent(Replay.Crash, d)] + rest, end, parse, norm)
  {
    BeginStep(j, d, parse, norm);
    PostStep(j, d, parse, norm);
    CrashStep(j, d, parse, norm);
    ThreeSteps(j, JointEvent(Replay.Begin, d), JointEvent(Replay.Post(Replay.Accepted), d),
               JointEvent(Replay.Crash, d), rest, end, parse, norm);
  }

  lemma CrashedOnce(j: Joint, d: Delivery, parse: string -> Run, norm: string -> string)
    requires |Replay.Records(j.replay.spool)| > 0
    ensures var line := Replay.Records(j.replay.spool)[0];
            Crashed(j, [d], parse, norm) ==
            Joint(j.replay.(accepted := j.replay.accepted + multiset{line}),
                  Handled(j.ledger, parse(line), d, norm).0, j.delivered + [line])
  {
    var line := Replay.Records(j.replay.spool)[0];
    assert Copies(line, 1) == [line];
    var m := Handled(j.ledger, parse(line), d, norm).0;
    assert [d][1..] == [];
    assert Resent(j.ledger, parse(line), [d], norm) == Resent(m, parse(line), [], norm);
  }

  lemma Associate<T>(accepted: multiset<T>, delivered: seq<T>, x: T, more: seq<T>)
    ensures accepted + (multiset{x} + multiset(more)) == accepted + multiset{x} + multiset(more)
    ensures delivered + ([x] + more) == delivered + [x] + more
  {
  }

  lemma CrashedMore(j: Joint, ds: seq<Delivery>, parse: string -> Run, norm: string -> string)
    requires |Replay.Records(j.replay.spool)| > 0 && |ds| > 0
    ensures Crashed(j, ds, parse, norm) == Crashed(Crashed(j, [ds[0]], parse, norm), ds[1..], parse, norm)
  {
    var line := Replay.Records(j.replay.spool)[0];
    CrashedOnce(j, ds[0], parse, norm);
    CopiesMore(line, |ds|);
    Associate(j.replay.accepted, j.delivered, line, Copies(line, |ds| - 1));
  }

  lemma CrashedReady(j: Joint, ds: seq<Delivery>, parse: string -> Run, norm: string -> string)
    requires ReadyToReplay(j, parse) && FreshIDs(j.ledger, ds) && |ds| > 0
    ensures ReadyToReplay(Crashed(j, [ds[0]], parse, norm), parse)
    ensures FreshIDs(Crashed(j, [ds[0]], parse, norm).ledger, ds[1..])
  {
    var line := Replay.Records(j.replay.spool)[0];
    CrashedOnce(j, ds[0], parse, norm);
    SpooledAccepted(j.ledger, parse(line), ds[0], norm);
    var row := HandledRow(j.ledger, parse(line), ds[0], norm);
    FreshAfterFirst(j.ledger, Crashed(j, [ds[0]], parse, norm).ledger, ds);
  }

  /** Any number of replays can crash so: the record is delivered each time and stays in the spool. */
  lemma {:induction false} CrashesResend(j: Joint, ds: seq<Delivery>, parse: string -> Run, norm: string -> string)
    requires ReadyToReplay(j, parse) && FreshIDs(j.ledger, ds)
    ensures JointExecution(j, Crashes(ds), Crashed(j, ds, parse, norm), parse, norm)
    decreases |ds|
  {
    if |ds| == 0 {
      assert Copies(Replay.Records(j.replay.spool)[0], 0) == [];
      assert j.replay.accepted + multiset{} == j.replay.accepted && j.delivered + [] == j.delivered;
    } else {
      CrashedReady(j, ds, parse, norm);
      CrashesResend(Crashed(j, [ds[0]], parse, norm), ds[1..], parse, norm);
      CrashedMore(j, ds, parse, norm);
      OneCrash(j, ds[0], Crashes(ds[1..]), Crashed(j, ds, parse, norm), parse, norm);
    }
  }

  /** What a recording client leaves in its spool names no run. */
  lemma SpoolLineNamesNoRun(w: WriteClient.World)
    requires WriteClient.Inv(w) && |w.spool| > 0
    requires w.client.base.startedAt.ns != Api.ZERO_TIME && Lineage.Valid(w.spool[0])
    ensures Spooled(w.spool[0])
  {
  }

  /**
   A client's spooled record, sent by `|ds|` replays that crash before their
   rewrite, is stored `|ds|` times and counted `|ds|` times in the group of its
   experiment. `parse` reads a spool line.
   */
  lemma CrashedReplaysCountAgain(client: WriteClient.World, j: Joint, ds: seq<Delivery>, parse: string -> Run,
                                 norm: string -> string)
    requires WriteClient.Inv(client) && |client.spool| > 0
    requires client.client.base.startedAt.ns != Api.ZERO_TIME && Lineage.Valid(client.spool[0])
    requires j.replay.phase.Idle? && |Replay.Records(j.replay.spool)| > 0
    requires parse(Replay.Records(j.replay.spool)[0]) == client.spool[0]
    requires WellKeyed(j.ledger) && FreshIDs(j.ledger, ds)
    ensures var end := Crashed(j, ds, parse, norm);
            var fp := Fingerprint.Preimage(client.spool[0].identity, norm);
            && JointExecution(j, Crashes(ds), end, parse, norm)
            && end.replay.spool == j.replay.spool
            && CountOf(end.ledger, fp) == CountOf(j.ledger, fp) + |ds|
  {
    SpoolLineNamesNoRun(client);
    CrashesResend(j, ds, parse, norm);
    EachDeliveryCounts(j.ledger, client.spool[0], ds, norm);
  }
}
