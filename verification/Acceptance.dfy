/** Exactly which updates are accepted, which error refuses the others, and what an accepted one writes. */
module Acceptance {
  import opened Wrappers
  import opened Lineage
  import opened Patching
  import opened Listing
  import opened MemoryStore

  /** Every identity field the patch names is the stored one; a param missing from the run reads as "". */
  ghost predicate NamesIdentity(p: Patch, id: Identity) {
    && (p.project.Some? ==> p.project.value == id.project)
    && (p.gitCommit.Some? ==> p.gitCommit.value == id.gitCommit)
    && (p.gitDirty.Some? ==> p.gitDirty.value == id.gitDirty)
    && (p.configHash.Some? ==> p.configHash.value == id.configHash)
    && (p.datasetVersion.Some? ==> p.datasetVersion.value == id.datasetVersion)
    && (p.modelVersion.Some? ==> p.modelVersion.value == id.modelVersion)
    && (p.seed.Some? ==> p.seed.value == id.seed)
    && (p.params.Some? ==>
          && |p.params.value| == |ParamsOf(id)|
          && forall k | k in p.params.value ::
               if k in ParamsOf(id) then p.params.value[k] == ParamsOf(id)[k] else p.params.value[k] == "")
  }

  /** The status asked for is none, the stored one, or a step forward. */
  ghost predicate MovesForward(from: Status, asked: Option<Status>) {
    || asked.None?
    || (from == Created && asked.value in {Created, Running})
    || (from == Running && asked.value in {Running, Succeeded, Failed, Cancelled})
  }

  /** The end the run would have: the patch's, else its own, else the clock's once it is over. */
  ghost function EndAfter(r: Run, p: Patch, now: int): Option<Instant> {
    if p.endedAt.Some? then p.endedAt
    else if r.endedAt.Some? then r.endedAt
    else if p.status.Some? && p.status.value in {Succeeded, Failed, Cancelled} then Some(Instant(now, UTC))
    else None
  }

  ghost predicate EndsInOrder(r: Run, end: Option<Instant>) {
    end.Some? ==> r.startedAt.ns <= end.value.ns
  }

  ghost predicate Finished(r: Run) {
    r.status in {Succeeded, Failed, Cancelled}
  }

  /** Why a patch of an unfinished run is refused, if it is. */
  lemma OpenRunAccepts(r: Run, p: Patch, now: int)
    requires Valid(r) && !Finished(r)
    ensures var res := ApplyPatch(r, p, now);
            && (res.Ok? <==> NamesIdentity(p, r.identity) && MovesForward(r.status, p.status)
                             && EndsInOrder(r, EndAfter(r, p, now)))
            && (res == Err(IdentityConflict) <==> !NamesIdentity(p, r.identity))
            && (res == Err(UnknownStatus) <==>
                  NamesIdentity(p, r.identity)
                  && p.status.Some? && p.status.value !in {Created, Running, Succeeded, Failed, Cancelled})
            && (res == Err(IllegalTransition) <==>
                  NamesIdentity(p, r.identity) && !MovesForward(r.status, p.status)
                  && p.status.value in {Created, Running, Succeeded, Failed, Cancelled})
            && (res == Err(Invalid(EndsBeforeStart)) <==>
                  NamesIdentity(p, r.identity) && MovesForward(r.status, p.status)
                  && !EndsInOrder(r, EndAfter(r, p, now)))
  {
  }

  /** Each value is the one the patch names, or the old one. */
  ghost predicate Overrides(u: Provenance, p: Patch, was: Provenance) {
    && u.host == (if p.host.Some? then p.host.value else was.host)
    && u.device == (if p.device.Some? then p.device.value else was.device)
    && u.frameworkVersion == (if p.frameworkVersion.Some? then p.frameworkVersion.value else was.frameworkVersion)
    && u.submitterClaim == (if p.submitterClaim.Some? then p.submitterClaim.value else was.submitterClaim)
    && u.jobID == (if p.jobID.Some? then p.jobID.value else was.jobID)
    && u.checkpointURI == (if p.checkpointURI.Some? then p.checkpointURI.value else was.checkpointURI)
  }

  lemma PatchedOverrides(was: Provenance, p: Patch)
    ensures Overrides(Patched(was, p), p, was)
  {
  }

  /** What an accepted update of an unfinished run writes, and what it leaves alone. */
  lemma OpenRunBecomes(r: Run, p: Patch, now: int)
    requires !Finished(r) && ApplyPatch(r, p, now).Ok?
    ensures var u := ApplyPatch(r, p, now).value;
            && u == r.(status := u.status, endedAt := u.endedAt, provenance := u.provenance, metrics := u.metrics)
            && u.status == (if p.status.Some? then p.status.value else r.status)
            && Overrides(u.provenance, p, r.provenance)
            && u.metrics == (if p.metrics.Some? then Some(MetricsOf(u)) else r.metrics)
  {
    var u := ApplyPatch(r, p, now).value;
    PatchedOverrides(r.provenance, p);
    assert u.provenance == Patched(r.provenance, p);
  }

  lemma OpenRunEnds(r: Run, p: Patch, now: int)
    requires !Finished(r) && ApplyPatch(r, p, now).Ok?
    ensures ApplyPatch(r, p, now).value.endedAt == EndAfter(r, p, now)
  {
  }

  /** Every field the patch names already has that value. */
  ghost predicate NamesOutcome(p: Patch, r: Run) {
    && (p.status.Some? ==> p.status.value == r.status)
    && (p.endedAt.Some? ==> r.endedAt.Some? && r.endedAt.value.ns == p.endedAt.value.ns)
    && (p.host.Some? ==> p.host.value == r.provenance.host)
    && (p.device.Some? ==> p.device.value == r.provenance.device)
    && (p.frameworkVersion.Some? ==> p.frameworkVersion.value == r.provenance.frameworkVersion)
    && (p.submitterClaim.Some? ==> p.submitterClaim.value == r.provenance.submitterClaim)
    && (p.jobID.Some? ==> p.jobID.value == r.provenance.jobID)
    && (p.checkpointURI.Some? ==> p.checkpointURI.value == r.provenance.checkpointURI)
    && (p.metrics.Some? ==>
          forall k | k in p.metrics.value :: k in MetricsOf(r) && MetricsOf(r)[k] == p.metrics.value[k])
  }

  /** A finished run accepts exactly what it already says, and stays as it is. */
  lemma FinishedRunAccepts(r: Run, p: Patch, now: int)
    requires Finished(r)
    ensures var res := ApplyPatch(r, p, now);
            && (res.Ok? <==> NamesIdentity(p, r.identity) && NamesOutcome(p, r))
            && (res.Ok? ==> res.value == r)
            && (res == Err(IdentityConflict) <==> !NamesIdentity(p, r.identity))
            && (res == Err(UnknownStatus) <==>
                  NamesIdentity(p, r.identity)
                  && p.status.Some? && p.status.value !in {Created, Running, Succeeded, Failed, Cancelled})
            && (res == Err(IllegalTransition) <==>
                  NamesIdentity(p, r.identity) && !NamesOutcome(p, r)
                  && (p.status.Some? ==> p.status.value in {Created, Running, Succeeded, Failed, Cancelled}))
  {
  }

  /** An update is answered with what is stored from then on, and touches no other run. */
  lemma UpdateIsStored(m: Ledger, id: string, p: Patch, now: int)
    ensures var (n, res) := Updated(m, id, p, now);
            && (res == Err(NotFound) <==> id !in m)
            && (res.Err? ==> n == m)
            && (res.Ok? ==> id in n && n[id] == res.value && n.Keys == m.Keys)
            && (forall k | k in m && k != id :: k in n && n[k] == m[k])
            && (id in m && res.Err? ==> ApplyPatch(m[id], p, now) == res)
  {
  }

  /** Every outcome is within reach: a created run can be started and then ended by either of the three. */
  lemma EveryOutcomeReached(m: Ledger, id: string, outcome: Status, now: int, later: int)
    requires Sound(m) && id in m && m[id].status == Created && outcome in {Succeeded, Failed, Cancelled}
    ensures var start := UpdateRun(id, NO_CHANGE.(status := Some(Running)), now);
            var finish := UpdateRun(id, NO_CHANGE.(status := Some(outcome), endedAt := Some(m[id].startedAt)), later);
            var n := After(m, [start, finish]);
            id in n && n[id] == m[id].(status := outcome, endedAt := Some(m[id].startedAt))
  {
    var r := m[id];
    var start := UpdateRun(id, NO_CHANGE.(status := Some(Running)), now);
    var finish := UpdateRun(id, NO_CHANGE.(status := Some(outcome), endedAt := Some(r.startedAt)), later);
    var running := r.(status := Running);
    assert ApplyPatch(r, start.patch, now) == Ok(running);
    assert ApplyPatch(running, finish.patch, later) == Ok(running.(status := outcome, endedAt := Some(r.startedAt)));
    assert [start, finish][1..] == [finish] && [finish][1..] == [];
    assert After(m, [start, finish]) == After(m[id := running], [finish]) == After(Step(m[id := running], finish), []);
  }
}
