/** Partial updates: which are refused, and what an accepted one does to a run. */
module Patching {
  import opened Wrappers
  import opened Lineage

  datatype Error =
    | NotFound
    | Conflict
    | IdentityConflict
    | IllegalTransition
    | UnknownStatus
    | Invalid(flaw: Flaw)
    | ConstraintViolated

  /** `None` leaves a field alone. The first eight fields are checked, never written. */
  datatype Patch = Patch(
    project: Option<string>,
    gitCommit: Option<string>,
    gitDirty: Option<bool>,
    configHash: Option<string>,
    datasetVersion: Option<string>,
    modelVersion: Option<string>,
    seed: Option<int>,
    params: Option<map<string, string>>,
    status: Option<Status>,
    endedAt: Option<Instant>,
    checkpointURI: Option<string>,
    host: Option<string>,
    device: Option<string>,
    frameworkVersion: Option<string>,
    submitterClaim: Option<string>,
    jobID: Option<string>,
    metrics: Option<map<string, real>>)

  const NO_CHANGE := Patch(None, None, None, None, None, None, None, None,
                           None, None, None, None, None, None, None, None, None)

  predicate Legal(from: Status, to: Status) {
    (from == Created && to == Running) || (from == Running && Terminal(to))
  }

  /** Compares as the store does: a key missing from `b` reads as "". */
  predicate ParamsEqual(a: map<string, string>, b: map<string, string>) {
    |a| == |b| && forall k | k in a :: a[k] == if k in b then b[k] else ""
  }

  predicate Agrees<T(==)>(asked: Option<T>, stored: T) {
    asked.Some? ==> asked.value == stored
  }

  predicate IdentityUnchanged(id: Identity, p: Patch) {
    && Agrees(p.project, id.project)
    && Agrees(p.gitCommit, id.gitCommit)
    && Agrees(p.gitDirty, id.gitDirty)
    && Agrees(p.configHash, id.configHash)
    && Agrees(p.datasetVersion, id.datasetVersion)
    && Agrees(p.modelVersion, id.modelVersion)
    && Agrees(p.seed, id.seed)
    && (p.params.Some? ==> ParamsEqual(p.params.value, ParamsOf(id)))
  }

  predicate NoopPatch(r: Run, p: Patch) {
    && Agrees(p.status, r.status)
    && (p.endedAt.Some? ==> r.endedAt.Some? && r.endedAt.value.ns == p.endedAt.value.ns)
    && Agrees(p.checkpointURI, r.provenance.checkpointURI)
    && Agrees(p.host, r.provenance.host)
    && Agrees(p.device, r.provenance.device)
    && Agrees(p.frameworkVersion, r.provenance.frameworkVersion)
    && Agrees(p.submitterClaim, r.provenance.submitterClaim)
    && Agrees(p.jobID, r.provenance.jobID)
    && forall k | k in p.metrics.GetOr(map[]) :: k in MetricsOf(r) && MetricsOf(r)[k] == p.metrics.value[k]
  }

  function Patched(was: Provenance, p: Patch): Provenance {
    Provenance(
      p.host.GetOr(was.host),
      p.device.GetOr(was.device),
      p.frameworkVersion.GetOr(was.frameworkVersion),
      p.submitterClaim.GetOr(was.submitterClaim),
      p.jobID.GetOr(was.jobID),
      p.checkpointURI.GetOr(was.checkpointURI))
  }

  /** The result of applying `p` to `r` at instant `now`. */
  function ApplyPatch(r: Run, p: Patch, now: int): Result<Run, Error> {
    if !IdentityUnchanged(r.identity, p) then Err(IdentityConflict)
    else if p.status.Some? && !ValidStatus(p.status.value) then Err(UnknownStatus)
    else if Terminal(r.status) then
      if NoopPatch(r, p) then Ok(r) else Err(IllegalTransition)
    else if p.status.Some? && p.status.value != r.status && !Legal(r.status, p.status.value) then Err(IllegalTransition)
    else
      var status := p.status.GetOr(r.status);
      var ended := if p.endedAt.Some? then p.endedAt else r.endedAt;
      var updated := r.(
        status := status,
        endedAt := if Terminal(status) && ended.None? then Some(Instant(now, UTC)) else ended,
        provenance := Patched(r.provenance, p),
        metrics := if p.metrics.Some? then Some(MetricsOf(r) + p.metrics.value) else r.metrics);
      match Validate(updated)
      case Some(flaw) => Err(Invalid(flaw))
      case None => Ok(updated)
  }

  method MergeMetrics(was: map<string, real>, delta: map<string, real>) returns (merged: map<string, real>)
    ensures merged == was + delta
  {
    merged := map[];
    var left := was.Keys;
    while left != {}
      invariant left <= was.Keys
      invariant merged == map k | k in was && k !in left :: was[k]
      decreases left
    {
      var k :| k in left;
      merged, left := merged[k := was[k]], left - {k};
    }
    assert merged == was;
    left := delta.Keys;
    while left != {}
      invariant left <= delta.Keys
      invariant merged == was + map k | k in delta && k !in left :: delta[k]
      decreases left
    {
      var k :| k in left;
      merged, left := merged[k := delta[k]], left - {k};
    }
  }

  /** `applyPatch` as it runs: a local copy changed field by field. */
  method Apply(existing: Run, p: Patch, now: int) returns (res: Result<Run, Error>)
    ensures res == ApplyPatch(existing, p, now)
  {
    if !IdentityUnchanged(existing.identity, p) {
      return Err(IdentityConflict);
    }
    if p.status.Some? && !ValidStatus(p.status.value) {
      return Err(UnknownStatus);
    }
    if Terminal(existing.status) {
      if NoopPatch(existing, p) {
        return Ok(existing);
      }
      return Err(IllegalTransition);
    }
    var updated := existing;
    if p.status.Some? && p.status.value != existing.status {
      if !Legal(existing.status, p.status.value) {
        return Err(IllegalTransition);
      }
      updated := updated.(status := p.status.value);
    }
    if p.endedAt.Some? {
      updated := updated.(endedAt := p.endedAt);
    }
    if Terminal(updated.status) && updated.endedAt.None? {
      updated := updated.(endedAt := Some(Instant(now, UTC)));
    }
    updated := updated.(provenance := Patched(updated.provenance, p));
    if p.metrics.Some? {
      var merged := MergeMetrics(MetricsOf(updated), p.metrics.value);
      updated := updated.(metrics := Some(merged));
    }
    var flaw := Validate(updated);
    if flaw.Some? {
      return Err(Invalid(flaw.value));
    }
    return Ok(updated);
  }

  // ----- What every accepted patch keeps -----

  predicate StatusReaches(from: Status, to: Status) {
    from == to || Legal(from, to) || (from == Created && Terminal(to))
  }

  /** How a stored run may differ from any earlier version of itself. */
  ghost predicate Evolves(a: Run, b: Run) {
    && b.runID == a.runID
    && b.identity == a.identity
    && b.fingerprint == a.fingerprint
    && b.fingerprintVersion == a.fingerprintVersion
    && b.startedAt == a.startedAt
    && b.capture == a.capture
    && StatusReaches(a.status, b.status)
    && MetricsOf(a).Keys <= MetricsOf(b).Keys
    && (Terminal(a.status) ==> b == a)
    && (!Terminal(a.status) && Terminal(b.status) ==> b.endedAt.Some? && a.startedAt.ns <= b.endedAt.value.ns)
  }

  lemma EvolvesTransitive(a: Run, b: Run, c: Run)
    requires Evolves(a, b) && Evolves(b, c)
    ensures Evolves(a, c)
  {
  }

  lemma ApplyEvolves(r: Run, p: Patch, now: int)
    requires ApplyPatch(r, p, now).Ok?
    ensures Evolves(r, ApplyPatch(r, p, now).value)
    ensures var u := ApplyPatch(r, p, now).value; u.status == r.status || Legal(r.status, u.status)
    ensures Valid(r) ==> Valid(ApplyPatch(r, p, now).value)
  {
  }

  /** A patch that names nothing changes nothing. */
  lemma EmptyPatchIsNoop(r: Run, now: int)
    requires Valid(r)
    ensures ApplyPatch(r, NO_CHANGE, now) == Ok(r)
  {
  }

  /** Reported metrics overwrite key by key; the others keep their values. */
  lemma MetricsMerged(r: Run, p: Patch, now: int, k: string)
    requires ApplyPatch(r, p, now).Ok?
    ensures var m, n, d := MetricsOf(r), MetricsOf(ApplyPatch(r, p, now).value), p.metrics.GetOr(map[]);
            && (k in n <==> k in m || k in d)
            && (k in d ==> n[k] == d[k])
            && (k in m && k !in d ==> n[k] == m[k])
  {
  }

  lemma FinishedIsNoop(r: Run, p: Patch, now: int)
    requires ApplyPatch(r, p, now).Ok? && !Terminal(r.status) && Terminal(ApplyPatch(r, p, now).value.status)
    ensures NoopPatch(ApplyPatch(r, p, now).value, p)
  {
  }

  /** Every accepted patch can be applied again, at any later time, with no further effect. */
  lemma ApplyIdempotent(r: Run, p: Patch, now: int, later: int)
    requires ApplyPatch(r, p, now).Ok?
    ensures ApplyPatch(ApplyPatch(r, p, now).value, p, later) == ApplyPatch(r, p, now)
  {
    var u := ApplyPatch(r, p, now).value;
    if !Terminal(r.status) {
      if Terminal(u.status) {
        FinishedIsNoop(r, p, now);
      } else if p.metrics.Some? {
        var merged := MetricsOf(r) + p.metrics.value;
        assert merged + p.metrics.value == merged;
      }
    }
  }

  // ----- The parameter check, exactly -----

  lemma {:induction false} KeyOutside(ks: set<string>) returns (unused: string)
    ensures unused !in ks
    ensures forall k | k in ks :: |k| < |unused|
  {
    if ks == {} {
      unused := "x";
    } else {
      var k :| k in ks;
      var longer := KeyOutside(ks - {k});
      unused := longer + k + "x";
    }
  }

  /**
   The comparison means map equality for every stored map exactly when the
   patch sends no empty value.
   */
  lemma ParamsEqualExact(a: map<string, string>)
    ensures (forall b: map<string, string> :: ParamsEqual(a, b) ==> a == b) <==> forall k | k in a :: a[k] != ""
  {
    if forall k | k in a :: a[k] != "" {
      forall b: map<string, string> | ParamsEqual(a, b) ensures a == b {
        assert a.Keys <= b.Keys;
        SameSizeSubset(a.Keys, b.Keys);
      }
    } else {
      var k :| k in a && a[k] == "";
      var unused := KeyOutside(a.Keys);
      var b := (a - {k})[unused := "1"];
      assert b.Keys == a.Keys - {k} + {unused};
      assert |b.Keys| == |a.Keys|;
      assert ParamsEqual(a, b);
      assert unused in b && unused !in a;
    }
  }

  /** A patch that sets a param the run lacks to "" is no identity conflict, on a run with one other param. */
  lemma EmptyParamPasses(r: Run, key: string, other: string, value: string, now: int)
    requires Valid(r) && r.identity.params == Some(map[other := value]) && key != other
    ensures var p := NO_CHANGE.(params := Some(map[key := ""]));
            p.params != r.identity.params && ApplyPatch(r, p, now) == Ok(r)
  {
    var p := NO_CHANGE.(params := Some(map[key := ""]));
    assert key in p.params.value && key !in r.identity.params.value;
    EmptyPatchIsNoop(r, now);
  }

  lemma {:induction false} SameSizeSubset<T>(a: set<T>, b: set<T>)
    requires a <= b && |a| == |b|
    ensures a == b
  {
    if x :| x in b && x !in a {
      assert a <= b - {x};
      SubsetSize(a, b - {x});
    }
  }

  lemma {:induction false} SubsetSize<T>(a: set<T>, b: set<T>)
    requires a <= b
    ensures |a| <= |b|
  {
    if a == {} {
    } else {
      var x :| x in a;
      SubsetSize(a - {x}, b - {x});
    }
  }
}
