/** The structured difference of two runs, and what it does and does not cover. */
module Compare {
  import opened Wrappers
  import opened Lineage
  import opened Sequences
  import Fingerprint
  import Ordering
  import Text

  datatype Kind = Identifying | Circumstance | Metric

  /** Parameters and metrics are named by their key ("params.lr", "metrics.loss"). */
  datatype Name =
    | Project | GitCommit | GitDirty | ConfigHash | DatasetVersion | ModelVersion | Seed
    | Param(key: string)
    | Host | Device | FrameworkVersion | SubmitterClaim | JobID | RunStatus | CheckpointURI
    | CaptureClientName | CaptureAttemptedNames
    | Measured(key: string)

  /** `None` is a field the run did not record. */
  datatype Field = Field(name: Name, kind: Kind, a: Option<string>, b: Option<string>)

  datatype Diff = Diff(
    a: string,
    b: string,
    sameExperiment: bool,
    fields: seq<Field>,
    unattributable: bool)

  /** An empty text and an unrecorded one are the same claim. */
  function Recorded(s: string): Option<string> {
    if s == "" then None else Some(s)
  }

  function Lookup<V>(m: map<string, V>, k: string, show: V -> string): Option<string> {
    if k in m then Some(show(m[k])) else None
  }

  function StatusText(s: Status): string {
    match s
    case Unset => ""
    case Created => "created"
    case Running => "running"
    case Succeeded => "succeeded"
    case Failed => "failed"
    case Cancelled => "cancelled"
    case Other(name) => name
  }

  function Join(parts: seq<string>): string {
    if |parts| == 0 then ""
    else if |parts| == 1 then parts[0]
    else parts[0] + "," + Join(parts[1..])
  }

  function CaptureClient(c: Option<Capture>): string {
    if c.None? then "" else c.value.client
  }

  function CaptureAttempted(c: Option<Capture>): string {
    Join(Ordering.Sort(AttemptedOf(c), Ordering.TextKey))
  }

  // ----- What is compared, in order -----

  function ScalarPairs(a: Identity, b: Identity): seq<Field> {
    [Field(Project, Identifying, Some(a.project), Some(b.project)),
     Field(GitCommit, Identifying, Some(a.gitCommit), Some(b.gitCommit)),
     Field(GitDirty, Identifying, Some(Fingerprint.BoolText(a.gitDirty)), Some(Fingerprint.BoolText(b.gitDirty))),
     Field(ConfigHash, Identifying, Recorded(a.configHash), Recorded(b.configHash)),
     Field(DatasetVersion, Identifying, Recorded(a.datasetVersion), Recorded(b.datasetVersion)),
     Field(ModelVersion, Identifying, Recorded(a.modelVersion), Recorded(b.modelVersion)),
     Field(Seed, Identifying, Some(Text.OfInt(a.seed)), Some(Text.OfInt(b.seed)))]
  }

  /** Where a run ran, and on whose behalf. */
  function OriginPairs(p: Provenance, q: Provenance): seq<Field> {
    [Field(Host, Circumstance, Recorded(p.host), Recorded(q.host)),
     Field(Device, Circumstance, Recorded(p.device), Recorded(q.device)),
     Field(FrameworkVersion, Circumstance, Recorded(p.frameworkVersion), Recorded(q.frameworkVersion)),
     Field(SubmitterClaim, Circumstance, Recorded(p.submitterClaim), Recorded(q.submitterClaim)),
     Field(JobID, Circumstance, Recorded(p.jobID), Recorded(q.jobID))]
  }

  /** What became of it, and what its client declared. */
  function OutcomePairs(a: Run, b: Run): seq<Field> {
    [Field(RunStatus, Circumstance, Recorded(StatusText(a.status)), Recorded(StatusText(b.status))),
     Field(CheckpointURI, Circumstance, Recorded(a.provenance.checkpointURI), Recorded(b.provenance.checkpointURI)),
     Field(CaptureClientName, Circumstance, Recorded(CaptureClient(a.capture)), Recorded(CaptureClient(b.capture))),
     Field(CaptureAttemptedNames, Circumstance,
           Recorded(CaptureAttempted(a.capture)), Recorded(CaptureAttempted(b.capture)))]
  }

  function ProvenancePairs(a: Run, b: Run): seq<Field> {
    OriginPairs(a.provenance, b.provenance) + OutcomePairs(a, b)
  }

  function Same(s: string): string {
    s
  }

  /** Names of the given keys' fields: parameters identify, metrics measure. */
  function NameOf(kind: Kind, k: string): Name {
    if kind == Metric then Measured(k) else Param(k)
  }

  function KeyedPair<V>(kind: Kind, a: map<string, V>, b: map<string, V>, show: V -> string, k: string): Field {
    Field(NameOf(kind, k), kind, Lookup(a, k, show), Lookup(b, k, show))
  }

  function KeyedPairs<V>(kind: Kind, a: map<string, V>, b: map<string, V>, show: V -> string,
                         keys: seq<string>): (fs: seq<Field>)
    ensures |fs| == |keys|
    ensures forall i | 0 <= i < |keys| :: fs[i] == KeyedPair(kind, a, b, show, keys[i])
  {
    seq(|keys|, i requires 0 <= i < |keys| => KeyedPair(kind, a, b, show, keys[i]))
  }

  ghost function UnionPairs<V>(kind: Kind, a: map<string, V>, b: map<string, V>, show: V -> string): seq<Field> {
    KeyedPairs(kind, a, b, show, Ordering.SortedSet(a.Keys + b.Keys))
  }

  ghost function ParamPairs(a: Identity, b: Identity): seq<Field> {
    UnionPairs(Identifying, ParamsOf(a), ParamsOf(b), Same)
  }

  ghost function MetricPairs(a: Run, b: Run, show: real -> string): seq<Field> {
    UnionPairs(Metric, MetricsOf(a), MetricsOf(b), show)
  }

  ghost function Compared(a: Run, b: Run, show: real -> string): seq<Field> {
    ScalarPairs(a.identity, b.identity)
    + (ParamPairs(a.identity, b.identity) + (ProvenancePairs(a, b) + MetricPairs(a, b, show)))
  }

  function Differing(fs: seq<Field>): seq<Field> {
    if |fs| == 0 then []
    else Differing(fs[..|fs| - 1]) + if fs[|fs| - 1].a == fs[|fs| - 1].b then [] else [fs[|fs| - 1]]
  }

  /** The stored fingerprint decides when both runs carry one. */
  ghost predicate SameExperiment(a: Run, b: Run, norm: string -> string) {
    if a.fingerprint != "" && b.fingerprint != "" then a.fingerprint == b.fingerprint
    else Fingerprint.Preimage(a.identity, norm) == Fingerprint.Preimage(b.identity, norm)
  }

  predicate ShowsMetric(fs: seq<Field>) {
    exists f | f in fs :: f.kind == Metric
  }

  ghost function RunsDiff(a: Run, b: Run, norm: string -> string, show: real -> string): Diff {
    var same := SameExperiment(a, b, norm);
    var fields := Differing(Compared(a, b, show));
    Diff(a.runID, b.runID, same, fields, same && ShowsMetric(fields))
  }

  // ----- The comparison as it runs -----

  function Add(d: Diff, f: Field): Diff {
    if f.a == f.b then d
    else d.(fields := d.fields + [f], unattributable := d.unattributable || (d.sameExperiment && f.kind == Metric))
  }

  ghost predicate Covers(d: Diff, done: seq<Field>) {
    d.fields == Differing(done) && d.unattributable == (d.sameExperiment && ShowsMetric(d.fields))
  }

  lemma AddCovers(d: Diff, done: seq<Field>, f: Field)
    requires Covers(d, done)
    ensures Covers(Add(d, f), done + [f])
  {
    assert (done + [f])[..|done|] == done;
    assert forall g :: g in d.fields + [f] <==> g in d.fields || g == f;
    if f.a == f.b { assert Differing(done) + [] == Differing(done); }
  }

  method AddAll(d: Diff, fs: seq<Field>, ghost done: seq<Field>) returns (out: Diff)
    requires Covers(d, done)
    ensures Covers(out, done + fs)
    ensures out == d.(fields := out.fields, unattributable := out.unattributable)
  {
    out := d;
    assert done + fs[..0] == done;
    for i := 0 to |fs|
      invariant Covers(out, done + fs[..i])
      invariant out == d.(fields := out.fields, unattributable := out.unattributable)
    {
      AddCovers(out, done + fs[..i], fs[i]);
      assert done + fs[..i + 1] == done + fs[..i] + [fs[i]];
      out := Add(out, fs[i]);
    }
    assert fs[..|fs|] == fs;
  }

  method AddUnion<V>(d: Diff, kind: Kind, a: map<string, V>, b: map<string, V>, show: V -> string,
                     ghost done: seq<Field>) returns (out: Diff)
    requires Covers(d, done)
    ensures Covers(out, done + UnionPairs(kind, a, b, show))
    ensures out == d.(fields := out.fields, unattributable := out.unattributable)
  {
    var keys := Ordering.CollectSorted(a.Keys + b.Keys);
    out := AddAll(d, KeyedPairs(kind, a, b, show, keys), done);
  }

  method IsSameExperiment(a: Run, b: Run, norm: string -> string) returns (same: bool)
    ensures same == SameExperiment(a, b, norm)
  {
    if a.fingerprint != "" && b.fingerprint != "" {
      return a.fingerprint == b.fingerprint;
    }
    var fa := Fingerprint.Compute(a.identity, norm);
    var fb := Fingerprint.Compute(b.identity, norm);
    return fa == fb;
  }

  method Runs(a: Run, b: Run, norm: string -> string, show: real -> string) returns (d: Diff)
    ensures d == RunsDiff(a, b, norm, show)
  {
    var same := IsSameExperiment(a, b, norm);
    d := Diff(a.runID, b.runID, same, [], false);
    d := AddAll(d, ScalarPairs(a.identity, b.identity), []);
    ghost var s, p := ScalarPairs(a.identity, b.identity), ParamPairs(a.identity, b.identity);
    assert [] + s == s;
    d := AddUnion(d, Identifying, ParamsOf(a.identity), ParamsOf(b.identity), Same, s);
    d := AddAll(d, ProvenancePairs(a, b), s + p);
    d := AddUnion(d, Metric, MetricsOf(a), MetricsOf(b), show, s + p + ProvenancePairs(a, b));
    Associative(s + p, ProvenancePairs(a, b), MetricPairs(a, b, show));
    Associative(s, p, ProvenancePairs(a, b) + MetricPairs(a, b, show));
  }

  // ----- What the diff covers -----

  lemma {:induction false} DifferingExactly(fs: seq<Field>, f: Field)
    ensures f in Differing(fs) <==> f in fs && f.a != f.b
  {
    if |fs| == 0 {
    } else {
      var front, last := fs[..|fs| - 1], fs[|fs| - 1];
      DifferingExactly(front, f);
      assert fs == front + [last];
    }
  }

  lemma UnionPairsExactly<V>(kind: Kind, a: map<string, V>, b: map<string, V>, show: V -> string, f: Field)
    ensures f in UnionPairs(kind, a, b, show)
       <==> exists k | k in a.Keys + b.Keys :: f == KeyedPair(kind, a, b, show, k)
  {
    var keys := Ordering.SortedSet(a.Keys + b.Keys);
    var fs := KeyedPairs(kind, a, b, show, keys);
    if f in fs {
      var i :| 0 <= i < |fs| && fs[i] == f;
      assert keys[i] in keys;
    }
    if k :| k in a.Keys + b.Keys && f == KeyedPair(kind, a, b, show, k) {
      assert k in keys;
      var i :| 0 <= i < |keys| && keys[i] == k;
      assert fs[i] == f;
    }
  }

  /** With values told apart by `show`, some pair differs exactly when the maps do. */
  lemma UnionDiffers<V>(kind: Kind, a: map<string, V>, b: map<string, V>, show: V -> string)
    requires forall k | k in a && k in b :: show(a[k]) == show(b[k]) ==> a[k] == b[k]
    ensures (exists f | f in UnionPairs(kind, a, b, show) :: f.a != f.b) <==> a != b
  {
    if a != b {
      var k :| k in a.Keys + b.Keys && Lookup(a, k, show) != Lookup(b, k, show);
      UnionPairsExactly(kind, a, b, show, KeyedPair(kind, a, b, show, k));
    }
    if f :| f in UnionPairs(kind, a, b, show) && f.a != f.b {
      UnionPairsExactly(kind, a, b, show, f);
    }
  }

  lemma ReportedExactly(a: Run, b: Run, show: real -> string, f: Field)
    ensures f in Differing(Compared(a, b, show))
       <==> && f.a != f.b
            && (|| f in ScalarPairs(a.identity, b.identity) || f in ParamPairs(a.identity, b.identity)
                || f in ProvenancePairs(a, b) || f in MetricPairs(a, b, show))
  {
    DifferingExactly(Compared(a, b, show), f);
    var s, p, v, m := ScalarPairs(a.identity, b.identity), ParamPairs(a.identity, b.identity),
                      ProvenancePairs(a, b), MetricPairs(a, b, show);
    assert f in s + (p + (v + m)) <==> f in s || f in p || f in v || f in m;
  }

  lemma ScalarsIdentify(a: Identity, b: Identity, f: Field)
    requires f in ScalarPairs(a, b)
    ensures f.kind == Identifying
  {
  }

  lemma ProvenanceIsCircumstance(a: Run, b: Run, f: Field)
    requires f in ProvenancePairs(a, b)
    ensures f.kind == Circumstance
  {
    assert f in OriginPairs(a.provenance, b.provenance) || f in OutcomePairs(a, b);
  }

  lemma KindsOfFields(a: Run, b: Run, show: real -> string, f: Field)
    ensures f in ScalarPairs(a.identity, b.identity) ==> f.kind == Identifying
    ensures f in ParamPairs(a.identity, b.identity) ==> f.kind == Identifying
    ensures f in ProvenancePairs(a, b) ==> f.kind == Circumstance
    ensures f in MetricPairs(a, b, show) ==> f.kind == Metric
  {
    if f in ScalarPairs(a.identity, b.identity) { ScalarsIdentify(a.identity, b.identity, f); }
    if f in ProvenancePairs(a, b) { ProvenanceIsCircumstance(a, b, f); }
    UnionPairsExactly(Identifying, ParamsOf(a.identity), ParamsOf(b.identity), Same, f);
    UnionPairsExactly(Metric, MetricsOf(a), MetricsOf(b), show, f);
  }

  /** Some scalar pair differs exactly when the scalar identity fields do. */
  lemma ScalarsDiffer(a: Identity, b: Identity)
    ensures (exists f | f in ScalarPairs(a, b) :: f.a != f.b) <==> !Fingerprint.SameScalars(a, b)
  {
    var fs := ScalarPairs(a, b);
    if forall f | f in fs :: f.a == f.b {
      assert fs[0] in fs && fs[1] in fs && fs[2] in fs && fs[3] in fs && fs[4] in fs && fs[5] in fs && fs[6] in fs;
      assert Fingerprint.BoolText(a.gitDirty)[0] == Fingerprint.BoolText(b.gitDirty)[0];
      Text.OfIntInjective(a.seed, b.seed);
    }
  }

  // ----- The diff, name by name -----

  /** What a run shows for a field, whatever it is compared with. */
  function Shown(r: Run, name: Name, show: real -> string): Option<string> {
    var id, p := r.identity, r.provenance;
    match name
    case Project => Some(id.project)
    case GitCommit => Some(id.gitCommit)
    case GitDirty => Some(Fingerprint.BoolText(id.gitDirty))
    case ConfigHash => Recorded(id.configHash)
    case DatasetVersion => Recorded(id.datasetVersion)
    case ModelVersion => Recorded(id.modelVersion)
    case Seed => Some(Text.OfInt(id.seed))
    case Param(k) => Lookup(ParamsOf(id), k, Same)
    case Host => Recorded(p.host)
    case Device => Recorded(p.device)
    case FrameworkVersion => Recorded(p.frameworkVersion)
    case SubmitterClaim => Recorded(p.submitterClaim)
    case JobID => Recorded(p.jobID)
    case RunStatus => Recorded(StatusText(r.status))
    case CheckpointURI => Recorded(p.checkpointURI)
    case CaptureClientName => Recorded(CaptureClient(r.capture))
    case CaptureAttemptedNames => Recorded(CaptureAttempted(r.capture))
    case Measured(k) => Lookup(MetricsOf(r), k, show)
  }

  /** Project, commit, dirt and seed always show; empty text and a key the run lacks show as unrecorded. */
  lemma IdentityShown(r: Run, k: string, show: real -> string)
    ensures Shown(r, Project, show) == Some(r.identity.project)
    ensures Shown(r, GitCommit, show) == Some(r.identity.gitCommit)
    ensures Shown(r, GitDirty, show) == Some(if r.identity.gitDirty then "true" else "false")
    ensures Shown(r, Seed, show) == Some(Text.OfInt(r.identity.seed))
    ensures Shows(Shown(r, ConfigHash, show), r.identity.configHash)
    ensures Shows(Shown(r, DatasetVersion, show), r.identity.datasetVersion)
    ensures Shows(Shown(r, ModelVersion, show), r.identity.modelVersion)
    ensures Shown(r, Param(k), show) == if k in ParamsOf(r.identity) then Some(ParamsOf(r.identity)[k]) else None
  {
  }

  lemma CircumstanceShown(r: Run, k: string, show: real -> string)
    ensures Shows(Shown(r, Host, show), r.provenance.host)
    ensures Shows(Shown(r, Device, show), r.provenance.device)
    ensures Shows(Shown(r, FrameworkVersion, show), r.provenance.frameworkVersion)
    ensures Shows(Shown(r, SubmitterClaim, show), r.provenance.submitterClaim)
    ensures Shows(Shown(r, JobID, show), r.provenance.jobID)
    ensures Shows(Shown(r, CheckpointURI, show), r.provenance.checkpointURI)
    ensures Shows(Shown(r, CaptureClientName, show), if r.capture.Some? then r.capture.value.client else "")
    ensures Shown(r, Measured(k), show) == if k in MetricsOf(r) then Some(show(MetricsOf(r)[k])) else None
  {
  }

  ghost predicate Shows(shown: Option<string>, text: string) {
    shown == if text == "" then None else Some(text)
  }

  function KindOf(name: Name): Kind {
    match name
    case Project => Identifying
    case GitCommit => Identifying
    case GitDirty => Identifying
    case ConfigHash => Identifying
    case DatasetVersion => Identifying
    case ModelVersion => Identifying
    case Seed => Identifying
    case Param(_) => Identifying
    case Measured(_) => Metric
    case _ => Circumstance
  }

  function NamedField(a: Run, b: Run, name: Name, show: real -> string): Field {
    Field(name, KindOf(name), Shown(a, name, show), Shown(b, name, show))
  }

  predicate ScalarName(name: Name) {
    KindOf(name) == Identifying && !name.Param?
  }

  lemma ScalarNamed(a: Run, b: Run, show: real -> string, f: Field)
    ensures f in ScalarPairs(a.identity, b.identity) <==> ScalarName(f.name) && f == NamedField(a, b, f.name, show)
  {
    var fs := ScalarPairs(a.identity, b.identity);
    assert fs[0] in fs && fs[1] in fs && fs[2] in fs && fs[3] in fs && fs[4] in fs && fs[5] in fs && fs[6] in fs;
  }

  predicate OriginName(name: Name) {
    name.Host? || name.Device? || name.FrameworkVersion? || name.SubmitterClaim? || name.JobID?
  }

  lemma OriginNamed(a: Run, b: Run, show: real -> string, f: Field)
    ensures f in OriginPairs(a.provenance, b.provenance) <==> OriginName(f.name) && f == NamedField(a, b, f.name, show)
  {
    var fs := OriginPairs(a.provenance, b.provenance);
    assert fs[0] in fs && fs[1] in fs && fs[2] in fs && fs[3] in fs && fs[4] in fs;
  }

  predicate OutcomeName(name: Name) {
    name.RunStatus? || name.CheckpointURI? || name.CaptureClientName? || name.CaptureAttemptedNames?
  }

  lemma OutcomesAreNamed(a: Run, b: Run, show: real -> string)
    ensures OutcomePairs(a, b) == [NamedField(a, b, RunStatus, show), NamedField(a, b, CheckpointURI, show),
                                   NamedField(a, b, CaptureClientName, show),
                                   NamedField(a, b, CaptureAttemptedNames, show)]
  {
  }

  lemma OutcomeNamed(a: Run, b: Run, show: real -> string, f: Field)
    ensures f in OutcomePairs(a, b) <==> OutcomeName(f.name) && f == NamedField(a, b, f.name, show)
  {
    OutcomesAreNamed(a, b, show);
  }

  lemma ProvenanceNamed(a: Run, b: Run, show: real -> string, f: Field)
    ensures f in ProvenancePairs(a, b) <==> KindOf(f.name) == Circumstance && f == NamedField(a, b, f.name, show)
  {
    OriginNamed(a, b, show, f);
    OutcomeNamed(a, b, show, f);
    assert KindOf(f.name) == Circumstance <==> OriginName(f.name) || OutcomeName(f.name);
  }

  lemma ParamNamed(a: Run, b: Run, show: real -> string, f: Field)
    requires f.a != f.b
    ensures f in ParamPairs(a.identity, b.identity) <==> f.name.Param? && f == NamedField(a, b, f.name, show)
  {
    UnionPairsExactly(Identifying, ParamsOf(a.identity), ParamsOf(b.identity), Same, f);
  }

  lemma MetricNamed(a: Run, b: Run, show: real -> string, f: Field)
    requires f.a != f.b
    ensures f in MetricPairs(a, b, show) <==> f.name.Measured? && f == NamedField(a, b, f.name, show)
  {
    UnionPairsExactly(Metric, MetricsOf(a), MetricsOf(b), show, f);
  }

  /**
   A field is in the diff exactly when the two runs show different things
   under its name, and then with what each of them shows.
   */
  lemma ReportedByName(a: Run, b: Run, norm: string -> string, show: real -> string, f: Field)
    ensures f in RunsDiff(a, b, norm, show).fields <==> f == NamedField(a, b, f.name, show) && f.a != f.b
  {
    ReportedExactly(a, b, show, f);
    if f.a != f.b {
      ScalarNamed(a, b, show, f);
      ProvenanceNamed(a, b, show, f);
      ParamNamed(a, b, show, f);
      MetricNamed(a, b, show, f);
    }
  }

  /** One experiment: by the stored fingerprints if both runs have one, else by what would be hashed. */
  lemma SameExperimentExactly(a: Run, b: Run, norm: string -> string, show: real -> string)
    ensures RunsDiff(a, b, norm, show).sameExperiment <==>
            if a.fingerprint == "" || b.fingerprint == ""
            then Fingerprint.SameScalars(a.identity, b.identity) && Fingerprint.SameParams(a.identity, b.identity, norm)
            else a.fingerprint == b.fingerprint
  {
    Fingerprint.PreimageEqual(a.identity, b.identity, norm);
  }

  ghost predicate FromCompute(r: Run, norm: string -> string) {
    r.fingerprint == Fingerprint.Preimage(r.identity, norm)
  }

  ghost predicate ReportsIdentity(fields: seq<Field>) {
    exists f | f in fields :: f.kind == Identifying
  }

  /** The diff covers everything hashed: different fingerprints always show an identity field. */
  lemma DifferentExperimentsShow(a: Run, b: Run, norm: string -> string, show: real -> string)
    requires FromCompute(a, norm) && FromCompute(b, norm) && a.fingerprint != b.fingerprint
    ensures ReportsIdentity(RunsDiff(a, b, norm, show).fields)
  {
    Fingerprint.PreimageEqual(a.identity, b.identity, norm);
    var f: Field;
    if !Fingerprint.SameScalars(a.identity, b.identity) {
      ScalarsDiffer(a.identity, b.identity);
      f :| f in ScalarPairs(a.identity, b.identity) && f.a != f.b;
    } else {
      assert ParamsOf(a.identity) != ParamsOf(b.identity);
      UnionDiffers(Identifying, ParamsOf(a.identity), ParamsOf(b.identity), Same);
      f :| f in ParamPairs(a.identity, b.identity) && f.a != f.b;
    }
    ReportedExactly(a, b, show, f);
    KindsOfFields(a, b, show, f);
  }

  /** A parameter both runs set to different spellings of one value. */
  ghost predicate Respelled(f: Field, a: Identity, b: Identity, norm: string -> string) {
    exists k | k in ParamsOf(a) && k in ParamsOf(b) ::
      && f == Field(Param(k), Identifying, Some(ParamsOf(a)[k]), Some(ParamsOf(b)[k]))
      && ParamsOf(a)[k] != ParamsOf(b)[k]
      && norm(ParamsOf(a)[k]) == norm(ParamsOf(b)[k])
  }

  lemma RespelledParam(f: Field, a: Identity, b: Identity, norm: string -> string)
    requires Fingerprint.SameParams(a, b, norm)
    requires f in ParamPairs(a, b) && f.a != f.b
    ensures Respelled(f, a, b, norm)
  {
    var p, q := ParamsOf(a), ParamsOf(b);
    UnionPairsExactly(Identifying, p, q, Same, f);
    var k :| k in p.Keys + q.Keys && f == KeyedPair(Identifying, p, q, Same, k);
    assert k in p && k in q;
  }

  /** Equal fingerprints leave nothing to report as identity but respelled parameters. */
  lemma SameExperimentsShowOnlySpelling(a: Run, b: Run, norm: string -> string, show: real -> string, f: Field)
    requires FromCompute(a, norm) && FromCompute(b, norm) && a.fingerprint == b.fingerprint
    requires f in RunsDiff(a, b, norm, show).fields && f.kind == Identifying
    ensures Respelled(f, a.identity, b.identity, norm)
  {
    Fingerprint.PreimageEqual(a.identity, b.identity, norm);
    ReportedExactly(a, b, show, f);
    KindsOfFields(a, b, show, f);
    ScalarsDiffer(a.identity, b.identity);
    RespelledParam(f, a.identity, b.identity, norm);
  }

  lemma DifferingMetricReported(a: Run, b: Run, show: real -> string, f: Field)
    ensures f in Differing(Compared(a, b, show)) && f.kind == Metric <==> f in MetricPairs(a, b, show) && f.a != f.b
  {
    ReportedExactly(a, b, show, f);
    KindsOfFields(a, b, show, f);
  }

  lemma MetricReported(a: Run, b: Run, show: real -> string)
    ensures ShowsMetric(Differing(Compared(a, b, show))) <==> exists f | f in MetricPairs(a, b, show) :: f.a != f.b
  {
    var fs := Differing(Compared(a, b, show));
    if f :| f in MetricPairs(a, b, show) && f.a != f.b {
      DifferingMetricReported(a, b, show, f);
    }
    if f :| f in fs && f.kind == Metric {
      DifferingMetricReported(a, b, show, f);
    }
  }

  /** Every metric shows the same text on both sides, or is missing from both. */
  ghost predicate MetricsShownAlike(a: Run, b: Run, show: real -> string) {
    forall k | k in MetricsOf(a).Keys + MetricsOf(b).Keys ::
      Lookup(MetricsOf(a), k, show) == Lookup(MetricsOf(b), k, show)
  }

  lemma MetricPairsAlike(a: Run, b: Run, show: real -> string)
    ensures MetricsShownAlike(a, b, show) <==> AllEqual(MetricPairs(a, b, show))
  {
    var p, q := MetricsOf(a), MetricsOf(b);
    forall k | k in p.Keys + q.Keys ensures KeyedPair(Metric, p, q, show, k) in MetricPairs(a, b, show) {
      UnionPairsExactly(Metric, p, q, show, KeyedPair(Metric, p, q, show, k));
    }
    forall f | f in MetricPairs(a, b, show)
      ensures exists k | k in p.Keys + q.Keys :: f == KeyedPair(Metric, p, q, show, k)
    {
      UnionPairsExactly(Metric, p, q, show, f);
    }
  }

  /** A pair is unattributable exactly when it is one experiment and some metric shows differently. */
  lemma UnattributableAsShown(a: Run, b: Run, norm: string -> string, show: real -> string)
    ensures RunsDiff(a, b, norm, show).unattributable <==> SameExperiment(a, b, norm) && !MetricsShownAlike(a, b, show)
  {
    MetricReported(a, b, show);
    MetricPairsAlike(a, b, show);
  }

  /** The formatter tells apart the two values of every metric both runs report. */
  ghost predicate ToldApart(a: Run, b: Run, show: real -> string) {
    forall k | k in MetricsOf(a) && k in MetricsOf(b) ::
      show(MetricsOf(a)[k]) == show(MetricsOf(b)[k]) ==> MetricsOf(a)[k] == MetricsOf(b)[k]
  }

  lemma ShownAlikeExactly(a: Run, b: Run, show: real -> string)
    requires ToldApart(a, b, show)
    ensures MetricsShownAlike(a, b, show) <==> MetricsOf(a) == MetricsOf(b)
  {
    UnionDiffers(Metric, MetricsOf(a), MetricsOf(b), show);
    MetricPairsAlike(a, b, show);
  }

  /**
   Where the formatter tells the compared values apart, a pair is
   unattributable exactly when it is one experiment with different metrics.
   */
  lemma UnattributableExactly(a: Run, b: Run, norm: string -> string, show: real -> string)
    requires ToldApart(a, b, show)
    ensures RunsDiff(a, b, norm, show).unattributable <==> SameExperiment(a, b, norm) && MetricsOf(a) != MetricsOf(b)
  {
    UnattributableAsShown(a, b, norm, show);
    ShownAlikeExactly(a, b, show);
  }

  /** Everything a diff looks at agrees, metrics aside. */
  ghost predicate NothingElseDiffers(a: Run, b: Run) {
    && Fingerprint.SameScalars(a.identity, b.identity)
    && ParamsOf(a.identity) == ParamsOf(b.identity)
    && a.provenance == b.provenance
    && StatusText(a.status) == StatusText(b.status)
    && CaptureClient(a.capture) == CaptureClient(b.capture)
    && CaptureAttempted(a.capture) == CaptureAttempted(b.capture)
  }

  ghost predicate AllEqual(fs: seq<Field>) {
    forall f | f in fs :: f.a == f.b
  }

  lemma AllEqualConcat(x: seq<Field>, y: seq<Field>)
    ensures AllEqual(x + y) <==> AllEqual(x) && AllEqual(y)
  {
    assert forall f :: f in x + y <==> f in x || f in y;
  }

  lemma OriginDiffers(p: Provenance, q: Provenance)
    ensures AllEqual(OriginPairs(p, q)) <==> p == q.(checkpointURI := p.checkpointURI)
  {
    var fs := OriginPairs(p, q);
    assert fs[0] in fs && fs[1] in fs && fs[2] in fs && fs[3] in fs && fs[4] in fs;
  }

  lemma OutcomeDiffers(a: Run, b: Run)
    ensures AllEqual(OutcomePairs(a, b))
       <==> && a.provenance.checkpointURI == b.provenance.checkpointURI
            && StatusText(a.status) == StatusText(b.status)
            && CaptureClient(a.capture) == CaptureClient(b.capture)
            && CaptureAttempted(a.capture) == CaptureAttempted(b.capture)
  {
    var fs := OutcomePairs(a, b);
    assert fs[0] in fs && fs[1] in fs && fs[2] in fs && fs[3] in fs;
  }

  lemma ProvenanceDiffers(a: Run, b: Run)
    ensures AllEqual(ProvenancePairs(a, b))
       <==> && a.provenance == b.provenance
            && StatusText(a.status) == StatusText(b.status)
            && CaptureClient(a.capture) == CaptureClient(b.capture)
            && CaptureAttempted(a.capture) == CaptureAttempted(b.capture)
  {
    AllEqualConcat(OriginPairs(a.provenance, b.provenance), OutcomePairs(a, b));
    OriginDiffers(a.provenance, b.provenance);
    OutcomeDiffers(a, b);
  }

  lemma {:induction false} NothingReported(fs: seq<Field>)
    ensures Differing(fs) == [] <==> AllEqual(fs)
  {
    if |fs| == 0 {
    } else {
      var front, last := fs[..|fs| - 1], fs[|fs| - 1];
      NothingReported(front);
      assert fs == front + [last];
      AllEqualConcat(front, [last]);
      assert AllEqual([last]) <==> last.a == last.b;
    }
  }

  /** The diff is empty exactly when nothing else differs and every metric shows alike. */
  lemma EmptyDiffAsShown(a: Run, b: Run, norm: string -> string, show: real -> string)
    ensures RunsDiff(a, b, norm, show).fields == [] <==> NothingElseDiffers(a, b) && MetricsShownAlike(a, b, show)
  {
    var s, p, v, m := ScalarPairs(a.identity, b.identity), ParamPairs(a.identity, b.identity),
                      ProvenancePairs(a, b), MetricPairs(a, b, show);
    NothingReported(s + (p + (v + m)));
    AllEqualConcat(s, p + (v + m));
    AllEqualConcat(p, v + m);
    AllEqualConcat(v, m);
    ScalarsDiffer(a.identity, b.identity);
    UnionDiffers(Identifying, ParamsOf(a.identity), ParamsOf(b.identity), Same);
    ProvenanceDiffers(a, b);
    MetricPairsAlike(a, b, show);
  }

  /** Where the formatter tells the compared values apart, that is when everything agrees, metrics included. */
  lemma EmptyDiffExactly(a: Run, b: Run, norm: string -> string, show: real -> string)
    requires ToldApart(a, b, show)
    ensures RunsDiff(a, b, norm, show).fields == [] <==> NothingElseDiffers(a, b) && MetricsOf(a) == MetricsOf(b)
  {
    EmptyDiffAsShown(a, b, norm, show);
    ShownAlikeExactly(a, b, show);
  }

  // ----- Stored runs: no two statuses or declarations read alike -----

  /** Known statuses, and the empty one, are told apart by their texts. */
  lemma StatusTextInjective(s: Status, t: Status)
    requires !s.Other? && !t.Other?
    ensures StatusText(s) == StatusText(t) <==> s == t
  {
    assert StatusText(s) == "" <==> s == Unset;
    assert StatusText(t) == "" <==> t == Unset;
  }

  ghost predicate Plain(name: string) {
    name != "" && ',' !in name
  }

  lemma FirstPart(a: string, x: string, b: string, y: string)
    requires ',' !in a && ',' !in b && a + "," + x == b + "," + y
    ensures a == b && x == y
  {
    var s := a + "," + x;
    assert s == b + "," + y;
    assert s[|a|] == ',' && s[|b|] == ',';
    assert forall i | 0 <= i < |a| :: s[i] == a[i];
    assert forall i | 0 <= i < |b| :: s[i] == b[i];
    assert |a| == |b|;
    assert a == s[..|a|] && b == s[..|b|] && x == s[|a| + 1..] && y == s[|b| + 1..];
  }

  lemma JoinOfPlain(parts: seq<string>)
    requires forall p | p in parts :: Plain(p)
    ensures Join(parts) == "" <==> parts == []
    ensures ',' in Join(parts) <==> |parts| > 1
  {
    if |parts| == 1 { assert Plain(parts[0]); }
  }

  /** Joined names can be told apart. */
  lemma {:induction false} JoinInjective(s: seq<string>, t: seq<string>)
    requires (forall p | p in s :: Plain(p)) && forall p | p in t :: Plain(p)
    requires Join(s) == Join(t)
    ensures s == t
  {
    JoinOfPlain(s);
    JoinOfPlain(t);
    if |s| > 1 {
      assert Plain(s[0]) && Plain(t[0]);
      FirstPart(s[0], Join(s[1..]), t[0], Join(t[1..]));
      JoinInjective(s[1..], t[1..]);
      assert s == [s[0]] + s[1..] && t == [t[0]] + t[1..];
    }
  }

  lemma FieldNameIsPlain(f: string)
    requires f in CAPTURE_FIELDS
    ensures Plain(f)
  {
    if ',' in f {
      var i :| 0 <= i < |f| && f[i] == ',';
      assert false;
    }
  }

  lemma SortedStaysPlain(c: Option<Capture>)
    requires forall f | f in AttemptedOf(c) :: f in CAPTURE_FIELDS
    ensures forall p | p in Ordering.Sort(AttemptedOf(c), Ordering.TextKey) :: Plain(p)
  {
    forall f | f in AttemptedOf(c) ensures Plain(f) { FieldNameIsPlain(f); }
    Ordering.SameMembers(Ordering.Sort(AttemptedOf(c), Ordering.TextKey), AttemptedOf(c));
  }

  /** Declarations of known fields read alike exactly when they name the same fields. */
  lemma AttemptedReadsAlike(c: Option<Capture>, d: Option<Capture>)
    requires forall f | f in AttemptedOf(c) :: f in CAPTURE_FIELDS
    requires forall f | f in AttemptedOf(d) :: f in CAPTURE_FIELDS
    ensures CaptureAttempted(c) == CaptureAttempted(d) <==> multiset(AttemptedOf(c)) == multiset(AttemptedOf(d))
  {
    if CaptureAttempted(c) == CaptureAttempted(d) {
      SortedStaysPlain(c);
      SortedStaysPlain(d);
      JoinInjective(Ordering.Sort(AttemptedOf(c), Ordering.TextKey), Ordering.Sort(AttemptedOf(d), Ordering.TextKey));
    }
    if multiset(AttemptedOf(c)) == multiset(AttemptedOf(d)) { SameSorted(AttemptedOf(c), AttemptedOf(d)); }
  }

  lemma ValidIsKnown(r: Run)
    requires Valid(r)
    ensures !r.status.Other? && forall f | f in AttemptedOf(r.capture) :: f in CAPTURE_FIELDS
  {
  }

  /** What a diff of two stored runs looks at, metrics aside, field by field. */
  ghost predicate RecordsAgree(a: Run, b: Run) {
    && a.identity.project == b.identity.project
    && a.identity.gitCommit == b.identity.gitCommit
    && a.identity.gitDirty == b.identity.gitDirty
    && a.identity.configHash == b.identity.configHash
    && a.identity.datasetVersion == b.identity.datasetVersion
    && a.identity.modelVersion == b.identity.modelVersion
    && a.identity.seed == b.identity.seed
    && ParamsOf(a.identity) == ParamsOf(b.identity)
    && a.provenance == b.provenance
    && a.status == b.status
    && (if a.capture.Some? then a.capture.value.client else "")
       == (if b.capture.Some? then b.capture.value.client else "")
    && multiset(AttemptedOf(a.capture)) == multiset(AttemptedOf(b.capture))
  }

  /**
   Valid runs have an empty diff exactly when all of identity, provenance,
   status, client and attempted fields agree and every metric shows alike.
   */
  lemma EmptyDiffOfValid(a: Run, b: Run, norm: string -> string, show: real -> string)
    requires Valid(a) && Valid(b)
    ensures RunsDiff(a, b, norm, show).fields == [] <==> RecordsAgree(a, b) && MetricsShownAlike(a, b, show)
  {
    EmptyDiffAsShown(a, b, norm, show);
    ValidIsKnown(a);
    ValidIsKnown(b);
    StatusTextInjective(a.status, b.status);
    AttemptedReadsAlike(a.capture, b.capture);
  }

  /** Declarations naming the same fields in different orders compare equal. */
  lemma AttemptedOrderIgnored(c: Capture, d: Capture)
    requires multiset(AttemptedOf(Some(c))) == multiset(AttemptedOf(Some(d)))
    ensures CaptureAttempted(Some(c)) == CaptureAttempted(Some(d))
  {
    SameSorted(AttemptedOf(Some(c)), AttemptedOf(Some(d)));
  }

  function Swap(f: Field): Field {
    f.(a := f.b, b := f.a)
  }

  function SwapAll(fs: seq<Field>): (out: seq<Field>)
    ensures |out| == |fs| && forall i | 0 <= i < |fs| :: out[i] == Swap(fs[i])
  {
    seq(|fs|, i requires 0 <= i < |fs| => Swap(fs[i]))
  }

  lemma SwapAllConcat(x: seq<Field>, y: seq<Field>)
    ensures SwapAll(x + y) == SwapAll(x) + SwapAll(y)
  {
  }

  lemma {:induction false} DifferingSwapped(fs: seq<Field>)
    ensures Differing(SwapAll(fs)) == SwapAll(Differing(fs))
  {
    if |fs| == 0 {
    } else {
      var front := fs[..|fs| - 1];
      DifferingSwapped(front);
      assert SwapAll(fs)[..|fs| - 1] == SwapAll(front);
    }
  }

  lemma UnionSwapped<V>(kind: Kind, a: map<string, V>, b: map<string, V>, show: V -> string)
    ensures UnionPairs(kind, b, a, show) == SwapAll(UnionPairs(kind, a, b, show))
  {
    assert a.Keys + b.Keys == b.Keys + a.Keys;
  }

  lemma ScalarsSwapped(a: Identity, b: Identity)
    ensures ScalarPairs(b, a) == SwapAll(ScalarPairs(a, b))
  {
  }

  lemma ProvenanceSwapped(a: Run, b: Run)
    ensures ProvenancePairs(b, a) == SwapAll(ProvenancePairs(a, b))
  {
  }

  lemma ComparedSwapped(a: Run, b: Run, show: real -> string)
    ensures Compared(b, a, show) == SwapAll(Compared(a, b, show))
  {
    var s, p, v, m := ScalarPairs(a.identity, b.identity), ParamPairs(a.identity, b.identity),
                      ProvenancePairs(a, b), MetricPairs(a, b, show);
    ScalarsSwapped(a.identity, b.identity);
    UnionSwapped(Identifying, ParamsOf(a.identity), ParamsOf(b.identity), Same);
    ProvenanceSwapped(a, b);
    UnionSwapped(Metric, MetricsOf(a), MetricsOf(b), show);
    SwapAllConcat(v, m);
    SwapAllConcat(p, v + m);
    SwapAllConcat(s, p + (v + m));
  }

  lemma ShowsMetricSwapped(fs: seq<Field>)
    ensures ShowsMetric(SwapAll(fs)) <==> ShowsMetric(fs)
  {
    if ShowsMetric(fs) {
      var i :| 0 <= i < |fs| && fs[i].kind == Metric;
      assert SwapAll(fs)[i] in SwapAll(fs);
    }
    if ShowsMetric(SwapAll(fs)) {
      var i :| 0 <= i < |fs| && SwapAll(fs)[i].kind == Metric;
      assert fs[i] in fs;
    }
  }

  /** Exchanging the arguments exchanges the sides and nothing else. */
  lemma DiffSwapped(a: Run, b: Run, norm: string -> string, show: real -> string)
    ensures var d := RunsDiff(a, b, norm, show);
            RunsDiff(b, a, norm, show) == Diff(d.b, d.a, d.sameExperiment, SwapAll(d.fields), d.unattributable)
  {
    ComparedSwapped(a, b, show);
    DifferingSwapped(Compared(a, b, show));
    ShowsMetricSwapped(Differing(Compared(a, b, show)));
  }
}
