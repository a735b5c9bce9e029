/** The lineage record of one run, and when it can be trusted. */
module Lineage {
  import opened Wrappers
  import Ordering

  /** `Unset` is the empty string, `Other` any status text the ledger does not know. */
  datatype Status = Unset | Created | Running | Succeeded | Failed | Cancelled | Other(name: string)

  predicate ValidStatus(s: Status) {
    s.Created? || s.Running? || Terminal(s)
  }

  predicate Terminal(s: Status) {
    s.Succeeded? || s.Failed? || s.Cancelled?
  }

  /** The fields hashed into the fingerprint. A nil map is `None`. */
  datatype Identity = Identity(
    project: string,
    gitCommit: string,
    gitDirty: bool,
    configHash: string,
    datasetVersion: string,
    modelVersion: string,
    seed: int,
    params: Option<map<string, string>>)

  /** The plain text fields an update may overwrite. */
  datatype Provenance = Provenance(
    host: string,
    device: string,
    frameworkVersion: string,
    submitterClaim: string,
    jobID: string,
    checkpointURI: string)

  /** What the recording client tried to capture. A nil list is `None`. */
  datatype Capture = Capture(client: string, attempted: Option<seq<string>>)

  /** The offset a timestamp was written with; `Z` and `+00:00` are told apart. */
  datatype Zone = UTC | Offset(seconds: int)

  /** Nanoseconds since 1970, and the zone they were written in. */
  datatype Instant = Instant(ns: int, zone: Zone)

  datatype Run = Run(
    runID: string,
    identity: Identity,
    fingerprint: string,
    fingerprintVersion: int,
    provenance: Provenance,
    status: Status,
    startedAt: Instant,
    endedAt: Option<Instant>,
    metrics: Option<map<string, real>>,
    capture: Option<Capture>)

  const CURRENT_FINGERPRINT_VERSION := 2

  const CAPTURE_FIELDS: set<string> := {
    "config_hash", "dataset_version", "model_version",
    "host", "device", "framework_version", "checkpoint_uri"
  }

  function ParamsOf(id: Identity): map<string, string> {
    id.params.GetOr(map[])
  }

  function MetricsOf(r: Run): map<string, real> {
    r.metrics.GetOr(map[])
  }

  function AttemptedOf(c: Option<Capture>): seq<string> {
    if c.Some? then c.value.attempted.GetOr([]) else []
  }

  /** Length of the white-space rune (in UTF-8) that `s` starts with, or 0. */
  function SpaceWidth(s: string): (n: nat)
    ensures n <= |s|
  {
    if |s| == 0 then 0
    else if '\t' <= s[0] <= '\r' || s[0] == ' ' then 1
    else
      var b0 := s[0] as int;
      var b1 := if |s| > 1 then s[1] as int else 0;
      var b2 := if |s| > 2 then s[2] as int else 0;
      if b0 == 0xC2 && (b1 == 0x85 || b1 == 0xA0) then 2
      else if b0 == 0xE1 && b1 == 0x9A && b2 == 0x80 then 3
      else if b0 == 0xE2 && b1 == 0x80 && (0x80 <= b2 <= 0x8A || b2 == 0xA8 || b2 == 0xA9 || b2 == 0xAF) then 3
      else if b0 == 0xE2 && b1 == 0x81 && b2 == 0x9F then 3
      else if b0 == 0xE3 && b1 == 0x80 && b2 == 0x80 then 3
      else 0
  }

  /** `strings.TrimSpace(s) == ""`. */
  predicate Blank(s: string)
    decreases |s|
  {
    |s| == 0 || (SpaceWidth(s) > 0 && Blank(s[SpaceWidth(s)..]))
  }

  datatype Flaw =
    | ProjectRequired
    | GitCommitRequired
    | StatusUnknown
    | DirtyTree
    | EndsBeforeStart
    | CaptureFieldUnknown

  /** The first reason a record cannot be trusted, if any. */
  function Validate(r: Run): Option<Flaw> {
    if Blank(r.identity.project) then Some(ProjectRequired)
    else if Blank(r.identity.gitCommit) then Some(GitCommitRequired)
    else if r.status != Unset && !ValidStatus(r.status) then Some(StatusUnknown)
    else if r.identity.gitDirty && Blank(r.identity.configHash) then Some(DirtyTree)
    else if r.endedAt.Some? && r.endedAt.value.ns < r.startedAt.ns then Some(EndsBeforeStart)
    else if exists f | f in AttemptedOf(r.capture) :: f !in CAPTURE_FIELDS then Some(CaptureFieldUnknown)
    else None
  }

  predicate Valid(r: Run) {
    Validate(r).None?
  }

  /** Sorts the attempted list, so that equal sets compare equal. */
  function NormalizeCapture(r: Run): (n: Run)
    ensures n == r.(capture := n.capture)
    ensures multiset(AttemptedOf(n.capture)) == multiset(AttemptedOf(r.capture))
    ensures Validate(n) == Validate(r)
  {
    if r.capture.None? || |AttemptedOf(r.capture)| < 2 then r
    else
      var c := r.capture.value;
      var sorted := Ordering.Sort(c.attempted.value, Ordering.TextKey);
      var n := r.(capture := Some(c.(attempted := Some(sorted))));
      Ordering.SameMembers(sorted, c.attempted.value);
      Ordering.SameMembers(c.attempted.value, sorted);
      n
  }

  /** The order in which a client lists what it attempted does not matter. */
  lemma NormalizeIgnoresOrder(r: Run, attempted: seq<string>)
    requires r.capture.Some? && r.capture.value.attempted.Some?
    requires multiset(attempted) == multiset(r.capture.value.attempted.value)
    ensures NormalizeCapture(r.(capture := Some(r.capture.value.(attempted := Some(attempted))))) == NormalizeCapture(r)
  {
    SameSorted(attempted, r.capture.value.attempted.value);
  }

  lemma SameSorted(a: seq<string>, b: seq<string>)
    requires multiset(a) == multiset(b)
    ensures |a| == |b| && (|a| < 2 ==> a == b)
    ensures Ordering.Sort(a, Ordering.TextKey) == Ordering.Sort(b, Ordering.TextKey)
  {
    Ordering.SameMembers(a, b);
    if |a| == 1 { assert a[0] in b; }
    Ordering.SortSorted(a, Ordering.TextKey);
    Ordering.SortSorted(b, Ordering.TextKey);
    Ordering.SortedUnique(Ordering.Sort(a, Ordering.TextKey), Ordering.Sort(b, Ordering.TextKey), Ordering.TextKey);
  }
}
