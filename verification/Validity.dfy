/** What makes a run record trustworthy, and that stores hold no other. */
module Validity {
  import opened Wrappers
  import opened Lineage
  import opened Patching
  import opened Listing
  import opened Sequences
  import opened MemoryStore
  import opened DuckTables
  import opened DuckListing
  import DuckRetries
  import Ordering

  // ----- White space, by code point -----

  /** The code points Go's `unicode.IsSpace` accepts. */
  const WHITE_SPACE: set<int> := {
    0x09, 0x0A, 0x0B, 0x0C, 0x0D, 0x20, 0x85, 0xA0, 0x1680,
    0x2000, 0x2001, 0x2002, 0x2003, 0x2004, 0x2005, 0x2006, 0x2007, 0x2008, 0x2009, 0x200A,
    0x2028, 0x2029, 0x202F, 0x205F, 0x3000
  }

  /** UTF-8, for code points up to U+FFFF. */
  function Utf8(c: int): string
    requires 0 <= c < 0xD800
  {
    if c < 0x80 then [c as char]
    else if c < 0x800 then [(0xC0 + c / 0x40) as char, (0x80 + c % 0x40) as char]
    else [(0xE0 + c / 0x1000) as char, (0x80 + c / 0x40 % 0x40) as char, (0x80 + c % 0x40) as char]
  }

  function Spelled(cs: seq<int>): string
    requires forall c | c in cs :: c in WHITE_SPACE
  {
    if |cs| == 0 then ""
    else
      assert cs[0] in cs;
      Utf8(cs[0]) + Spelled(cs[1..])
  }

  /** The text is empty or consists of white-space runes only. */
  ghost predicate WhiteSpace(s: string) {
    exists cs: seq<int> :: (forall c | c in cs :: c in WHITE_SPACE) && Spelled(cs) == s
  }

  lemma WidthOfShortRune(c: int, rest: string)
    requires c in WHITE_SPACE && c < 0x800
    ensures SpaceWidth(Utf8(c) + rest) == |Utf8(c)|
  {
    var s := Utf8(c) + rest;
    assert s[0] == Utf8(c)[0] && (c >= 0x80 ==> s[1] == Utf8(c)[1]);
  }

  lemma WidthOfLongRune(c: int, rest: string)
    requires c in WHITE_SPACE && c >= 0x800
    ensures SpaceWidth(Utf8(c) + rest) == 3 == |Utf8(c)|
  {
    var s := Utf8(c) + rest;
    assert s[0] == Utf8(c)[0] && s[1] == Utf8(c)[1] && s[2] == Utf8(c)[2];
  }

  lemma WidthOfRune(c: int, rest: string)
    requires c in WHITE_SPACE
    ensures SpaceWidth(Utf8(c) + rest) == |Utf8(c)|
  {
    if c < 0x800 { WidthOfShortRune(c, rest); } else { WidthOfLongRune(c, rest); }
  }

  lemma RuneOfWidth(s: string) returns (c: int)
    requires SpaceWidth(s) > 0
    ensures c in WHITE_SPACE && Utf8(c) == s[..SpaceWidth(s)]
  {
    var n := SpaceWidth(s);
    if n == 1 {
      c := s[0] as int;
    } else if n == 2 {
      c := s[1] as int;
      assert Utf8(c) == [0xC2 as char, s[1]] == s[..2];
    } else {
      c := (s[0] as int - 0xE0) * 0x1000 + (s[1] as int - 0x80) * 0x40 + (s[2] as int - 0x80);
      assert Utf8(c) == [s[0], s[1], s[2]] == s[..3];
    }
  }

  lemma {:induction false} BlankSpelled(s: string) returns (cs: seq<int>)
    requires Blank(s)
    ensures (forall c | c in cs :: c in WHITE_SPACE) && Spelled(cs) == s
    decreases |s|
  {
    if |s| == 0 {
      cs := [];
    } else {
      var n := SpaceWidth(s);
      var c := RuneOfWidth(s);
      var more := BlankSpelled(s[n..]);
      cs := [c] + more;
      assert cs[1..] == more && s[..n] + s[n..] == s;
    }
  }

  lemma {:induction false} SpelledBlank(cs: seq<int>)
    requires forall c | c in cs :: c in WHITE_SPACE
    ensures Blank(Spelled(cs))
  {
    if |cs| > 0 {
      var rest := Spelled(cs[1..]);
      SpelledBlank(cs[1..]);
      WidthOfRune(cs[0], rest);
      assert (Utf8(cs[0]) + rest)[|Utf8(cs[0])|..] == rest;
    }
  }

  /** The recursive test accepts exactly the sequences of white-space runes. */
  lemma BlankExactly(s: string)
    ensures Blank(s) <==> WhiteSpace(s)
  {
    if Blank(s) { var cs := BlankSpelled(s); }
    if WhiteSpace(s) {
      var cs: seq<int> :| (forall c | c in cs :: c in WHITE_SPACE) && Spelled(cs) == s;
      SpelledBlank(cs);
    }
  }

  // ----- Every way a record can fall short -----

  ghost predicate HasFlaw(r: Run, f: Flaw) {
    match f
    case ProjectRequired => WhiteSpace(r.identity.project)
    case GitCommitRequired => WhiteSpace(r.identity.gitCommit)
    case StatusUnknown => r.status !in {Unset, Created, Running, Succeeded, Failed, Cancelled}
    case DirtyTree => r.identity.gitDirty && WhiteSpace(r.identity.configHash)
    case EndsBeforeStart => r.endedAt.Some? && r.endedAt.value.ns < r.startedAt.ns
    case CaptureFieldUnknown =>
      exists n | n in AttemptedOf(r.capture) ::
        n !in {"host", "device", "framework_version", "config_hash", "dataset_version", "model_version",
               "checkpoint_uri"}
  }

  /** The order in which flaws are looked for. */
  const CHECKS: seq<Flaw> :=
    [ProjectRequired, GitCommitRequired, StatusUnknown, DirtyTree, EndsBeforeStart, CaptureFieldUnknown]

  ghost predicate Flawless(r: Run) {
    forall f: Flaw :: !HasFlaw(r, f)
  }

  /** `err` refuses a record for the first of its flaws. */
  ghost predicate RefusesFirst(err: Option<Error>, r: Run) {
    exists i | 0 <= i < |CHECKS| ::
      HasFlaw(r, CHECKS[i]) && err == Some(Invalid(CHECKS[i])) && forall j | 0 <= j < i :: !HasFlaw(r, CHECKS[j])
  }

  function Place(f: Flaw): (i: nat)
    ensures i < |CHECKS| && CHECKS[i] == f
  {
    match f
    case ProjectRequired => 0
    case GitCommitRequired => 1
    case StatusUnknown => 2
    case DirtyTree => 3
    case EndsBeforeStart => 4
    case CaptureFieldUnknown => 5
  }

  lemma ValidateHas(r: Run, f: Flaw)
    ensures Validate(r) == Some(f) ==> HasFlaw(r, f) && forall g: Flaw | Place(g) < Place(f) :: !HasFlaw(r, g)
    ensures Validate(r) == None ==> !HasFlaw(r, f)
  {
    BlankExactly(r.identity.project);
    BlankExactly(r.identity.gitCommit);
    BlankExactly(r.identity.configHash);
  }

  lemma ValidateFinds(r: Run)
    ensures Validate(r).None? <==> Flawless(r)
    ensures Validate(r).Some? ==> RefusesFirst(Some(Invalid(Validate(r).value)), r)
  {
    if Validate(r).None? {
      forall f: Flaw { ValidateHas(r, f); }
    } else {
      var f := Validate(r).value;
      ValidateHas(r, f);
      forall j | 0 <= j < Place(f) ensures !HasFlaw(r, CHECKS[j]) { assert Place(CHECKS[j]) == j; }
      assert HasFlaw(r, CHECKS[Place(f)]);
    }
  }

  // ----- What stores accept -----

  /**
   A record is refused for the first of its flaws. Without any it is stored
   under a new id, accepted unchanged under its own, and a conflict otherwise.
   */
  lemma RecordRefusesFirst(m: Ledger, run: Run)
    ensures var (n, err) := Recorded(m, run);
            if !Flawless(run) then n == m && RefusesFirst(err, run)
            else if run.runID !in m then n == m[run.runID := NormalizeCapture(run)] && err.None?
            else n == m && err == if m[run.runID] == NormalizeCapture(run) then None else Some(Conflict)
  {
    ValidateFinds(run);
  }

  /** The tables refuse the same records, and new ones with a repeated attempted field. */
  lemma TablesRefuseFirst(t: Tables, run: Run)
    ensures var (n, err) := RecordedT(t, run);
            && (!Flawless(run) ==> n == t && RefusesFirst(err, run))
            && (Flawless(run) && run.runID !in t.runs ==>
                  (err.None? <==> forall i, j | 0 <= i < j < |AttemptedOf(run.capture)| ::
                                    AttemptedOf(run.capture)[i] != AttemptedOf(run.capture)[j])
                  && (err.None? ==> n.runs.Keys == t.runs.Keys + {run.runID})
                  && (err.Some? ==> n == t && err == Some(ConstraintViolated)))
  {
    ValidateFinds(run);
    DistinctNormalized(run);
  }

  lemma DistinctNormalized(r: Run)
    ensures Distinct(AttemptedOf(NormalizeCapture(r).capture)) <==> Distinct(AttemptedOf(r.capture))
  {
    var a, b := AttemptedOf(NormalizeCapture(r).capture), AttemptedOf(r.capture);
    if Distinct(a) { StillDistinct(a, b); }
    if Distinct(b) { StillDistinct(b, a); }
  }

  lemma StillDistinct(a: seq<string>, b: seq<string>)
    requires multiset(a) == multiset(b) && Distinct(a)
    ensures Distinct(b)
  {
    DistinctMultiset(a);
    MultiplicityOne(b, set x | x in a);
  }

  // ----- What stores hold -----

  /** A project, a commit and, on a dirty tree, a config hash; a status and attempted fields the ledger knows. */
  ghost predicate Reconstructible(r: Run) {
    && !WhiteSpace(r.identity.project)
    && !WhiteSpace(r.identity.gitCommit)
    && (r.identity.gitDirty ==> !WhiteSpace(r.identity.configHash))
    && r.status in {Unset, Created, Running, Succeeded, Failed, Cancelled}
    && forall f | f in AttemptedOf(r.capture) ::
         f in {"host", "device", "framework_version", "config_hash", "dataset_version", "model_version",
               "checkpoint_uri"}
  }

  lemma FlawlessIsReconstructible(r: Run)
    requires Flawless(r)
    ensures Reconstructible(r) && (r.endedAt.Some? ==> r.startedAt.ns <= r.endedAt.value.ns)
  {
    assert !HasFlaw(r, ProjectRequired) && !HasFlaw(r, GitCommitRequired) && !HasFlaw(r, DirtyTree);
    assert !HasFlaw(r, StatusUnknown) && !HasFlaw(r, CaptureFieldUnknown) && !HasFlaw(r, EndsBeforeStart);
  }

  /** Over every sequence of writes, whatever the reference store holds is reconstructible and ends after it starts. */
  lemma StoredAreTrustworthy(ws: seq<Write>, id: string)
    requires id in After(map[], ws)
    ensures var r := After(map[], ws)[id];
            r.runID == id && Reconstructible(r) && (r.endedAt.Some? ==> r.startedAt.ns <= r.endedAt.value.ns)
  {
    HistoryGrows(map[], ws);
    ValidateFinds(After(map[], ws)[id]);
    FlawlessIsReconstructible(After(map[], ws)[id]);
  }

  ghost predicate RowsReconstructible(t: Tables) {
    Consistent(t) && forall id | id in t.runs :: Reconstructible(Stored(t, id))
  }

  lemma ReadBackReconstructible(r: Run)
    requires Reconstructible(r)
    ensures Reconstructible(ReadBack(r))
  {
  }

  lemma NewIsReconstructible(r: Run)
    requires Lineage.Valid(r)
    ensures Reconstructible(r)
  {
    ValidateFinds(r);
    FlawlessIsReconstructible(r);
  }

  lemma InsertedReconstructible(t: Tables, r: Run)
    requires Consistent(t) && r.runID !in t.runs && Lineage.Valid(r)
    ensures Reconstructible(Stored(Inserted(t, r), r.runID))
  {
    NewIsReconstructible(r);
    InsertedStoredSelf(t, r);
    ReadBackReconstructible(r);
  }

  lemma RecordedRowsReconstructible(t: Tables, run: Run, id: string)
    requires RowsReconstructible(t) && id in RecordedT(t, run).0.runs
    ensures Reconstructible(Stored(RecordedT(t, run).0, id))
  {
    var r, n := NormalizeCapture(run), RecordedT(t, run).0;
    if n != t {
      assert n == Inserted(t, r) && r.runID !in t.runs && Lineage.Valid(r);
      if id in t.runs { InsertedStoredOther(t, r, id); } else { InsertedReconstructible(t, r); }
    }
  }

  lemma UpdateStaysReconstructible(r: Run, p: Patch, now: int)
    requires Reconstructible(r) && ApplyPatch(r, p, now).Ok?
    ensures Reconstructible(UpdateReadBack(r, ApplyPatch(r, p, now).value, p))
  {
    ApplyEvolves(r, p, now);
  }

  lemma UpdatedRowsReconstructible(t: Tables, id: string, p: Patch, now: int, other: string)
    requires RowsReconstructible(t) && other in UpdatedT(t, id, p, now).0.runs
    ensures Reconstructible(Stored(UpdatedT(t, id, p, now).0, other))
  {
    if id in t.runs && ApplyPatch(Stored(t, id), p, now).Ok? {
      var u := ApplyPatch(Stored(t, id), p, now).value;
      ApplyEvolves(Stored(t, id), p, now);
      if other == id {
        UpdateStaysReconstructible(Stored(t, id), p, now);
        OverwrittenStoredSelf(t, id, u, p);
      } else {
        OverwrittenStoredOther(t, id, u, p, other);
      }
    }
  }

  lemma WriteKeepsRows(t: Tables, w: Write)
    requires RowsReconstructible(t)
    ensures RowsReconstructible(DuckAnswer(t, WriteCall(w)).0)
  {
    AnswerAgrees(t, WriteCall(w));
    var n := DuckAnswer(t, WriteCall(w)).0;
    forall id | id in n.runs ensures Reconstructible(Stored(n, id)) {
      match w {
        case RecordRun(run) => RecordedRowsReconstructible(t, run, id);
        case UpdateRun(other, p, now) => UpdatedRowsReconstructible(t, other, p, now, id);
      }
    }
  }

  /** Over every sequence of writes, so is whatever the tables hold; its end is another matter once cut to 64 bits. */
  lemma {:induction false} TablesAreTrustworthy(t: Tables, ws: seq<Write>)
    requires RowsReconstructible(t)
    ensures RowsReconstructible(DuckRetries.AfterT(t, ws))
    decreases |ws|
  {
    if |ws| == 0 {
    } else {
      WriteKeepsRows(t, ws[0]);
      TablesAreTrustworthy(DuckAnswer(t, WriteCall(ws[0])).0, ws[1..]);
    }
  }
}
