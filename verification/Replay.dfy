/**
 Replaying the spool: lines are sent again, and none is lost unless the server
 answered for it.
 */
module Replay {
  import opened Sequences

  // ----- A spool file, as text and as lines -----

  const NEWLINE := '\n'

  predicate OneLine(l: string) {
    NEWLINE !in l
  }

  /** `str.isspace` of one character. */
  predicate IsSpace(c: char) {
    var u := c as int;
    || 0x09 <= u <= 0x0D || 0x1C <= u <= 0x20 || u == 0x85 || u == 0xA0 || u == 0x1680
    || 0x2000 <= u <= 0x200A || u == 0x2028 || u == 0x2029 || u == 0x202F || u == 0x205F || u == 0x3000
  }

  /** `line.strip()` is empty. */
  predicate Blank(l: string) {
    forall i :: 0 <= i < |l| ==> IsSpace(l[i])
  }

  /** The text up to the first newline, and what follows it. */
  function FirstLine(s: string): (r: (string, string))
    requires NEWLINE in s
    ensures s == r.0 + [NEWLINE] + r.1 && OneLine(r.0)
  {
    if s[0] == NEWLINE then ("", s[1..])
    else
      var r := FirstLine(s[1..]);
      ([s[0]] + r.0, r.1)
  }

  /** `splitlines`: a final newline ends the last line rather than starting another. */
  function Lines(s: string): (ls: seq<string>)
    decreases |s|
  {
    if |s| == 0 then []
    else if NEWLINE !in s then [s]
    else
      var (l, rest) := FirstLine(s);
      [l] + Lines(rest)
  }

  function Render(ls: seq<string>): string {
    if |ls| == 0 then "" else ls[0] + [NEWLINE] + Render(ls[1..])
  }

  function NonBlank(ls: seq<string>): (out: seq<string>)
    ensures forall l | l in out :: l in ls && !Blank(l)
  {
    if |ls| == 0 then []
    else (if Blank(ls[0]) then [] else [ls[0]]) + NonBlank(ls[1..])
  }

  lemma {:induction false} NonBlankExactly(ls: seq<string>, l: string)
    ensures l in NonBlank(ls) <==> l in ls && !Blank(l)
  {
    if |ls| > 0 {
      NonBlankExactly(ls[1..], l);
      assert ls == [ls[0]] + ls[1..];
    }
  }

  /** The records a spool holds. */
  function Records(s: string): seq<string> {
    NonBlank(Lines(s))
  }

  /** Lines are the text between newlines; only the last may lack its own. */
  lemma {:induction false} LinesExactly(s: string)
    ensures forall l | l in Lines(s) :: NEWLINE !in l
    ensures Render(Lines(s)) == if s == "" || s[|s| - 1] == NEWLINE then s else s + [NEWLINE]
    decreases |s|
  {
    if |s| > 0 && NEWLINE in s {
      var (l, rest) := FirstLine(s);
      LinesExactly(rest);
      assert s == l + [NEWLINE] + rest;
    }
  }

  /** Python's white space, by code point. */
  const WHITE_SPACE: set<int> := {
    0x09, 0x0A, 0x0B, 0x0C, 0x0D, 0x1C, 0x1D, 0x1E, 0x1F, 0x20, 0x85, 0xA0, 0x1680,
    0x2000, 0x2001, 0x2002, 0x2003, 0x2004, 0x2005, 0x2006, 0x2007, 0x2008, 0x2009, 0x200A,
    0x2028, 0x2029, 0x202F, 0x205F, 0x3000
  }

  lemma IsSpaceExactly(c: char)
    ensures IsSpace(c) <==> c as int in WHITE_SPACE
  {
  }

  /** A line of the spool is a record exactly when some character of it is not white space. */
  lemma RecordsExactly(s: string, l: string)
    ensures l in Records(s) <==> l in Lines(s) && exists i | 0 <= i < |l| :: l[i] as int !in WHITE_SPACE
  {
    NonBlankExactly(Lines(s), l);
    forall i | 0 <= i < |l| { IsSpaceExactly(l[i]); }
  }

  /** Empty, or ending in a newline: only whole lines were ever appended. */
  predicate Whole(s: string) {
    s == "" || s[|s| - 1] == NEWLINE
  }

  lemma {:induction false} FirstLineOf(l: string, rest: string)
    requires OneLine(l)
    ensures FirstLine(l + [NEWLINE] + rest) == (l, rest)
  {
    var s := l + [NEWLINE] + rest;
    if |l| == 0 {
      assert s[1..] == rest;
    } else {
      assert s[1..] == l[1..] + [NEWLINE] + rest;
      FirstLineOf(l[1..], rest);
      assert s[0] == l[0] && [l[0]] + l[1..] == l;
    }
  }

  lemma LinesOf(l: string, rest: string)
    requires OneLine(l)
    ensures Lines(l + [NEWLINE] + rest) == [l] + Lines(rest)
  {
    FirstLineOf(l, rest);
  }

  lemma {:induction false} LinesAreLines(s: string)
    ensures forall l | l in Lines(s) :: OneLine(l)
    decreases |s|
  {
    if |s| != 0 && NEWLINE in s {
      LinesAreLines(FirstLine(s).1);
    }
  }

  /** Appending to whole lines adds lines and changes none. */
  lemma {:induction false} LinesAppend(s: string, t: string)
    requires Whole(s)
    ensures Lines(s + t) == Lines(s) + Lines(t)
    decreases |s|
  {
    if |s| == 0 {
      assert s + t == t;
    } else {
      var l, rest := SplitFirst(s);
      LinesAppend(rest, t);
      LinesOf(l, rest + t);
      Associative(l + [NEWLINE], rest, t);
      Associative([l], Lines(rest), Lines(t));
    }
  }

  lemma SplitFirst(s: string) returns (l: string, rest: string)
    requires Whole(s) && s != ""
    ensures OneLine(l) && s == l + [NEWLINE] + rest && Whole(rest) && |rest| < |s|
    ensures Lines(s) == [l] + Lines(rest)
  {
    assert s[|s| - 1] in s;
    l, rest := FirstLine(s).0, FirstLine(s).1;
    WholeTail(l + [NEWLINE], rest);
  }

  lemma {:induction false} LinesOfRender(ls: seq<string>)
    requires forall l | l in ls :: OneLine(l)
    ensures Lines(Render(ls)) == ls && Whole(Render(ls))
  {
    if |ls| == 0 {
    } else {
      LinesOfRender(ls[1..]);
      LinesOf(ls[0], Render(ls[1..]));
    }
  }

  lemma {:induction false} NonBlankConcat(a: seq<string>, b: seq<string>)
    ensures NonBlank(a + b) == NonBlank(a) + NonBlank(b)
  {
    if |a| == 0 {
      assert a + b == b;
    } else {
      assert (a + b)[0] == a[0] && (a + b)[1..] == a[1..] + b;
      NonBlankConcat(a[1..], b);
      Associative(if Blank(a[0]) then [] else [a[0]], NonBlank(a[1..]), NonBlank(b));
    }
  }

  lemma {:induction false} NonBlankAll(ls: seq<string>)
    requires forall l | l in ls :: !Blank(l)
    ensures NonBlank(ls) == ls
  {
    if |ls| == 0 {
    } else {
      NonBlankAll(ls[1..]);
    }
  }

  lemma RecordsAppend(s: string, t: string)
    requires Whole(s)
    ensures Records(s + t) == Records(s) + Records(t)
  {
    LinesAppend(s, t);
    NonBlankConcat(Lines(s), Lines(t));
  }

  lemma RecordsOfRewrite(kept: seq<string>, tail: string)
    requires forall l | l in kept :: OneLine(l) && !Blank(l)
    ensures Records(Render(kept) + tail) == kept + Records(tail)
    ensures Whole(tail) ==> Whole(Render(kept) + tail)
  {
    LinesOfRender(kept);
    RecordsAppend(Render(kept), tail);
    NonBlankAll(kept);
  }

  lemma RecordsAreLines(s: string)
    ensures forall l | l in Records(s) :: OneLine(l) && !Blank(l)
  {
    LinesAreLines(s);
  }

  // ----- One call, run to its end -----

  /** What came of one POST; a lost answer means the server accepted and the client cannot know. */
  datatype Answer = Accepted | Refused | LostAnswer | Unreached

  predicate Stops(a: Answer) {
    a.LostAnswer? || a.Unreached?
  }

  function Chosen<T>(lines: seq<T>, answers: seq<Answer>, which: Answer): seq<T>
    requires |lines| <= |answers|
  {
    if |lines| == 0 then []
    else
      var n := |lines| - 1;
      var before := Chosen(lines[..n], answers, which);
      if answers[n] == which then before + [lines[n]] else before
  }

  /**
   `"\\n".join(remaining)` plus a final newline if there is anything, then the
   bytes appended since the call first read the file.
   */
  function Rewritten(remaining: seq<string>, tail: string): string {
    Render(remaining) + tail
  }

  /** Records `[..k]` were all answered for, and the k-th, if any, was not. */
  ghost predicate StopsAt(answers: seq<Answer>, n: nat, k: nat)
    requires n <= |answers|
  {
    k <= n && (forall i | 0 <= i < k :: !Stops(answers[i])) && (k < n ==> Stops(answers[k]))
  }

  method SendInTurn(lines: seq<string>, answers: seq<Answer>) returns (k: nat, sent: seq<string>, rejected: seq<string>)
    requires |lines| <= |answers|
    ensures StopsAt(answers, |lines|, k)
    ensures sent == Chosen(lines[..k], answers, Accepted)
    ensures rejected == Chosen(lines[..k], answers, Refused)
  {
    k, sent, rejected := 0, [], [];
    while k < |lines| && !Stops(answers[k])
      invariant k <= |lines|
      invariant forall j | 0 <= j < k :: !Stops(answers[j])
      invariant sent == Chosen(lines[..k], answers, Accepted)
      invariant rejected == Chosen(lines[..k], answers, Refused)
    {
      assert lines[..k + 1][..k] == lines[..k];
      if answers[k].Accepted? {
        sent := sent + [lines[k]];
      } else {
        rejected := rejected + [lines[k]];
      }
      k := k + 1;
    }
  }

  lemma PartitionStep<T>(front: seq<T>, a: seq<T>, r: seq<T>, last: T)
    requires multiset(front) == multiset(a) + multiset(r)
    ensures multiset(front + [last]) == multiset(a + [last]) + multiset(r)
    ensures multiset(front + [last]) == multiset(a) + multiset(r + [last])
  {
  }

  /** Records answered for are either accepted or refused. */
  lemma {:induction false} ChosenPartition<T>(lines: seq<T>, answers: seq<Answer>)
    requires |lines| <= |answers| && forall i | 0 <= i < |lines| :: !Stops(answers[i])
    ensures multiset(lines) == multiset(Chosen(lines, answers, Accepted)) + multiset(Chosen(lines, answers, Refused))
  {
    if |lines| == 0 {
    } else {
      var front, last := lines[..|lines| - 1], lines[|lines| - 1];
      var a, r := Chosen(front, answers, Accepted), Chosen(front, answers, Refused);
      assert lines == front + [last];
      ChosenPartition(front, answers);
      PartitionStep(front, a, r, last);
      if answers[|lines| - 1].Accepted? {
        assert Chosen(lines, answers, Accepted) == a + [last] && Chosen(lines, answers, Refused) == r;
      } else {
        assert Chosen(lines, answers, Accepted) == a && Chosen(lines, answers, Refused) == r + [last];
      }
    }
  }

  /**
   A replay that completes: `answers[i]` is what the i-th POST met and
   `appended` what other processes added before the tail was read. The initial
   records split at `k` into those accepted or quarantined and a kept suffix,
   and the new spool holds that suffix followed by what was appended. A last
   line without its newline is read and rewritten like the others; only a file
   of blanks without one is left as it is.
   */
  method ReplaySpool(spool: string, quarantine: string, answers: seq<Answer>, appended: string)
    returns (after: string, quarantined: string, sent: seq<string>, rejected: seq<string>, k: nat)
    requires |Records(spool)| <= |answers|
    ensures StopsAt(answers, |Records(spool)|, k)
    ensures sent == Chosen(Records(spool)[..k], answers, Accepted)
    ensures rejected == Chosen(Records(spool)[..k], answers, Refused)
    ensures multiset(Records(spool)) == multiset(sent) + multiset(rejected) + multiset(Records(spool)[k..])
    ensures after == if Records(spool) == [] then spool + appended else Rewritten(Records(spool)[k..], appended)
    ensures quarantined == quarantine + Render(rejected)
    ensures Records(spool) != [] ==> Records(after) == Records(spool)[k..] + Records(appended)
    ensures Whole(spool) ==> Records(after) == Records(spool)[k..] + Records(appended)
    ensures Whole(quarantine) ==> Records(quarantined) == Records(quarantine) + rejected && Whole(quarantined)
  {
    var lines := Records(spool);
    if |lines| == 0 {
      if Whole(spool) { RecordsAppend(spool, appended); }
      assert quarantine + "" == quarantine;
      return spool + appended, quarantine, [], [], 0;
    }
    k, sent, rejected := SendInTurn(lines, answers);
    ChosenPartition(lines[..k], answers);
    assert lines == lines[..k] + lines[k..];
    RecordsAreLines(spool);
    RecordsOfRewrite(lines[k..], appended);
    after := Rewritten(lines[k..], appended);
    ChosenMembers(lines[..k], answers, Refused);
    quarantined := AppendLines(quarantine, rejected);
  }

  lemma {:induction false} ChosenMembers<T>(lines: seq<T>, answers: seq<Answer>, which: Answer)
    requires |lines| <= |answers|
    ensures forall l | l in Chosen(lines, answers, which) :: l in lines
  {
    if |lines| == 0 {
    } else {
      ChosenMembers(lines[..|lines| - 1], answers, which);
    }
  }

  lemma AppendOneLine(file: string, out: string, lines: seq<string>, i: nat)
    requires i < |lines| && OneLine(lines[i]) && !Blank(lines[i])
    requires Whole(out) && Records(out) == Records(file) + lines[..i]
    ensures Whole(out + (lines[i] + [NEWLINE]))
    ensures Records(out + (lines[i] + [NEWLINE])) == Records(file) + lines[..i + 1]
  {
    var line := lines[i];
    RecordsOfLine(line);
    RecordsAppend(out, line + [NEWLINE]);
    OneMore(lines, i);
    Associative(Records(file), lines[..i], [line]);
  }

  lemma {:induction false} RenderAppend(front: seq<string>, last: string)
    ensures Render(front + [last]) == Render(front) + (last + [NEWLINE])
  {
    if |front| == 0 {
      assert front + [last] == [last];
      assert Render([last]) == last + [NEWLINE] + Render([]);
    } else {
      assert (front + [last])[1..] == front[1..] + [last];
      RenderAppend(front[1..], last);
      Associative(front[0] + [NEWLINE], Render(front[1..]), last + [NEWLINE]);
    }
  }

  lemma RenderOneMore(lines: seq<string>, i: nat)
    requires i < |lines|
    ensures Render(lines[..i + 1]) == Render(lines[..i]) + (lines[i] + [NEWLINE])
  {
    OneMore(lines, i);
    RenderAppend(lines[..i], lines[i]);
  }

  /** `_quarantine`: one write per rejected line, at the end of the file. */
  method AppendLines(file: string, lines: seq<string>) returns (out: string)
    requires forall i | 0 <= i < |lines| :: OneLine(lines[i]) && !Blank(lines[i])
    ensures out == file + Render(lines)
    ensures Whole(file) ==> Records(out) == Records(file) + lines && Whole(out)
  {
    out := file;
    for i := 0 to |lines|
      invariant out == file + Render(lines[..i])
      invariant Whole(file) ==> Whole(out) && Records(out) == Records(file) + lines[..i]
    {
      if Whole(file) { AppendOneLine(file, out, lines, i); }
      RenderOneMore(lines, i);
      Associative(file, Render(lines[..i]), lines[i] + [NEWLINE]);
      out := out + (lines[i] + [NEWLINE]);
    }
    assert lines[..|lines|] == lines;
  }

  // ----- Crashes and concurrent appends -----

  /** Where a replay stands. `done` counts the records already answered for in this call. */
  datatype Phase =
    | Idle
    | Sending(raw: string, lines: seq<string>, done: nat, rejected: seq<string>)
    | Rewriting(raw: string, lines: seq<string>, done: nat, rejected: seq<string>)
    | TailRead(data: string, lines: seq<string>, done: nat, rejected: seq<string>)
    | Replaced(rejected: seq<string>)

  /** `spooled` remembers every record ever put in the spool; the last two what the server said. */
  datatype World = World(
    spool: string,
    quarantine: string,
    phase: Phase,
    spooled: multiset<string>,
    accepted: multiset<string>,
    refused: multiset<string>)

  datatype Event =
    | Append(line: string)
    | Begin
    | Post(answer: Answer)
    | StopSending
    | ReadTail
    | Replace
    | Quarantine
    | Finish
    | Crash

  function Counted(w: World, line: string, a: Answer): World {
    match a
    case Accepted => w.(accepted := w.accepted + multiset{line})
    case LostAnswer => w.(accepted := w.accepted + multiset{line})
    case Refused => w.(refused := w.refused + multiset{line})
    case Unreached => w
  }

  predicate Enabled(w: World, e: Event) {
    match e
    case Append(line) => OneLine(line) && !Blank(line) && !w.phase.TailRead?
    case Begin => w.phase.Idle? && |Records(w.spool)| > 0
    case Post(_) => w.phase.Sending? && w.phase.done < |w.phase.lines|
    case StopSending => w.phase.Sending? && w.phase.done == |w.phase.lines|
    case ReadTail => w.phase.Rewriting? && |w.phase.raw| <= |w.spool| && w.phase.done <= |w.phase.lines|
    case Replace => w.phase.TailRead?
    case Quarantine => w.phase.Replaced? && |w.phase.rejected| > 0
    case Finish => w.phase.Replaced? && |w.phase.rejected| == 0
    case Crash => true
  }

  function Next(w: World, e: Event): World
    requires Enabled(w, e)
  {
    match e
    case Append(line) => w.(spool := w.spool + (line + [NEWLINE]), spooled := w.spooled + multiset{line})
    case Begin => w.(phase := Sending(w.spool, Records(w.spool), 0, []))
    case Post(a) =>
      var p := w.phase;
      var line := p.lines[p.done];
      var n := Counted(w, line, a);
      if Stops(a) then n.(phase := Rewriting(p.raw, p.lines, p.done, p.rejected))
      else n.(phase := Sending(p.raw, p.lines, p.done + 1, if a.Refused? then p.rejected + [line] else p.rejected))
    case StopSending => w.(phase := Rewriting(w.phase.raw, w.phase.lines, w.phase.done, w.phase.rejected))
    case ReadTail =>
      var p := w.phase;
      w.(phase := TailRead(Rewritten(p.lines[p.done..], w.spool[|p.raw|..]), p.lines, p.done, p.rejected))
    case Replace => w.(spool := w.phase.data, phase := Replaced(w.phase.rejected))
    case Quarantine =>
      w.(quarantine := w.quarantine + w.phase.rejected[0] + [NEWLINE], phase := Replaced(w.phase.rejected[1..]))
    case Finish => w.(phase := Idle)
    case Crash => w.(phase := Idle)
  }

  /** Records this call has already been answered for, still in the file. */
  ghost function Settled(w: World): multiset<string> {
    if (w.phase.Sending? || w.phase.Rewriting? || w.phase.TailRead?) && w.phase.done <= |w.phase.lines|
    then multiset(w.phase.lines[..w.phase.done]) else multiset{}
  }

  /** Every record ever spooled is in the spool or answered for. */
  ghost predicate NothingLost(w: World) {
    w.spooled <= multiset(Records(w.spool)) + w.accepted + w.refused
  }

  /** Nothing lost, even counting this call's settled records as gone from the file. */
  ghost predicate Accounted(w: World) {
    w.spooled + Settled(w) <= multiset(Records(w.spool)) + w.accepted + w.refused
  }

  /** What a call in progress remembers still fits the file. */
  ghost predicate InStep(w: World) {
    && Whole(w.spool)
    && (w.phase.Sending? || w.phase.Rewriting? ==>
          && w.phase.done <= |w.phase.lines|
          && w.phase.raw <= w.spool && Whole(w.phase.raw)
          && w.phase.lines == Records(w.phase.raw))
    && (w.phase.TailRead? ==>
          && w.phase.done <= |w.phase.lines|
          && Whole(w.phase.data)
          && multiset(Records(w.spool)) == Settled(w) + multiset(Records(w.phase.data)))
  }

  ghost predicate Inv(w: World) {
    Accounted(w) && InStep(w)
  }

  lemma RecordsOfLine(line: string)
    requires OneLine(line) && !Blank(line)
    ensures Records(line + [NEWLINE]) == [line] && Whole(line + [NEWLINE])
  {
    LinesOf(line, "");
    assert line + [NEWLINE] + "" == line + [NEWLINE];
    NonBlankAll([line]);
  }

  lemma AppendKeeps(w: World, line: string)
    requires Inv(w) && Enabled(w, Append(line))
    ensures Inv(Next(w, Append(line)))
  {
    RecordsOfLine(line);
    RecordsAppend(w.spool, line + [NEWLINE]);
    var n := Next(w, Append(line));
    AddBoth(w.spooled, Settled(w), Records(w.spool), w.accepted, w.refused, line);
  }

  lemma AddBoth<T>(spooled: multiset<T>, settled: multiset<T>, file: seq<T>,
                   accepted: multiset<T>, refused: multiset<T>, line: T)
    requires spooled + settled <= multiset(file) + accepted + refused
    ensures spooled + multiset{line} + settled <= multiset(file + [line]) + accepted + refused
  {
    forall x ensures (spooled + multiset{line} + settled)[x] <= (multiset(file + [line]) + accepted + refused)[x] {
      assert (spooled + settled)[x] <= (multiset(file) + accepted + refused)[x];
    }
  }

  lemma SettledOneMore<T>(lines: seq<T>, done: nat)
    requires done < |lines|
    ensures multiset(lines[..done + 1]) == multiset(lines[..done]) + multiset{lines[done]}
  {
    OneMore(lines, done);
  }

  lemma CountAccepted<T>(spooled: multiset<T>, settled: multiset<T>, file: multiset<T>,
                         accepted: multiset<T>, refused: multiset<T>, line: T)
    requires spooled + settled <= file + accepted + refused
    ensures spooled + (settled + multiset{line}) <= file + (accepted + multiset{line}) + refused
    ensures spooled + settled <= file + (accepted + multiset{line}) + refused
  {
    forall x
      ensures (spooled + (settled + multiset{line}))[x] <= (file + (accepted + multiset{line}) + refused)[x]
      ensures (spooled + settled)[x] <= (file + (accepted + multiset{line}) + refused)[x]
    {
      assert (spooled + settled)[x] <= (file + accepted + refused)[x];
    }
  }

  lemma CountRefused<T>(spooled: multiset<T>, settled: multiset<T>, file: multiset<T>,
                        accepted: multiset<T>, refused: multiset<T>, line: T)
    requires spooled + settled <= file + accepted + refused
    ensures spooled + (settled + multiset{line}) <= file + accepted + (refused + multiset{line})
  {
    forall x ensures (spooled + (settled + multiset{line}))[x] <= (file + accepted + (refused + multiset{line}))[x] {
      assert (spooled + settled)[x] <= (file + accepted + refused)[x];
    }
  }

  lemma PostSettles(w: World, a: Answer)
    requires Enabled(w, Post(a))
    ensures Settled(Next(w, Post(a)))
         == if Stops(a) then Settled(w) else Settled(w) + multiset{w.phase.lines[w.phase.done]}
  {
    SettledOneMore(w.phase.lines, w.phase.done);
  }

  lemma PostAccounted(w: World, a: Answer)
    requires Accounted(w) && Enabled(w, Post(a))
    ensures Accounted(Next(w, Post(a)))
  {
    var line, file := w.phase.lines[w.phase.done], multiset(Records(w.spool));
    PostSettles(w, a);
    if a.Refused? {
      CountRefused(w.spooled, Settled(w), file, w.accepted, w.refused, line);
    } else {
      CountAccepted(w.spooled, Settled(w), file, w.accepted, w.refused, line);
    }
  }

  lemma PostKeeps(w: World, a: Answer)
    requires Inv(w) && Enabled(w, Post(a))
    ensures Inv(Next(w, Post(a)))
  {
    PostAccounted(w, a);
    PostInStep(w, a);
  }

  lemma PostInStep(w: World, a: Answer)
    requires InStep(w) && Enabled(w, Post(a))
    ensures InStep(Next(w, Post(a)))
  {
    var n := Next(w, Post(a));
    assert n.spool == w.spool && (n.phase.Sending? || n.phase.Rewriting?);
    assert n.phase.raw == w.phase.raw && n.phase.lines == w.phase.lines;
  }

  /** What the rewrite drops is exactly what was answered for. */
  lemma RewriteDropsSettled(raw: string, tail: string, done: nat)
    requires Whole(raw) && Whole(raw + tail) && done <= |Records(raw)|
    ensures Whole(Rewritten(Records(raw)[done..], tail))
    ensures multiset(Records(raw + tail))
         == multiset(Records(raw)[..done]) + multiset(Records(Rewritten(Records(raw)[done..], tail)))
  {
    RecordsAppend(raw, tail);
    RecordsAreLines(raw);
    WholeTail(raw, tail);
    RecordsOfRewrite(Records(raw)[done..], tail);
    SplitMultiset(Records(raw), Records(tail), done);
  }

  lemma WholeTail(raw: string, tail: string)
    requires Whole(raw + tail)
    ensures Whole(tail)
  {
    if |tail| > 0 { assert (raw + tail)[|raw + tail| - 1] == tail[|tail| - 1]; }
  }

  lemma SplitMultiset<T>(lines: seq<T>, more: seq<T>, done: nat)
    requires done <= |lines|
    ensures multiset(lines + more) == multiset(lines[..done]) + multiset(lines[done..] + more)
  {
    assert lines + more == lines[..done] + (lines[done..] + more);
  }

  lemma ReadTailKeeps(w: World)
    requires Inv(w) && Enabled(w, ReadTail)
    ensures Inv(Next(w, ReadTail))
  {
    var p := w.phase;
    var tail := w.spool[|p.raw|..];
    assert w.spool == p.raw + tail;
    RewriteDropsSettled(p.raw, tail, p.done);
  }

  lemma Cancel<T>(spooled: multiset<T>, settled: multiset<T>, kept: multiset<T>,
               accepted: multiset<T>, refused: multiset<T>)
    requires spooled + settled <= settled + kept + accepted + refused
    ensures spooled <= kept + accepted + refused
  {
    forall x ensures spooled[x] <= (kept + accepted + refused)[x] {
      assert (spooled + settled)[x] <= (settled + kept + accepted + refused)[x];
    }
  }

  lemma ReplaceKeeps(w: World)
    requires Inv(w) && Enabled(w, Replace)
    ensures Inv(Next(w, Replace))
  {
    Cancel(w.spooled, Settled(w), multiset(Records(w.phase.data)), w.accepted, w.refused);
  }

  /** Every step keeps the invariant, a crash at any point included. */
  lemma StepKeeps(w: World, e: Event)
    requires Inv(w) && Enabled(w, e)
    ensures Inv(Next(w, e))
  {
    match e {
      case Append(line) => AppendKeeps(w, line);
      case Begin =>
      case Post(a) => PostKeeps(w, a);
      case StopSending =>
      case ReadTail => ReadTailKeeps(w);
      case Replace => ReplaceKeeps(w);
      case Quarantine =>
      case Finish =>
      case Crash =>
    }
  }

  /** A run of the system: each event enabled where it happens. */
  ghost predicate Execution(w: World, es: seq<Event>, end: World)
    decreases |es|
  {
    if |es| == 0 then w == end else Enabled(w, es[0]) && Execution(Next(w, es[0]), es[1..], end)
  }

  // ----- A completed call is one such run -----

  lemma {:induction false} ExecutionConcat(w: World, es: seq<Event>, mid: World, more: seq<Event>, end: World)
    requires Execution(w, es, mid) && Execution(mid, more, end)
    ensures Execution(w, es + more, end)
    decreases |es|
  {
    if |es| == 0 {
      assert es + more == more;
    } else {
      ExecutionConcat(Next(w, es[0]), es[1..], mid, more, end);
      assert (es + more)[0] == es[0] && (es + more)[1..] == es[1..] + more;
    }
  }

  lemma ExecutionOne(w: World, e: Event)
    requires Enabled(w, e)
    ensures Execution(w, [e], Next(w, e))
  {
    assert [e][1..] == [];
  }

  lemma ExecutionThen(w: World, es: seq<Event>, mid: World, e: Event)
    requires Execution(w, es, mid) && Enabled(mid, e)
    ensures Execution(w, es + [e], Next(mid, e))
  {
    ExecutionOne(mid, e);
    ExecutionConcat(w, es, mid, [e], Next(mid, e));
  }

  function Posts(answers: seq<Answer>): (es: seq<Event>)
    ensures |es| == |answers| && forall i | 0 <= i < |es| :: es[i] == Post(answers[i])
  {
    seq(|answers|, i requires 0 <= i < |answers| => Post(answers[i]))
  }

  function Appends(added: seq<string>): seq<Event> {
    if |added| == 0 then [] else [Append(added[0])] + Appends(added[1..])
  }

  function Quarantines(n: nat): seq<Event> {
    if n == 0 then [] else [Quarantine] + Quarantines(n - 1)
  }

  /** The world once `k` of `lines` were answered for, `sent` and `rejected` being which. */
  ghost function SentAs(w: World, lines: seq<string>, k: nat, sent: seq<string>, rejected: seq<string>): World {
    w.(phase := Sending(w.spool, lines, k, rejected),
       accepted := w.accepted + multiset(sent),
       refused := w.refused + multiset(rejected))
  }

  /** The world once the first `k` records were answered for. */
  ghost function Sent(w: World, answers: seq<Answer>, k: nat): World
    requires k <= |Records(w.spool)| <= |answers|
  {
    var front := Records(w.spool)[..k];
    SentAs(w, Records(w.spool), k, Chosen(front, answers, Accepted), Chosen(front, answers, Refused))
  }

  lemma ChosenStep<T>(lines: seq<T>, answers: seq<Answer>, which: Answer, k: nat)
    requires k < |lines| <= |answers|
    ensures Chosen(lines[..k + 1], answers, which)
         == if answers[k] == which then Chosen(lines[..k], answers, which) + [lines[k]]
            else Chosen(lines[..k], answers, which)
  {
    assert lines[..k + 1][..k] == lines[..k];
  }

  lemma SentAsStep(w: World, lines: seq<string>, k: nat, sent: seq<string>, rejected: seq<string>, a: Answer)
    requires k < |lines| && !Stops(a)
    ensures Next(SentAs(w, lines, k, sent, rejected), Post(a))
         == SentAs(w, lines, k + 1, if a.Accepted? then sent + [lines[k]] else sent,
                   if a.Refused? then rejected + [lines[k]] else rejected)
  {
    if a.Accepted? {
      assert w.accepted + multiset(sent + [lines[k]]) == w.accepted + multiset(sent) + multiset{lines[k]};
    } else {
      assert w.refused + multiset(rejected + [lines[k]]) == w.refused + multiset(rejected) + multiset{lines[k]};
    }
  }

  lemma SentStep(w: World, answers: seq<Answer>, k: nat)
    requires k < |Records(w.spool)| <= |answers| && !Stops(answers[k])
    ensures Next(Sent(w, answers, k), Post(answers[k])) == Sent(w, answers, k + 1)
  {
    var lines := Records(w.spool);
    ChosenStep(lines, answers, Accepted, k);
    ChosenStep(lines, answers, Refused, k);
    SentAsStep(w, lines, k, Chosen(lines[..k], answers, Accepted), Chosen(lines[..k], answers, Refused), answers[k]);
  }

  lemma {:induction false} SendingRuns(w: World, answers: seq<Answer>, k: nat)
    requires w.phase.Idle? && 0 < |Records(w.spool)| <= |answers|
    requires k <= |Records(w.spool)| && forall i | 0 <= i < k :: !Stops(answers[i])
    ensures Execution(w, [Begin] + Posts(answers[..k]), Sent(w, answers, k))
    decreases k
  {
    if k == 0 {
      ExecutionOne(w, Begin);
      assert Next(w, Begin) == Sent(w, answers, 0);
      assert [Begin] + Posts(answers[..0]) == [Begin];
    } else {
      SendingRuns(w, answers, k - 1);
      SentStep(w, answers, k - 1);
      SendEnabled(w, answers, k - 1);
      ExecutionThen(w, [Begin] + Posts(answers[..k - 1]), Sent(w, answers, k - 1), Post(answers[k - 1]));
      PostsStep(answers, k - 1);
      Associative([Begin], Posts(answers[..k - 1]), [Post(answers[k - 1])]);
    }
  }

  lemma SendEnabled(w: World, answers: seq<Answer>, k: nat)
    requires k < |Records(w.spool)| <= |answers|
    ensures Enabled(Sent(w, answers, k), Post(answers[k]))
  {
  }

  lemma PostsStep(answers: seq<Answer>, k: nat)
    requires k < |answers|
    ensures Posts(answers[..k + 1]) == Posts(answers[..k]) + [Post(answers[k])]
  {
  }

  /** What ends the sending: an answer that stops it, or running out of records. */
  function Stopper(answers: seq<Answer>, n: nat, k: nat): Event
    requires k <= n <= |answers|
  {
    if k < n then Post(answers[k]) else StopSending
  }

  ghost function Stopped(w: World, answers: seq<Answer>, k: nat): World
    requires k <= |Records(w.spool)| <= |answers|
  {
    var lines, sent := Records(w.spool), Sent(w, answers, k);
    sent.(phase := Rewriting(w.spool, lines, k, sent.phase.rejected),
          accepted := sent.accepted
                      + if k < |lines| && answers[k].LostAnswer? then multiset{lines[k]} else multiset{})
  }

  lemma StopRuns(w: World, answers: seq<Answer>, k: nat)
    requires w.phase.Idle? && 0 < |Records(w.spool)| <= |answers| && StopsAt(answers, |Records(w.spool)|, k)
    ensures var stop := Stopper(answers, |Records(w.spool)|, k);
            Execution(w, [Begin] + Posts(answers[..k]) + [stop], Stopped(w, answers, k))
  {
    var stop, sent := Stopper(answers, |Records(w.spool)|, k), Sent(w, answers, k);
    SendingRuns(w, answers, k);
    assert sent.accepted + multiset{} == sent.accepted;
    assert Next(sent, stop) == Stopped(w, answers, k);
    ExecutionThen(w, [Begin] + Posts(answers[..k]), sent, stop);
  }

  lemma {:induction false} AppendsRun(w: World, added: seq<string>)
    requires !w.phase.TailRead? && forall l | l in added :: OneLine(l) && !Blank(l)
    ensures Execution(w, Appends(added), w.(spool := w.spool + Render(added), spooled := w.spooled + multiset(added)))
    decreases |added|
  {
    if |added| == 0 {
      assert w.spool + "" == w.spool;
    } else {
      var n := Next(w, Append(added[0]));
      AppendsRun(n, added[1..]);
      assert added == [added[0]] + added[1..];
      assert w.spooled + multiset{added[0]} + multiset(added[1..]) == w.spooled + multiset(added);
      Associative(w.spool, added[0] + [NEWLINE], Render(added[1..]));
      assert Appends(added)[0] == Append(added[0]) && Appends(added)[1..] == Appends(added[1..]);
    }
  }

  lemma {:induction false} QuarantinesRun(w: World, rejected: seq<string>)
    requires w.phase == Replaced(rejected)
    ensures Execution(w, Quarantines(|rejected|),
                      w.(quarantine := w.quarantine + Render(rejected), phase := Replaced([])))
    decreases |rejected|
  {
    if |rejected| == 0 {
      assert w.quarantine + "" == w.quarantine;
    } else {
      QuarantinesRun(Next(w, Quarantine), rejected[1..]);
      Associative(w.quarantine + rejected[0], [NEWLINE], Render(rejected[1..]));
      Associative(w.quarantine, rejected[0], [NEWLINE] + Render(rejected[1..]));
      Associative(rejected[0], [NEWLINE], Render(rejected[1..]));
    }
  }

  /** The events of one call: sending up to `k`, then appends by others, the rewrite, and the quarantine. */
  function CallEvents(answers: seq<Answer>, n: nat, k: nat, added: seq<string>, rejected: nat): seq<Event>
    requires k <= n <= |answers|
  {
    [Begin] + Posts(answers[..k]) + [Stopper(answers, n, k)]
    + Appends(added) + [ReadTail, Replace] + Quarantines(rejected) + [Finish]
  }

  /** The world a completed call leaves behind. */
  ghost function Completed(w: World, answers: seq<Answer>, k: nat, added: seq<string>): World
    requires k <= |Records(w.spool)| <= |answers|
  {
    var stopped := Stopped(w, answers, k);
    stopped.(spool := Rewritten(Records(w.spool)[k..], Render(added)),
             quarantine := w.quarantine + Render(stopped.phase.rejected),
             phase := Idle,
             spooled := w.spooled + multiset(added))
  }

  lemma RewriteRuns(w: World, raw: string, tail: string)
    requires w.phase.Rewriting? && w.phase.raw == raw && w.spool == raw + tail && w.phase.done <= |w.phase.lines|
    ensures var p := w.phase;
            Execution(w, [ReadTail, Replace],
                      w.(spool := Rewritten(p.lines[p.done..], tail), phase := Replaced(p.rejected)))
  {
    assert w.spool[|raw|..] == tail;
    assert [ReadTail, Replace][1..] == [Replace] && [Replace][1..] == [];
  }

  lemma CompletedIsExecution(w: World, answers: seq<Answer>, k: nat, added: seq<string>)
    requires w.phase.Idle? && 0 < |Records(w.spool)| <= |answers| && StopsAt(answers, |Records(w.spool)|, k)
    requires forall l | l in added :: OneLine(l) && !Blank(l)
    ensures var lines := Records(w.spool);
            var rejected := Chosen(lines[..k], answers, Refused);
            Execution(w, CallEvents(answers, |lines|, k, added, |rejected|), Completed(w, answers, k, added))
  {
    var lines, stopped := Records(w.spool), Stopped(w, answers, k);
    var rejected := Chosen(lines[..k], answers, Refused);
    var es := [Begin] + Posts(answers[..k]) + [Stopper(answers, |lines|, k)];
    StopRuns(w, answers, k);
    var grown := stopped.(spool := w.spool + Render(added), spooled := w.spooled + multiset(added));
    AppendsRun(stopped, added);
    ExecutionConcat(w, es, stopped, Appends(added), grown);
    var replaced := grown.(spool := Rewritten(lines[k..], Render(added)), phase := Replaced(rejected));
    RewriteRuns(grown, w.spool, Render(added));
    ExecutionConcat(w, es + Appends(added), grown, [ReadTail, Replace], replaced);
    var kept := replaced.(quarantine := w.quarantine + Render(rejected), phase := Replaced([]));
    QuarantinesRun(replaced, rejected);
    ExecutionConcat(w, es + Appends(added) + [ReadTail, Replace], replaced, Quarantines(|rejected|), kept);
    ExecutionThen(w, es + Appends(added) + [ReadTail, Replace] + Quarantines(|rejected|), kept, Finish);
  }

  /** A call run to its end, as a run of the system from `Begin` to `Finish`. */
  method CompleteCall(w: World, answers: seq<Answer>, added: seq<string>) returns (end: World, k: nat)
    requires w.phase.Idle? && 0 < |Records(w.spool)| <= |answers|
    requires forall l | l in added :: OneLine(l) && !Blank(l)
    ensures StopsAt(answers, |Records(w.spool)|, k) && end == Completed(w, answers, k, added)
    ensures var rejected := Chosen(Records(w.spool)[..k], answers, Refused);
            Execution(w, CallEvents(answers, |Records(w.spool)|, k, added, |rejected|), end)
  {
    var after, quarantined, sent, rejected;
    after, quarantined, sent, rejected, k := ReplaySpool(w.spool, w.quarantine, answers, Render(added));
    var lines := Records(w.spool);
    var accepted := w.accepted + multiset(sent);
    if k < |lines| && answers[k].LostAnswer? {
      accepted := accepted + multiset{lines[k]};
    }
    end := World(after, quarantined, Idle, w.spooled + multiset(added), accepted, w.refused + multiset(rejected));
    CompletedIsExecution(w, answers, k, added);
  }

  ghost predicate Fresh(w: World) {
    w.phase.Idle? && Whole(w.spool) && w.spooled == multiset(Records(w.spool))
  }

  lemma {:induction false} ExecutionKeeps(w: World, es: seq<Event>, end: World)
    requires Inv(w) && Execution(w, es, end)
    ensures Inv(end)
    decreases |es|
  {
    if |es| == 0 {
    } else {
      StepKeeps(w, es[0]);
      ExecutionKeeps(Next(w, es[0]), es[1..], end);
    }
  }

  /**
   Over any sequence of replays, crashes and whole-line appends landing before
   a tail read, no record is lost that the server neither accepted nor refused.
   */
  lemma NoRecordLost(w: World, es: seq<Event>, end: World)
    requires Fresh(w) && Execution(w, es, end)
    ensures Inv(end) && NothingLost(end)
  {
    ExecutionKeeps(w, es, end);
  }
}
