/** What refresh-unit guarantees, for templates that satisfy a contract. */
module RefreshProofs {
  import opened Seqs
  import opened Text
  import opened UnitFile
  import opened CommandLine
  import opened Refresh

  /** A canonical unit: line `e`, not the first, is its one ExecStart= line; it has no
      WorkingDirectory=; it runs as `user`; carried-over directives land in its [Service] section. */
  ghost predicate Shape(lines: seq<string>, e: nat, exec: string, user: string) {
    && 0 < e < |lines| && Lines(lines) && Anchored(lines)
    && lines[e] == exec && EXEC <= exec && Trimmed(exec)
    && NoneWith(lines[..e], EXEC) && NoneWith(lines[e + 1..], EXEC)
    && NoneWith(lines, WORKDIR)
    && ServiceUser(lines) == user
  }

  /** The lines a refresh puts in place of the ExecStart= line. */
  ghost predicate ValidBlock(exec: string, workDir: string) {
    && EXEC <= exec && Trimmed(exec) && OneLine(exec)
    && (workDir != "" ==> WORKDIR <= workDir && Trimmed(workDir) && OneLine(workDir))
  }

  lemma {:induction false} SplicedConcat(a: seq<string>, b: seq<string>, block: seq<string>)
    ensures Spliced(a + b, block) == Spliced(a, block) + Spliced(b, block)
    decreases |a|
  {
    if a == [] {
      assert a + b == b;
    } else {
      TailOfConcat(a, b);
      SplicedConcat(a[1..], b, block);
      Assoc(if EXEC <= a[0] then block else [a[0]], Spliced(a[1..], block), Spliced(b, block));
    }
  }

  lemma {:induction false} SplicedNone(lines: seq<string>, block: seq<string>)
    requires NoneWith(lines, EXEC)
    ensures Spliced(lines, block) == lines
    decreases |lines|
  {
    if lines != [] {
      if EXEC <= lines[0] {
        PrefixSurvives(lines[0], EXEC);
      }
      SplicedNone(lines[1..], block);
    }
  }

  lemma SplicedShape(lines: seq<string>, e: nat, exec: string, user: string, block: seq<string>)
    requires Shape(lines, e, exec, user)
    ensures Spliced(lines, block) == lines[..e] + block + lines[e + 1..]
  {
    var a, d := lines[..e], lines[e + 1..];
    SplitAround(lines, e);
    SplicedConcat(a + [exec], d, block);
    SplicedConcat(a, [exec], block);
    SplicedNone(a, block);
    SplicedNone(d, block);
    SplicedOne(exec, block);
  }

  lemma SplicedOne(exec: string, block: seq<string>)
    requires EXEC <= exec
    ensures Spliced([exec], block) == block
  {
    assert [exec][1..] == [];
    EmptyConcat(block);
  }

  lemma BlockLines(exec: string, workDir: string)
    requires ValidBlock(exec, workDir)
    ensures NoHeaders(ExecBlock(exec, workDir)) && Lines(ExecBlock(exec, workDir))
    ensures NoneWith(ExecBlock(exec, workDir), USER)
    ensures FirstWith(ExecBlock(exec, workDir), EXEC) == exec
    ensures FirstWith(ExecBlock(exec, workDir), WORKDIR) == workDir
  {
    TrimTrimmed(exec);
    if workDir != "" {
      TrimTrimmed(workDir);
      assert workDir[0] == 'W' && exec[0] == 'E';
      assert ExecBlock(exec, workDir)[1..] == [workDir];
    }
  }

  /** The body read back gives the user of the canonical unit and the spliced lines. */
  lemma BodyReadBack(lines: seq<string>, e: nat, exec: string, user: string, x: string, workDir: string)
    requires Shape(lines, e, exec, user) && ValidBlock(x, workDir)
    ensures var body := Spliced(lines, ExecBlock(x, workDir));
            && body != [] && Lines(body) && Anchored(body)
            && ServiceUser(body) == user
            && FirstWith(body, EXEC) == x && FirstWith(body, WORKDIR) == workDir
  {
    var a, d, block := lines[..e], lines[e + 1..], ExecBlock(x, workDir);
    SplicedShape(lines, e, exec, user, block);
    SplitAround(lines, e);
    var body := a + block + d;
    BlockLines(x, workDir);
    TrimTrimmed(exec);
    assert Anchored(body) by {
      AnchoredReplaced(a, [exec], block, d);
    }
    assert FirstWith(body, USER) == FirstWith(lines, USER) by {
      FirstSkips(a, [exec], d, USER);
      FirstSkips(a, block, d, USER);
    }
    assert FirstWith(body, EXEC) == x by {
      FirstOfNone(a, EXEC);
      FirstWithConcat(a + block, d, EXEC);
      FirstWithConcat(a, block, EXEC);
    }
    assert FirstWith(body, WORKDIR) == workDir by {
      FirstOfNone(a, WORKDIR);
      FirstOfNone(d, WORKDIR);
      FirstWithConcat(a + block, d, WORKDIR);
      FirstWithConcat(a, block, WORKDIR);
    }
  }

  // The templates.

  /** Where the ExecStart= line of the packaged unit is, and what surrounds the two template lines
      of the root script. */
  datatype Places = Places(e: nat, before: seq<string>, after: seq<string>)

  ghost predicate PackagedContract(p: seq<string>, e: nat) {
    && e < |p| && Shape(p, e, p[e], DEFAULT_USER)
    && (forall i :: 0 <= i < |p| && USER <= Trim(p[i]) ==> p[i] == USER + DEFAULT_USER)
    && (forall i :: 0 <= i < |p| && GROUP <= p[i] ==> p[i] == GROUP + DEFAULT_USER)
    && (forall i :: 0 <= i < |p| ==> p[i] != EXEC_TEMPLATE && p[i] != WORKDIR_TEMPLATE)
  }

  /** A stretch of the root script without the two template lines. */
  ghost predicate PlainStretch(lines: seq<string>) {
    && Lines(lines) && NoneWith(lines, EXEC) && NoneWith(lines, WORKDIR) && NoneWith(lines, USER)
    && forall i :: 0 <= i < |lines| ==> !(WORKDIR_GUARD <= lines[i])
  }

  ghost predicate RootContract(r: seq<string>, before: seq<string>, after: seq<string>) {
    && r == before + [EXEC_TEMPLATE, WORKDIR_TEMPLATE] + after
    && before != [] && PlainStretch(before) && PlainStretch(after)
    && Anchored(before + [] + after)
  }

  ghost predicate Contract(t: Templates, w: Places) {
    PackagedContract(Split(t.packaged), w.e) && RootContract(Split(t.root), w.before, w.after)
  }

  ghost function CanonicalExec(t: Templates): string {
    PackagedExec(Split(t.packaged))
  }

  lemma {:induction false} PackagedExecIs(p: seq<string>, e: nat)
    requires e < |p| && NoneWith(p[..e], EXEC) && EXEC <= p[e] && Trimmed(p[e])
    ensures PackagedExec(p) == p[e]
    decreases |p|
  {
    if e == 0 {
      TrimTrimmed(p[0]);
    } else {
      assert p[..e][0] == p[0] && p[1..][..e - 1] == p[..e][1..];
      if EXEC <= p[0] {
        PrefixSurvives(p[0], EXEC);
      }
      PackagedExecIs(p[1..], e - 1);
    }
  }

  lemma {:induction false} CanonicalRootConcat(a: seq<string>, b: seq<string>, exec: string)
    ensures CanonicalRoot(a + b, exec) == CanonicalRoot(a, exec) + CanonicalRoot(b, exec)
    decreases |a|
  {
    if a == [] {
      assert a + b == b;
    } else {
      TailOfConcat(a, b);
      CanonicalRootConcat(a[1..], b, exec);
      var head := if EXEC <= a[0] then [exec] else if WORKDIR_GUARD <= a[0] then [] else [a[0]];
      Assoc(head, CanonicalRoot(a[1..], exec), CanonicalRoot(b, exec));
    }
  }

  lemma {:induction false} CanonicalRootPlain(lines: seq<string>, exec: string)
    requires PlainStretch(lines)
    ensures CanonicalRoot(lines, exec) == lines
    decreases |lines|
  {
    if lines != [] {
      if EXEC <= lines[0] {
        PrefixSurvives(lines[0], EXEC);
      }
      CanonicalRootPlain(lines[1..], exec);
    }
  }

  lemma {:induction false} CanonicalRootIs(r: seq<string>, before: seq<string>, after: seq<string>, exec: string)
    requires RootContract(r, before, after)
    ensures CanonicalRoot(r, exec) == before + [exec] + after
  {
    var mid := [EXEC_TEMPLATE, WORKDIR_TEMPLATE];
    CanonicalRootConcat(before + mid, after, exec);
    CanonicalRootConcat(before, mid, exec);
    CanonicalRootPlain(before, exec);
    CanonicalRootPlain(after, exec);
    GuardIsNotExec(WORKDIR_TEMPLATE);
    CanonicalRootTwo(EXEC_TEMPLATE, WORKDIR_TEMPLATE, exec);
  }

  lemma GuardIsNotExec(line: string)
    requires WORKDIR_GUARD <= line
    ensures !(EXEC <= line)
  {
    assert line[0] == '{';
  }

  lemma CanonicalRootTwo(x: string, y: string, exec: string)
    requires EXEC <= x && WORKDIR_GUARD <= y && !(EXEC <= y)
    ensures CanonicalRoot([x, y], exec) == [exec]
  {
    assert [x, y][1..] == [y] && [y][1..] == [];
    EmptyConcat<string>([]);
    assert CanonicalRoot([y], exec) == [];
    EmptyConcat([exec]);
  }

  lemma RootLinesShape(before: seq<string>, after: seq<string>, exec: string)
    requires before != [] && PlainStretch(before) && PlainStretch(after) && Anchored(before + [] + after)
    requires EXEC <= exec && Trimmed(exec) && OneLine(exec)
    ensures Shape(before + [exec] + after, |before|, exec, ROOT_USER)
  {
    var c := before + [exec] + after;
    TrimTrimmed(exec);
    assert NoHeaders([exec]);
    AnchoredReplaced(before, [], [exec], after);
    Around(before, exec, after);
    assert NoneWith(c, USER) && NoneWith(c, WORKDIR);
    FirstOfNone(c, USER);
  }

  lemma RootShape(t: Templates, w: Places)
    requires Contract(t, w)
    ensures Shape(Canonical(t, ROOT_USER), |w.before|, CanonicalExec(t), ROOT_USER)
  {
    PackagedExecIs(Split(t.packaged), w.e);
    CanonicalRootIs(Split(t.root), w.before, w.after, CanonicalExec(t));
    RootLinesShape(w.before, w.after, CanonicalExec(t));
  }

  // Another user's unit.

  lemma {:induction false} ForUserAt(lines: seq<string>, user: string)
    ensures |ForUser(lines, user)| == |lines|
    ensures forall i :: 0 <= i < |lines| ==> ForUser(lines, user)[i] == UserLine(lines[i], user)
    decreases |lines|
  {
    if lines != [] {
      ForUserAt(lines[1..], user);
    }
  }

  ghost predicate ValidUser(user: string) {
    user != "" && Trimmed(user) && OneLine(user)
  }

  /** A user line that is rewritten is neither a header nor an ExecStart= or WorkingDirectory= line,
      before or after. */
  lemma UserLineKeeps(line: string, user: string)
    requires OneLine(line) && ValidUser(user)
    ensures OneLine(UserLine(line, user))
    ensures IsHeader(UserLine(line, user)) <==> IsHeader(line)
    ensures IsServiceHeader(UserLine(line, user)) <==> IsServiceHeader(line)
    ensures EXEC <= Trim(UserLine(line, user)) <==> EXEC <= Trim(line)
    ensures WORKDIR <= Trim(UserLine(line, user)) <==> WORKDIR <= Trim(line)
  {
    if USER <= line {
      PrefixSurvives(line, USER);
      TrimTrimmed(USER + user);
    } else if GROUP <= line {
      PrefixSurvives(line, GROUP);
      TrimTrimmed(GROUP + user);
    }
  }

  lemma {:induction false} AnchorPointwise(a: seq<string>, b: seq<string>, f: bool)
    requires |a| == |b|
    requires forall i :: 0 <= i < |a| ==>
               (IsHeader(a[i]) <==> IsHeader(b[i])) && (IsServiceHeader(a[i]) <==> IsServiceHeader(b[i]))
    ensures Anchor(a, f) == Anchor(b, f)
    decreases |a|
  {
    if a != [] {
      AnchorPointwise(a[1..], b[1..], IsHeader(a[0]) || f);
    }
  }

  lemma AnchoredCons(a: seq<string>)
    requires a != []
    ensures Anchored(a) <==> Anchor(a[1..], EndsInService([a[0]], false))
  {
    AnchorFrom(a, 1);
    assert a[..1] == [a[0]];
  }

  lemma AnchoredPointwise(a: seq<string>, b: seq<string>)
    requires |a| == |b| && a != []
    requires forall i :: 0 <= i < |a| ==>
               (IsHeader(a[i]) <==> IsHeader(b[i])) && (IsServiceHeader(a[i]) <==> IsServiceHeader(b[i]))
    ensures Anchored(a) <==> Anchored(b)
  {
    AnchoredCons(a);
    AnchoredCons(b);
    AnchorPointwise(a[1..], b[1..], EndsInService([a[0]], false));
  }

  lemma UserLineFor(line: string, user: string)
    requires ValidUser(user) && (USER <= Trim(line) ==> line == USER + DEFAULT_USER)
    ensures USER <= Trim(UserLine(line, user)) <==> USER <= Trim(line)
    ensures USER <= Trim(line) ==> Trim(UserLine(line, user)) == USER + user && Trim(line) != ""
  {
    if USER <= line {
      PrefixSurvives(line, USER);
      TrimTrimmed(USER + user);
    } else if GROUP <= line {
      PrefixSurvives(line, GROUP);
      TrimTrimmed(GROUP + user);
    }
  }

  lemma {:induction false} FirstUserFor(lines: seq<string>, user: string)
    requires ValidUser(user)
    requires forall i :: 0 <= i < |lines| && USER <= Trim(lines[i]) ==> lines[i] == USER + DEFAULT_USER
    ensures FirstWith(ForUser(lines, user), USER) == if FirstWith(lines, USER) == "" then "" else USER + user
    decreases |lines|
  {
    if lines != [] {
      FirstUserFor(lines[1..], user);
      UserLineFor(lines[0], user);
      TailOfConcat([UserLine(lines[0], user)], ForUser(lines[1..], user));
      EmptyConcat(ForUser(lines[1..], user));
    }
  }

  lemma UserOf(lines: seq<string>, user: string)
    requires ValidUser(user) && FirstWith(lines, USER) == USER + user
    ensures ServiceUser(lines) == user
  {
    assert (USER + user)[|USER|..] == user;
    TrimTrimmed(user);
  }

  lemma ForUserKeeps(p: seq<string>, user: string)
    requires Lines(p) && ValidUser(user)
    ensures |ForUser(p, user)| == |p| && Lines(ForUser(p, user))
    ensures forall i :: 0 <= i < |p| ==>
              var line := ForUser(p, user)[i];
              && (IsHeader(line) <==> IsHeader(p[i]))
              && (IsServiceHeader(line) <==> IsServiceHeader(p[i]))
              && (EXEC <= Trim(line) <==> EXEC <= Trim(p[i]))
              && (WORKDIR <= Trim(line) <==> WORKDIR <= Trim(p[i]))
  {
    ForUserAt(p, user);
    forall i | 0 <= i < |p|
      ensures OneLine(ForUser(p, user)[i])
      ensures IsHeader(ForUser(p, user)[i]) <==> IsHeader(p[i])
      ensures IsServiceHeader(ForUser(p, user)[i]) <==> IsServiceHeader(p[i])
      ensures EXEC <= Trim(ForUser(p, user)[i]) <==> EXEC <= Trim(p[i])
      ensures WORKDIR <= Trim(ForUser(p, user)[i]) <==> WORKDIR <= Trim(p[i])
    {
      UserLineKeeps(p[i], user);
    }
  }

  lemma NoneWithPointwise(p: seq<string>, q: seq<string>, from: nat, to: nat, prefix: string)
    requires |p| == |q| && from <= to <= |p| && NoneWith(p[from..to], prefix)
    requires forall i :: 0 <= i < |p| ==> (prefix <= Trim(q[i]) <==> prefix <= Trim(p[i]))
    ensures NoneWith(q[from..to], prefix)
  {
    forall i | 0 <= i < to - from
      ensures !(prefix <= Trim(q[from..to][i]))
    {
      assert q[from..to][i] == q[from + i] && p[from..to][i] == p[from + i];
    }
  }

  lemma OtherUserLines(p: seq<string>, user: string)
    requires p != [] && Lines(p) && Anchored(p) && NoneWith(p, WORKDIR) && ValidUser(user)
    ensures var q := ForUser(p, user); |q| == |p| && Lines(q) && Anchored(q) && NoneWith(q, WORKDIR)
  {
    ForUserKeeps(p, user);
    AnchoredPointwise(p, ForUser(p, user));
  }

  lemma {:induction false} OtherUserExec(p: seq<string>, e: nat, user: string)
    requires e < |p| && Lines(p) && ValidUser(user)
    requires EXEC <= p[e] && NoneWith(p[..e], EXEC) && NoneWith(p[e + 1..], EXEC)
    ensures var q := ForUser(p, user);
            |q| == |p| && q[e] == p[e] && NoneWith(q[..e], EXEC) && NoneWith(q[e + 1..], EXEC)
  {
    hide ForUser;
    var q := ForUser(p, user);
    ForUserKeeps(p, user);
    assert p[0..e] == p[..e] && q[0..e] == q[..e];
    NoneWithPointwise(p, q, 0, e, EXEC);
    assert p[e + 1..|p|] == p[e + 1..] && q[e + 1..|p|] == q[e + 1..];
    NoneWithPointwise(p, q, e + 1, |p|, EXEC);
    ForUserAt(p, user);
  }

  lemma OtherUserShape(p: seq<string>, e: nat, user: string)
    requires PackagedContract(p, e) && ValidUser(user)
    ensures Shape(ForUser(p, user), e, p[e], user)
  {
    OtherUserLines(p, user);
    OtherUserExec(p, e, user);
    OtherUserRuns(p, user);
  }

  lemma OtherUserRuns(p: seq<string>, user: string)
    requires ValidUser(user) && ServiceUser(p) == DEFAULT_USER
    requires forall i :: 0 <= i < |p| && USER <= Trim(p[i]) ==> p[i] == USER + DEFAULT_USER
    ensures ServiceUser(ForUser(p, user)) == user
  {
    FirstUserFor(p, user);
    assert FirstWith(p, USER) != "" by {
      TrimTrimmed("");
      assert DEFAULT_USER != ROOT_USER;
    }
    UserOf(ForUser(p, user), user);
  }

  /** Every canonical unit has the shape, for every user. */
  lemma CanonicalShape(t: Templates, w: Places, user: string) returns (e: nat)
    requires Contract(t, w) && ValidUser(user)
    ensures Shape(Canonical(t, user), e, CanonicalExec(t), user)
  {
    PackagedExecIs(Split(t.packaged), w.e);
    if user == ROOT_USER {
      e := |w.before|;
      RootShape(t, w);
    } else {
      e := w.e;
      if user != DEFAULT_USER {
        OtherUserShape(Split(t.packaged), w.e, user);
      }
    }
  }

  // Refreshing twice.

  lemma UserIsValid(lines: seq<string>)
    requires Lines(lines)
    ensures ValidUser(ServiceUser(lines))
  {
    FirstIsTrimmed(lines, USER);
    var line := FirstWith(lines, USER);
    if USER <= line {
      var lead, trail := TrimSplits(line[|USER|..]);
      TrimOneLine(line[|USER|..]);
    } else {
      TrimTrimmed("");
    }
  }

  lemma {:induction false} UnescapePlain(s: string)
    requires forall i :: 0 <= i < |s| ==> s[i] != '\\'
    ensures Unescape(s) == s
    decreases |s|
  {
    if s != "" {
      UnescapePlain(s[1..]);
      assert s[0] != ESCAPED_SPACE[0];
    }
  }

  predicate PlainText(s: string) {
    forall i :: 0 <= i < |s| ==> s[i] != '\\' && s[i] != ' ' && s[i] != '\n'
  }

  lemma SystemBinaryIsPlain()
    ensures SYSTEM_BINARY != "" && SYSTEM_BINARY[0] == '/' && !IsSpace(SYSTEM_BINARY[|SYSTEM_BINARY| - 1])
    ensures PlainText(SYSTEM_BINARY)
    ensures Unescape(SYSTEM_BINARY) == SYSTEM_BINARY != LEGACY_BINARY
  {
    assert PlainText("/usr/local/bin") && PlainText("/senhub-agent");
    assert |SYSTEM_BINARY| < |LEGACY_BINARY|;
    UnescapePlain(SYSTEM_BINARY);
  }

  lemma RepointedSplits(args: string)
    requires args != "" && Trimmed(args) && OneLine(args)
    ensures SplitExecStart(Repointed(args)) == Command(SYSTEM_BINARY, args)
    ensures ValidBlock(Repointed(args), "")
  {
    SystemBinaryIsPlain();
    RepointedAt(SYSTEM_BINARY, args);
  }

  lemma RepointedAt(bin: string, args: string)
    requires bin != "" && !IsSpace(bin[0]) && PlainText(bin)
    requires args != "" && Trimmed(args) && OneLine(args)
    ensures SplitExecStart(EXEC + bin + " " + args) == Command(bin, args)
    ensures ValidBlock(EXEC + bin + " " + args, "")
  {
    assert EXEC + bin + " " + args == EXEC + (bin + " " + args) by {
      Assoc(EXEC, bin, " ");
      Assoc(EXEC, bin + " ", args);
    }
    assert SplitExecStart(EXEC + bin + " " + args) == Command(bin, args) by {
      CommandSplits(bin, args);
    }
    RepointedIsLine(bin, args);
  }

  lemma RepointedIsLine(bin: string, args: string)
    requires PlainText(bin) && args != "" && Trimmed(args) && OneLine(args)
    ensures ValidBlock(EXEC + bin + " " + args, "")
  {
  }

  lemma SplitArgsAreValid(line: string)
    requires OneLine(line)
    ensures Trimmed(SplitExecStart(line).args) && OneLine(SplitExecStart(line).args)
  {
    var rest := if EXEC <= line then line[|EXEC|..] else line;
    var cmd := Trim(rest);
    TrimOneLine(rest);
    var i := Find(cmd, ' ');
    if i < |cmd| {
      var lead, trail := TrimSplits(cmd[i + 1..]);
      TrimOneLine(cmd[i + 1..]);
    }
  }

  /** What a refresh reads of a unit: nothing, or a trimmed line of the right kind. */
  ghost predicate ValidReading(x: string, workDir: string) {
    && (x != "" ==> EXEC <= x && Trimmed(x) && OneLine(x))
    && (workDir != "" ==> WORKDIR <= workDir && Trimmed(workDir) && OneLine(workDir))
  }

  lemma ReadingIsValid(lines: seq<string>)
    requires Lines(lines)
    ensures ValidReading(FirstWith(lines, EXEC), FirstWith(lines, WORKDIR))
  {
    FirstIsTrimmed(lines, EXEC);
    FirstIsTrimmed(lines, WORKDIR);
  }

  /** What a refresh decides to put in the ExecStart= place: the packaged line, the installed lines,
      or the installed arguments behind the system binary. */
  ghost function Decided(t: Templates, x: string, workDir: string, exists_: string -> bool): (string, string) {
    if x == "" || x == CanonicalExec(t) then (CanonicalExec(t), "")
    else
      var c := SplitExecStart(x);
      if Unescape(c.path) == LEGACY_BINARY || !exists_(Unescape(c.path)) then
        if c.args == "" then (CanonicalExec(t), "") else (Repointed(c.args), "")
      else (x, workDir)
  }

  lemma CanonicalIsSpliced(c: seq<string>, e: nat, exec: string, user: string)
    requires Shape(c, e, exec, user)
    ensures Spliced(c, ExecBlock(exec, "")) == c && ValidBlock(exec, "")
  {
    SplicedShape(c, e, exec, user, [exec]);
    SplitAround(c, e);
  }

  lemma DecidedIsValid(t: Templates, x: string, workDir: string, exists_: string -> bool)
    requires ValidBlock(CanonicalExec(t), "") && ValidReading(x, workDir)
    ensures var d := Decided(t, x, workDir, exists_); ValidBlock(d.0, d.1)
  {
    if x != "" {
      SplitArgsAreValid(x);
      var args := SplitExecStart(x).args;
      if args != "" {
        RepointedSplits(args);
      }
    }
  }

  lemma BodyIsDecided(t: Templates, user: string, x: string, workDir: string, exists_: string -> bool)
    requires Spliced(Canonical(t, user), ExecBlock(CanonicalExec(t), "")) == Canonical(t, user)
    ensures var d := Decided(t, x, workDir, exists_);
            BodyFrom(t, user, x, workDir, exists_) == Spliced(Canonical(t, user), ExecBlock(d.0, d.1))
  {
  }

  /** The decision is stable: deciding again on what was decided decides the same. */
  lemma DecidedTwice(t: Templates, x: string, workDir: string, exists_: string -> bool)
    requires ValidReading(x, workDir)
    ensures var d := Decided(t, x, workDir, exists_); Decided(t, d.0, d.1, exists_) == d
  {
    hide SplitExecStart, Unescape, Repointed;
    if x != "" {
      SplitArgsAreValid(x);
      var args := SplitExecStart(x).args;
      if args != "" {
        RepointedSplits(args);
        SystemBinaryIsPlain();
      }
    }
  }

  lemma BodyStable(t: Templates, w: Places, installed: seq<string>, exists_: string -> bool)
    requires Contract(t, w) && Lines(installed)
    ensures var b := Body(t, installed, exists_);
            b != [] && Lines(b) && Anchored(b) && Body(t, b, exists_) == b
  {
    var user, x, workDir := ServiceUser(installed), FirstWith(installed, EXEC), FirstWith(installed, WORKDIR);
    UserIsValid(installed);
    ReadingIsValid(installed);
    var e := CanonicalShape(t, w, user);
    var d := Decided(t, x, workDir, exists_);
    CanonicalIsSpliced(Canonical(t, user), e, CanonicalExec(t), user);
    DecidedIsValid(t, x, workDir, exists_);
    BodyIsDecided(t, user, x, workDir, exists_);
    BodyReadBack(Canonical(t, user), e, CanonicalExec(t), user, d.0, d.1);
    DecidedTwice(t, x, workDir, exists_);
    BodyIsDecided(t, user, d.0, d.1, exists_);
  }

  lemma DecidedKeysAreKeys()
    ensures forall k :: k in DECIDED ==>
              k != "" && Trimmed(k) && (forall j :: 0 <= j < |k| ==> k[j] != '=') && k[0] != '#'
    ensures "ExecStart" + "=" == EXEC && "WorkingDirectory" + "=" == WORKDIR && "User" + "=" == USER
  {
  }

  /** Carrying directives over does not change how the body is read. */
  lemma PreservedReads(body: seq<string>, installed: seq<string>, key: string)
    requires key in DECIDED && Anchored(body)
    ensures FirstWith(Preserved(body, installed), key + "=") == FirstWith(body, key + "=")
  {
    DecidedKeysAreKeys();
    DirectivesConserved(body, installed);
    InsertedFirst(body, ExtrasOver(body, installed), key);
  }

  lemma PreservedLines(body: seq<string>, installed: seq<string>)
    requires Lines(body) && Lines(installed) && body != []
    ensures Lines(Preserved(body, installed)) && Preserved(body, installed) != []
  {
    hide ServiceLines, Extras, Managed, IsDirective, IsExtra;
    var extras := ExtrasOver(body, installed);
    ServiceLinesAreDirectives(installed, false);
    ExtrasAreExtra(ServiceLines(installed, false), Managed(body));
    CommentIsComment();
    var b := Boundary(body);
    assert Lines(Block(extras, b < |body|));
  }

  lemma ReadsOfPreserved(body: seq<string>, installed: seq<string>)
    requires Anchored(body)
    ensures var p := Preserved(body, installed);
            && FirstWith(p, EXEC) == FirstWith(body, EXEC)
            && FirstWith(p, WORKDIR) == FirstWith(body, WORKDIR)
            && ServiceUser(p) == ServiceUser(body)
  {
    var p := Preserved(body, installed);
    assert FirstWith(p, EXEC) == FirstWith(body, EXEC) by {
      DecidedKeysAreKeys();
      PreservedReads(body, installed, "ExecStart");
    }
    assert FirstWith(p, WORKDIR) == FirstWith(body, WORKDIR) by {
      DecidedKeysAreKeys();
      PreservedReads(body, installed, "WorkingDirectory");
    }
    assert FirstWith(p, USER) == FirstWith(body, USER) by {
      DecidedKeysAreKeys();
      PreservedReads(body, installed, "User");
    }
  }

  /** Refreshing is a fixpoint, across the ExecStart rules, the users and the operator's directives. */
  lemma RefreshedTwice(t: Templates, w: Places, installed: seq<string>, exists_: string -> bool)
    requires Contract(t, w) && Lines(installed)
    ensures Refreshed(t, Refreshed(t, installed, exists_), exists_) == Refreshed(t, installed, exists_)
  {
    var body := Body(t, installed, exists_);
    BodyStable(t, w, installed, exists_);
    ReadsOfPreserved(body, installed);
    DirectivesConserved(body, installed);
  }

  /** The text is the joined lines. */
  lemma TextIsLines(t: Templates, w: Places, installed: string, exists_: string -> bool)
    requires Contract(t, w)
    ensures Split(RefreshedText(t, installed, exists_)) == Refreshed(t, Split(installed), exists_)
  {
    var lines := Split(installed);
    SplitLines(installed);
    var body := Body(t, lines, exists_);
    BodyStable(t, w, lines, exists_);
    SplitJoin(body);
    PreservedLines(body, lines);
    SplitJoin(Preserved(body, lines));
  }

  /** The same of the files: refreshing a refreshed unit changes nothing. */
  lemma RefreshIsFixpoint(t: Templates, w: Places, installed: string, exists_: string -> bool)
    requires Contract(t, w)
    ensures RefreshedText(t, RefreshedText(t, installed, exists_), exists_) == RefreshedText(t, installed, exists_)
  {
    var once := RefreshedText(t, installed, exists_);
    var twice := RefreshedText(t, once, exists_);
    SplitLines(installed);
    TextIsLines(t, w, installed, exists_);
    TextIsLines(t, w, once, exists_);
    RefreshedTwice(t, w, Split(installed), exists_);
    JoinSplit(once);
    JoinSplit(twice);
  }

  /** What a refreshed unit runs: as the same user; the same arguments behind the system binary, with
      no working directory, when the binary is the legacy copy or is gone; the same ExecStart= and
      WorkingDirectory= lines otherwise. Without arguments to keep it runs the packaged line. */
  lemma RefreshRules(t: Templates, w: Places, installed: seq<string>, exists_: string -> bool)
    requires Contract(t, w) && Lines(installed)
    ensures var r := Refreshed(t, installed, exists_);
            var x, c := FirstWith(installed, EXEC), SplitExecStart(FirstWith(installed, EXEC));
            var moved := Unescape(c.path) == LEGACY_BINARY || !exists_(Unescape(c.path));
            && ServiceUser(r) == ServiceUser(installed)
            && if x == "" || x == CanonicalExec(t) || (moved && c.args == "") then
                 FirstWith(r, EXEC) == CanonicalExec(t) && FirstWith(r, WORKDIR) == ""
               else if moved then
                 SplitExecStart(FirstWith(r, EXEC)) == Command(SYSTEM_BINARY, c.args) && FirstWith(r, WORKDIR) == ""
               else
                 FirstWith(r, EXEC) == x && FirstWith(r, WORKDIR) == FirstWith(installed, WORKDIR)
  {
    var user, x, workDir := ServiceUser(installed), FirstWith(installed, EXEC), FirstWith(installed, WORKDIR);
    UserIsValid(installed);
    ReadingIsValid(installed);
    var e := CanonicalShape(t, w, user);
    var d := Decided(t, x, workDir, exists_);
    CanonicalIsSpliced(Canonical(t, user), e, CanonicalExec(t), user);
    DecidedIsValid(t, x, workDir, exists_);
    BodyIsDecided(t, user, x, workDir, exists_);
    BodyReadBack(Canonical(t, user), e, CanonicalExec(t), user, d.0, d.1);
    ReadsOfPreserved(Body(t, installed, exists_), installed);
    if x != "" {
      SplitArgsAreValid(x);
      if SplitExecStart(x).args != "" {
        RepointedSplits(SplitExecStart(x).args);
      }
    }
  }

  /** The operator's directives through a refresh: the unmanaged [Service] lines are kept as they
      are, in order and number, and no decided or retired key is among them. */
  lemma RefreshConserves(t: Templates, w: Places, installed: string, exists_: string -> bool)
    requires Contract(t, w)
    ensures var lines, refreshed := Split(installed), Split(RefreshedText(t, installed, exists_));
            var managed := Managed(Body(t, lines, exists_));
            && DECIDED + RETIRED <= managed
            && Extras(ServiceLines(refreshed, false), managed) == Extras(ServiceLines(lines, false), managed)
  {
    SplitLines(installed);
    TextIsLines(t, w, installed, exists_);
    BodyStable(t, w, Split(installed), exists_);
    DirectivesConserved(Body(t, Split(installed), exists_), Split(installed));
  }
}
