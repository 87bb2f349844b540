/** What install and its reconciliation guarantee. */
module InstallProofs {
  import opened Results
  import opened Seqs
  import opened Text
  import opened UnitFile
  import opened CommandLine
  import opened Refresh
  import opened RefreshProofs
  import opened Install

  // Install and refresh agree.

  lemma {:induction false} RenderedConcat(a: seq<string>, b: seq<string>, path: string, args: seq<string>, workDir: string)
    ensures Rendered(a + b, path, args, workDir) == Rendered(a, path, args, workDir) + Rendered(b, path, args, workDir)
    decreases |a|
  {
    if a == [] {
      assert a + b == b;
    } else {
      TailOfConcat(a, b);
      RenderedConcat(a[1..], b, path, args, workDir);
      Assoc([RenderedLine(a[0], path, args, workDir)], Rendered(a[1..], path, args, workDir),
            Rendered(b, path, args, workDir));
    }
  }

  lemma {:induction false} RenderedPlain(lines: seq<string>, path: string, args: seq<string>, workDir: string)
    requires forall i :: 0 <= i < |lines| ==> lines[i] != EXEC_TEMPLATE && lines[i] != WORKDIR_TEMPLATE
    ensures Rendered(lines, path, args, workDir) == lines
    decreases |lines|
  {
    if lines != [] {
      RenderedPlain(lines[1..], path, args, workDir);
    }
  }

  lemma {:induction false} HardenedConcat(a: seq<string>, b: seq<string>, user: string)
    ensures Hardened(a + b, user) == Hardened(a, user) + Hardened(b, user)
    decreases |a|
  {
    if a == [] {
      EmptyConcat(b);
    } else {
      TailOfConcat(a, b);
      HardenedConcat(a[1..], b, user);
      var head := if EXEC <= a[0] then [EXEC_TEMPLATE, WORKDIR_TEMPLATE] else [UserLine(a[0], user)];
      Assoc(head, Hardened(a[1..], user), Hardened(b, user));
    }
  }

  lemma {:induction false} ForUserConcat(a: seq<string>, b: seq<string>, user: string)
    ensures ForUser(a + b, user) == ForUser(a, user) + ForUser(b, user)
    decreases |a|
  {
    if a == [] {
      EmptyConcat(b);
    } else {
      TailOfConcat(a, b);
      ForUserConcat(a[1..], b, user);
      Assoc([UserLine(a[0], user)], ForUser(a[1..], user), ForUser(b, user));
    }
  }

  lemma {:induction false} HardenedPlain(lines: seq<string>, user: string)
    requires NoneWith(lines, EXEC)
    ensures Hardened(lines, user) == ForUser(lines, user)
    decreases |lines|
  {
    if lines != [] {
      if EXEC <= lines[0] {
        PrefixSurvives(lines[0], EXEC);
      }
      HardenedPlain(lines[1..], user);
    }
  }

  lemma {:induction false} ForDefaultUser(lines: seq<string>)
    requires forall i :: 0 <= i < |lines| && USER <= Trim(lines[i]) ==> lines[i] == USER + DEFAULT_USER
    requires forall i :: 0 <= i < |lines| && GROUP <= lines[i] ==> lines[i] == GROUP + DEFAULT_USER
    ensures ForUser(lines, DEFAULT_USER) == lines
    decreases |lines|
  {
    if lines != [] {
      if USER <= lines[0] {
        PrefixSurvives(lines[0], USER);
      }
      ForDefaultUser(lines[1..]);
    }
  }

  lemma ForUserPlain(lines: seq<string>, user: string)
    requires forall i :: 0 <= i < |lines| ==> lines[i] != EXEC_TEMPLATE && lines[i] != WORKDIR_TEMPLATE
    ensures |ForUser(lines, user)| == |lines|
    ensures forall i :: 0 <= i < |lines| ==>
              ForUser(lines, user)[i] != EXEC_TEMPLATE && ForUser(lines, user)[i] != WORKDIR_TEMPLATE
  {
    ForUserAt(lines, user);
    forall i | 0 <= i < |lines|
      ensures UserLine(lines[i], user) != EXEC_TEMPLATE && UserLine(lines[i], user) != WORKDIR_TEMPLATE
    {
      assert EXEC_TEMPLATE[0] == 'E' && WORKDIR_TEMPLATE[0] == '{';
      assert UserLine(lines[i], user) == lines[i] || UserLine(lines[i], user)[0] == 'U' || UserLine(lines[i], user)[0] == 'G';
    }
  }

  /** The two lines install renders for a list of arguments. */
  ghost function InstallBlock(args: seq<string>): seq<string> {
    [ExecLine(SYSTEM_BINARY, args), WORKDIR + CmdEscape(SYSTEM_DIR)]
  }

  lemma RenderedTwo(x: string, y: string, path: string, args: seq<string>, workDir: string)
    ensures Rendered([x, y], path, args, workDir)
            == [RenderedLine(x, path, args, workDir), RenderedLine(y, path, args, workDir)]
  {
    assert [y][1..] == [];
    assert Rendered([y], path, args, workDir) == [RenderedLine(y, path, args, workDir)];
    assert [x, y][1..] == [y];
  }

  lemma TemplatesDiffer()
    ensures WORKDIR_TEMPLATE != EXEC_TEMPLATE && SYSTEM_DIR != ""
  {
    assert EXEC_TEMPLATE[0] == 'E' && WORKDIR_TEMPLATE[0] == '{';
  }

  lemma RenderedTemplates(args: seq<string>)
    ensures Rendered([EXEC_TEMPLATE, WORKDIR_TEMPLATE], SYSTEM_BINARY, args, SYSTEM_DIR) == InstallBlock(args)
  {
    RenderedTwo(EXEC_TEMPLATE, WORKDIR_TEMPLATE, SYSTEM_BINARY, args, SYSTEM_DIR);
    TemplatesDiffer();
  }

  lemma RenderedAround(a: seq<string>, d: seq<string>, args: seq<string>)
    requires forall i :: 0 <= i < |a| ==> a[i] != EXEC_TEMPLATE && a[i] != WORKDIR_TEMPLATE
    requires forall i :: 0 <= i < |d| ==> d[i] != EXEC_TEMPLATE && d[i] != WORKDIR_TEMPLATE
    ensures Rendered(a + [EXEC_TEMPLATE, WORKDIR_TEMPLATE] + d, SYSTEM_BINARY, args, SYSTEM_DIR) == a + InstallBlock(args) + d
  {
    var mid := [EXEC_TEMPLATE, WORKDIR_TEMPLATE];
    RenderedConcat(a + mid, d, SYSTEM_BINARY, args, SYSTEM_DIR);
    RenderedConcat(a, mid, SYSTEM_BINARY, args, SYSTEM_DIR);
    RenderedPlain(a, SYSTEM_BINARY, args, SYSTEM_DIR);
    RenderedPlain(d, SYSTEM_BINARY, args, SYSTEM_DIR);
    RenderedTemplates(args);
  }

  lemma PlainHasNoTemplate(lines: seq<string>)
    requires PlainStretch(lines)
    ensures forall i :: 0 <= i < |lines| ==> lines[i] != EXEC_TEMPLATE && lines[i] != WORKDIR_TEMPLATE
  {
    forall i | 0 <= i < |lines|
      ensures lines[i] != EXEC_TEMPLATE && lines[i] != WORKDIR_TEMPLATE
    {
      if EXEC <= lines[i] {
        PrefixSurvives(lines[i], EXEC);
      }
    }
  }

  /** The rendered unit is the canonical one with the rendered lines in the ExecStart= place. */
  lemma DesiredIsSpliced(t: Templates, w: Places, user: string, args: seq<string>)
    requires Contract(t, w) && ValidUser(user)
    ensures Desired(t, user, args) == Spliced(Canonical(t, user), InstallBlock(args))
  {
    hide Shape, Spliced, Rendered;
    var e := CanonicalShape(t, w, user);
    SplicedShape(Canonical(t, user), e, CanonicalExec(t), user, InstallBlock(args));
    if user == ROOT_USER {
      RootDesired(t, w, args);
    } else {
      UserDesired(Split(t.packaged), w.e, user, args);
      var p := Split(t.packaged);
      if user == DEFAULT_USER {
        ForDefaultUser(p);
      }
      UserSpliced(p, w.e, user, args);
      assert Canonical(t, user) == ForUser(p, user);
    }
  }

  lemma RootDesired(t: Templates, w: Places, args: seq<string>)
    requires Contract(t, w)
    ensures Desired(t, ROOT_USER, args) == Spliced(Canonical(t, ROOT_USER), InstallBlock(args))
  {
    PlainHasNoTemplate(w.before);
    PlainHasNoTemplate(w.after);
    RenderedAround(w.before, w.after, args);
    RootShape(t, w);
    SplicedShape(Canonical(t, ROOT_USER), |w.before|, CanonicalExec(t), ROOT_USER, InstallBlock(args));
    CanonicalRootIs(Split(t.root), w.before, w.after, CanonicalExec(t));
    Around(w.before, CanonicalExec(t), w.after);
  }

  lemma HardenedOne(exec: string, user: string)
    requires EXEC <= exec
    ensures Hardened([exec], user) == [EXEC_TEMPLATE, WORKDIR_TEMPLATE]
  {
    assert [exec][1..] == [];
    EmptyConcat([EXEC_TEMPLATE, WORKDIR_TEMPLATE]);
  }

  lemma UserDesired(p: seq<string>, e: nat, user: string, args: seq<string>)
    requires PackagedContract(p, e)
    ensures Rendered(Hardened(p, user), SYSTEM_BINARY, args, SYSTEM_DIR)
            == ForUser(p[..e], user) + InstallBlock(args) + ForUser(p[e + 1..], user)
  {
    var a, d := p[..e], p[e + 1..];
    SplitAround(p, e);
    HardenedConcat(a + [p[e]], d, user);
    HardenedConcat(a, [p[e]], user);
    HardenedPlain(a, user);
    HardenedPlain(d, user);
    HardenedOne(p[e], user);
    ForUserPlain(a, user);
    ForUserPlain(d, user);
    RenderedAround(ForUser(a, user), ForUser(d, user), args);
  }

  lemma ForUserSplit(p: seq<string>, e: nat, user: string)
    requires e < |p|
    ensures |ForUser(p, user)| == |p|
    ensures ForUser(p, user)[..e] == ForUser(p[..e], user)
    ensures ForUser(p, user)[e + 1..] == ForUser(p[e + 1..], user)
  {
    var a, d := p[..e + 1], p[e + 1..];
    assert p == a + d && a == p[..e] + [p[e]];
    ForUserConcat(a, d, user);
    ForUserConcat(p[..e], [p[e]], user);
    ForUserAt(a, user);
    ForUserAt(p[..e], user);
    ForUserAt(p, user);
    SplitConcat(ForUser(a, user), ForUser(d, user));
    SplitConcat(ForUser(p[..e], user), ForUser([p[e]], user));
  }

  lemma UserSpliced(p: seq<string>, e: nat, user: string, args: seq<string>)
    requires PackagedContract(p, e) && ValidUser(user)
    ensures Spliced(ForUser(p, user), InstallBlock(args))
            == ForUser(p[..e], user) + InstallBlock(args) + ForUser(p[e + 1..], user)
  {
    OtherUserShape(p, e, user);
    SplicedShape(ForUser(p, user), e, p[e], user, InstallBlock(args));
    ForUserSplit(p, e, user);
  }

  lemma {:induction false} SpacedOneLine(args: seq<string>)
    requires forall i :: 0 <= i < |args| ==> OneLine(args[i])
    ensures OneLine(Spaced(args))
    decreases |args|
  {
    if args != [] {
      QuotesOneLine(args[0]);
      SpacedOneLine(args[1..]);
    }
  }

  lemma {:induction false} QuotesOneLine(s: string)
    requires OneLine(s)
    ensures OneLine(EscapeQuotes(s))
    decreases |s|
  {
    if s != "" {
      QuotesOneLine(s[1..]);
    }
  }

  lemma {:induction false} EscapePlain(s: string)
    requires forall i :: 0 <= i < |s| ==> s[i] != ' '
    ensures CmdEscape(s) == s
    decreases |s|
  {
    if s != "" {
      EscapePlain(s[1..]);
    }
  }

  ghost predicate PlainPath(path: string) {
    path != "" && !IsSpace(path[0]) && !IsSpace(path[|path| - 1]) && PlainText(path)
  }

  lemma ExecLineParts(path: string, args: seq<string>)
    requires PlainPath(path)
    ensures ExecLine(path, args) == EXEC + path + if args == [] then "" else " " + Spaced(args)
    ensures SplitExecStart(ExecLine(path, args)) == Command(path, Spaced(args))
  {
    EscapePlain(path);
    ExecLineSplits(path, args);
  }

  lemma JoinedIsLine(path: string, rest: string)
    requires PlainPath(path) && OneLine(rest) && (rest != "" ==> Trimmed(rest))
    ensures ValidBlock(EXEC + path + if rest == "" then "" else " " + rest, "")
  {
  }

  lemma ExecLineIsLine(path: string, args: seq<string>)
    requires PlainPath(path) && forall i :: 0 <= i < |args| ==> OneLine(args[i])
    ensures ValidBlock(ExecLine(path, args), "")
    ensures SplitExecStart(ExecLine(path, args)) == Command(path, Spaced(args))
  {
    ExecLineParts(path, args);
    SpacedOneLine(args);
    if args != [] {
      SpacedEnds(args);
    }
    JoinedIsLine(path, Spaced(args));
  }

  lemma WorkDirIsLine(dir: string)
    requires PlainPath(dir)
    ensures var line := WORKDIR + CmdEscape(dir); WORKDIR <= line && Trimmed(line) && OneLine(line)
  {
    EscapePlain(dir);
  }

  lemma SystemPathsArePlain()
    ensures PlainPath(SYSTEM_BINARY) && PlainPath(SYSTEM_DIR)
  {
    SystemBinaryIsPlain();
    assert PlainText("/usr/local/bin");
  }

  lemma InstallLines(args: seq<string>)
    requires forall i :: 0 <= i < |args| ==> OneLine(args[i])
    ensures ValidBlock(ExecLine(SYSTEM_BINARY, args), WORKDIR + CmdEscape(SYSTEM_DIR))
    ensures SplitExecStart(ExecLine(SYSTEM_BINARY, args)) == Command(SYSTEM_BINARY, Spaced(args))
  {
    SystemPathsArePlain();
    ExecLineIsLine(SYSTEM_BINARY, args);
    WorkDirIsLine(SYSTEM_DIR);
  }

  /** Directives of a unit that another one also has, or that are decided, are not carried over. */
  lemma NothingCarried(a: seq<string>, block: seq<string>, d: seq<string>, x: string, workDir: string)
    requires NoHeaders(block) && ValidBlock(x, workDir)
    ensures ExtrasOver(a + block + d, a + ExecBlock(x, workDir) + d) == []
  {
    var f := EndsInService(a, false);
    var mine, other := ExecBlock(x, workDir), a + block + d;
    BlockLines(x, workDir);
    ServiceAround(a, mine, d);
    ServiceAround(a, block, d);
    var sa, sm, sd := ServiceLines(a, false), ServiceLines(mine, f), ServiceLines(d, f);
    KeysConcat(sa + sm, sd);
    KeysConcat(sa, sm);
    KeysConcat(sa + ServiceLines(block, f), sd);
    KeysConcat(sa, ServiceLines(block, f));
    BlockKeys(x, workDir, f);
    ExtrasOfManaged(ServiceLines(a + mine + d, false), Managed(other));
  }

  lemma {:induction false} NoHeadersKeepSection(block: seq<string>, f: bool)
    requires NoHeaders(block)
    ensures EndsInService(block, f) == f
    decreases |block|
  {
    if block != [] {
      NoHeadersKeepSection(block[1..], f);
    }
  }

  lemma ServiceAround(a: seq<string>, block: seq<string>, d: seq<string>)
    requires NoHeaders(block)
    ensures var f := EndsInService(a, false);
            ServiceLines(a + block + d, false) == ServiceLines(a, false) + ServiceLines(block, f) + ServiceLines(d, f)
  {
    ServiceConcat(a + block, d, false);
    ServiceConcat(a, block, false);
    NoHeadersKeepSection(block, EndsInService(a, false));
  }

  lemma {:induction false} KeysWithin(lines: seq<string>, f: bool, keys: set<string>)
    requires forall i :: 0 <= i < |lines| && DirectiveKey(lines[i]).Some? ==> DirectiveKey(lines[i]).value in keys
    ensures KeysOf(ServiceLines(lines, f)) <= keys
    decreases |lines|
  {
    if lines != [] {
      var g := if IsHeader(lines[0]) then IsServiceHeader(lines[0]) else f;
      KeysWithin(lines[1..], g, keys);
      KeysConcat([lines[0]], ServiceLines(lines[1..], g));
      assert [lines[0]][1..] == [] && [] + ServiceLines(lines[1..], g) == ServiceLines(lines[1..], g);
      assert KeysOf([lines[0]]) <= keys;
    }
  }

  lemma BlockKeys(x: string, workDir: string, f: bool)
    requires ValidBlock(x, workDir)
    ensures KeysOf(ServiceLines(ExecBlock(x, workDir), f)) <= DECIDED
  {
    DecidedKeysAreKeys();
    TrimTrimmed(x);
    KeyOfPrefixed(x, "ExecStart");
    if workDir != "" {
      TrimTrimmed(workDir);
      KeyOfPrefixed(workDir, "WorkingDirectory");
    }
    KeysWithin(ExecBlock(x, workDir), f, DECIDED);
  }

  /** How the unit install rendered reads, and what a refresh decides on it. */
  lemma DesiredReads(t: Templates, w: Places, user: string, args: seq<string>, exists_: string -> bool)
    requires Contract(t, w) && ValidUser(user) && forall i :: 0 <= i < |args| ==> OneLine(args[i])
    ensures var x, workDir := ExecLine(SYSTEM_BINARY, args), WORKDIR + CmdEscape(SYSTEM_DIR);
            var unit, d := Desired(t, user, args), Decided(t, x, workDir, exists_);
            && FirstWith(unit, WORKDIR) == workDir
            && ValidBlock(x, workDir) && ValidBlock(d.0, d.1)
            && unit == Spliced(Canonical(t, user), ExecBlock(x, workDir))
            && Body(t, unit, exists_) == Spliced(Canonical(t, user), ExecBlock(d.0, d.1))
  {
    var c, x, workDir := Canonical(t, user), ExecLine(SYSTEM_BINARY, args), WORKDIR + CmdEscape(SYSTEM_DIR);
    var e := CanonicalShape(t, w, user);
    InstallLines(args);
    DesiredIsSpliced(t, w, user, args);
    assert InstallBlock(args) == ExecBlock(x, workDir);
    BodyReadBack(c, e, CanonicalExec(t), user, x, workDir);
    CanonicalIsSpliced(c, e, CanonicalExec(t), user);
    DecidedIsValid(t, x, workDir, exists_);
    BodyIsDecided(t, user, x, workDir, exists_);
  }

  /** What a refresh makes of the unit install just rendered. */
  lemma RefreshedDesired(t: Templates, w: Places, user: string, args: seq<string>, exists_: string -> bool)
    requires Contract(t, w) && ValidUser(user) && forall i :: 0 <= i < |args| ==> OneLine(args[i])
    ensures Refreshed(t, Desired(t, user, args), exists_) == Body(t, Desired(t, user, args), exists_)
  {
    var c, x, workDir := Canonical(t, user), ExecLine(SYSTEM_BINARY, args), WORKDIR + CmdEscape(SYSTEM_DIR);
    var d := Decided(t, x, workDir, exists_);
    var e := CanonicalShape(t, w, user);
    DesiredReads(t, w, user, args, exists_);
    SplicedShape(c, e, CanonicalExec(t), user, ExecBlock(x, workDir));
    SplicedShape(c, e, CanonicalExec(t), user, ExecBlock(d.0, d.1));
    BlockLines(d.0, d.1);
    NothingCarried(c[..e], ExecBlock(d.0, d.1), c[e + 1..], x, workDir);
  }

  /** The body of a refresh of the rendered unit is that unit exactly when the system binary exists
      and the rendered line is not the packaged one; otherwise it has no WorkingDirectory= line. */
  lemma DesiredBody(t: Templates, w: Places, user: string, args: seq<string>, exists_: string -> bool)
    requires Contract(t, w) && ValidUser(user) && forall i :: 0 <= i < |args| ==> OneLine(args[i])
    ensures var unit := Desired(t, user, args);
            && FirstWith(unit, WORKDIR) != ""
            && if exists_(SYSTEM_BINARY) && ExecLine(SYSTEM_BINARY, args) != CanonicalExec(t)
               then Body(t, unit, exists_) == unit
               else FirstWith(Body(t, unit, exists_), WORKDIR) == ""
  {
    var x, workDir := ExecLine(SYSTEM_BINARY, args), WORKDIR + CmdEscape(SYSTEM_DIR);
    var d := Decided(t, x, workDir, exists_);
    var e := CanonicalShape(t, w, user);
    DesiredReads(t, w, user, args, exists_);
    InstallDecision(t, args, exists_);
    BodyReadBack(Canonical(t, user), e, CanonicalExec(t), user, d.0, d.1);
  }

  /** Refreshing the unit install just rendered, for any user and arguments, changes nothing exactly
      when the system binary exists and the rendered line is not the packaged one. */
  lemma InstallThenRefresh(t: Templates, w: Places, user: string, args: seq<string>, exists_: string -> bool)
    requires Contract(t, w) && ValidUser(user) && forall i :: 0 <= i < |args| ==> OneLine(args[i])
    ensures Refreshed(t, Desired(t, user, args), exists_) == Desired(t, user, args)
            <==> exists_(SYSTEM_BINARY) && ExecLine(SYSTEM_BINARY, args) != CanonicalExec(t)
  {
    RefreshedDesired(t, w, user, args, exists_);
    DesiredBody(t, w, user, args, exists_);
  }

  lemma DecisionFor(t: Templates, x: string, workDir: string, bin: string, exists_: string -> bool)
    requires x != "" && Unescape(SplitExecStart(x).path) == bin != LEGACY_BINARY
    ensures var d := Decided(t, x, workDir, exists_);
            && (exists_(bin) && x != CanonicalExec(t) ==> d == (x, workDir))
            && (!exists_(bin) || x == CanonicalExec(t) ==> d.1 == "")
  {
  }

  lemma InstallDecision(t: Templates, args: seq<string>, exists_: string -> bool)
    requires forall i :: 0 <= i < |args| ==> OneLine(args[i])
    ensures var x, workDir := ExecLine(SYSTEM_BINARY, args), WORKDIR + CmdEscape(SYSTEM_DIR);
            var d := Decided(t, x, workDir, exists_);
            && workDir != ""
            && (exists_(SYSTEM_BINARY) && x != CanonicalExec(t) ==> d == (x, workDir))
            && (!exists_(SYSTEM_BINARY) || x == CanonicalExec(t) ==> d.1 == "")
  {
    InstallLines(args);
    SystemBinaryIsPlain();
    DecisionFor(t, ExecLine(SYSTEM_BINARY, args), WORKDIR + CmdEscape(SYSTEM_DIR), SYSTEM_BINARY, exists_);
  }

  lemma DesiredIsUnit(t: Templates, w: Places, user: string, args: seq<string>)
    requires Contract(t, w) && ValidUser(user) && forall i :: 0 <= i < |args| ==> OneLine(args[i])
    ensures Desired(t, user, args) != [] && Lines(Desired(t, user, args)) && Anchored(Desired(t, user, args))
  {
    var e := CanonicalShape(t, w, user);
    InstallLines(args);
    DesiredIsSpliced(t, w, user, args);
    var x, workDir := ExecLine(SYSTEM_BINARY, args), WORKDIR + CmdEscape(SYSTEM_DIR);
    assert InstallBlock(args) == ExecBlock(x, workDir);
    BodyReadBack(Canonical(t, user), e, CanonicalExec(t), user, x, workDir);
  }

  /** The same of the files. */
  lemma InstallThenRefreshText(t: Templates, w: Places, user: string, args: seq<string>, exists_: string -> bool)
    requires Contract(t, w) && ValidUser(user) && forall i :: 0 <= i < |args| ==> OneLine(args[i])
    ensures RefreshedText(t, Join(Desired(t, user, args)), exists_) == Join(Desired(t, user, args))
            <==> exists_(SYSTEM_BINARY) && ExecLine(SYSTEM_BINARY, args) != CanonicalExec(t)
  {
    var lines := Desired(t, user, args);
    DesiredIsUnit(t, w, user, args);
    SplitJoin(lines);
    TextIsLines(t, w, Join(lines), exists_);
    JoinSplit(RefreshedText(t, Join(lines), exists_));
    InstallThenRefresh(t, w, user, args, exists_);
  }

  lemma RenderedIsQuoted(args: seq<string>)
    requires args != []
    ensures '"' in ExecLine(SYSTEM_BINARY, args)
  {
    var head := EXEC + CmdEscape(SYSTEM_BINARY);
    assert ExecLine(SYSTEM_BINARY, args)[|head| + 1] == Spaced(args)[0] == '"';
  }

  /** A packaged line without quotes is never one install renders with arguments, so a refresh leaves
      what install rendered alone exactly while the system binary exists. */
  lemma InstalledUnitIsStable(t: Templates, w: Places, user: string, args: seq<string>, exists_: string -> bool)
    requires Contract(t, w) && ValidUser(user) && forall i :: 0 <= i < |args| ==> OneLine(args[i])
    requires args != [] && '"' !in CanonicalExec(t)
    ensures RefreshedText(t, Join(Desired(t, user, args)), exists_) == Join(Desired(t, user, args))
            <==> exists_(SYSTEM_BINARY)
  {
    RenderedIsQuoted(args);
    InstallThenRefreshText(t, w, user, args, exists_);
  }
}
