/** The user and group of the canonical unit and of the rendered one. */
module Ownership {
  import opened Seqs
  import opened Text
  import opened UnitFile
  import opened CommandLine
  import opened Refresh
  import opened RefreshProofs
  import opened Install
  import opened InstallProofs

  /** The Group= lines start with the key, without white space before it. */
  ghost predicate GroupsFlush(lines: seq<string>) {
    forall i :: 0 <= i < |lines| && "Group=" <= Trim(lines[i]) ==> "Group=" <= lines[i]
  }

  lemma GroupLineFor(line: string, user: string)
    requires ValidUser(user) && ("Group=" <= Trim(line) ==> "Group=" <= line)
    ensures "Group=" <= Trim(UserLine(line, user)) <==> "Group=" <= Trim(line)
    ensures "Group=" <= Trim(line) ==> Trim(UserLine(line, user)) == "Group=" + user
  {
    if USER <= line {
      PrefixSurvives(line, USER);
      TrimTrimmed(USER + user);
    } else if GROUP <= line {
      PrefixSurvives(line, GROUP);
      TrimTrimmed(GROUP + user);
    }
  }

  lemma {:induction false} FirstGroupFor(lines: seq<string>, user: string)
    requires ValidUser(user) && GroupsFlush(lines)
    ensures FirstWith(ForUser(lines, user), "Group=") == if FirstWith(lines, "Group=") == "" then "" else "Group=" + user
    decreases |lines|
  {
    if lines != [] {
      FirstGroupFor(lines[1..], user);
      GroupLineFor(lines[0], user);
      TailOfConcat([UserLine(lines[0], user)], ForUser(lines[1..], user));
      EmptyConcat(ForUser(lines[1..], user));
    }
  }

  lemma {:induction false} FirstGroupDefault(lines: seq<string>)
    requires GroupsFlush(lines)
    requires forall i :: 0 <= i < |lines| && GROUP <= lines[i] ==> lines[i] == GROUP + DEFAULT_USER
    ensures FirstWith(lines, "Group=") == "" || FirstWith(lines, "Group=") == "Group=" + DEFAULT_USER
    decreases |lines|
  {
    if lines != [] {
      FirstGroupDefault(lines[1..]);
      TrimTrimmed(GROUP + DEFAULT_USER);
    }
  }

  /** For every user but root the canonical unit runs as that user and, if the packaged unit sets a
      group, in that user's group. */
  lemma CanonicalOwner(t: Templates, w: Places, user: string)
    requires Contract(t, w) && ValidUser(user) && GroupsFlush(Split(t.packaged)) && user != ROOT_USER
    ensures ServiceUser(Canonical(t, user)) == user
    ensures FirstWith(Canonical(t, user), "Group=") ==
            if FirstWith(Split(t.packaged), "Group=") == "" then "" else "Group=" + user
  {
    var e := CanonicalShape(t, w, user);
    if user == DEFAULT_USER {
      FirstGroupDefault(Split(t.packaged));
    } else {
      FirstGroupFor(Split(t.packaged), user);
    }
  }

  lemma NoGroup(line: string, prefix: string)
    requires Trimmed(line) && prefix != "" && prefix[0] != 'G' && prefix <= line
    ensures NoneWith([line], "Group=")
  {
    TrimTrimmed(line);
  }

  lemma NoGroupInBlock(x: string, workDir: string)
    requires ValidBlock(x, workDir) && workDir != ""
    ensures NoneWith([x, workDir], "Group=")
  {
    NoGroup(x, EXEC);
    NoGroup(workDir, WORKDIR);
    assert forall i :: 0 <= i < 2 ==> [x, workDir][i] == x || [x, workDir][i] == workDir;
    assert [x][0] == x && [workDir][0] == workDir;
  }

  /** The rendered unit has the same group as the canonical one. */
  lemma DesiredGroup(t: Templates, w: Places, user: string, args: seq<string>)
    requires Contract(t, w) && ValidUser(user) && forall i :: 0 <= i < |args| ==> OneLine(args[i])
    ensures FirstWith(Desired(t, user, args), "Group=") == FirstWith(Canonical(t, user), "Group=")
  {
    hide Canonical, Desired;
    var c, exec, block := Canonical(t, user), CanonicalExec(t), InstallBlock(args);
    var e := CanonicalShape(t, w, user);
    DesiredIsSpliced(t, w, user, args);
    SplicedShape(c, e, exec, user, block);
    SplitAround(c, e);
    InstallLines(args);
    NoGroupInBlock(block[0], block[1]);
    NoGroup(exec, EXEC);
    FirstSkips(c[..e], block, c[e + 1..], "Group=");
    FirstSkips(c[..e], [exec], c[e + 1..], "Group=");
  }

  /** For every user but root, install renders a unit that runs as that user and in that group. */
  lemma DesiredOwner(t: Templates, w: Places, user: string, args: seq<string>)
    requires Contract(t, w) && ValidUser(user) && GroupsFlush(Split(t.packaged)) && user != ROOT_USER
    requires forall i :: 0 <= i < |args| ==> OneLine(args[i])
    ensures ServiceUser(Desired(t, user, args)) == user
    ensures FirstWith(Desired(t, user, args), "Group=") ==
            if FirstWith(Split(t.packaged), "Group=") == "" then "" else "Group=" + user
  {
    hide Canonical, Desired, Spliced;
    CanonicalOwner(t, w, user);
    DesiredGroup(t, w, user, args);
    DesiredIsSpliced(t, w, user, args);
    InstallLines(args);
    var e := CanonicalShape(t, w, user);
    BodyReadBack(Canonical(t, user), e, CanonicalExec(t), user, ExecLine(SYSTEM_BINARY, args), WORKDIR + CmdEscape(SYSTEM_DIR));
  }

  // Reading a unit.

  /** The first line with the prefix, trimmed, whatever stands before and after it. */
  lemma {:induction false} FirstWithIs(before: seq<string>, line: string, after: seq<string>, prefix: string)
    requires NoneWith(before, prefix) && prefix <= Trim(line)
    ensures FirstWith(before + [line] + after, prefix) == Trim(line)
    decreases |before|
  {
    var lines := before + [line] + after;
    if before == [] {
      assert lines[0] == line;
    } else {
      assert lines[0] == before[0] && lines[1..] == before[1..] + [line] + after;
      FirstWithIs(before[1..], line, after, prefix);
    }
  }

  /** The service runs as what its first User= line names, and as root if that is blank or there is
      no such line. */
  lemma ServiceUserIs(before: seq<string>, line: string, after: seq<string>, user: string)
    requires NoneWith(before, "User=") && Trim(line) == "User=" + user
    ensures ServiceUser(before) == "root"
    ensures ServiceUser(before + [line] + after) == if Trim(user) == "" then "root" else Trim(user)
  {
    FirstOfNone(before, USER);
    TrimTrimmed("");
    FirstWithIs(before, line, after, USER);
    assert ("User=" + user)[|USER|..] == user;
  }
}
