/**
 refresh-unit and install: the unit a refresh writes over an installed one, and the unit install
 renders, both from the packaged unit and the root script.
 */
module Refresh {
  import opened Seqs
  import opened Text
  import opened UnitFile
  import opened CommandLine

  const ROOT_USER := "root"
  const DEFAULT_USER := "senhub"
  const SYSTEM_DIR := "/usr/local/bin"
  const SYSTEM_BINARY := SYSTEM_DIR + "/senhub-agent"
  const LEGACY_BINARY := "/var/lib/senhub-agent/bin/senhub-agent"

  const USER := "User="
  const GROUP := "Group="
  const WORKDIR := "WorkingDirectory="
  const WORKDIR_GUARD := "{{if .WorkingDirectory}}"
  const EXEC_TEMPLATE := EXEC + "{{.Path|cmdEscape}}{{range .Arguments}} {{.|cmd}}{{end}}"
  const WORKDIR_TEMPLATE := WORKDIR_GUARD + WORKDIR + "{{.WorkingDirectory|cmdEscape}}{{end}}"

  /** The packaged unit file and the template `install --user root` renders. */
  datatype Templates = Templates(packaged: string, root: string)

  // Reading an installed unit.

  function ServiceUser(lines: seq<string>): (user: string) {
    var user := Trim(if USER <= FirstWith(lines, USER) then FirstWith(lines, USER)[|USER|..] else "");
    if user == "" then ROOT_USER else user
  }

  method InstalledServiceUser(unit: string) returns (user: string)
    ensures user == ServiceUser(Split(unit))
  {
    var lines := Split(unit);
    assert lines[0..] == lines;
    for i := 0 to |lines|
      invariant FirstWith(lines[i..], USER) == FirstWith(lines, USER)
    {
      assert lines[i..][1..] == lines[i + 1..];
      var trimmed := Trim(lines[i]);
      if USER <= trimmed {
        user := Trim(trimmed[|USER|..]);
        if user == "" {
          return ROOT_USER;
        }
        return user;
      }
    }
    return ROOT_USER;
  }

  method InstalledExecStart(unit: string) returns (execStart: string, workingDirectory: string)
    ensures execStart == FirstWith(Split(unit), EXEC)
    ensures workingDirectory == FirstWith(Split(unit), WORKDIR)
  {
    execStart, workingDirectory := "", "";
    var lines := Split(unit);
    assert lines[0..] == lines;
    for i := 0 to |lines|
      invariant FirstWith(lines, EXEC) == if execStart != "" then execStart else FirstWith(lines[i..], EXEC)
      invariant FirstWith(lines, WORKDIR) == if workingDirectory != "" then workingDirectory else FirstWith(lines[i..], WORKDIR)
    {
      assert lines[i..][1..] == lines[i + 1..];
      var trimmed := Trim(lines[i]);
      if EXEC <= trimmed && execStart == "" {
        execStart := trimmed;
      }
      if WORKDIR <= trimmed && workingDirectory == "" {
        workingDirectory := trimmed;
      }
    }
  }

  // The canonical unit of a user.

  function PackagedExec(lines: seq<string>): string {
    if lines == [] then "" else if EXEC <= lines[0] then Trim(lines[0]) else PackagedExec(lines[1..])
  }

  function UserLine(line: string, user: string): string {
    if USER <= line then USER + user else if GROUP <= line then GROUP + user else line
  }

  function ForUser(lines: seq<string>, user: string): seq<string> {
    if lines == [] then [] else [UserLine(lines[0], user)] + ForUser(lines[1..], user)
  }

  function CanonicalRoot(script: seq<string>, exec: string): seq<string> {
    if script == [] then []
    else
      (if EXEC <= script[0] then [exec] else if WORKDIR_GUARD <= script[0] then [] else [script[0]])
      + CanonicalRoot(script[1..], exec)
  }

  function Canonical(t: Templates, user: string): seq<string> {
    if user == ROOT_USER then CanonicalRoot(Split(t.root), PackagedExec(Split(t.packaged)))
    else if user == DEFAULT_USER then Split(t.packaged)
    else ForUser(Split(t.packaged), user)
  }

  method PackagedExecStartLine(packaged: string) returns (line: string)
    ensures line == PackagedExec(Split(packaged))
  {
    var lines := Split(packaged);
    assert lines[0..] == lines;
    for i := 0 to |lines|
      invariant PackagedExec(lines[i..]) == PackagedExec(lines)
    {
      assert lines[i..][1..] == lines[i + 1..];
      if EXEC <= lines[i] {
        return Trim(lines[i]);
      }
    }
    return "";
  }

  method CanonicalRootUnit(t: Templates) returns (unit: seq<string>)
    ensures unit == CanonicalRoot(Split(t.root), PackagedExec(Split(t.packaged)))
  {
    var lines := Split(t.root);
    var exec := PackagedExecStartLine(t.packaged);
    unit := [];
    assert lines[0..] == lines && [] + CanonicalRoot(lines, exec) == CanonicalRoot(lines, exec);
    for i := 0 to |lines|
      invariant unit + CanonicalRoot(lines[i..], exec) == CanonicalRoot(lines, exec)
    {
      var rest := CanonicalRoot(lines[i + 1..], exec);
      assert lines[i..][1..] == lines[i + 1..];
      if EXEC <= lines[i] {
        Assoc(unit, [exec], rest);
        unit := unit + [exec];
      } else if WORKDIR_GUARD <= lines[i] {
        Assoc(unit, [], rest);
        assert unit + [] == unit;
        continue;
      } else {
        Assoc(unit, [lines[i]], rest);
        unit := unit + [lines[i]];
      }
    }
    assert unit + [] == unit;
  }

  method CanonicalUnitForUser(t: Templates, user: string) returns (unit: seq<string>)
    ensures unit == Canonical(t, user)
  {
    if user == ROOT_USER {
      unit := CanonicalRootUnit(t);
      return;
    }
    var lines := Split(t.packaged);
    if user == DEFAULT_USER {
      return lines;
    }
    unit := [];
    assert lines[0..] == lines && [] + ForUser(lines, user) == ForUser(lines, user);
    for i := 0 to |lines|
      invariant unit + ForUser(lines[i..], user) == ForUser(lines, user)
    {
      assert lines[i..][1..] == lines[i + 1..];
      Assoc(unit, [UserLine(lines[i], user)], ForUser(lines[i + 1..], user));
      if USER <= lines[i] {
        unit := unit + [USER + user];
      } else if GROUP <= lines[i] {
        unit := unit + [GROUP + user];
      } else {
        unit := unit + [lines[i]];
      }
    }
    assert unit + [] == unit;
  }

  // The four ExecStart rules.

  function ExecBlock(exec: string, workDir: string): (block: seq<string>) {
    if workDir != "" then [exec, workDir] else [exec]
  }

  function Spliced(lines: seq<string>, block: seq<string>): seq<string> {
    if lines == [] then [] else (if EXEC <= lines[0] then block else [lines[0]]) + Spliced(lines[1..], block)
  }

  function Repointed(args: string): string {
    EXEC + SYSTEM_BINARY + " " + args
  }

  /** The refreshed unit before the operator's directives, from what was read of the installed one. */
  function BodyFrom(t: Templates, user: string, exec: string, workDir: string, exists_: string -> bool): seq<string> {
    var unit := Canonical(t, user);
    if exec == "" || exec == PackagedExec(Split(t.packaged)) then unit
    else
      var c := SplitExecStart(exec);
      if Unescape(c.path) == LEGACY_BINARY || !exists_(Unescape(c.path)) then
        if c.args == "" then unit else Spliced(unit, [Repointed(c.args)])
      else Spliced(unit, ExecBlock(exec, workDir))
  }

  function Body(t: Templates, installed: seq<string>, exists_: string -> bool): seq<string> {
    BodyFrom(t, ServiceUser(installed), FirstWith(installed, EXEC), FirstWith(installed, WORKDIR), exists_)
  }

  function Refreshed(t: Templates, installed: seq<string>, exists_: string -> bool): seq<string> {
    Preserved(Body(t, installed, exists_), installed)
  }

  /** The text refresh-unit writes: the body is joined, then split again to take the directives in. */
  function RefreshedText(t: Templates, installed: string, exists_: string -> bool): string {
    Join(Preserved(Split(Join(Body(t, Split(installed), exists_))), Split(installed)))
  }

  method RefreshedUnitBody(t: Templates, installed: string, exists_: string -> bool) returns (body: seq<string>)
    ensures body == Body(t, Split(installed), exists_)
  {
    var user := InstalledServiceUser(installed);
    var unit := CanonicalUnitForUser(t, user);
    var execLine, workDir := InstalledExecStart(installed);
    var canonicalExec := PackagedExecStartLine(t.packaged);
    if execLine == "" || execLine == canonicalExec {
      return unit;
    }
    var c := SplitExecStart(execLine);
    if Unescape(c.path) == LEGACY_BINARY {
      if c.args == "" {
        return unit;
      }
      execLine, workDir := Repointed(c.args), "";
    } else if !exists_(Unescape(c.path)) {
      if c.args == "" {
        return unit;
      }
      execLine, workDir := Repointed(c.args), "";
    }
    body := SpliceExec(unit, execLine, workDir);
  }

  method SpliceExec(unit: seq<string>, execLine: string, workDir: string) returns (body: seq<string>)
    ensures body == Spliced(unit, ExecBlock(execLine, workDir))
  {
    body := [];
    ghost var block := ExecBlock(execLine, workDir);
    assert unit[0..] == unit && [] + Spliced(unit, block) == Spliced(unit, block);
    for i := 0 to |unit|
      invariant body + Spliced(unit[i..], block) == Spliced(unit, block)
    {
      assert unit[i..][1..] == unit[i + 1..];
      Assoc(body, if EXEC <= unit[i] then block else [unit[i]], Spliced(unit[i + 1..], block));
      if EXEC <= unit[i] {
        if workDir != "" {
          Assoc(body, [execLine], [workDir]);
        }
        body := body + [execLine];
        if workDir != "" {
          body := body + [workDir];
        }
        continue;
      }
      body := body + [unit[i]];
    }
    assert body + [] == body;
  }

  method RefreshedUnit(t: Templates, installed: string, exists_: string -> bool) returns (unit: string)
    ensures unit == RefreshedText(t, installed, exists_)
  {
    var body := RefreshedUnitBody(t, installed, exists_);
    unit := WithPreservedDirectives(Join(body), installed);
  }
}
