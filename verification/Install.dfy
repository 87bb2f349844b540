/** The unit install renders, and the reconciliation of an installed service with it. */
module Install {
  import opened Results
  import opened Seqs
  import opened Text
  import opened UnitFile
  import opened CommandLine
  import opened Refresh

  // Rendering.

  function Hardened(lines: seq<string>, user: string): seq<string> {
    if lines == [] then []
    else
      (if EXEC <= lines[0] then [EXEC_TEMPLATE, WORKDIR_TEMPLATE] else [UserLine(lines[0], user)])
      + Hardened(lines[1..], user)
  }

  function Script(t: Templates, user: string): seq<string> {
    if user == ROOT_USER then Split(t.root) else Hardened(Split(t.packaged), user)
  }

  /** What the template engine makes of one line. */
  function RenderedLine(line: string, path: string, args: seq<string>, workDir: string): string {
    if line == EXEC_TEMPLATE then ExecLine(path, args)
    else if line == WORKDIR_TEMPLATE then (if workDir != "" then WORKDIR + CmdEscape(workDir) else "")
    else line
  }

  function Rendered(lines: seq<string>, path: string, args: seq<string>, workDir: string): seq<string> {
    if lines == [] then []
    else [RenderedLine(lines[0], path, args, workDir)] + Rendered(lines[1..], path, args, workDir)
  }

  /** The rendered unit; it runs the installed copy of the program, not the one that was invoked. */
  function Desired(t: Templates, user: string, args: seq<string>): seq<string> {
    Rendered(Script(t, user), SYSTEM_BINARY, args, SYSTEM_DIR)
  }

  method HardenedSystemdScript(packaged: string, user: string) returns (script: seq<string>)
    ensures script == Hardened(Split(packaged), user)
  {
    var lines := Split(packaged);
    script := [];
    assert lines[0..] == lines && [] + Hardened(lines, user) == Hardened(lines, user);
    for i := 0 to |lines|
      invariant script + Hardened(lines[i..], user) == Hardened(lines, user)
    {
      assert lines[i..][1..] == lines[i + 1..];
      ghost var rest := Hardened(lines[i + 1..], user);
      if EXEC <= lines[i] {
        Assoc(script, [EXEC_TEMPLATE, WORKDIR_TEMPLATE], rest);
        script := script + [EXEC_TEMPLATE, WORKDIR_TEMPLATE];
      } else {
        Assoc(script, [UserLine(lines[i], user)], rest);
        if USER <= lines[i] {
          script := script + [USER + user];
        } else if GROUP <= lines[i] {
          script := script + [GROUP + user];
        } else {
          script := script + [lines[i]];
        }
      }
    }
    assert script + [] == script;
  }

  // Comparing.

  /** What a comparison looks at, trimmed: not blank lines, not the comment a rewrite adds, and of a
      [Service] section only the directives with a key in `managed`. */
  function ManagedLines(lines: seq<string>, managed: set<string>, inService: bool): seq<string> {
    if lines == [] then []
    else
      var t := Trim(lines[0]);
      if t == "" || t == PRESERVED_COMMENT then ManagedLines(lines[1..], managed, inService)
      else if "[" <= t then [t] + ManagedLines(lines[1..], managed, t == SERVICE)
      else if inService && !("#" <= t) && IsExtra(t, managed) then ManagedLines(lines[1..], managed, inService)
      else [t] + ManagedLines(lines[1..], managed, inService)
  }

  method ManagedUnitLines(unit: string, managed: set<string>) returns (out: seq<string>)
    ensures out == ManagedLines(Split(unit), managed, false)
  {
    out := [];
    var inService := false;
    var lines := Split(unit);
    ghost var all := ManagedLines(lines, managed, false);
    assert lines[0..] == lines && [] + all == all;
    for i := 0 to |lines|
      invariant out + ManagedLines(lines[i..], managed, inService) == all
    {
      assert lines[i..][1..] == lines[i + 1..];
      var trimmed := Trim(lines[i]);
      if trimmed == "" || trimmed == PRESERVED_COMMENT {
        continue;
      }
      if "[" <= trimmed {
        inService := trimmed == SERVICE;
      } else if inService && !("#" <= trimmed) {
        var key := DirectiveKey(trimmed);
        if key.Some? && key.value !in managed {
          continue;
        }
      }
      Assoc(out, [trimmed], ManagedLines(lines[i + 1..], managed, inService));
      out := out + [trimmed];
    }
    assert out + [] == out;
  }

  predicate Matches(installed: string, desired: string) {
    var managed := Managed(Split(desired));
    Join(ManagedLines(Split(installed), managed, false)) == Join(ManagedLines(Split(desired), managed, false))
  }

  method UnitMatches(installed: string, desired: string) returns (same: bool)
    ensures same == Matches(installed, desired)
  {
    var managed := ServiceDirectiveKeys(desired);
    managed := managed + DECIDED + RETIRED;
    var a := ManagedUnitLines(installed, managed);
    var b := ManagedUnitLines(desired, managed);
    same := Join(a) == Join(b);
  }

  // Reconciling.

  /** The part of the host a reconciliation touches; `loaded` is the unit text systemd last read. */
  datatype HostState = HostState(unit: string, loaded: string, enabled: bool)

  /** Which of the host's operations fail in a run. */
  datatype Faults = Faults(read: bool, write: bool, reload: bool, enable: bool)

  const NO_FAULTS := Faults(false, false, false, false)

  datatype ReconcileError = ReadFailed | WriteFailed | ReloadFailed | EnableFailed

  datatype Change = UnitRewritten | ServiceEnabled

  datatype Reconciliation = Reconciliation(host: HostState, changed: seq<Change>, error: Option<ReconcileError>)

  function Written(desired: string, installed: string): string {
    Join(Preserved(Split(desired), Split(installed)))
  }

  function Enabled(h: HostState, changed: seq<Change>, f: Faults): Reconciliation {
    if h.enabled then Reconciliation(h, changed, None)
    else if f.enable then Reconciliation(h, changed, Some(EnableFailed))
    else Reconciliation(h.(enabled := true), changed + [ServiceEnabled], None)
  }

  function Reconciled(h: HostState, packageOwned: bool, desired: string, f: Faults): Reconciliation {
    if packageOwned then Enabled(h, [], f)
    else if f.read then Reconciliation(h, [], Some(ReadFailed))
    else if Matches(h.unit, desired) then Enabled(h, [], f)
    else
      var unit := Written(desired, h.unit);
      if f.write then Reconciliation(h, [], Some(WriteFailed))
      else if f.reload then Reconciliation(h.(unit := unit), [], Some(ReloadFailed))
      else Enabled(h.(unit := unit, loaded := unit), [UnitRewritten], f)
  }

  class Host {
    var unit: string
    var loaded: string
    var enabled: bool
    const packageOwned: bool

    function State(): HostState
      reads this
    {
      HostState(unit, loaded, enabled)
    }

    constructor (unit: string, loaded: string, enabled: bool, packageOwned: bool)
      ensures State() == HostState(unit, loaded, enabled) && this.packageOwned == packageOwned
    {
      this.unit, this.loaded, this.enabled, this.packageOwned := unit, loaded, enabled, packageOwned;
    }

    method ReconcileInstalledService(desired: string, f: Faults)
        returns (changed: seq<Change>, error: Option<ReconcileError>)
      modifies this
      ensures Reconciliation(State(), changed, error) == Reconciled(old(State()), packageOwned, desired, f)
    {
      changed := [];
      if !packageOwned {
        if f.read {
          return [], Some(ReadFailed);
        }
        var same := UnitMatches(unit, desired);
        if !same {
          var body := WithPreservedDirectives(desired, unit);
          if f.write {
            return [], Some(WriteFailed);
          }
          unit := body;
          if f.reload {
            return [], Some(ReloadFailed);
          }
          loaded := unit;
          changed := [UnitRewritten];
        }
      }
      if !enabled {
        if f.enable {
          return changed, Some(EnableFailed);
        }
        enabled := true;
        changed := changed + [ServiceEnabled];
      }
      return changed, None;
    }
  }
}
