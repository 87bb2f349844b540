/** refresh-unit and the reconciliation of install, applied to the same installed unit. */
module Agreement {
  import opened Results
  import opened Seqs
  import opened Text
  import opened UnitFile
  import opened CommandLine
  import opened Refresh
  import opened RefreshProofs
  import opened Install
  import opened InstallProofs
  import opened ReconcileProofs

  /** The lines a comparison keeps read as the unit does, for the keys a rewrite decides. */
  lemma {:induction false} ManagedFirst(lines: seq<string>, managed: set<string>, f: bool, key: string)
    requires key in DECIDED && DECIDED <= managed
    ensures FirstWith(ManagedLines(lines, managed, f), key + "=") == FirstWith(lines, key + "=")
    decreases |lines|
  {
    if lines != [] {
      var t := Trim(lines[0]);
      var g := if "[" <= t then t == SERVICE else f;
      ManagedFirst(lines[1..], managed, g, key);
      LineKept(lines[0], managed, key);
      FirstCons(t, ManagedLines(lines[1..], managed, g), key + "=");
    }
  }

  lemma FirstCons(line: string, rest: seq<string>, prefix: string)
    ensures FirstWith([line] + rest, prefix) == if prefix <= Trim(line) then Trim(line) else FirstWith(rest, prefix)
  {
    TailOfConcat([line], rest);
    EmptyConcat(rest);
  }

  /** A line the comparison sets aside is not a decided directive. */
  lemma LineKept(line: string, managed: set<string>, key: string)
    requires key in DECIDED && DECIDED <= managed
    ensures Trim(Trim(line)) == Trim(line)
    ensures key + "=" <= Trim(line) ==>
              && Trim(line) != "" && Trim(line) != PRESERVED_COMMENT && !("[" <= Trim(line))
              && !IsExtra(Trim(line), managed)
  {
    var t := Trim(line);
    var lead, trail := TrimSplits(line);
    TrimTrimmed(t);
    DecidedKeysAreKeys();
    if key + "=" <= t {
      assert t[0] == key[0];
      KeyStarts(key);
      KeyOfPrefixed(t, key);
    }
  }

  lemma KeyStarts(key: string)
    requires key in DECIDED
    ensures key != "" && key[0] != '[' && key[0] != '#'
    ensures PRESERVED_COMMENT[0] == '#'
  {
  }

  /** Units that match are of the same user and have the same ExecStart= and WorkingDirectory=. */
  lemma MatchingReads(installed: string, desired: string)
    requires Matches(installed, desired)
    ensures var a, b := Split(installed), Split(desired);
            && FirstWith(a, EXEC) == FirstWith(b, EXEC) && FirstWith(a, WORKDIR) == FirstWith(b, WORKDIR)
            && ServiceUser(a) == ServiceUser(b)
  {
    var a, b := Split(installed), Split(desired);
    MatchesIffLines(installed, desired);
    assert FirstWith(a, EXEC) == FirstWith(b, EXEC) by {
      DecidedKeysAreKeys();
      MatchingKey(installed, desired, "ExecStart");
    }
    assert FirstWith(a, WORKDIR) == FirstWith(b, WORKDIR) by {
      DecidedKeysAreKeys();
      MatchingKey(installed, desired, "WorkingDirectory");
    }
    assert FirstWith(a, USER) == FirstWith(b, USER) by {
      DecidedKeysAreKeys();
      MatchingKey(installed, desired, "User");
    }
  }

  lemma MatchingKey(installed: string, desired: string, key: string)
    requires key in DECIDED
    requires var m := Managed(Split(desired));
             ManagedLines(Split(installed), m, false) == ManagedLines(Split(desired), m, false)
    ensures FirstWith(Split(installed), key + "=") == FirstWith(Split(desired), key + "=")
  {
    ManagedFirst(Split(installed), Managed(Split(desired)), false, key);
    ManagedFirst(Split(desired), Managed(Split(desired)), false, key);
  }

  /** A unit that reads as the rendered one: what refreshing it writes. */
  lemma RefreshedAsDesired(t: Templates, w: Places, user: string, args: seq<string>, unit: string, exists_: string -> bool)
    requires Contract(t, w) && ValidUser(user) && forall i :: 0 <= i < |args| ==> OneLine(args[i])
    requires var a, b := Split(unit), Desired(t, user, args);
             && FirstWith(a, EXEC) == FirstWith(b, EXEC) && FirstWith(a, WORKDIR) == FirstWith(b, WORKDIR)
             && ServiceUser(a) == ServiceUser(b)
    ensures RefreshedText(t, unit, exists_) == Written(Join(Desired(t, user, args)), unit)
            <==> exists_(SYSTEM_BINARY) && ExecLine(SYSTEM_BINARY, args) != CanonicalExec(t)
  {
    var lines, have := Desired(t, user, args), Split(unit);
    var body := Body(t, have, exists_);
    assert body == Body(t, lines, exists_);
    DesiredIsUnit(t, w, user, args);
    SplitJoin(lines);
    DesiredBody(t, w, user, args, exists_);
    if exists_(SYSTEM_BINARY) && ExecLine(SYSTEM_BINARY, args) != CanonicalExec(t) {
      assert body == lines;
    } else {
      TextIsLines(t, w, unit, exists_);
      SplitLines(unit);
      BodyStable(t, w, have, exists_);
      ReadsOfPreserved(body, have);
      ReadsOfPreserved(lines, have);
      WrittenLines(Join(lines), unit);
    }
  }

  /** On every unit that matches what install wants, the operator's own directives included, a
      refresh writes what a reconciliation would, exactly when the system binary exists and the
      rendered line is not the packaged one. */
  lemma RefreshAgrees(t: Templates, w: Places, user: string, args: seq<string>, unit: string, exists_: string -> bool)
    requires Contract(t, w) && ValidUser(user) && forall i :: 0 <= i < |args| ==> OneLine(args[i])
    requires Matches(unit, Join(Desired(t, user, args)))
    ensures RefreshedText(t, unit, exists_) == Written(Join(Desired(t, user, args)), unit)
            <==> exists_(SYSTEM_BINARY) && ExecLine(SYSTEM_BINARY, args) != CanonicalExec(t)
  {
    DesiredIsUnit(t, w, user, args);
    SplitJoin(Desired(t, user, args));
    MatchingReads(unit, Join(Desired(t, user, args)));
    RefreshedAsDesired(t, w, user, args, unit, exists_);
  }

  /** Whatever a reconciliation was run on, a refresh leaves what it wrote alone, exactly under the
      same condition. */
  lemma RefreshKeepsWritten(t: Templates, w: Places, user: string, args: seq<string>, unit: string, exists_: string -> bool)
    requires Contract(t, w) && ValidUser(user) && forall i :: 0 <= i < |args| ==> OneLine(args[i])
    ensures var written := Written(Join(Desired(t, user, args)), unit);
            RefreshedText(t, written, exists_) == written
            <==> exists_(SYSTEM_BINARY) && ExecLine(SYSTEM_BINARY, args) != CanonicalExec(t)
  {
    var lines := Desired(t, user, args);
    DesiredIsUnit(t, w, user, args);
    SplitJoin(lines);
    WrittenLines(Join(lines), unit);
    WrittenTwice(Join(lines), unit);
    ReadsOfPreserved(lines, Split(unit));
    RefreshedAsDesired(t, w, user, args, Written(Join(lines), unit), exists_);
  }

  /** refresh-unit, applied or turned down at its prompt, and a run of the reconciliation. */
  datatype Command = RefreshUnit(applied: bool) | Reconcile(f: Faults)

  function Commanded(t: Templates, h: HostState, packageOwned: bool, desired: string,
                     exists_: string -> bool, c: Command): HostState
  {
    match c
    case RefreshUnit(applied) =>
      if applied && !packageOwned then h.(unit := RefreshedText(t, h.unit, exists_)) else h
    case Reconcile(f) => Reconciled(h, packageOwned, desired, f).host
  }

  function AfterCommands(t: Templates, h: HostState, packageOwned: bool, desired: string,
                         exists_: string -> bool, cs: seq<Command>): HostState
  {
    if cs == [] then h
    else
      var n := |cs| - 1;
      Commanded(t, AfterCommands(t, h, packageOwned, desired, exists_, cs[..n]), packageOwned, desired, exists_, cs[n])
  }

  /** Both commands agree that `unit` and `rewritten` are in order, and refreshing either gives `rewritten`. */
  ghost predicate InOrder(t: Templates, desired: string, exists_: string -> bool, unit: string, rewritten: string) {
    && Matches(unit, desired) && Matches(rewritten, desired)
    && RefreshedText(t, unit, exists_) == rewritten && RefreshedText(t, rewritten, exists_) == rewritten
  }

  lemma CommandInOrder(t: Templates, desired: string, exists_: string -> bool, unit: string, rewritten: string,
                       h: HostState, packageOwned: bool, c: Command)
    requires InOrder(t, desired, exists_, unit, rewritten) && (h.unit == unit || h.unit == rewritten)
    ensures Commanded(t, h, packageOwned, desired, exists_, c).unit
            == if !packageOwned && c == RefreshUnit(true) then rewritten else h.unit
  {
    hide Matches, RefreshedText, Written;
  }

  lemma {:induction false} CommandsInOrder(t: Templates, desired: string, exists_: string -> bool, rewritten: string,
                                           h: HostState, packageOwned: bool, cs: seq<Command>)
    requires InOrder(t, desired, exists_, h.unit, rewritten)
    ensures AfterCommands(t, h, packageOwned, desired, exists_, cs).unit
            == if !packageOwned && RefreshUnit(true) in cs then rewritten else h.unit
    decreases |cs|
  {
    hide Commanded, InOrder;
    if cs != [] {
      var before, c := cs[..|cs| - 1], cs[|cs| - 1];
      assert cs == before + [c];
      CommandsInOrder(t, desired, exists_, rewritten, h, packageOwned, before);
      CommandInOrder(t, desired, exists_, h.unit, rewritten,
                     AfterCommands(t, h, packageOwned, desired, exists_, before), packageOwned, c);
    }
  }

  /** The two commands never undo each other: over any sequence of them, whatever fails, a unit that
      matches what install wants goes on matching, and holds either what it held or that with the
      operator's directives put in their place. */
  lemma CommandsAgree(t: Templates, w: Places, user: string, args: seq<string>, h: HostState,
                      packageOwned: bool, exists_: string -> bool, cs: seq<Command>)
    requires Contract(t, w) && ValidUser(user) && forall i :: 0 <= i < |args| ==> OneLine(args[i])
    requires exists_(SYSTEM_BINARY) && ExecLine(SYSTEM_BINARY, args) != CanonicalExec(t)
    requires Matches(h.unit, Join(Desired(t, user, args))) && NoStray(Join(Desired(t, user, args)), h.unit)
    ensures var desired := Join(Desired(t, user, args));
            var unit := AfterCommands(t, h, packageOwned, desired, exists_, cs).unit;
            && Matches(unit, desired)
            && unit == if !packageOwned && RefreshUnit(true) in cs then Written(desired, h.unit) else h.unit
  {
    var desired := Join(Desired(t, user, args));
    assert InOrder(t, desired, exists_, h.unit, Written(desired, h.unit)) by {
      RewriteMatches(t, w, user, args, h.unit);
      RefreshAgrees(t, w, user, args, h.unit, exists_);
      RefreshKeepsWritten(t, w, user, args, h.unit, exists_);
    }
    CommandsInOrder(t, desired, exists_, Written(desired, h.unit), h, packageOwned, cs);
  }

  lemma RewriteMatches(t: Templates, w: Places, user: string, args: seq<string>, unit: string)
    requires Contract(t, w) && ValidUser(user) && forall i :: 0 <= i < |args| ==> OneLine(args[i])
    requires NoStray(Join(Desired(t, user, args)), unit)
    ensures Matches(Written(Join(Desired(t, user, args)), unit), Join(Desired(t, user, args)))
  {
    DesiredIsUnit(t, w, user, args);
    SplitJoin(Desired(t, user, args));
    WrittenMatches(Join(Desired(t, user, args)), unit);
  }
}
