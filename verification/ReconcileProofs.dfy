/** When reconciling an installed service converges, and what happens when it does not. */
module ReconcileProofs {
  import opened Results
  import opened Seqs
  import opened Text
  import opened UnitFile
  import opened CommandLine
  import opened Refresh
  import opened Install
  import opened RefreshProofs
  import opened InstallProofs

  lemma {:induction false} ManagedConcat(a: seq<string>, b: seq<string>, managed: set<string>, f: bool)
    ensures ManagedLines(a + b, managed, f)
            == ManagedLines(a, managed, f) + ManagedLines(b, managed, EndsInService(a, f))
    decreases |a|
  {
    if a == [] {
      EmptyConcat(b);
      EmptyConcat(ManagedLines(b, managed, f));
    } else {
      TailOfConcat(a, b);
      var g := if IsHeader(a[0]) then IsServiceHeader(a[0]) else f;
      CommentIsComment();
      ManagedConcat(a[1..], b, managed, g);
      Assoc([Trim(a[0])], ManagedLines(a[1..], managed, g), ManagedLines(b, managed, EndsInService(a[1..], g)));
    }
  }

  lemma {:induction false} ManagedAreLines(lines: seq<string>, managed: set<string>, f: bool)
    requires Lines(lines)
    ensures Lines(ManagedLines(lines, managed, f))
    ensures forall i :: 0 <= i < |ManagedLines(lines, managed, f)| ==> ManagedLines(lines, managed, f)[i] != ""
    decreases |lines|
  {
    if lines != [] {
      TrimOneLine(lines[0]);
      ManagedAreLines(lines[1..], managed, f);
      ManagedAreLines(lines[1..], managed, Trim(lines[0]) == SERVICE);
    }
  }

  /** A carried-over line that, trimmed, starts with '=': it has a key untrimmed and none trimmed. */
  predicate Stray(line: string) {
    "=" <= Trim(line)
  }

  lemma {:induction false} ExtrasAreSetAside(extras: seq<string>, managed: set<string>)
    requires AllDirectives(extras) && AllExtra(extras, managed)
    ensures ManagedLines(extras, managed, true) == [] <==> forall i :: 0 <= i < |extras| ==> !Stray(extras[i])
    decreases |extras|
  {
    if extras != [] {
      var line := extras[0];
      KeyOfTrimmed(line);
      assert Trim(line) != PRESERVED_COMMENT by {
        CommentIsComment();
        assert PRESERVED_COMMENT[0] == '#';
      }
      ExtrasAreSetAside(extras[1..], managed);
      assert forall i :: 0 <= i < |extras| - 1 ==> extras[1..][i] == extras[i + 1];
      assert Stray(line) <==> ManagedLines(extras, managed, true) != ManagedLines(extras[1..], managed, true);
    }
  }

  lemma BlockIsSetAside(extras: seq<string>, more: bool, managed: set<string>)
    requires AllDirectives(extras)
    ensures ManagedLines(Block(extras, more), managed, true) == ManagedLines(extras, managed, true)
    ensures EndsInService(Block(extras, more), true)
  {
    var tail := if more then [""] else [];
    CommentIsComment();
    BlockService(extras, more, true);
    ServiceOfDirectives(extras, true);
    ServiceConcat([PRESERVED_COMMENT], extras, true);
    ManagedConcat([PRESERVED_COMMENT] + extras, tail, managed, true);
    ManagedConcat([PRESERVED_COMMENT], extras, managed, true);
    TrimTrimmed("");
    assert [PRESERVED_COMMENT][1..] == [] && [""][1..] == [];
    assert ManagedLines([PRESERVED_COMMENT], managed, true) == [];
    assert EndsInService([PRESERVED_COMMENT], true);
    assert ManagedLines([""], managed, EndsInService([PRESERVED_COMMENT] + extras, true)) == [];
  }

  lemma InsertedManaged(lines: seq<string>, extras: seq<string>) returns (h: seq<string>, t: seq<string>)
    requires Anchored(lines) && AllDirectives(extras) && extras != []
    ensures ManagedLines(lines, Managed(lines), false) == h + t
    ensures ManagedLines(Inserted(lines, extras), Managed(lines), false)
            == h + ManagedLines(extras, Managed(lines), true) + t
  {
    hide ManagedLines, Managed;
    var m, b := Managed(lines), Boundary(lines);
    var head, tail, block := lines[..b], lines[b..], Block(extras, b < |lines|);
    h, t := ManagedLines(head, m, false), ManagedLines(tail, m, true);
    assert lines == head + tail;
    ManagedConcat(head, tail, m, false);
    ManagedConcat(head + block, tail, m, false);
    ManagedConcat(head, block, m, false);
    ServiceConcat(head, block, false);
    BlockIsSetAside(extras, b < |lines|, m);
  }

  lemma MiddleEmpty(h: seq<string>, x: seq<string>, t: seq<string>)
    ensures h + x + t == h + t <==> x == []
  {
    assert |h + x + t| == |h| + |x| + |t|;
    assert x == [] ==> h + x == h;
  }

  /** A unit with carried-over directives compares as the unit without them exactly when none of
      them is stray. */
  lemma InsertedCompares(lines: seq<string>, extras: seq<string>)
    requires Anchored(lines) && AllDirectives(extras) && AllExtra(extras, Managed(lines))
    ensures ManagedLines(Inserted(lines, extras), Managed(lines), false) == ManagedLines(lines, Managed(lines), false)
            <==> forall i :: 0 <= i < |extras| ==> !Stray(extras[i])
  {
    if extras != [] {
      var h, t := InsertedManaged(lines, extras);
      MiddleEmpty(h, ManagedLines(extras, Managed(lines), true), t);
      ExtrasAreSetAside(extras, Managed(lines));
    }
  }

  /** The unmanaged directives of the installed unit that a rewrite with `desired` carries over. */
  function Carried(desired: string, installed: string): seq<string> {
    ExtrasOver(Split(desired), Split(installed))
  }

  /** A rewrite with `desired` carries over no stray line. */
  ghost predicate NoStray(desired: string, installed: string) {
    forall i :: 0 <= i < |Carried(desired, installed)| ==> !Stray(Carried(desired, installed)[i])
  }

  lemma MatchesIffLines(installed: string, desired: string)
    ensures Matches(installed, desired) <==>
            ManagedLines(Split(installed), Managed(Split(desired)), false)
            == ManagedLines(Split(desired), Managed(Split(desired)), false)
  {
    var m := Managed(Split(desired));
    SplitLines(installed);
    SplitLines(desired);
    ManagedAreLines(Split(installed), m, false);
    ManagedAreLines(Split(desired), m, false);
    JoinInjective(ManagedLines(Split(installed), m, false), ManagedLines(Split(desired), m, false));
  }

  lemma WrittenLines(desired: string, installed: string)
    ensures Split(Written(desired, installed)) == Preserved(Split(desired), Split(installed))
  {
    SplitLines(desired);
    SplitLines(installed);
    PreservedLines(Split(desired), Split(installed));
    SplitJoin(Preserved(Split(desired), Split(installed)));
  }

  /** The unit a reconciliation writes is the one it wants exactly when it carries no stray line. */
  lemma WrittenMatches(desired: string, installed: string)
    requires Anchored(Split(desired))
    ensures Matches(Written(desired, installed), desired) <==> NoStray(desired, installed)
  {
    var lines, have := Split(desired), Split(installed);
    WrittenLines(desired, installed);
    ServiceLinesAreDirectives(have, false);
    ExtrasAreExtra(ServiceLines(have, false), Managed(lines));
    MatchesIffLines(Written(desired, installed), desired);
    InsertedCompares(lines, Carried(desired, installed));
  }

  /** Reconciling converges in one step: after a run without an error the service is enabled, and a
      second run changes nothing and reports nothing, exactly when the unit belongs to the package,
      already was what install wants, or carries no stray line. */
  lemma Converges(h: HostState, packageOwned: bool, desired: string, f: Faults)
    requires Anchored(Split(desired)) && Reconciled(h, packageOwned, desired, f).error.None?
    ensures var after := Reconciled(h, packageOwned, desired, f).host;
            && after.enabled
            && (Reconciled(after, packageOwned, desired, NO_FAULTS) == Reconciliation(after, [], None)
                <==> packageOwned || Matches(h.unit, desired) || NoStray(desired, h.unit))
  {
    WrittenMatches(desired, h.unit);
  }

  /** What every run does and says, whatever fails in it: which operation failed, if one did; what
      it reports as changed; and what it leaves of the unit and of the enabled state. */
  lemma ReconcileReports(h: HostState, packageOwned: bool, desired: string, f: Faults)
    ensures var r, stale := Reconciled(h, packageOwned, desired, f), !packageOwned && !Matches(h.unit, desired);
            && (r.error == Some(ReadFailed) <==> !packageOwned && f.read)
            && (r.error == Some(WriteFailed) <==> stale && !f.read && f.write)
            && (r.error == Some(ReloadFailed) <==> stale && !f.read && !f.write && f.reload)
            && (r.error.None? <==> r.host.enabled && (packageOwned || !f.read) && (stale ==> !f.write && !f.reload))
            && (UnitRewritten in r.changed <==> stale && !f.read && !f.write && !f.reload)
            && (ServiceEnabled in r.changed <==> !h.enabled && r.host.enabled)
            && (h.enabled ==> r.host.enabled)
            && r.host.unit == (if stale && !f.read && !f.write then Written(desired, h.unit) else h.unit)
            && r.host.loaded == (if UnitRewritten in r.changed then r.host.unit else h.loaded)
  {
    hide Matches, Written;
  }

  /** A successful run leaves systemd on the unit on disk exactly when it already was, or the run
      rewrote the unit: after a failed reload the next run sees nothing to do. */
  lemma LoadedAfter(h: HostState, packageOwned: bool, desired: string, f: Faults)
    requires Reconciled(h, packageOwned, desired, f).error.None?
    ensures var after := Reconciled(h, packageOwned, desired, f).host;
            after.loaded == after.unit <==> h.loaded == h.unit || (!packageOwned && !Matches(h.unit, desired))
  {
  }

  lemma ReloadIsNotRetried(h: HostState, desired: string)
    requires Anchored(Split(desired)) && !Matches(h.unit, desired) && h.enabled
    requires h.loaded != Written(desired, h.unit) && NoStray(desired, h.unit)
    ensures var failed := Reconciled(h, false, desired, NO_FAULTS.(reload := true));
            var next := Reconciled(failed.host, false, desired, NO_FAULTS);
            && failed.error == Some(ReloadFailed)
            && next.error.None? && next.changed == [] && next.host.loaded != next.host.unit
  {
    WrittenMatches(desired, h.unit);
  }

  // Any number of runs.

  /** Rewriting is idempotent: a rewritten unit carries the same lines, and is rewritten as it is. */
  lemma WrittenTwice(desired: string, installed: string)
    requires Anchored(Split(desired))
    ensures Carried(desired, Written(desired, installed)) == Carried(desired, installed)
    ensures Written(desired, Written(desired, installed)) == Written(desired, installed)
  {
    WrittenLines(desired, installed);
    DirectivesConserved(Split(desired), Split(installed));
  }

  /** The host after one run per element of `faults`. */
  function AfterRuns(h: HostState, packageOwned: bool, desired: string, faults: seq<Faults>): HostState {
    if faults == [] then h
    else
      var n := |faults| - 1;
      Reconciled(AfterRuns(h, packageOwned, desired, faults[..n]), packageOwned, desired, faults[n]).host
  }

  /** The unit on disk is not the desired one, will carry a stray line, and is rewritten as `unit`. */
  ghost predicate Drifting(h: HostState, desired: string, unit: string) {
    !Matches(h.unit, desired) && !NoStray(desired, h.unit) && Written(desired, h.unit) == unit
  }

  lemma DriftsOn(h: HostState, desired: string, unit: string, f: Faults)
    requires Anchored(Split(desired)) && Drifting(h, desired, unit)
    ensures var next := Reconciled(h, false, desired, f);
            && Drifting(next.host, desired, unit)
            && (next.error.None? ==> next.changed != [] && next.changed[0] == UnitRewritten && next.host.unit == unit)
  {
    WrittenTwice(desired, h.unit);
    WrittenMatches(desired, h.unit);
  }

  /** A stray line never settles: after any number of runs, whatever fails in them, the unit still
      differs, and every further run that succeeds writes the same file and reports it. */
  lemma {:induction false} NeverSettles(h: HostState, desired: string, faults: seq<Faults>, f: Faults)
    requires Anchored(Split(desired)) && !Matches(h.unit, desired) && !NoStray(desired, h.unit)
    ensures var after := AfterRuns(h, false, desired, faults);
            var next := Reconciled(after, false, desired, f);
            && Drifting(after, desired, Written(desired, h.unit))
            && (next.error.None? ==>
                  next.changed != [] && next.changed[0] == UnitRewritten && next.host.unit == Written(desired, h.unit))
    decreases |faults|
  {
    if faults != [] {
      NeverSettles(h, desired, faults[..|faults| - 1], faults[|faults| - 1]);
      DriftsOn(AfterRuns(h, false, desired, faults[..|faults| - 1]), desired, Written(desired, h.unit), faults[|faults| - 1]);
    }
    DriftsOn(AfterRuns(h, false, desired, faults), desired, Written(desired, h.unit), f);
  }

  /** After the runs with these faults the unit on disk is the desired one. */
  ghost predicate SettledAfter(h: HostState, desired: string, faults: seq<Faults>) {
    Matches(AfterRuns(h, false, desired, faults).unit, desired)
  }

  lemma OneRunSettles(h: HostState, desired: string)
    requires Anchored(Split(desired)) && (Matches(h.unit, desired) || NoStray(desired, h.unit))
    ensures SettledAfter(h, desired, [NO_FAULTS])
  {
    assert [NO_FAULTS][..0] == [];
    assert AfterRuns(h, false, desired, [NO_FAULTS]) == Reconciled(h, false, desired, NO_FAULTS).host;
    WrittenMatches(desired, h.unit);
  }

  /** Some number of runs brings the unit to the desired one exactly when it already is that, or a
      rewrite carries no stray line. */
  lemma SettlesIff(h: HostState, desired: string)
    requires Anchored(Split(desired))
    ensures (exists faults :: SettledAfter(h, desired, faults)) <==> Matches(h.unit, desired) || NoStray(desired, h.unit)
  {
    if Matches(h.unit, desired) || NoStray(desired, h.unit) {
      OneRunSettles(h, desired);
    } else {
      forall faults
        ensures !SettledAfter(h, desired, faults)
      {
        NeverSettles(h, desired, faults, NO_FAULTS);
      }
    }
  }

  lemma StrayLine(line: string, rest: string)
    requires line == " " + rest && Trimmed(rest) && "=" <= rest
    ensures IsDirective(line) && Stray(line) && DirectiveKey(line) == Some("")
  {
    TrimSpaces(" ", rest);
    TrimTrimmed(rest);
    FindIs(line, '=', 1);
    assert line[..1] == " " + "";
    TrimSpaces(" ", "");
    TrimTrimmed("");
  }

  /** A directive with an unmanaged key, inserted into a unit, is what a rewrite carries over. */
  lemma InsertedIsCarried(lines: seq<string>, line: string)
    requires Anchored(lines) && IsDirective(line) && IsExtra(line, Managed(lines))
    ensures ExtrasOver(lines, Inserted(lines, [line])) == [line]
  {
    var managed, b := Managed(lines), Boundary(lines);
    var head, tail := ServiceLines(lines[..b], false), ServiceLines(lines[b..], true);
    InsertedService(lines, [line]);
    KeysConcat(head, tail);
    ExtrasOfManaged(head, managed);
    ExtrasOfManaged(tail, managed);
    ExtrasOfExtra([line], managed);
    ExtrasConcat(head + [line], tail, managed);
    ExtrasConcat(head, [line], managed);
  }

  lemma InsertedLines(lines: seq<string>, line: string)
    requires lines != [] && Lines(lines) && OneLine(line)
    ensures Inserted(lines, [line]) != [] && Lines(Inserted(lines, [line]))
  {
    CommentIsComment();
    assert Lines(Block([line], Boundary(lines) < |lines|));
  }

  lemma StrayInserted(lines: seq<string>, line: string)
    requires lines != [] && Lines(lines) && Anchored(lines)
    requires OneLine(line) && IsDirective(line) && Stray(line) && IsExtra(line, Managed(lines))
    ensures Carried(Join(lines), Join(Inserted(lines, [line]))) == [line]
    ensures !Matches(Join(Inserted(lines, [line])), Join(lines))
  {
    var desired, installed := Join(lines), Join(Inserted(lines, [line]));
    InsertedLines(lines, line);
    SplitJoin(lines);
    SplitJoin(Inserted(lines, [line]));
    InsertedIsCarried(lines, line);
    MatchesIffLines(installed, desired);
    assert Stray([line][0]);
    InsertedCompares(lines, [line]);
  }

  /** Such a unit: what install rendered, with a line such as " =1" added to its [Service] section.
      However often it is reconciled, the unit on disk differs from the one install wants. */
  lemma StrayExample(t: Templates, w: Places, user: string, args: seq<string>, line: string, rest: string, h: HostState)
    requires Contract(t, w) && ValidUser(user) && forall i :: 0 <= i < |args| ==> OneLine(args[i])
    requires "" !in Managed(Desired(t, user, args))
    requires line == " " + rest && Trimmed(rest) && "=" <= rest && OneLine(rest)
    requires h.unit == Join(Inserted(Desired(t, user, args), [line]))
    ensures forall faults :: !SettledAfter(h, Join(Desired(t, user, args)), faults)
  {
    var lines := Desired(t, user, args);
    DesiredIsUnit(t, w, user, args);
    StrayLine(line, rest);
    StrayInserted(lines, line);
    SplitJoin(lines);
    assert Stray(Carried(Join(lines), h.unit)[0]);
    SettlesIff(h, Join(lines));
  }
}
