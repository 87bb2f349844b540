/**
 Which lines of an installed unit a rewrite carries over, and which lines a comparison looks at,
 stated on the positions of the lines, their sections and their keys.
 */
module UnitLines {
  import opened Results
  import opened Seqs
  import opened Text
  import opened UnitFile
  import opened Refresh
  import opened RefreshProofs
  import opened Install
  import opened ReconcileProofs

  // Sections and keys, by position.

  /** Line `h` opens a [Service] section that is still open before line `i`. */
  ghost predicate OpensAt(lines: seq<string>, h: int, i: int) {
    && 0 <= h < i <= |lines|
    && Trim(lines[h]) == "[Service]"
    && forall j :: h < j < i ==> !("[" <= Trim(lines[j]))
  }

  /** Line `i` would stand in a [Service] section. */
  ghost predicate ServiceAt(lines: seq<string>, i: int) {
    exists h :: OpensAt(lines, h, i)
  }

  /** Line `i` is a line of a [Service] section, not blank, not a comment and not a header. */
  ghost predicate DirectiveAt(lines: seq<string>, i: int) {
    && 0 <= i < |lines| && ServiceAt(lines, i)
    && Trim(lines[i]) != "" && Trim(lines[i])[0] != '#' && Trim(lines[i])[0] != '['
  }

  /** Some [Service] directive of the unit has this key. */
  ghost predicate SetsKey(lines: seq<string>, key: string) {
    exists i :: DirectiveAt(lines, i) && DirectiveKey(lines[i]) == Some(key)
  }

  /** The four keys a rewrite decides and the two it retires. */
  predicate FixedKey(key: string) {
    || key == "ExecStart" || key == "WorkingDirectory" || key == "User" || key == "Group"
    || key == "MemoryDenyWriteExecute" || key == "ProtectClock"
  }

  /** A key that is the operator's: `unit` does not set it and no rewrite decides or retires it. */
  ghost predicate OperatorKey(unit: seq<string>, key: Option<string>) {
    key.Some? && !SetsKey(unit, key.value) && !FixedKey(key.value)
  }

  /** Line `i` is a [Service] directive of the operator. */
  ghost predicate OperatorLine(unit: seq<string>, lines: seq<string>, i: int) {
    DirectiveAt(lines, i) && OperatorKey(unit, DirectiveKey(lines[i]))
  }

  lemma PrefixOpens(lines: seq<string>, n: nat, h: int, i: int)
    requires i <= n <= |lines|
    ensures OpensAt(lines[..n], h, i) <==> OpensAt(lines, h, i)
  {
    if 0 <= h < i {
      assert forall j :: 0 <= j < n ==> lines[..n][j] == lines[j];
    }
  }

  /** What stands before a line decides its section. */
  lemma PrefixService(lines: seq<string>, n: nat, i: int)
    requires i <= n <= |lines|
    ensures ServiceAt(lines[..n], i) <==> ServiceAt(lines, i)
  {
    if h :| OpensAt(lines, h, i) {
      PrefixOpens(lines, n, h, i);
    }
    if h :| OpensAt(lines[..n], h, i) {
      PrefixOpens(lines, n, h, i);
    }
  }

  lemma {:induction false} EndsIff(lines: seq<string>)
    ensures EndsInService(lines, false) <==> ServiceAt(lines, |lines|)
    decreases |lines|
  {
    if lines != [] {
      var n := |lines| - 1;
      var init, last := lines[..n], lines[n];
      EndsIff(init);
      PrefixService(lines, n, n);
      assert lines == init + [last];
      ServiceConcat(init, [last], false);
      LastLine(lines);
    }
  }

  lemma LastLine(lines: seq<string>)
    requires lines != []
    ensures var n := |lines| - 1;
            ServiceAt(lines, |lines|) <==>
            if "[" <= Trim(lines[n]) then Trim(lines[n]) == "[Service]" else ServiceAt(lines, n)
  {
    var n := |lines| - 1;
    if Trim(lines[n]) == "[Service]" {
      assert OpensAt(lines, n, n + 1);
    }
    if h :| OpensAt(lines, h, |lines|) {
      assert h < n ==> OpensAt(lines, h, n);
    }
    if !("[" <= Trim(lines[n])) {
      if h :| OpensAt(lines, h, n) {
        assert OpensAt(lines, h, n + 1);
      }
    }
  }

  // The spec functions, by position.

  lemma DirectiveIff(lines: seq<string>, i: nat)
    requires i < |lines|
    ensures DirectiveAt(lines, i) <==> EndsInService(lines[..i], false) && IsDirective(lines[i])
  {
    EndsIff(lines[..i]);
    PrefixService(lines, i, i);
  }

  lemma PrefixDirective(lines: seq<string>, n: nat, i: int)
    requires i < n <= |lines|
    ensures DirectiveAt(lines[..n], i) <==> DirectiveAt(lines, i)
  {
    PrefixService(lines, n, i);
  }

  /** One more line is one more directive or none. */
  lemma ServiceLast(lines: seq<string>)
    requires lines != []
    ensures var n := |lines| - 1;
            ServiceLines(lines, false)
            == ServiceLines(lines[..n], false) + if DirectiveAt(lines, n) then [lines[n]] else []
  {
    var n := |lines| - 1;
    var init, last := lines[..n], lines[n];
    assert lines == init + [last];
    ServiceConcat(init, [last], false);
    DirectiveIff(lines, n);
    OneService(last, EndsInService(init, false));
  }

  lemma OneService(line: string, f: bool)
    ensures ServiceLines([line], f) == if f && IsDirective(line) then [line] else []
  {
    assert [line][1..] == [];
  }

  lemma {:induction false} KeysIff(lines: seq<string>, key: string)
    ensures key in KeysOf(ServiceLines(lines, false)) <==> SetsKey(lines, key)
    decreases |lines|
  {
    if lines != [] {
      var n := |lines| - 1;
      KeysIff(lines[..n], key);
      ServiceLast(lines);
      KeysConcat(ServiceLines(lines[..n], false), if DirectiveAt(lines, n) then [lines[n]] else []);
      OneKey(lines[n]);
      SetsKeyLast(lines, key);
    }
  }

  lemma OneKey(line: string)
    ensures KeysOf([line]) == match DirectiveKey(line) case Some(k) => {k} case None => {}
  {
    assert [line][1..] == [];
  }

  lemma SetsKeyLast(lines: seq<string>, key: string)
    requires lines != []
    ensures var n := |lines| - 1;
            SetsKey(lines, key) <==>
            SetsKey(lines[..n], key) || (DirectiveAt(lines, n) && DirectiveKey(lines[n]) == Some(key))
  {
    hide DirectiveKey, ServiceAt;
    var n := |lines| - 1;
    if i :| DirectiveAt(lines, i) && DirectiveKey(lines[i]) == Some(key) {
      if i < n {
        PrefixDirective(lines, n, i);
        assert lines[..n][i] == lines[i];
      }
    }
    if i :| DirectiveAt(lines[..n], i) && DirectiveKey(lines[..n][i]) == Some(key) {
      PrefixDirective(lines, n, i);
      assert lines[..n][i] == lines[i];
    }
  }

  lemma ManagedIff(unit: seq<string>, line: string)
    ensures IsExtra(line, Managed(unit)) <==> OperatorKey(unit, DirectiveKey(line))
  {
    if DirectiveKey(line).Some? {
      KeysIff(unit, DirectiveKey(line).value);
    }
  }

  /** What a rewrite carries over are the operator's lines, in order. */
  lemma {:induction false} ExtrasKept(unit: seq<string>, lines: seq<string>, keep: seq<bool>)
    requires |keep| == |lines| && forall i :: 0 <= i < |lines| ==> keep[i] == OperatorLine(unit, lines, i)
    ensures ExtrasOver(unit, lines) == Kept(lines, keep)
    decreases |lines|
  {
    if lines != [] {
      hide Managed, DirectiveAt, OperatorKey;
      var n, m := |lines| - 1, Managed(unit);
      forall i | 0 <= i < n
        ensures keep[..n][i] == OperatorLine(unit, lines[..n], i)
      {
        PrefixDirective(lines, n, i);
      }
      ExtrasKept(unit, lines[..n], keep[..n]);
      ServiceLast(lines);
      ManagedIff(unit, lines[n]);
      ExtrasConcat(ServiceLines(lines[..n], false), if DirectiveAt(lines, n) then [lines[n]] else [], m);
      OneExtra(lines[n], m);
      KeptLast(lines, keep);
    }
  }

  lemma OneExtra(line: string, managed: set<string>)
    ensures Extras([line], managed) == if IsExtra(line, managed) then [line] else []
  {
    assert [line][1..] == [];
  }

  // The rewrite.

  /** The insertion point: the first header past the first line that is not [Service], or the end. */
  ghost predicate InsertsAt(lines: seq<string>, b: nat) {
    && b <= |lines| && (b == 0 ==> lines == [])
    && (b < |lines| ==> "[" <= Trim(lines[b]) && Trim(lines[b]) != "[Service]")
    && forall j :: 1 <= j < b && "[" <= Trim(lines[j]) ==> Trim(lines[j]) == "[Service]"
  }

  /** The written unit is the new one with one block at the insertion point: the comment and the
      operator's lines of the installed unit, in order, and a blank line if a section follows. No
      other line is added, and nothing is if the operator has none. */
  lemma RewriteIs(refreshed: seq<string>, installed: seq<string>, keep: seq<bool>) returns (b: nat)
    requires |keep| == |installed|
    requires forall i :: 0 <= i < |installed| ==> keep[i] == OperatorLine(refreshed, installed, i)
    ensures InsertsAt(refreshed, b)
    ensures Preserved(refreshed, installed) ==
            if Kept(installed, keep) == [] then refreshed
            else refreshed[..b] + ([PRESERVED_COMMENT] + Kept(installed, keep) + if b < |refreshed| then [""] else [])
                 + refreshed[b..]
  {
    hide OperatorLine, BoundaryFrom;
    b := Boundary(refreshed);
    ExtrasKept(refreshed, installed, keep);
  }

  /** The operator's lines are those of the written unit's [Service] section as they were of the
      installed one's, as often and in the same order, exactly when there are none or the insertion
      point is in the new unit's [Service] section. */
  lemma OperatorLinesConserved(refreshed: seq<string>, installed: seq<string>, b: nat, before: seq<bool>, after: seq<bool>)
    requires InsertsAt(refreshed, b)
    requires |before| == |installed| && |after| == |Preserved(refreshed, installed)|
    requires forall i :: 0 <= i < |before| ==> before[i] == OperatorLine(refreshed, installed, i)
    requires forall i :: 0 <= i < |after| ==> after[i] == OperatorLine(refreshed, Preserved(refreshed, installed), i)
    ensures Kept(Preserved(refreshed, installed), after) == Kept(installed, before) <==>
            ServiceAt(refreshed, b) || Kept(installed, before) == []
  {
    hide OperatorLine, Preserved, InsertsAt, ServiceAt;
    ExtrasKept(refreshed, installed, before);
    ExtrasKept(refreshed, Preserved(refreshed, installed), after);
    DirectivesConserved(refreshed, installed);
    AnchoredIff(refreshed, b);
  }

  lemma AnchoredIff(lines: seq<string>, b: nat)
    requires InsertsAt(lines, b)
    ensures b == Boundary(lines) && (Anchored(lines) <==> ServiceAt(lines, b))
  {
    EndsIff(lines[..b]);
    PrefixService(lines, b, b);
  }

  /** Through a refresh, whatever the rules decide: the operator's [Service] lines of the refreshed
      unit are those of the installed one, as often and in the same order. */
  lemma RefreshKeepsOperatorLines(t: Templates, w: Places, installed: string, exists_: string -> bool,
                                  before: seq<bool>, after: seq<bool>)
    requires Contract(t, w)
    requires |before| == |Split(installed)| && |after| == |Split(RefreshedText(t, installed, exists_))|
    requires var body, lines := Body(t, Split(installed), exists_), Split(installed);
             forall i :: 0 <= i < |before| ==> before[i] == OperatorLine(body, lines, i)
    requires var body, lines := Body(t, Split(installed), exists_), Split(RefreshedText(t, installed, exists_));
             forall i :: 0 <= i < |after| ==> after[i] == OperatorLine(body, lines, i)
    ensures Kept(Split(RefreshedText(t, installed, exists_)), after) == Kept(Split(installed), before)
  {
    hide OperatorLine, RefreshedText, Body, Contract;
    var body := Body(t, Split(installed), exists_);
    ExtrasKept(body, Split(installed), before);
    ExtrasKept(body, Split(RefreshedText(t, installed, exists_)), after);
    RefreshConserves(t, w, installed, exists_);
  }

  // The comparison.

  /** Whether a comparison with `desired` looks at a line that stands in a [Service] section or not:
      not at a blank one, not at the comment a rewrite adds, not at a directive of the operator. */
  ghost predicate Compared(desired: seq<string>, line: string, inService: bool) {
    var t := Trim(line);
    && t != "" && t != PRESERVED_COMMENT
    && !(inService && t[0] != '#' && t[0] != '[' && OperatorKey(desired, DirectiveKey(t)))
  }

  function Trims(lines: seq<string>): (r: seq<string>)
    ensures |r| == |lines| && forall i :: 0 <= i < |lines| ==> r[i] == Trim(lines[i])
  {
    seq(|lines|, i requires 0 <= i < |lines| => Trim(lines[i]))
  }

  lemma OneManaged(desired: seq<string>, line: string, f: bool)
    ensures ManagedLines([line], Managed(desired), f) == if Compared(desired, line, f) then [Trim(line)] else []
  {
    hide Managed, OperatorKey;
    assert [line][1..] == [];
    ManagedIff(desired, Trim(line));
  }

  lemma ManagedLast(desired: seq<string>, lines: seq<string>)
    requires lines != []
    ensures var n, m := |lines| - 1, Managed(desired);
            ManagedLines(lines, m, false) == ManagedLines(lines[..n], m, false)
              + if Compared(desired, lines[n], ServiceAt(lines, n)) then [Trim(lines[n])] else []
  {
    hide Managed, Compared, ManagedLines, ServiceAt, EndsInService;
    var n := |lines| - 1;
    EndsIff(lines[..n]);
    PrefixService(lines, n, n);
    assert lines == lines[..n] + [lines[n]];
    ManagedConcat(lines[..n], [lines[n]], Managed(desired), false);
    OneManaged(desired, lines[n], ServiceAt(lines, n));
  }

  lemma {:induction false} ManagedKept(desired: seq<string>, lines: seq<string>, keep: seq<bool>)
    requires |keep| == |lines|
    requires forall i :: 0 <= i < |lines| ==> keep[i] == Compared(desired, lines[i], ServiceAt(lines, i))
    ensures ManagedLines(lines, Managed(desired), false) == Kept(Trims(lines), keep)
    decreases |lines|
  {
    if lines != [] {
      hide Managed, Compared, ManagedLines, ServiceAt, Kept, Trim;
      var n := |lines| - 1;
      forall i | 0 <= i < n
        ensures keep[..n][i] == Compared(desired, lines[..n][i], ServiceAt(lines[..n], i))
      {
        PrefixService(lines, n, i);
      }
      ManagedKept(desired, lines[..n], keep[..n]);
      assert Trims(lines)[..n] == Trims(lines[..n]);
      KeptLast(Trims(lines), keep);
      ManagedLast(desired, lines);
    }
  }

  /** The installed unit matches exactly when the lines a comparison looks at are, trimmed, the same
      ones in the same order as those of the desired unit. */
  lemma MatchesIff(installed: string, desired: string, these: seq<bool>, those: seq<bool>)
    requires |these| == |Split(installed)| && |those| == |Split(desired)|
    requires forall i :: 0 <= i < |these| ==>
               these[i] == Compared(Split(desired), Split(installed)[i], ServiceAt(Split(installed), i))
    requires forall i :: 0 <= i < |those| ==>
               those[i] == Compared(Split(desired), Split(desired)[i], ServiceAt(Split(desired), i))
    ensures Matches(installed, desired) <==>
            Kept(Trims(Split(installed)), these) == Kept(Trims(Split(desired)), those)
  {
    hide Compared, ManagedLines, Managed, ServiceAt, Matches;
    ManagedKept(Split(desired), Split(installed), these);
    ManagedKept(Split(desired), Split(desired), those);
    MatchesIffLines(installed, desired);
  }

  /** What a comparison sees of a line, or of no line. */
  ghost function Seen(desired: seq<string>, line: Option<string>, inService: bool): Option<string> {
    if line.Some? && Compared(desired, line.value, inService) then Some(Trim(line.value)) else None
  }

  function Here(line: Option<string>): seq<string> {
    if line.Some? then [line.value] else []
  }

  lemma SeenManaged(desired: seq<string>, line: Option<string>, f: bool)
    ensures ManagedLines(Here(line), Managed(desired), f) == Here(Seen(desired, line, f))
  {
    hide Managed, Compared;
    if line.Some? {
      OneManaged(desired, line.value, f);
    }
  }

  lemma AroundManaged(desired: seq<string>, a: seq<string>, line: Option<string>, d: seq<string>)
    requires line.Some? ==> !("[" <= Trim(line.value))
    ensures var m := Managed(desired);
            ManagedLines(a + Here(line) + d, m, false)
            == ManagedLines(a, m, false) + Here(Seen(desired, line, ServiceAt(a, |a|)))
               + ManagedLines(d, m, ServiceAt(a, |a|))
  {
    hide Managed, Compared, ManagedLines, ServiceAt, Seen;
    var m, f := Managed(desired), EndsInService(a, false);
    EndsIff(a);
    ManagedConcat(a + Here(line), d, m, false);
    ManagedConcat(a, Here(line), m, false);
    ServiceConcat(a, Here(line), false);
    SeenManaged(desired, line, f);
    assert EndsInService(Here(line), f) == f;
  }

  lemma SameMiddle(h: seq<string>, x: Option<string>, y: Option<string>, t: seq<string>)
    ensures h + Here(x) + t == h + Here(y) + t <==> x == y
  {
    if h + Here(x) + t == h + Here(y) + t {
      assert |Here(x)| == |Here(y)|;
      if x.Some? {
        assert (h + Here(x) + t)[|h|] == x.value && (h + Here(y) + t)[|h|] == y.value;
      }
    }
  }

  /** Of an installed unit that matches, one line that is not a header is added, removed or changed
      (no line becomes a line, a line none, or another): it still matches exactly if the comparison
      sees the same there as before. */
  lemma LineChanged(a: seq<string>, was: Option<string>, now: Option<string>, d: seq<string>, desired: string)
    requires Lines(a + Here(was) + d) && Lines(a + Here(now) + d)
    requires a + Here(was) + d != [] && a + Here(now) + d != []
    requires (was.Some? ==> !("[" <= Trim(was.value))) && (now.Some? ==> !("[" <= Trim(now.value)))
    requires Matches(Join(a + Here(was) + d), desired)
    ensures Matches(Join(a + Here(now) + d), desired) <==>
            Seen(Split(desired), was, ServiceAt(a, |a|)) == Seen(Split(desired), now, ServiceAt(a, |a|))
  {
    hide Managed, ManagedLines, ServiceAt, Seen, Matches, Join, Split;
    var ls, f := Split(desired), ServiceAt(a, |a|);
    SplitJoin(a + Here(was) + d);
    SplitJoin(a + Here(now) + d);
    MatchesIffLines(Join(a + Here(was) + d), desired);
    MatchesIffLines(Join(a + Here(now) + d), desired);
    AroundManaged(ls, a, was, d);
    AroundManaged(ls, a, now, d);
    SameMiddle(ManagedLines(a, Managed(ls), false), Seen(ls, was, f), Seen(ls, now, f), ManagedLines(d, Managed(ls), f));
  }
}
