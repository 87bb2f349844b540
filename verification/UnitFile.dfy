/** systemd unit files as lists of lines: sections, directives, and the directives a rewrite carries over. */
module UnitFile {
  import opened Results
  import opened Seqs
  import opened Text

  const SERVICE := "[Service]"

  /** In three parts: the verifier does not look inside a literal as long as the whole. */
  const PRESERVED_COMMENT := "# Preserved from " + "the previously " + "installed unit:"

  /** The keys a rewrite decides on its own, and the ones an earlier release set and this one dropped. */
  const DECIDED: set<string> := {"ExecStart", "WorkingDirectory", "User", "Group"}
  const RETIRED: set<string> := {"MemoryDenyWriteExecute", "ProtectClock"}

  predicate IsHeader(line: string) {
    "[" <= Trim(line)
  }

  predicate IsServiceHeader(line: string) {
    Trim(line) == SERVICE
  }

  /** A line of a section that is neither blank nor a comment. */
  predicate IsDirective(line: string) {
    !IsHeader(line) && Trim(line) != "" && !("#" <= Trim(line))
  }

  /** The key of "key=value"; a line without '=', or starting with it, has none. */
  function DirectiveKey(line: string): Option<string> {
    var i := Find(line, '=');
    if i == 0 || i == |line| then None else Some(Trim(line[..i]))
  }

  /** The directive lines of the [Service] sections; `inService` says whether `lines` start in one. */
  function ServiceLines(lines: seq<string>, inService: bool): seq<string> {
    if lines == [] then []
    else if IsHeader(lines[0]) then ServiceLines(lines[1..], IsServiceHeader(lines[0]))
    else (if inService && IsDirective(lines[0]) then [lines[0]] else []) + ServiceLines(lines[1..], inService)
  }

  /** Whether `lines` end in a [Service] section. */
  function EndsInService(lines: seq<string>, inService: bool): bool {
    if lines == [] then inService
    else EndsInService(lines[1..], if IsHeader(lines[0]) then IsServiceHeader(lines[0]) else inService)
  }

  function KeysOf(directives: seq<string>): set<string> {
    if directives == [] then {}
    else
      (match DirectiveKey(directives[0]) case Some(k) => {k} case None => {}) + KeysOf(directives[1..])
  }

  /** The keys a rewrite with this unit does not carry over. */
  function Managed(unit: seq<string>): set<string> {
    KeysOf(ServiceLines(unit, false)) + DECIDED + RETIRED
  }

  predicate IsExtra(line: string, managed: set<string>) {
    DirectiveKey(line).Some? && DirectiveKey(line).value !in managed
  }

  function Extras(directives: seq<string>, managed: set<string>): seq<string> {
    if directives == [] then []
    else (if IsExtra(directives[0], managed) then [directives[0]] else []) + Extras(directives[1..], managed)
  }

  predicate IsBoundary(line: string) {
    IsHeader(line) && !IsServiceHeader(line)
  }

  /** The first header from `i` on other than [Service], or the length of `lines`. */
  function BoundaryFrom(lines: seq<string>, i: nat): (b: nat)
    requires i <= |lines|
    ensures i <= b <= |lines|
    ensures b < |lines| ==> IsBoundary(lines[b])
    ensures forall j :: i <= j < b ==> !IsBoundary(lines[j])
    decreases |lines| - i
  {
    if i == |lines| || IsBoundary(lines[i]) then i else BoundaryFrom(lines, i + 1)
  }

  /** Where carried-over directives go: before the first header, past the first line, that is not [Service]. */
  function Boundary(lines: seq<string>): (b: nat)
    ensures b <= |lines|
  {
    if lines == [] then 0 else BoundaryFrom(lines, 1)
  }

  /** The inserted block; a blank line follows it when a section does. */
  function Block(extras: seq<string>, more: bool): seq<string> {
    [PRESERVED_COMMENT] + extras + if more then [""] else []
  }

  function Inserted(lines: seq<string>, extras: seq<string>): seq<string> {
    if extras == [] then lines
    else
      var b := Boundary(lines);
      lines[..b] + Block(extras, b < |lines|) + lines[b..]
  }

  function ExtrasOver(refreshed: seq<string>, installed: seq<string>): seq<string> {
    Extras(ServiceLines(installed, false), Managed(refreshed))
  }

  function Preserved(refreshed: seq<string>, installed: seq<string>): seq<string> {
    Inserted(refreshed, ExtrasOver(refreshed, installed))
  }

  // The loops.

  method ServiceSectionLines(unit: string) returns (lines: seq<string>)
    ensures lines == ServiceLines(Split(unit), false)
  {
    lines := [];
    var inService := false;
    var all := Split(unit);
    assert all[0..] == all && [] + ServiceLines(all, false) == ServiceLines(all, false);
    for i := 0 to |all|
      invariant ServiceLines(all, false) == lines + ServiceLines(all[i..], inService)
    {
      assert all[i..][1..] == all[i + 1..];
      var trimmed := Trim(all[i]);
      if "[" <= trimmed {
        inService := trimmed == SERVICE;
        continue;
      }
      if inService && trimmed != "" && !("#" <= trimmed) {
        Assoc(lines, [all[i]], ServiceLines(all[i + 1..], inService));
        lines := lines + [all[i]];
      } else {
        assert [] + ServiceLines(all[i + 1..], inService) == ServiceLines(all[i + 1..], inService);
      }
    }
    assert lines + [] == lines;
  }

  method ServiceDirectiveKeys(unit: string) returns (keys: set<string>)
    ensures keys == KeysOf(ServiceLines(Split(unit), false))
  {
    keys := {};
    var lines := ServiceSectionLines(unit);
    assert lines[0..] == lines;
    for i := 0 to |lines|
      invariant KeysOf(lines) == keys + KeysOf(lines[i..])
    {
      assert lines[i..][1..] == lines[i + 1..];
      var key := DirectiveKey(lines[i]);
      if key.Some? {
        keys := keys + {key.value};
      }
    }
  }

  method WithPreservedDirectives(refreshed: string, installed: string) returns (unit: string)
    ensures unit == Join(Preserved(Split(refreshed), Split(installed)))
  {
    var managed := ServiceDirectiveKeys(refreshed);
    managed := managed + DECIDED + RETIRED;
    var directives := ServiceSectionLines(installed);
    var extra: seq<string> := [];
    assert directives[0..] == directives && [] + Extras(directives, managed) == Extras(directives, managed);
    for i := 0 to |directives|
      invariant Extras(directives, managed) == extra + Extras(directives[i..], managed)
    {
      assert directives[i..][1..] == directives[i + 1..];
      var key := DirectiveKey(directives[i]);
      if key.None? || key.value in managed {
        assert [] + Extras(directives[i + 1..], managed) == Extras(directives[i + 1..], managed);
        continue;
      }
      Assoc(extra, [directives[i]], Extras(directives[i + 1..], managed));
      extra := extra + [directives[i]];
    }
    assert extra + [] == extra;
    if extra == [] {
      JoinSplit(refreshed);
      return refreshed;
    }
    var out := InsertBlock(Split(refreshed), extra);
    unit := Join(out);
  }

  method InsertBlock(lines: seq<string>, extra: seq<string>) returns (out: seq<string>)
    requires lines != [] && extra != []
    ensures out == Inserted(lines, extra)
  {
    out := [];
    var inserted := false;
    ghost var b := Boundary(lines);
    for i := 0 to |lines|
      invariant inserted <==> b < i
      invariant !inserted ==> out == lines[..i]
      invariant inserted ==> out == lines[..b] + Block(extra, true) + lines[b..i]
    {
      var trimmed := Trim(lines[i]);
      if !inserted && "[" <= trimmed && trimmed != SERVICE && |out| > 0 {
        assert i == b;
        assert lines[b..b] == [];
        out := out + Block(extra, true);
        inserted := true;
      }
      out := out + [lines[i]];
      if inserted {
        assert lines[b..i + 1] == lines[b..i] + [lines[i]];
      }
    }
    if !inserted {
      out := out + Block(extra, false);
    }
  }

  // Concatenation.

  lemma {:induction false} ServiceConcat(a: seq<string>, b: seq<string>, f: bool)
    ensures ServiceLines(a + b, f) == ServiceLines(a, f) + ServiceLines(b, EndsInService(a, f))
    ensures EndsInService(a + b, f) == EndsInService(b, EndsInService(a, f))
    decreases |a|
  {
    if a == [] {
      assert a + b == b;
    } else {
      TailOfConcat(a, b);
      var g := if IsHeader(a[0]) then IsServiceHeader(a[0]) else f;
      ServiceConcat(a[1..], b, g);
      Assoc([a[0]], ServiceLines(a[1..], g), ServiceLines(b, EndsInService(a[1..], g)));
      EmptyConcat(ServiceLines(a[1..], g));
      EmptyConcat(ServiceLines(a[1..] + b, g));
    }
  }

  lemma {:induction false} ExtrasConcat(a: seq<string>, b: seq<string>, managed: set<string>)
    ensures Extras(a + b, managed) == Extras(a, managed) + Extras(b, managed)
    decreases |a|
  {
    if a == [] {
      assert a + b == b;
    } else {
      TailOfConcat(a, b);
      ExtrasConcat(a[1..], b, managed);
      Assoc(if IsExtra(a[0], managed) then [a[0]] else [], Extras(a[1..], managed), Extras(b, managed));
    }
  }

  lemma {:induction false} KeysConcat(a: seq<string>, b: seq<string>)
    ensures KeysOf(a + b) == KeysOf(a) + KeysOf(b)
    decreases |a|
  {
    if a == [] {
      assert a + b == b;
    } else {
      TailOfConcat(a, b);
      KeysConcat(a[1..], b);
    }
  }

  // What is carried over.

  ghost predicate AllDirectives(lines: seq<string>) {
    forall i :: 0 <= i < |lines| ==> IsDirective(lines[i])
  }

  ghost predicate AllExtra(lines: seq<string>, managed: set<string>) {
    forall i :: 0 <= i < |lines| ==> IsExtra(lines[i], managed)
  }

  lemma {:induction false} ServiceLinesAreDirectives(lines: seq<string>, f: bool)
    ensures AllDirectives(ServiceLines(lines, f))
    ensures Lines(lines) ==> Lines(ServiceLines(lines, f))
    decreases |lines|
  {
    if lines != [] {
      ServiceLinesAreDirectives(lines[1..], if IsHeader(lines[0]) then IsServiceHeader(lines[0]) else f);
    }
  }

  lemma {:induction false} ExtrasAreOnlyExtra(directives: seq<string>, managed: set<string>)
    ensures AllExtra(Extras(directives, managed), managed)
    decreases |directives|
  {
    if directives != [] {
      ExtrasAreOnlyExtra(directives[1..], managed);
    }
  }

  lemma {:induction false} ExtrasStayDirectives(directives: seq<string>, managed: set<string>)
    requires AllDirectives(directives)
    ensures AllDirectives(Extras(directives, managed))
    decreases |directives|
  {
    if directives != [] {
      ExtrasStayDirectives(directives[1..], managed);
    }
  }

  lemma {:induction false} ExtrasStayLines(directives: seq<string>, managed: set<string>)
    requires Lines(directives)
    ensures Lines(Extras(directives, managed))
    decreases |directives|
  {
    if directives != [] {
      ExtrasStayLines(directives[1..], managed);
    }
  }

  lemma ExtrasAreExtra(directives: seq<string>, managed: set<string>)
    ensures AllExtra(Extras(directives, managed), managed)
    ensures AllDirectives(directives) ==> AllDirectives(Extras(directives, managed))
    ensures Lines(directives) ==> Lines(Extras(directives, managed))
  {
    ExtrasAreOnlyExtra(directives, managed);
    if AllDirectives(directives) {
      ExtrasStayDirectives(directives, managed);
    }
    if Lines(directives) {
      ExtrasStayLines(directives, managed);
    }
  }

  lemma {:induction false} ExtrasOfExtra(lines: seq<string>, managed: set<string>)
    requires AllExtra(lines, managed)
    ensures Extras(lines, managed) == lines
    decreases |lines|
  {
    if lines != [] {
      ExtrasOfExtra(lines[1..], managed);
      assert lines == [lines[0]] + lines[1..];
    }
  }

  lemma {:induction false} ExtrasOfManaged(directives: seq<string>, managed: set<string>)
    requires KeysOf(directives) <= managed
    ensures Extras(directives, managed) == []
    decreases |directives|
  {
    if directives != [] {
      ExtrasOfManaged(directives[1..], managed);
    }
  }

  lemma {:induction false} ServiceOfDirectives(lines: seq<string>, f: bool)
    requires AllDirectives(lines)
    ensures ServiceLines(lines, f) == if f then lines else []
    ensures EndsInService(lines, f) == f
    decreases |lines|
  {
    if lines != [] {
      ServiceOfDirectives(lines[1..], f);
      assert lines == [lines[0]] + lines[1..];
    }
  }

  lemma CommentIsComment()
    ensures Trim(PRESERVED_COMMENT) == PRESERVED_COMMENT
    ensures !IsHeader(PRESERVED_COMMENT) && !IsDirective(PRESERVED_COMMENT)
    ensures OneLine(PRESERVED_COMMENT)
  {
    assert PRESERVED_COMMENT[0] == '#' && PRESERVED_COMMENT[|PRESERVED_COMMENT| - 1] == ':';
    TrimTrimmed(PRESERVED_COMMENT);
  }

  lemma BlockService(extras: seq<string>, more: bool, f: bool)
    requires AllDirectives(extras)
    ensures ServiceLines(Block(extras, more), f) == if f then extras else []
    ensures EndsInService(Block(extras, more), f) == f
  {
    CommentIsComment();
    ServiceOfDirectives(extras, f);
    var tail := if more then [""] else [];
    ServiceConcat([PRESERVED_COMMENT] + extras, tail, f);
    ServiceConcat([PRESERVED_COMMENT], extras, f);
    assert ServiceLines([""], f) == [] && EndsInService([""], f) == f;
    assert ServiceLines([PRESERVED_COMMENT], f) == [] && EndsInService([PRESERVED_COMMENT], f) == f;
  }

  /** The insertion point lies in the [Service] section. */
  ghost predicate Anchored(lines: seq<string>) {
    EndsInService(lines[..Boundary(lines)], false)
  }

  lemma InsertedService(lines: seq<string>, extras: seq<string>)
    requires AllDirectives(extras)
    ensures var head, tail := lines[..Boundary(lines)], lines[Boundary(lines)..];
            && ServiceLines(lines, false) == ServiceLines(head, false) + ServiceLines(tail, Anchored(lines))
            && ServiceLines(Inserted(lines, extras), false)
               == ServiceLines(head, false) + (if Anchored(lines) then extras else []) + ServiceLines(tail, Anchored(lines))
  {
    var b := Boundary(lines);
    var head, tail, block := lines[..b], lines[b..], Block(extras, b < |lines|);
    assert lines == head + tail;
    ServiceConcat(head, tail, false);
    if extras == [] {
      assert ServiceLines(head, false) + [] == ServiceLines(head, false);
    } else {
      BlockService(extras, b < |lines|, Anchored(lines));
      ServiceConcat(head + block, tail, false);
      ServiceConcat(head, block, false);
    }
  }

  /** Operator directives are conserved, the unmanaged [Service] lines after the rewrite being those
      before it in the same order and number, exactly when there are none or the new unit takes them
      in its [Service] section; none has a decided or retired key. */
  lemma DirectivesConserved(refreshed: seq<string>, installed: seq<string>)
    ensures ExtrasOver(refreshed, Preserved(refreshed, installed)) == ExtrasOver(refreshed, installed)
            <==> Anchored(refreshed) || ExtrasOver(refreshed, installed) == []
    ensures forall i :: 0 <= i < |ExtrasOver(refreshed, installed)| ==>
              var line := ExtrasOver(refreshed, installed)[i];
              IsExtra(line, DECIDED + RETIRED) && IsExtra(line, Managed(refreshed))
  {
    var managed, extras := Managed(refreshed), ExtrasOver(refreshed, installed);
    var b, taken := Boundary(refreshed), if Anchored(refreshed) then extras else [];
    var head, tail := ServiceLines(refreshed[..b], false), ServiceLines(refreshed[b..], Anchored(refreshed));
    ServiceLinesAreDirectives(installed, false);
    ExtrasAreExtra(ServiceLines(installed, false), managed);
    InsertedService(refreshed, extras);
    KeysConcat(head, tail);
    ExtrasOfManaged(head, managed);
    ExtrasOfManaged(tail, managed);
    ExtrasOfExtra(taken, managed);
    ExtrasConcat(head + taken, tail, managed);
    ExtrasConcat(head, taken, managed);
  }

  // Keys and prefixes.

  /** The key is what stands before the first '=', trimmed; without one, or with nothing before it,
      there is none. */
  lemma KeyIs(key: string, value: string)
    requires forall j :: 0 <= j < |key| ==> key[j] != '='
    ensures DirectiveKey(key).None? && DirectiveKey("=" + value).None?
    ensures key != "" ==> DirectiveKey(key + "=" + value) == Some(Trim(key))
  {
    FindIs(key, '=', |key|);
    FindIs(key + "=" + value, '=', |key|);
    assert (key + "=" + value)[..|key|] == key;
  }

  lemma KeyOfPrefixed(line: string, key: string)
    requires key != "" && Trimmed(key) && (forall j :: 0 <= j < |key| ==> key[j] != '=')
    requires key + "=" <= Trim(line)
    ensures DirectiveKey(line) == Some(key)
  {
    var lead, trail := TrimSplits(line);
    FindIs(line, '=', |lead| + |key|);
    assert line[..|lead| + |key|] == lead + key;
    TrimSpaces(lead, key);
    TrimTrimmed(key);
  }

  /** Trimming a directive first changes its key only when what is left starts with '='. */
  lemma KeyOfTrimmed(line: string)
    ensures "=" <= Trim(line) ==> DirectiveKey(Trim(line)).None?
    ensures !("=" <= Trim(line)) ==> DirectiveKey(Trim(line)) == DirectiveKey(line)
  {
    var lead, trail := TrimSplits(line);
    var t := Trim(line);
    var i := Find(t, '=');
    if i == |t| {
      FindIs(line, '=', |line|);
    } else {
      FindIs(line, '=', |lead| + i);
      assert line[..|lead| + i] == lead + t[..i];
      TrimSpaces(lead, t[..i]);
    }
  }

  /** The first line that, trimmed, starts with `prefix`, so trimmed; "" when there is none. */
  function FirstWith(lines: seq<string>, prefix: string): string {
    if lines == [] then ""
    else if prefix <= Trim(lines[0]) then Trim(lines[0])
    else FirstWith(lines[1..], prefix)
  }

  ghost predicate NoneWith(lines: seq<string>, prefix: string) {
    forall i :: 0 <= i < |lines| ==> !(prefix <= Trim(lines[i]))
  }

  lemma {:induction false} FirstWithConcat(a: seq<string>, b: seq<string>, prefix: string)
    requires prefix != ""
    ensures FirstWith(a + b, prefix) == if FirstWith(a, prefix) != "" then FirstWith(a, prefix) else FirstWith(b, prefix)
    decreases |a|
  {
    if a == [] {
      assert a + b == b;
    } else {
      TailOfConcat(a, b);
      FirstWithConcat(a[1..], b, prefix);
    }
  }

  lemma {:induction false} FirstOfNone(lines: seq<string>, prefix: string)
    requires NoneWith(lines, prefix)
    ensures FirstWith(lines, prefix) == ""
    decreases |lines|
  {
    if lines != [] {
      FirstOfNone(lines[1..], prefix);
    }
  }

  lemma BlockHasNone(extras: seq<string>, more: bool, key: string)
    requires key != "" && Trimmed(key) && (forall j :: 0 <= j < |key| ==> key[j] != '=') && key[0] != '#'
    requires forall i :: 0 <= i < |extras| ==> DirectiveKey(extras[i]) != Some(key)
    ensures NoneWith(Block(extras, more), key + "=")
  {
    var block := Block(extras, more);
    CommentIsComment();
    assert PRESERVED_COMMENT[0] == '#';
    TrimTrimmed("");
    forall i | 0 <= i < |block|
      ensures !(key + "=" <= Trim(block[i]))
    {
      if 0 < i <= |extras| {
        assert block[i] == extras[i - 1];
        if key + "=" <= Trim(extras[i - 1]) {
          KeyOfPrefixed(extras[i - 1], key);
        }
      } else {
        assert block[i] == PRESERVED_COMMENT || block[i] == "";
      }
    }
  }

  /** Inserting directives does not change what a key they do not have is read as. */
  lemma {:induction false} InsertedFirst(lines: seq<string>, extras: seq<string>, key: string)
    requires key != "" && Trimmed(key) && (forall j :: 0 <= j < |key| ==> key[j] != '=') && key[0] != '#'
    requires forall i :: 0 <= i < |extras| ==> DirectiveKey(extras[i]) != Some(key)
    ensures FirstWith(Inserted(lines, extras), key + "=") == FirstWith(lines, key + "=")
  {
    if extras != [] {
      var b := Boundary(lines);
      var head, tail, block := lines[..b], lines[b..], Block(extras, b < |lines|);
      BlockHasNone(extras, b < |lines|, key);
      FirstOfNone(block, key + "=");
      FirstWithConcat(head + block, tail, key + "=");
      FirstWithConcat(head, block, key + "=");
      FirstWithConcat(head, tail, key + "=");
      assert lines == head + tail;
    }
  }

  // Replacing lines that are not headers.

  ghost predicate NoHeaders(lines: seq<string>) {
    forall i :: 0 <= i < |lines| ==> !IsHeader(lines[i])
  }

  /** Whether the first header other than [Service], or the end, comes inside a [Service] section. */
  function Anchor(lines: seq<string>, inService: bool): bool {
    if lines == [] || IsBoundary(lines[0]) then inService else Anchor(lines[1..], IsHeader(lines[0]) || inService)
  }

  lemma {:induction false} AnchorFrom(lines: seq<string>, i: nat)
    requires i <= |lines|
    ensures EndsInService(lines[..BoundaryFrom(lines, i)], false) == Anchor(lines[i..], EndsInService(lines[..i], false))
    decreases |lines| - i
  {
    if i < |lines| && !IsBoundary(lines[i]) {
      AnchorFrom(lines, i + 1);
      assert lines[..i + 1] == lines[..i] + [lines[i]];
      ServiceConcat(lines[..i], [lines[i]], false);
      assert lines[i..][1..] == lines[i + 1..];
    }
  }

  lemma {:induction false} AnchorSkips(x: seq<string>, d: seq<string>, f: bool)
    requires NoHeaders(x)
    ensures Anchor(x + d, f) == Anchor(d, f)
    decreases |x|
  {
    if x == [] {
      assert x + d == d;
    } else {
      TailOfConcat(x, d);
      AnchorSkips(x[1..], d, f);
    }
  }

  lemma {:induction false} AnchorAfter(a: seq<string>, x: seq<string>, d: seq<string>, f: bool)
    requires NoHeaders(x)
    ensures Anchor(a + x + d, f) == Anchor(a + d, f)
    decreases |a|
  {
    if a == [] {
      assert a + x == x && a + d == d;
      AnchorSkips(x, d, f);
    } else {
      Assoc(a, x, d);
      TailOfConcat(a, x + d);
      Assoc(a[1..], x, d);
      TailOfConcat(a, d);
      AnchorAfter(a[1..], x, d, IsHeader(a[0]) || f);
    }
  }

  lemma AnchoredReplaced(a: seq<string>, x: seq<string>, y: seq<string>, d: seq<string>)
    requires a != [] && NoHeaders(x) && NoHeaders(y)
    ensures Anchored(a + x + d) <==> Anchored(a + y + d)
  {
    AnchoredIs(a, x, d);
    AnchoredIs(a, y, d);
  }

  lemma AnchoredIs(a: seq<string>, x: seq<string>, d: seq<string>)
    requires a != [] && NoHeaders(x)
    ensures Anchored(a + x + d) <==> Anchor(a[1..] + d, EndsInService([a[0]], false))
  {
    var lines := a + x + d;
    AnchorFrom(lines, 1);
    assert lines[..1] == [a[0]];
    Assoc(a, x, d);
    TailOfConcat(a, x + d);
    Assoc(a[1..], x, d);
    AnchorAfter(a[1..], x, d, EndsInService([a[0]], false));
  }

  lemma FirstSkips(a: seq<string>, x: seq<string>, d: seq<string>, prefix: string)
    requires prefix != "" && NoneWith(x, prefix)
    ensures FirstWith(a + x + d, prefix) == FirstWith(a + d, prefix)
  {
    FirstOfNone(x, prefix);
    FirstWithConcat(a + x, d, prefix);
    FirstWithConcat(a, x, prefix);
    FirstWithConcat(a, d, prefix);
  }

  lemma {:induction false} FirstIsTrimmed(lines: seq<string>, prefix: string)
    ensures Trimmed(FirstWith(lines, prefix))
    ensures FirstWith(lines, prefix) != "" ==> prefix <= FirstWith(lines, prefix)
    ensures Lines(lines) ==> OneLine(FirstWith(lines, prefix))
    decreases |lines|
  {
    if lines != [] {
      var lead, trail := TrimSplits(lines[0]);
      if OneLine(lines[0]) {
        TrimOneLine(lines[0]);
      }
      FirstIsTrimmed(lines[1..], prefix);
    }
  }
}
