/** Strings as the unit-file code handles them: trimming, searching, and lines. */
module Text {
  import opened Seqs

  /** The white space strings.TrimSpace removes. */
  predicate IsSpace(c: char) {
    || '\t' <= c <= '\r' || c == ' ' || c == '\U{0085}' || c == '\U{00A0}' || c == '\U{1680}'
    || '\U{2000}' <= c <= '\U{200A}' || c == '\U{2028}' || c == '\U{2029}' || c == '\U{202F}'
    || c == '\U{205F}' || c == '\U{3000}'
  }

  predicate AllSpace(s: string) {
    forall i :: 0 <= i < |s| ==> IsSpace(s[i])
  }

  function TrimLeft(s: string): string {
    if s != "" && IsSpace(s[0]) then TrimLeft(s[1..]) else s
  }

  function TrimRight(s: string): string {
    if s != "" && IsSpace(s[|s| - 1]) then TrimRight(s[..|s| - 1]) else s
  }

  function Trim(s: string): string {
    TrimRight(TrimLeft(s))
  }

  /** Neither end is white space. */
  predicate Trimmed(s: string) {
    s == "" || (!IsSpace(s[0]) && !IsSpace(s[|s| - 1]))
  }

  lemma {:induction false} TrimLeftSplits(s: string) returns (lead: string)
    ensures s == lead + TrimLeft(s) && AllSpace(lead)
    ensures TrimLeft(s) == "" || !IsSpace(TrimLeft(s)[0])
    decreases |s|
  {
    if s != "" && IsSpace(s[0]) {
      var rest := TrimLeftSplits(s[1..]);
      lead := [s[0]] + rest;
      assert s == [s[0]] + s[1..];
      Assoc([s[0]], rest, TrimLeft(s));
    } else {
      lead := "";
    }
  }

  lemma {:induction false} TrimRightSplits(s: string) returns (trail: string)
    ensures s == TrimRight(s) + trail && AllSpace(trail)
    ensures TrimRight(s) == "" || !IsSpace(TrimRight(s)[|TrimRight(s)| - 1])
    decreases |s|
  {
    if s != "" && IsSpace(s[|s| - 1]) {
      var rest := TrimRightSplits(s[..|s| - 1]);
      trail := rest + [s[|s| - 1]];
      assert s == s[..|s| - 1] + [s[|s| - 1]];
      Assoc(TrimRight(s), rest, [s[|s| - 1]]);
    } else {
      trail := "";
    }
  }

  /** Trimming cuts white space off both ends and stops there. */
  lemma TrimSplits(s: string) returns (lead: string, trail: string)
    ensures s == lead + Trim(s) + trail && AllSpace(lead) && AllSpace(trail)
    ensures Trimmed(Trim(s))
  {
    lead := TrimLeftSplits(s);
    trail := TrimRightSplits(TrimLeft(s));
    assert Trim(s) != "" ==> Trim(s)[0] == TrimLeft(s)[0];
  }

  lemma {:induction false} TrimLeftSpaces(lead: string, s: string)
    requires AllSpace(lead)
    ensures TrimLeft(lead + s) == TrimLeft(s)
    decreases |lead|
  {
    if lead == "" {
      assert lead + s == s;
    } else {
      TailOfConcat(lead, s);
      TrimLeftSpaces(lead[1..], s);
    }
  }

  lemma TrimSpaces(lead: string, s: string)
    requires AllSpace(lead)
    ensures Trim(lead + s) == Trim(s)
  {
    TrimLeftSpaces(lead, s);
  }

  lemma TrimTrimmed(s: string)
    requires Trimmed(s)
    ensures Trim(s) == s
  {
  }

  /** A prefix that starts and ends with something else than white space survives trimming. */
  lemma PrefixSurvives(s: string, p: string)
    requires p != "" && Trimmed(p) && p <= s
    ensures p <= Trim(s)
  {
    var trail := TrimRightSplits(s);
    var last := s[|p| - 1];
    assert !IsSpace(last);
    assert |Trim(s)| < |p| ==> last in trail;
  }

  lemma TrimOneLine(s: string)
    requires OneLine(s)
    ensures OneLine(Trim(s))
  {
    var lead, trail := TrimSplits(s);
    forall i | 0 <= i < |Trim(s)|
      ensures Trim(s)[i] != '\n'
    {
      assert Trim(s)[i] == s[|lead| + i];
    }
  }

  // Searching.

  /** The index of the first `c`, or the length of `s` if there is none. */
  function Find(s: string, c: char): (i: nat)
    ensures i <= |s|
    ensures i < |s| ==> s[i] == c
    ensures forall j :: 0 <= j < i ==> s[j] != c
  {
    if s == "" || s[0] == c then 0 else 1 + Find(s[1..], c)
  }

  lemma FindIs(s: string, c: char, i: nat)
    requires i <= |s| && (i < |s| ==> s[i] == c)
    requires forall j :: 0 <= j < i ==> s[j] != c
    ensures Find(s, c) == i
  {
  }

  // Lines.

  predicate OneLine(s: string) {
    forall i :: 0 <= i < |s| ==> s[i] != '\n'
  }

  predicate Lines(ls: seq<string>) {
    forall i :: 0 <= i < |ls| ==> OneLine(ls[i])
  }

  function Split(s: string): (ls: seq<string>)
    ensures |ls| > 0
    decreases |s|
  {
    var i := Find(s, '\n');
    if i == |s| then [s] else [s[..i]] + Split(s[i + 1..])
  }

  function Join(ls: seq<string>): string {
    if ls == [] then ""
    else if |ls| == 1 then ls[0]
    else ls[0] + "\n" + Join(ls[1..])
  }

  lemma {:induction false} SplitLines(s: string)
    ensures Lines(Split(s))
    decreases |s|
  {
    var i := Find(s, '\n');
    if i < |s| {
      SplitLines(s[i + 1..]);
    }
  }

  lemma {:induction false} JoinSplit(s: string)
    ensures Join(Split(s)) == s
    decreases |s|
  {
    var i := Find(s, '\n');
    if i < |s| {
      JoinSplit(s[i + 1..]);
      JoinFirst(s[..i], Split(s[i + 1..]));
      SplitAround(s, i);
    }
  }

  lemma JoinFirst(first: string, rest: seq<string>)
    requires rest != []
    ensures Join([first] + rest) == first + "\n" + Join(rest)
  {
    TailOfConcat([first], rest);
    EmptyConcat(rest);
  }

  lemma SplitFirst(first: string, rest: string)
    requires OneLine(first)
    ensures Split(first + "\n" + rest) == [first] + Split(rest)
  {
    var s := first + "\n" + rest;
    FindIs(s, '\n', |first|);
    assert s[..|first|] == first && s[|first| + 1..] == rest;
  }

  lemma {:induction false} SplitJoin(ls: seq<string>)
    requires ls != [] && Lines(ls)
    ensures Split(Join(ls)) == ls
    decreases |ls|
  {
    if |ls| == 1 {
      FindIs(ls[0], '\n', |ls[0]|);
    } else {
      SplitJoin(ls[1..]);
      SplitFirst(ls[0], Join(ls[1..]));
    }
  }

  /** Joining is injective on lists of non-empty lines. */
  lemma JoinInjective(a: seq<string>, b: seq<string>)
    requires Lines(a) && Lines(b)
    requires forall i :: 0 <= i < |a| ==> a[i] != ""
    requires forall i :: 0 <= i < |b| ==> b[i] != ""
    ensures Join(a) == Join(b) <==> a == b
  {
    if a != [] && b != [] {
      SplitJoin(a);
      SplitJoin(b);
    }
  }
}
