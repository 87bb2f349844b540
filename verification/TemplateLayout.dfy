/**
 Units laid out as the shipped ones are, a [Unit], a [Service] and an [Install] section of ordinary
 lines, satisfy the contract the refresh theorems ask of the templates.
 */
module TemplateLayout {
  import opened Seqs
  import opened Text
  import opened UnitFile
  import opened CommandLine
  import opened Refresh
  import opened RefreshProofs

  const UNIT := "[Unit]"
  const INSTALL := "[Install]"

  /** A comment, a blank line or a directive other than ExecStart= and WorkingDirectory=; User= and
      Group= lines name the default user. */
  ghost predicate Ordinary(line: string) {
    && OneLine(line) && !IsHeader(line)
    && !(EXEC <= Trim(line)) && !(WORKDIR <= Trim(line)) && !(WORKDIR_GUARD <= line)
    && (USER <= Trim(line) ==> line == USER + DEFAULT_USER)
    && (GROUP <= line ==> line == GROUP + DEFAULT_USER)
  }

  ghost predicate AllOrdinary(lines: seq<string>) {
    forall i :: 0 <= i < |lines| ==> Ordinary(lines[i])
  }

  /** Unit lines, service lines around the ExecStart place, install lines. */
  datatype Sections = Sections(unit: seq<string>, before: seq<string>, after: seq<string>, install: seq<string>)

  ghost predicate Valid(s: Sections) {
    AllOrdinary(s.unit) && AllOrdinary(s.before) && AllOrdinary(s.after) && AllOrdinary(s.install)
  }

  function Head(s: Sections): (h: seq<string>)
    ensures |h| > 0
  {
    [UNIT] + s.unit + ([SERVICE] + s.before)
  }

  function Foot(s: Sections): seq<string> {
    s.after + ([INSTALL] + s.install)
  }

  lemma HeadersAreHeaders()
    ensures IsBoundary(UNIT) && IsBoundary(INSTALL) && IsHeader(SERVICE) && !IsBoundary(SERVICE)
    ensures OneLine(UNIT) && OneLine(INSTALL) && OneLine(SERVICE)
    ensures Trim(UNIT) == UNIT && Trim(INSTALL) == INSTALL && Trim(SERVICE) == SERVICE
  {
    TrimTrimmed(UNIT);
    TrimTrimmed(INSTALL);
    TrimTrimmed(SERVICE);
  }

  lemma Regrouped(a: seq<string>, u: seq<string>, c: seq<string>, b: seq<string>, mid: seq<string>, d: seq<string>, t: seq<string>)
    ensures a + u + (c + b) + mid + (d + t) == a + u + (c + (b + mid + d + t))
  {
  }

  lemma ServiceAnchors(body: seq<string>, tail: seq<string>, f: bool)
    requires NoHeaders(body) && tail != [] && IsBoundary(tail[0])
    ensures Anchor([SERVICE] + (body + tail), f)
  {
    HeadersAreHeaders();
    assert ([SERVICE] + (body + tail))[1..] == body + tail;
    AnchorSkips(body, tail, true);
  }

  lemma SectionsAnchored(s: Sections, mid: seq<string>)
    requires Valid(s) && NoHeaders(mid)
    ensures Anchored(Head(s) + mid + Foot(s))
  {
    var body, tail := s.before + mid + s.after, [INSTALL] + s.install;
    var rest := [SERVICE] + (body + tail);
    assert Head(s) + mid + Foot(s) == [UNIT] + s.unit + rest by {
      Regrouped([UNIT], s.unit, [SERVICE], s.before, mid, s.after, tail);
    }
    HeadersAreHeaders();
    ServiceAnchors(body, tail, EndsInService([UNIT], false));
    AnchoredIs([UNIT], s.unit, rest);
    assert [UNIT][1..] == [];
    EmptyConcat(rest);
  }

  /** Every line around the ExecStart place is ordinary or a section header. */
  lemma HeadAndFoot(s: Sections)
    requires Valid(s)
    ensures forall i :: 0 <= i < |Head(s)| ==> Head(s)[i] == UNIT || Head(s)[i] == SERVICE || Ordinary(Head(s)[i])
    ensures forall i :: 0 <= i < |Foot(s)| ==> Foot(s)[i] == INSTALL || Ordinary(Foot(s)[i])
    ensures NoneWith(Head(s), EXEC) && NoneWith(Foot(s), EXEC)
    ensures NoneWith(Head(s), WORKDIR) && NoneWith(Foot(s), WORKDIR)
    ensures Lines(Head(s)) && Lines(Foot(s))
  {
    HeadersAreHeaders();
  }

  lemma {:induction false} FirstIsDefaultUser(lines: seq<string>, k: nat)
    requires k < |lines| && lines[k] == USER + DEFAULT_USER
    requires forall i :: 0 <= i < |lines| && USER <= Trim(lines[i]) ==> lines[i] == USER + DEFAULT_USER
    ensures FirstWith(lines, USER) == USER + DEFAULT_USER
    decreases |lines|
  {
    TrimTrimmed(USER + DEFAULT_USER);
    if k > 0 && !(USER <= Trim(lines[0])) {
      FirstIsDefaultUser(lines[1..], k - 1);
    }
  }

  lemma TemplatesAreNotOrdinary(line: string)
    requires line == UNIT || line == SERVICE || line == INSTALL || Ordinary(line)
    ensures line != EXEC_TEMPLATE && line != WORKDIR_TEMPLATE && !(WORKDIR_GUARD <= line)
    ensures USER <= Trim(line) ==> line == USER + DEFAULT_USER
    ensures GROUP <= line ==> line == GROUP + DEFAULT_USER
  {
    HeadersAreHeaders();
    if EXEC <= line {
      PrefixSurvives(line, EXEC);
    }
  }

  lemma PackagedLines(s: Sections, exec: string)
    requires Valid(s) && EXEC <= exec && Trimmed(exec) && OneLine(exec) && exec != EXEC_TEMPLATE
    ensures var p := Head(s) + [exec] + Foot(s);
            && Lines(p) && NoneWith(p, WORKDIR)
            && (forall i :: 0 <= i < |p| && USER <= Trim(p[i]) ==> p[i] == USER + DEFAULT_USER)
            && (forall i :: 0 <= i < |p| && GROUP <= p[i] ==> p[i] == GROUP + DEFAULT_USER)
            && (forall i :: 0 <= i < |p| ==> p[i] != EXEC_TEMPLATE && p[i] != WORKDIR_TEMPLATE)
  {
    var p := Head(s) + [exec] + Foot(s);
    HeadAndFoot(s);
    TrimTrimmed(exec);
    assert WORKDIR_TEMPLATE[0] == '{';
    forall i | 0 <= i < |p|
      ensures p[i] != EXEC_TEMPLATE && p[i] != WORKDIR_TEMPLATE
      ensures USER <= Trim(p[i]) ==> p[i] == USER + DEFAULT_USER
      ensures GROUP <= p[i] ==> p[i] == GROUP + DEFAULT_USER
    {
      if i != |Head(s)| {
        TemplatesAreNotOrdinary(p[i]);
      }
    }
  }

  lemma HeadUserLine(s: Sections, exec: string, k: nat)
    requires k < |s.before|
    ensures |s.unit| + 2 + k < |Head(s)|
    ensures (Head(s) + [exec] + Foot(s))[|s.unit| + 2 + k] == s.before[k]
  {
  }

  lemma ShapeOfParts(h: seq<string>, exec: string, f: seq<string>, user: string)
    requires h != [] && EXEC <= exec && Trimmed(exec) && NoneWith(h, EXEC) && NoneWith(f, EXEC)
    requires var p := h + [exec] + f; Lines(p) && NoneWith(p, WORKDIR) && Anchored(p) && ServiceUser(p) == user
    ensures Shape(h + [exec] + f, |h|, exec, user)
  {
    Around(h, exec, f);
  }

  /** A packaged unit with this layout, its User= line before the ExecStart line. */
  lemma PackagedLayout(s: Sections, exec: string, k: nat)
    requires Valid(s) && k < |s.before| && s.before[k] == USER + DEFAULT_USER
    requires EXEC <= exec && Trimmed(exec) && OneLine(exec) && exec != EXEC_TEMPLATE
    ensures PackagedContract(Head(s) + [exec] + Foot(s), |Head(s)|)
  {
    hide Trim, EndsInService;
    var p := Head(s) + [exec] + Foot(s);
    PackagedLines(s, exec);
    assert ServiceUser(p) == DEFAULT_USER by {
      HeadUserLine(s, exec, k);
      FirstIsDefaultUser(p, |s.unit| + 2 + k);
      UserOf(p, DEFAULT_USER);
    }
    assert Anchored(p) by {
      TrimTrimmed(exec);
      SectionsAnchored(s, [exec]);
    }
    assert NoneWith(Head(s), EXEC) && NoneWith(Foot(s), EXEC) by {
      HeadAndFoot(s);
    }
    ShapeOfParts(Head(s), exec, Foot(s), DEFAULT_USER);
  }

  /** A root script with this layout and no User= line. */
  lemma RootLayout(s: Sections)
    requires Valid(s) && NoneWith(Head(s), USER) && NoneWith(Foot(s), USER)
    ensures RootContract(Head(s) + [EXEC_TEMPLATE, WORKDIR_TEMPLATE] + Foot(s), Head(s), Foot(s))
  {
    HeadAndFoot(s);
    SectionsAnchored(s, []);
    forall i | 0 <= i < |Head(s)|
      ensures !(WORKDIR_GUARD <= Head(s)[i])
    {
      TemplatesAreNotOrdinary(Head(s)[i]);
    }
    forall i | 0 <= i < |Foot(s)|
      ensures !(WORKDIR_GUARD <= Foot(s)[i])
    {
      TemplatesAreNotOrdinary(Foot(s)[i]);
    }
  }
}
