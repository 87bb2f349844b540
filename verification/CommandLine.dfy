/** The ExecStart= line: the template helpers that print it and the code that reads it back. */
module CommandLine {
  import opened Seqs
  import opened Text

  const EXEC := "ExecStart="
  const ESCAPED_SPACE := "\\x20"

  // Printing.

  /** The cmd helper, without its quotes: each '"' becomes '\"'. */
  function EscapeQuotes(s: string): string {
    if s == "" then "" else (if s[0] == '"' then "\\\"" else [s[0]]) + EscapeQuotes(s[1..])
  }

  function Cmd(s: string): string {
    "\"" + EscapeQuotes(s) + "\""
  }

  /** The cmdEscape helper: each space becomes '\x20'. */
  function CmdEscape(s: string): string {
    if s == "" then "" else (if s[0] == ' ' then ESCAPED_SPACE else [s[0]]) + CmdEscape(s[1..])
  }

  /** The quoted arguments, separated by single spaces. */
  function Spaced(args: seq<string>): string {
    if args == [] then ""
    else if |args| == 1 then Cmd(args[0])
    else Cmd(args[0]) + (" " + Spaced(args[1..]))
  }

  /** The line the install template renders. */
  function ExecLine(path: string, args: seq<string>): string {
    EXEC + CmdEscape(path) + if args == [] then "" else " " + Spaced(args)
  }

  // Reading.

  /** strings.ReplaceAll(s, `\x20`, " "). */
  function Unescape(s: string): string {
    if ESCAPED_SPACE <= s then " " + Unescape(s[4..])
    else if s == "" then ""
    else [s[0]] + Unescape(s[1..])
  }

  datatype Command = Command(path: string, args: string)

  /** The first token of an ExecStart line and the rest of it. */
  function SplitExecStart(line: string): Command {
    var cmd := Trim(if EXEC <= line then line[|EXEC|..] else line);
    var i := Find(cmd, ' ');
    if i == |cmd| then Command(cmd, "") else Command(cmd[..i], Trim(cmd[i + 1..]))
  }

  /** The fields of `s` from inside a scan that has read `cur` of the current one. */
  function Fields(s: string, cur: string, inQuote: bool, started: bool): seq<string>
    decreases |s|
  {
    if s == "" then
      if started then [cur] else []
    else if s[0] == '\\' && inQuote && |s| > 1 && s[1] == '"' then Fields(s[2..], cur + "\"", inQuote, started)
    else if s[0] == '"' then Fields(s[1..], cur, !inQuote, true)
    else if s[0] == ' ' && !inQuote then
      if started then [cur] + Fields(s[1..], "", false, false) else Fields(s[1..], cur, false, false)
    else Fields(s[1..], cur + [s[0]], inQuote, true)
  }

  function ArgsOf(s: string): seq<string> {
    Fields(s, "", false, false)
  }

  method UnitArgs(s: string) returns (out: seq<string>)
    ensures out == ArgsOf(s)
  {
    out := [];
    var cur := "";
    var inQuote, started := false, false;
    var i := 0;
    assert s[0..] == s && [] + ArgsOf(s) == ArgsOf(s);
    while i < |s|
      invariant 0 <= i <= |s|
      invariant out + Fields(s[i..], cur, inQuote, started) == ArgsOf(s)
    {
      var c := s[i];
      assert s[i..][1..] == s[i + 1..];
      if c == '\\' && inQuote && i + 1 < |s| && s[i + 1] == '"' {
        assert s[i..][2..] == s[i + 2..];
        cur := cur + "\"";
        i := i + 1;
      } else if c == '"' {
        inQuote := !inQuote;
        started := true;
      } else if c == ' ' && !inQuote {
        if started {
          Assoc(out, [cur], Fields(s[i + 1..], "", false, false));
          out := out + [cur];
          cur := "";
          started := false;
        }
      } else {
        cur := cur + [c];
        started := true;
      }
      i := i + 1;
    }
    if started {
      out := out + [cur];
    } else {
      assert out + [] == out;
    }
  }

  /** The arguments an ExecStart line passes. */
  function LineArgs(line: string): seq<string> {
    ArgsOf(SplitExecStart(line).args)
  }

  const CONFIG_FLAG := "--config-path"

  /** The value of the first --config-path among `fields`, in either spelling; "" without one. */
  function ConfigPath(fields: seq<string>): string {
    if fields == [] then ""
    else if fields[0] == CONFIG_FLAG && |fields| > 1 then fields[1]
    else if CONFIG_FLAG + "=" <= fields[0] then fields[0][|CONFIG_FLAG| + 1..]
    else ConfigPath(fields[1..])
  }

  method UnitConfigPath(execStartLine: string) returns (path: string)
    ensures path == ConfigPath(LineArgs(execStartLine))
  {
    var fields := UnitArgs(SplitExecStart(execStartLine).args);
    assert fields[0..] == fields;
    for i := 0 to |fields|
      invariant ConfigPath(fields[i..]) == ConfigPath(fields)
    {
      assert fields[i..][1..] == fields[i + 1..];
      var f := fields[i];
      if f == CONFIG_FLAG && i + 1 < |fields| {
        return fields[i + 1];
      }
      if CONFIG_FLAG + "=" <= f {
        return f[|CONFIG_FLAG| + 1..];
      }
    }
    return "";
  }

  // Reading back what was printed.

  predicate EndsInBackslash(a: string) {
    a != "" && a[|a| - 1] == '\\'
  }

  lemma EscapedHead(a: string)
    requires a != ""
    ensures EscapeQuotes(a) != "" && EscapeQuotes(a)[0] != '"'
  {
  }

  /** Scanning a quoted argument reads the argument and leaves the quotes. */
  lemma {:induction false} QuotedScan(a: string, rest: string, cur: string)
    requires !EndsInBackslash(a)
    ensures Fields(EscapeQuotes(a) + ("\"" + rest), cur, true, true) == Fields(rest, cur + a, false, true)
    decreases |a|
  {
    var s := EscapeQuotes(a) + ("\"" + rest);
    if a == "" {
      assert s == "\"" + rest && s[1..] == rest;
      assert cur + a == cur;
    } else {
      var tail := EscapeQuotes(a[1..]) + ("\"" + rest);
      QuotedScan(a[1..], rest, cur + [a[0]]);
      assert cur + [a[0]] + a[1..] == cur + a;
      if a[0] == '"' {
        Assoc("\\\"", EscapeQuotes(a[1..]), "\"" + rest);
        SplitConcat("\\\"", tail);
      } else {
        Assoc([a[0]], EscapeQuotes(a[1..]), "\"" + rest);
        SplitConcat([a[0]], tail);
        if a[0] == '\\' {
          EscapedHead(a[1..]);
        }
      }
    }
  }

  /** A final backslash escapes the closing quote instead: the scan goes on inside the quotes. */
  lemma {:induction false} BackslashScan(w: string, rest: string, cur: string)
    ensures Fields(EscapeQuotes(w + "\\") + ("\"" + rest), cur, true, true) == Fields(rest, cur + w + "\"", true, true)
    decreases |w|
  {
    var a := w + "\\";
    var s := EscapeQuotes(a) + ("\"" + rest);
    if w == "" {
      assert EscapeQuotes(a) == "\\";
      assert s[2..] == rest;
      assert cur + w == cur;
    } else {
      assert a[1..] == w[1..] + "\\";
      var tail := EscapeQuotes(a[1..]) + ("\"" + rest);
      BackslashScan(w[1..], rest, cur + [w[0]]);
      assert cur + [w[0]] + w[1..] == cur + w;
      if w[0] == '"' {
        assert s == "\\\"" + tail && s[2..] == tail;
      } else {
        assert s == [w[0]] + tail && s[1..] == tail;
        assert w[0] == '\\' ==> tail[0] != '"';
      }
    }
  }

  /** The field being read keeps what was read of it. */
  lemma {:induction false} FieldGrows(s: string, cur: string, inQuote: bool)
    ensures Fields(s, cur, inQuote, true) != [] && cur <= Fields(s, cur, inQuote, true)[0]
    decreases |s|
  {
    if s == "" {
    } else if s[0] == '\\' && inQuote && |s| > 1 && s[1] == '"' {
      FieldGrows(s[2..], cur + "\"", inQuote);
    } else if s[0] == '"' {
      FieldGrows(s[1..], cur, !inQuote);
    } else if s[0] == ' ' && !inQuote {
    } else {
      FieldGrows(s[1..], cur + [s[0]], inQuote);
    }
  }

  /** What is printed after the first argument's closing quote. */
  function AfterFirst(args: seq<string>): string
    requires args != []
  {
    if |args| == 1 then "" else " " + Spaced(args[1..])
  }

  lemma SpacedOpens(args: seq<string>)
    requires args != []
    ensures Spaced(args) == "\"" + (EscapeQuotes(args[0]) + ("\"" + AfterFirst(args)))
  {
    var quotes, rest := EscapeQuotes(args[0]), AfterFirst(args);
    Assoc("\"" + quotes, "\"", rest);
    Assoc("\"", quotes, "\"" + rest);
    EmptyConcat("\"");
  }

  lemma OpenQuote(s: string)
    ensures ArgsOf("\"" + s) == Fields(s, "", true, true)
  {
    assert ("\"" + s)[1..] == s;
  }

  lemma FieldEnds(args: seq<string>, cur: string)
    requires args != []
    ensures Fields(AfterFirst(args), cur, false, true) == [cur] + ArgsOf(Spaced(args[1..]))
  {
    if |args| == 1 {
      assert args[1..] == [];
      EmptyConcat([cur]);
    } else {
      assert AfterFirst(args)[1..] == Spaced(args[1..]);
    }
  }

  /** Reading the first printed argument: it comes back, and the others follow. */
  lemma FirstArg(args: seq<string>)
    requires args != [] && !EndsInBackslash(args[0])
    ensures ArgsOf(Spaced(args)) == [args[0]] + ArgsOf(Spaced(args[1..]))
  {
    var rest := AfterFirst(args);
    SpacedOpens(args);
    OpenQuote(EscapeQuotes(args[0]) + ("\"" + rest));
    QuotedScan(args[0], rest, "");
    EmptyConcat(args[0]);
    FieldEnds(args, args[0]);
  }

  /** An argument that ends in a backslash comes back with a quote in its place. */
  lemma FirstArgBroken(args: seq<string>)
    requires args != [] && EndsInBackslash(args[0])
    ensures ArgsOf(Spaced(args)) != [] && ArgsOf(Spaced(args))[0] != args[0]
  {
    var a, rest := args[0], AfterFirst(args);
    var w := a[..|a| - 1];
    assert a == w + "\\";
    SpacedOpens(args);
    OpenQuote(EscapeQuotes(a) + ("\"" + rest));
    BackslashScan(w, rest, "");
    FieldGrows(rest, "" + w + "\"", true);
    assert ("" + w + "\"")[|w|] == '"' && a[|w|] == '\\';
  }

  /** Printing then reading an argument list is the identity exactly when no argument ends in a
      backslash. */
  lemma {:induction false} ArgsRoundTrip(args: seq<string>)
    ensures ArgsOf(Spaced(args)) == args <==> forall i :: 0 <= i < |args| ==> !EndsInBackslash(args[i])
    decreases |args|
  {
    if args == [] {
    } else if EndsInBackslash(args[0]) {
      FirstArgBroken(args);
    } else {
      FirstArg(args);
      ArgsRoundTrip(args[1..]);
      assert args == [args[0]] + args[1..];
      assert forall i :: 0 <= i < |args| - 1 ==> args[1..][i] == args[i + 1];
    }
  }

  lemma {:induction false} EscapedHasNoSpace(s: string)
    ensures forall i :: 0 <= i < |CmdEscape(s)| ==> CmdEscape(s)[i] != ' '
    ensures s != "" ==> CmdEscape(s) != "" && (!IsSpace(s[0]) ==> CmdEscape(s)[0] == s[0])
    decreases |s|
  {
    if s != "" {
      EscapedHasNoSpace(s[1..]);
    }
  }

  lemma SpacedEnds(args: seq<string>)
    requires args != []
    ensures Spaced(args) != "" && Trimmed(Spaced(args))
    decreases |args|
  {
    if |args| > 1 {
      SpacedEnds(args[1..]);
    }
  }

  /** A path without spaces, then arguments, split where they were put together. */
  lemma CommandSplits(bin: string, args: string)
    requires bin != "" && !IsSpace(bin[0]) && forall i :: 0 <= i < |bin| ==> bin[i] != ' '
    requires args != "" && Trimmed(args)
    ensures SplitExecStart(EXEC + (bin + " " + args)) == Command(bin, args)
  {
    var cmd := bin + " " + args;
    SplitConcat(EXEC, cmd);
    TrimTrimmed(cmd);
    FindIs(cmd, ' ', |bin|);
    assert cmd[..|bin|] == bin && cmd[|bin| + 1..] == args;
    TrimTrimmed(args);
  }

  lemma PathSplits(bin: string)
    requires Trimmed(bin) && forall i :: 0 <= i < |bin| ==> bin[i] != ' '
    ensures SplitExecStart(EXEC + bin) == Command(bin, "")
  {
    SplitConcat(EXEC, bin);
    TrimTrimmed(bin);
    FindIs(bin, ' ', |bin|);
  }

  /** The printed line splits back into its path and its arguments. */
  lemma ExecLineSplits(path: string, args: seq<string>)
    requires path != "" && Trimmed(CmdEscape(path))
    ensures SplitExecStart(ExecLine(path, args)) == Command(CmdEscape(path), Spaced(args))
  {
    var bin := CmdEscape(path);
    EscapedHasNoSpace(path);
    if args == [] {
      EmptyConcat(EXEC + bin);
      PathSplits(bin);
    } else {
      SpacedEnds(args);
      Assoc(EXEC, bin, " " + Spaced(args));
      Assoc(bin, " ", Spaced(args));
      EscapedIsNotEmpty(path);
      CommandSplits(bin, Spaced(args));
    }
  }

  lemma EscapedIsNotEmpty(s: string)
    requires s != ""
    ensures CmdEscape(s) != ""
  {
  }

  /** The arguments of a printed line are the ones it was printed from exactly when none of them
      ends in a backslash. */
  lemma LineRoundTrip(path: string, args: seq<string>)
    requires path != "" && Trimmed(CmdEscape(path))
    ensures LineArgs(ExecLine(path, args)) == args <==> forall i :: 0 <= i < |args| ==> !EndsInBackslash(args[i])
  {
    ExecLineSplits(path, args);
    ArgsRoundTrip(args);
  }

  /** The configuration path install wrote is the one read back from the unit. */
  lemma ConfigPathRoundTrip(path: string, before: seq<string>, config: string, after: seq<string>)
    requires path != "" && Trimmed(CmdEscape(path))
    requires forall i :: 0 <= i < |before| ==> before[i] != CONFIG_FLAG && !(CONFIG_FLAG + "=" <= before[i])
    requires var args := before + [CONFIG_FLAG, config] + after;
             forall i :: 0 <= i < |args| ==> !EndsInBackslash(args[i])
    ensures ConfigPath(LineArgs(ExecLine(path, before + [CONFIG_FLAG, config] + after))) == config
  {
    LineRoundTrip(path, before + [CONFIG_FLAG, config] + after);
    FirstConfigPath(before, config, after);
  }

  lemma {:induction false} FirstConfigPath(before: seq<string>, config: string, after: seq<string>)
    requires forall i :: 0 <= i < |before| ==> before[i] != CONFIG_FLAG && !(CONFIG_FLAG + "=" <= before[i])
    ensures ConfigPath(before + [CONFIG_FLAG, config] + after) == config
    decreases |before|
  {
    var args := before + [CONFIG_FLAG, config] + after;
    if before == [] {
      assert args[0] == CONFIG_FLAG && args[1] == config;
    } else {
      assert args[1..] == before[1..] + [CONFIG_FLAG, config] + after;
      FirstConfigPath(before[1..], config, after);
    }
  }

  // Escaped paths.

  predicate HasEscape(s: string) {
    |s| >= 4 && (ESCAPED_SPACE <= s || HasEscape(s[1..]))
  }

  /** Escaping neither makes nor breaks a prefix without spaces and backslashes. */
  lemma {:induction false} EscapeKeepsPrefix(p: string, s: string)
    requires forall i :: 0 <= i < |p| ==> p[i] != ' ' && p[i] != '\\'
    ensures p <= CmdEscape(s) <==> p <= s
    ensures p <= s ==> CmdEscape(s)[|p|..] == CmdEscape(s[|p|..])
    decreases |p|
  {
    if p != "" && s != "" && p[0] == s[0] {
      var t := CmdEscape(s[1..]);
      EscapeKeepsPrefix(p[1..], s[1..]);
      assert CmdEscape(s) == [s[0]] + t;
      assert p <= CmdEscape(s) <==> p[1..] <= t by {
        PrefixTail(p, CmdEscape(s));
      }
      PrefixTail(p, s);
    }
  }

  lemma PrefixTail(p: string, s: string)
    requires p != "" && s != "" && p[0] == s[0]
    ensures p <= s <==> p[1..] <= s[1..]
  {
    assert p == [p[0]] + p[1..] && s == [s[0]] + s[1..];
  }

  lemma EscapeKeepsStart(s: string)
    requires s != "" && s[0] != ' '
    ensures ESCAPED_SPACE <= CmdEscape(s) <==> ESCAPED_SPACE <= s
    ensures ESCAPED_SPACE <= s ==> CmdEscape(s)[4..] == CmdEscape(s[4..])
  {
    assert CmdEscape(s)[1..] == CmdEscape(s[1..]);
    EscapeKeepsPrefix("x20", s[1..]);
    assert ESCAPED_SPACE[1..] == "x20";
    if s[0] == '\\' {
      PrefixTail(ESCAPED_SPACE, CmdEscape(s));
      PrefixTail(ESCAPED_SPACE, s);
    }
  }

  /** Unescaping inverts escaping exactly on the paths without a literal `\x20`. */
  lemma {:induction false} UnescapeRoundTrip(s: string)
    ensures Unescape(CmdEscape(s)) == s <==> !HasEscape(s)
    decreases |s|
  {
    if s != "" {
      var e := CmdEscape(s);
      UnescapeRoundTrip(s[1..]);
      assert s == [s[0]] + s[1..];
      if s[0] == ' ' {
        assert e[4..] == CmdEscape(s[1..]);
        assert !(ESCAPED_SPACE <= s);
      } else {
        EscapeKeepsStart(s);
        if ESCAPED_SPACE <= s {
          assert Unescape(e)[0] == ' ';
        } else {
          assert e[1..] == CmdEscape(s[1..]);
        }
      }
    }
  }

  /** Text without the escape stays; each escape in it becomes a space. */
  lemma {:induction false} UnescapeIs(a: string, b: string)
    requires !HasEscape(a + "\\x2") && !HasEscape(a)
    ensures Unescape(a) == a
    ensures Unescape(a + (ESCAPED_SPACE + b)) == a + (" " + Unescape(b))
    decreases |a|
  {
    var s := a + (ESCAPED_SPACE + b);
    if a == "" {
      EmptyConcat(ESCAPED_SPACE + b);
      SplitConcat(ESCAPED_SPACE, b);
    } else {
      TailOfConcat(a, ESCAPED_SPACE + b);
      TailOfConcat(a, "\\x2");
      assert !(ESCAPED_SPACE <= s);
      UnescapeIs(a[1..], b);
      assert a == [a[0]] + a[1..];
      Assoc([a[0]], a[1..], " " + Unescape(b));
    }
  }
}
