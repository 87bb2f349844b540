/** ExecStart lines an operator writes: words of plain and quoted pieces, separated by spaces. */
module HandWritten {
  import opened Seqs
  import opened Text
  import opened CommandLine

  /** Part of a word: text as it is, or text between quotes, where each '"' is written '\"'. */
  datatype Piece = Plain(text: string) | Quoted(text: string)

  predicate ValidPiece(p: Piece) {
    match p
    case Plain(text) => text != "" && forall i :: 0 <= i < |text| ==> text[i] != ' ' && text[i] != '"'
    case Quoted(text) => text == "" || text[|text| - 1] != '\\'
  }

  /** At least one piece; `""` is a word too, the empty one. */
  predicate ValidWord(w: seq<Piece>) {
    w != [] && forall i :: 0 <= i < |w| ==> ValidPiece(w[i])
  }

  function PieceText(p: Piece): string {
    if p.Plain? then p.text else "\"" + EscapeQuotes(p.text) + "\""
  }

  /** The word as written, and the argument it stands for. */
  function WordText(w: seq<Piece>): string {
    if w == [] then "" else PieceText(w[0]) + WordText(w[1..])
  }

  function WordValue(w: seq<Piece>): string {
    if w == [] then "" else w[0].text + WordValue(w[1..])
  }

  predicate AllBlank(gap: string) {
    forall i :: 0 <= i < |gap| ==> gap[i] == ' '
  }

  /** Words, each followed by a gap. */
  datatype Spacing = Spacing(word: seq<Piece>, gap: string)

  function LineText(words: seq<Spacing>): string {
    if words == [] then "" else WordText(words[0].word) + (words[0].gap + LineText(words[1..]))
  }

  function Values(words: seq<Spacing>): seq<string> {
    if words == [] then [] else [WordValue(words[0].word)] + Values(words[1..])
  }

  /** One or more spaces between words, none needed after the last. */
  ghost predicate ValidLine(words: seq<Spacing>) {
    forall i :: 0 <= i < |words| ==>
      ValidWord(words[i].word) && AllBlank(words[i].gap) && (i < |words| - 1 ==> words[i].gap != "")
  }

  lemma {:induction false} PlainScan(text: string, rest: string, cur: string, started: bool)
    requires forall i :: 0 <= i < |text| ==> text[i] != ' ' && text[i] != '"'
    ensures Fields(text + rest, cur, false, started) == Fields(rest, cur + text, false, started || text != "")
    decreases |text|
  {
    if text == "" {
      EmptyConcat(rest);
      EmptyConcat(cur);
    } else {
      TailOfConcat(text, rest);
      PlainScan(text[1..], rest, cur + [text[0]], true);
      Assoc(cur, [text[0]], text[1..]);
      assert text == [text[0]] + text[1..];
    }
  }

  lemma PieceScan(p: Piece, rest: string, cur: string, started: bool)
    requires ValidPiece(p)
    ensures Fields(PieceText(p) + rest, cur, false, started) == Fields(rest, cur + p.text, false, true)
  {
    match p
    case Plain(text) => PlainScan(text, rest, cur, started);
    case Quoted(text) =>
      var inner := EscapeQuotes(text) + ("\"" + rest);
      Assoc("\"" + EscapeQuotes(text), "\"", rest);
      Assoc("\"", EscapeQuotes(text), "\"" + rest);
      SplitConcat("\"", inner);
      QuotedScan(text, rest, cur);
  }

  lemma {:induction false} WordScan(w: seq<Piece>, rest: string, cur: string, started: bool)
    requires forall i :: 0 <= i < |w| ==> ValidPiece(w[i])
    ensures Fields(WordText(w) + rest, cur, false, started) == Fields(rest, cur + WordValue(w), false, started || w != [])
    decreases |w|
  {
    if w == [] {
      EmptyConcat(rest);
      EmptyConcat(cur);
    } else {
      hide Fields, PieceText;
      Assoc(PieceText(w[0]), WordText(w[1..]), rest);
      PieceScan(w[0], WordText(w[1..]) + rest, cur, started);
      WordScan(w[1..], rest, cur + w[0].text, true);
      Assoc(cur, w[0].text, WordValue(w[1..]));
    }
  }

  lemma {:induction false} GapScan(gap: string, rest: string)
    requires AllBlank(gap)
    ensures ArgsOf(gap + rest) == ArgsOf(rest)
    decreases |gap|
  {
    if gap == "" {
      EmptyConcat(rest);
    } else {
      TailOfConcat(gap, rest);
      GapScan(gap[1..], rest);
    }
  }

  lemma GapEnds(gap: string, rest: string, cur: string)
    requires AllBlank(gap) && (gap != "" || rest == "")
    ensures Fields(gap + rest, cur, false, true) == [cur] + ArgsOf(rest)
  {
    if gap == "" {
      EmptyConcat(rest);
      EmptyConcat([cur]);
    } else {
      TailOfConcat(gap, rest);
      GapScan(gap[1..], rest);
    }
  }

  lemma {:induction false} WordsRead(words: seq<Spacing>)
    requires ValidLine(words)
    ensures ArgsOf(LineText(words)) == Values(words)
    decreases |words|
  {
    if words != [] {
      hide Fields;
      var w, rest := words[0], LineText(words[1..]);
      WordsRead(words[1..]);
      WordScan(w.word, w.gap + rest, "", false);
      EmptyConcat(WordValue(w.word));
      assert |words| == 1 ==> words[1..] == [];
      GapEnds(w.gap, rest, WordValue(w.word));
    }
  }

  /** Any words, plain, quoted or mixed, separated by any number of spaces, with spaces before and
      after them, are read as exactly those words. */
  lemma ArgumentsRead(lead: string, words: seq<Spacing>)
    requires AllBlank(lead) && ValidLine(words)
    ensures ArgsOf(lead + LineText(words)) == Values(words)
  {
    GapScan(lead, LineText(words));
    WordsRead(words);
  }

  /** A quote that is never closed takes the rest of the line, spaces and all. */
  lemma {:induction false} OpenScan(text: string, cur: string)
    ensures Fields(EscapeQuotes(text), cur, true, true) == [cur + text]
    decreases |text|
  {
    var s := EscapeQuotes(text);
    if text == "" {
      EmptyConcat(cur);
    } else {
      OpenScan(text[1..], cur + [text[0]]);
      Assoc(cur, [text[0]], text[1..]);
      assert text == [text[0]] + text[1..];
      if text[0] == '"' {
        SplitConcat("\\\"", EscapeQuotes(text[1..]));
      } else {
        SplitConcat([text[0]], EscapeQuotes(text[1..]));
        if text[0] == '\\' && text[1..] != "" {
          EscapedHead(text[1..]);
        }
      }
    }
  }

  lemma {:induction false} UnclosedRead(words: seq<Spacing>, text: string)
    requires ValidLine(words) && (words != [] ==> words[|words| - 1].gap != "")
    ensures ArgsOf(LineText(words) + ("\"" + EscapeQuotes(text))) == Values(words) + [text]
    decreases |words|
  {
    var last := "\"" + EscapeQuotes(text);
    if words == [] {
      EmptyConcat(last);
      SplitConcat("\"", EscapeQuotes(text));
      OpenScan(text, "");
      EmptyConcat(text);
    } else {
      hide Fields;
      var w, rest := words[0], LineText(words[1..]);
      UnclosedRead(words[1..], text);
      Assoc(WordText(w.word), w.gap + rest, last);
      Assoc(w.gap, rest, last);
      WordScan(w.word, w.gap + (rest + last), "", false);
      EmptyConcat(WordValue(w.word));
      GapEnds(w.gap, rest + last, WordValue(w.word));
      Assoc([WordValue(w.word)], Values(words[1..]), [text]);
    }
  }

  // The configuration path.

  /** The field is the flag in either spelling. */
  predicate IsConfigFlag(field: string) {
    field == "--config-path" || "--config-path=" <= field
  }

  /** The first field that is the flag decides: the field after it, or what follows the '='. A flag
      that is the last field, with no value, and no flag at all, give "". */
  lemma {:induction false} ConfigPathIs(before: seq<string>, field: string, after: seq<string>)
    requires forall i :: 0 <= i < |before| ==> !IsConfigFlag(before[i])
    requires IsConfigFlag(field)
    ensures ConfigPath(before) == ""
    ensures ConfigPath(before + [field] + after) ==
            if field == "--config-path" then (if after == [] then "" else after[0]) else field[|"--config-path="|..]
    decreases |before|
  {
    var fields := before + [field] + after;
    assert CONFIG_FLAG + "=" == "--config-path=";
    if before == [] {
      assert fields == [field] + after && fields[1..] == after;
    } else {
      assert before[0] == fields[0] && fields[1..] == before[1..] + [field] + after;
      ConfigPathIs(before[1..], field, after);
    }
  }

  lemma BlankIsSpace(gap: string)
    requires AllBlank(gap)
    ensures AllSpace(gap)
  {
  }

  lemma CommandSplitsAfter(bin: string, gap: string, args: string)
    requires bin != "" && !IsSpace(bin[0]) && forall i :: 0 <= i < |bin| ==> bin[i] != ' '
    requires AllBlank(gap) && args != "" && Trimmed(args)
    ensures SplitExecStart("ExecStart=" + (bin + " " + (gap + args))) == Command(bin, args)
  {
    var cmd := bin + " " + (gap + args);
    SplitConcat(EXEC, cmd);
    TrimTrimmed(cmd);
    FindIs(cmd, ' ', |bin|);
    assert cmd[..|bin|] == bin && cmd[|bin| + 1..] == gap + args;
    BlankIsSpace(gap);
    TrimSpaces(gap, args);
    TrimTrimmed(args);
  }

  /** The arguments of a line an operator wrote, a path, spaces and words, are those words. */
  lemma LineRead(bin: string, gap: string, words: seq<Spacing>)
    requires bin != "" && !IsSpace(bin[0]) && forall i :: 0 <= i < |bin| ==> bin[i] != ' '
    requires AllBlank(gap) && ValidLine(words) && LineText(words) != "" && Trimmed(LineText(words))
    ensures SplitExecStart("ExecStart=" + (bin + " " + (gap + LineText(words)))).path == bin
    ensures LineArgs("ExecStart=" + (bin + " " + (gap + LineText(words)))) == Values(words)
  {
    CommandSplitsAfter(bin, gap, LineText(words));
    WordsRead(words);
  }
}
