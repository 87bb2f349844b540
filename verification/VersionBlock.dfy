/**
 VS_VERSIONINFO-style blocks: a 16-bit length, value length and type, a NUL-terminated UTF-16
 key, a value and child blocks, each aligned on 32 bits from the start of the block.

 `Parse` follows the Go reader and `ParseNode` is that reader with its cursors; `Conforms`
 states the format as a grammar with explicit positions.
 */
module VersionBlock {
  import opened Results
  import opened Bytes
  import opened Seqs
  import Utf16

  const HEADER := 6

  datatype Node = Node(key: string, value: seq<byte>, children: seq<Node>)

  datatype BlockError = Truncated | BadLength | KeyNotTerminated | ValueOutOfBounds

  datatype Parsed = Parsed(node: Node, used: nat)

  datatype Key = Key(units: seq<u16>, end: nat)

  /** A block cut to its own length, without its children; `body` is where they start. */
  datatype Frame = Frame(block: seq<byte>, key: string, value: seq<byte>, body: nat)

  function Align4(n: nat): (r: nat)
    ensures r % 4 == 0 && n <= r < n + 4
  {
    n + 3 - (n + 3) % 4
  }

  /** The units from `pos` up to the first zero one, and the position after it. */
  function ScanKey(b: seq<byte>, pos: nat): (k: Option<Key>)
    ensures k.Some? ==> k.value.end == pos + 2 * |k.value.units| + 2 <= |b|
    decreases |b| - pos
  {
    if pos + 2 > |b| then None
    else if U16At(b, pos) == 0 then Some(Key([], pos + 2))
    else
      match ScanKey(b, pos + 2)
      case None => None
      case Some(k) => Some(Key([U16At(b, pos)] + k.units, k.end))
  }

  /** The value length in bytes: a text block (type 1) counts 16-bit words. */
  function ValueLength(b: seq<byte>): nat
    requires HEADER <= |b|
  {
    if U16At(b, 4) == 1 then 2 * U16At(b, 2) as nat else U16At(b, 2)
  }

  function ScanFrame(b: seq<byte>): (r: Result<Frame, BlockError>)
    ensures r.Ok? ==> HEADER <= |r.value.block| <= |b| && 0 < r.value.body
  {
    if |b| < HEADER then Err(Truncated)
    else if U16At(b, 0) < HEADER || U16At(b, 0) > |b| then Err(BadLength)
    else ScanBlock(b[..U16At(b, 0)], ValueLength(b))
  }

  function ScanBlock(block: seq<byte>, valueLen: nat): (r: Result<Frame, BlockError>)
    ensures r.Ok? ==> r.value.block == block && 0 < r.value.body
  {
    match ScanKey(block, HEADER)
    case None => Err(KeyNotTerminated)
    case Some(k) =>
      var key, at := Utf16.Decode(k.units), Align4(k.end);
      if valueLen == 0 then Ok(Frame(block, key, [], at))
      else if at + valueLen > |block| then Err(ValueOutOfBounds)
      else Ok(Frame(block, key, block[at..at + valueLen], Align4(at + valueLen)))
  }

  function Parse(b: seq<byte>): (r: Result<Parsed, BlockError>)
    ensures r.Ok? ==> HEADER <= r.value.used <= |b|
    decreases |b|, 1, 0
  {
    match ScanFrame(b)
    case Err(e) => Err(e)
    case Ok(f) =>
      match ParseChildren(f.block, f.body)
      case Err(e) => Err(e)
      case Ok(children) => Ok(Parsed(Node(f.key, f.value, children), |f.block|))
  }

  /** The blocks from `pos` to the end of `b`, each starting on the alignment after the last. */
  function ParseChildren(b: seq<byte>, pos: nat): (r: Result<seq<Node>, BlockError>)
    requires 0 < pos
    decreases |b|, 0, |b| - pos
  {
    if pos >= |b| then Ok([])
    else
      match Parse(b[pos..])
      case Err(e) => Err(e)
      case Ok(p) =>
        match ParseChildren(b, Align4(pos + p.used))
        case Err(e) => Err(e)
        case Ok(rest) => Ok([p.node] + rest)
  }

  // The reader, with its cursors.

  method ReadFrame(b: seq<byte>) returns (r: Result<Frame, BlockError>)
    ensures r == ScanFrame(b)
  {
    hide U16At, Align4;
    if |b| < HEADER {
      return Err(Truncated);
    }
    var length: int := U16At(b, 0);
    var valueLen := ValueLength(b);
    if length < HEADER || length > |b| {
      return Err(BadLength);
    }
    var block := b[..length];
    var pos := HEADER;
    var key: seq<u16> := [];
    ghost var scanned := ScanKey(block, HEADER);
    assert scanned.Some? ==> key + scanned.value.units == scanned.value.units;
    while true
      invariant HEADER <= pos
      invariant scanned == match ScanKey(block, pos)
                           case None => None
                           case Some(later) => Some(Key(key + later.units, later.end))
      decreases |block| - pos
    {
      if pos + 2 > |block| {
        return Err(KeyNotTerminated);
      }
      var c := U16At(block, pos);
      pos := pos + 2;
      if c == 0 {
        break;
      }
      ghost var later := ScanKey(block, pos);
      assert later.Some? ==> key + ([c] + later.value.units) == key + [c] + later.value.units;
      key := key + [c];
    }
    assert key + [] == key;
    assert scanned == Some(Key(key, pos));
    pos := Align4(pos);
    var value := [];
    if valueLen > 0 {
      if pos + valueLen > |block| {
        return Err(ValueOutOfBounds);
      }
      value := block[pos..pos + valueLen];
      pos := Align4(pos + valueLen);
    }
    r := Ok(Frame(block, Utf16.Decode(key), value, pos));
  }

  /** The children read so far, followed by what the rest of the block gives. */
  ghost function After(done: seq<Node>, later: Result<seq<Node>, BlockError>): Result<seq<Node>, BlockError> {
    if later.Ok? then Ok(done + later.value) else later
  }

  lemma AfterNone(later: Result<seq<Node>, BlockError>)
    ensures After([], later) == later
  {
    if later.Ok? {
      EmptyConcat(later.value);
    }
  }

  lemma AfterOne(done: seq<Node>, b: seq<byte>, pos: nat)
    requires 0 < pos < |b|
    ensures match Parse(b[pos..])
            case Err(e) => After(done, ParseChildren(b, pos)) == Err(e)
            case Ok(p) => After(done, ParseChildren(b, pos))
                          == After(done + [p.node], ParseChildren(b, Align4(pos + p.used)))
  {
    if Parse(b[pos..]).Ok? {
      var p := Parse(b[pos..]).value;
      var later := ParseChildren(b, Align4(pos + p.used));
      if later.Ok? {
        Assoc(done, [p.node], later.value);
      }
    }
  }

  method ReadChildren(block: seq<byte>, from: nat) returns (r: Result<seq<Node>, BlockError>)
    requires 0 < from
    ensures r == ParseChildren(block, from)
    decreases |block|, 0
  {
    hide ScanFrame;
    var pos := from;
    var children: seq<Node> := [];
    ghost var all := ParseChildren(block, from);
    assert all == After(children, all) by {
      AfterNone(all);
    }
    while pos < |block|
      invariant 0 < pos
      invariant all == After(children, ParseChildren(block, pos))
      decreases |block| - pos
    {
      var child := ParseNode(block[pos..]);
      AfterOne(children, block, pos);
      if child.Err? {
        return Err(child.error);
      }
      children := children + [child.value.node];
      pos := Align4(pos + child.value.used);
    }
    EmptyConcat(children);
    r := Ok(children);
  }

  method ParseNode(b: seq<byte>) returns (r: Result<Parsed, BlockError>)
    ensures r == Parse(b)
    decreases |b|, 1
  {
    var frame := ReadFrame(b);
    if frame.Err? {
      return Err(frame.error);
    }
    var children := ReadChildren(frame.value.block, frame.value.body);
    if children.Err? {
      return Err(children.error);
    }
    r := Ok(Parsed(Node(frame.value.key, frame.value.value, children.value), |frame.value.block|));
  }

  // The format as a grammar.

  /** The `k` little-endian words of `b` from `pos`. */
  function Units(b: seq<byte>, pos: nat, k: nat): (units: seq<u16>)
    requires pos + 2 * k <= |b|
    ensures |units| == k
    decreases k
  {
    if k == 0 then [] else [U16At(b, pos)] + Units(b, pos + 2, k - 1)
  }

  /** The value of `f` lies at `at`, and its body on the next aligned position. */
  ghost predicate PlacedAt(f: Frame, at: nat) {
    && f.body == Align4(at + |f.value|)
    && (f.value != [] ==> at + |f.value| <= |f.block| && f.value == f.block[at..at + |f.value|])
  }

  /** The key of `f` is the `k` non-zero units after the header, its value follows on the next
      aligned position, and its body on the one after that. */
  ghost predicate HoldsWithKey(f: Frame, k: nat) {
    && HEADER + 2 * k + 2 <= |f.block|
    && 0 !in Units(f.block, HEADER, k)
    && U16At(f.block, HEADER + 2 * k) == 0
    && f.key == Utf16.Decode(Units(f.block, HEADER, k))
    && PlacedAt(f, Align4(HEADER + 2 * k + 2))
  }

  /** `b` starts with the block `f`. */
  ghost predicate Frames(b: seq<byte>, f: Frame) {
    && HEADER <= |f.block| <= |b|
    && f.block == b[..|f.block|]
    && |f.block| == U16At(b, 0)
    && |f.value| == ValueLength(b)
    && exists k :: HoldsWithKey(f, k)
  }

  /** Where a block, its body and its children sit; `at` counts from the start of the parent. */
  datatype Layout = Layout(at: nat, size: nat, body: nat, kids: seq<Layout>)

  /** `b` starts with a block of `l.size` bytes that holds `n`. */
  ghost predicate Conforms(b: seq<byte>, n: Node, l: Layout)
    decreases l
  {
    && l.size <= |b| && 0 < l.body
    && Frames(b, Frame(b[..l.size], n.key, n.value, l.body))
    && KidsConform(b[..l.size], l.body, n.children, l.kids)
  }

  /** From `pos`, the blocks `ns` fill `b` to its end: each inside it, each starting on the
      first aligned position after the one before. */
  ghost predicate KidsConform(b: seq<byte>, pos: nat, ns: seq<Node>, ls: seq<Layout>)
    decreases ls
  {
    && |ns| == |ls|
    && if |ns| == 0 then pos >= |b| else
         && ls[0].at == pos < pos + ls[0].size <= |b|
         && Conforms(b[pos..], ns[0], ls[0])
         && KidsConform(b, Align4(pos + ls[0].size), ns[1..], ls[1..])
  }

  lemma NodeConforms(b: seq<byte>, n: Node, l: Layout, own: seq<byte>)
    requires l.size <= |b| && own == b[..l.size] && 0 < l.body
    requires Frames(b, Frame(own, n.key, n.value, l.body))
    requires KidsConform(own, l.body, n.children, l.kids)
    ensures Conforms(b, n, l)
  {
  }

  lemma KidsCons(b: seq<byte>, ns: seq<Node>, ls: seq<Layout>, n: Node, later: seq<Node>, l: Layout, laterAt: seq<Layout>)
    requires ns == [n] + later && ls == [l] + laterAt
    requires 0 < l.size && l.at + l.size <= |b| && Conforms(b[l.at..], n, l)
    requires KidsConform(b, Align4(l.at + l.size), later, laterAt)
    ensures KidsConform(b, l.at, ns, ls)
  {
    hide Frames;
    assert ns[1..] == later && ls[1..] == laterAt;
  }

  lemma {:induction false} ScanKeySound(b: seq<byte>, pos: nat)
    requires ScanKey(b, pos).Some?
    ensures var k := ScanKey(b, pos).value;
            && U16At(b, k.end - 2) == 0 && 0 !in k.units
            && k.units == Units(b, pos, |k.units|)
    decreases |b| - pos
  {
    if U16At(b, pos) != 0 {
      ScanKeySound(b, pos + 2);
    }
  }

  lemma {:induction false} ScanKeyComplete(b: seq<byte>, pos: nat, k: nat)
    requires pos + 2 * k + 2 <= |b|
    requires 0 !in Units(b, pos, k)
    requires U16At(b, pos + 2 * k) == 0
    ensures ScanKey(b, pos) == Some(Key(Units(b, pos, k), pos + 2 * k + 2))
    decreases k
  {
    if k > 0 {
      assert U16At(b, pos) == Units(b, pos, k)[0];
      assert Units(b, pos + 2, k - 1) == Units(b, pos, k)[1..];
      ScanKeyComplete(b, pos + 2, k - 1);
    }
  }

  lemma FrameSound(b: seq<byte>, f: Frame)
    requires ScanFrame(b) == Ok(f)
    ensures Frames(b, f)
  {
    BlockSound(f);
  }

  /** Once the key is read, what a block holds is settled. */
  lemma BlockScanned(f: Frame, k: Key)
    requires ScanKey(f.block, HEADER) == Some(k)
    ensures ScanBlock(f.block, |f.value|) == Ok(f) <==> f.key == Utf16.Decode(k.units) && PlacedAt(f, Align4(k.end))
  {
    hide Align4, ScanKey, Utf16.Decode;
    AlignTwice(k.end);
  }

  lemma AlignTwice(n: nat)
    ensures Align4(Align4(n)) == Align4(n)
  {
  }

  lemma BlockSound(f: Frame)
    requires ScanBlock(f.block, |f.value|) == Ok(f)
    ensures exists k :: HoldsWithKey(f, k)
  {
    var key := ScanKey(f.block, HEADER).value;
    ScanKeySound(f.block, HEADER);
    BlockScanned(f, key);
    assert HoldsWithKey(f, |key.units|);
  }

  lemma FrameComplete(b: seq<byte>, f: Frame)
    requires Frames(b, f)
    ensures ScanFrame(b) == Ok(f)
  {
    var k :| HoldsWithKey(f, k);
    BlockComplete(f, k);
  }

  lemma KeyScanned(f: Frame, k: nat)
    requires HoldsWithKey(f, k)
    ensures ScanKey(f.block, HEADER) == Some(Key(Units(f.block, HEADER, k), HEADER + 2 * k + 2))
  {
    ScanKeyComplete(f.block, HEADER, k);
  }

  lemma BlockComplete(f: Frame, k: nat)
    requires HoldsWithKey(f, k)
    ensures ScanBlock(f.block, |f.value|) == Ok(f)
  {
    KeyScanned(f, k);
    BlockScanned(f, Key(Units(f.block, HEADER, k), HEADER + 2 * k + 2));
  }

  /** What the reader accepts is in the format. */
  lemma {:induction false} ParseSound(b: seq<byte>, at: nat) returns (l: Layout)
    requires Parse(b).Ok?
    ensures l.at == at && l.size == Parse(b).value.used
    ensures Conforms(b, Parse(b).value.node, l)
    decreases |b|, 1, 0
  {
    var f := ScanFrame(b).value;
    FrameSound(b, f);
    var kids := ChildrenSound(f.block, f.body);
    l := Layout(at, |f.block|, f.body, kids);
    assert f.block == b[..l.size];
  }

  lemma {:induction false} ChildrenSound(b: seq<byte>, pos: nat) returns (ls: seq<Layout>)
    requires 0 < pos && ParseChildren(b, pos).Ok?
    ensures KidsConform(b, pos, ParseChildren(b, pos).value, ls)
    decreases |b|, 0, |b| - pos
  {
    hide Frames, ScanFrame;
    if pos >= |b| {
      ls := [];
    } else {
      var l := ParseSound(b[pos..], pos);
      var next := Align4(pos + l.size);
      var rest := ChildrenSound(b, next);
      ls := [l] + rest;
      KidsCons(b, ParseChildren(b, pos).value, ls, Parse(b[pos..]).value.node, ParseChildren(b, next).value, l, rest);
    }
  }

  /** What is in the format is accepted, with exactly the content the grammar gives it. */
  lemma {:induction false} ParseComplete(b: seq<byte>, n: Node, l: Layout)
    requires Conforms(b, n, l)
    ensures Parse(b) == Ok(Parsed(n, l.size))
    decreases l
  {
    FrameComplete(b, Frame(b[..l.size], n.key, n.value, l.body));
    ChildrenComplete(b[..l.size], l.body, n.children, l.kids);
  }

  lemma {:induction false} ChildrenComplete(b: seq<byte>, pos: nat, ns: seq<Node>, ls: seq<Layout>)
    requires 0 < pos && KidsConform(b, pos, ns, ls)
    ensures ParseChildren(b, pos) == Ok(ns)
    decreases ls
  {
    hide Frames, ScanFrame;
    if |ns| > 0 {
      ParseComplete(b[pos..], ns[0], ls[0]);
      ChildrenComplete(b, Align4(pos + ls[0].size), ns[1..], ls[1..]);
      assert ns == [ns[0]] + ns[1..];
    }
  }

  /** The reader accepts exactly the format, and reads exactly what the format says is there. */
  lemma ParseIffConforms(b: seq<byte>, n: Node, used: nat)
    ensures Parse(b) == Ok(Parsed(n, used)) <==> exists l: Layout :: l.size == used && Conforms(b, n, l)
  {
    if Parse(b) == Ok(Parsed(n, used)) {
      var l := ParseSound(b, 0);
    }
    if l: Layout :| l.size == used && Conforms(b, n, l) {
      ParseComplete(b, n, l);
    }
  }

  /** Children of an accepted block start aligned, lie inside it and do not overlap. */
  lemma ChildrenPlaced(b: seq<byte>, n: Node, l: Layout)
    requires Conforms(b, n, l)
    ensures |l.kids| == |n.children|
    ensures forall i :: 0 <= i < |l.kids| ==>
              && l.kids[i].at % 4 == 0
              && HEADER < l.kids[i].at < l.kids[i].at + l.kids[i].size <= l.size
    ensures forall i, j :: 0 <= i < j < |l.kids| ==> l.kids[i].at + l.kids[i].size <= l.kids[j].at
  {
    KidsPlaced(b[..l.size], l.body, n.children, l.kids);
  }

  lemma {:induction false} KidsPlaced(b: seq<byte>, pos: nat, ns: seq<Node>, ls: seq<Layout>)
    requires pos % 4 == 0 && KidsConform(b, pos, ns, ls)
    ensures forall i :: 0 <= i < |ls| ==> ls[i].at % 4 == 0 && pos <= ls[i].at < ls[i].at + ls[i].size <= |b|
    ensures forall i, j :: 0 <= i < j < |ls| ==> ls[i].at + ls[i].size <= ls[j].at
    decreases ls
  {
    if |ls| > 0 {
      var rest := ls[1..];
      KidsPlaced(b, Align4(pos + ls[0].size), ns[1..], rest);
      forall i | 0 < i < |ls|
        ensures ls[i] == rest[i - 1]
      {
      }
    }
  }

  // Which error a malformed block gives.

  /** No zero unit ends the key inside the block. */
  ghost predicate KeyRunsOn(block: seq<byte>, pos: nat) {
    forall p :: pos <= p <= |block| - 2 && p % 2 == pos % 2 ==> U16At(block, p) != 0
  }

  lemma {:induction false} ScanKeyNone(b: seq<byte>, pos: nat)
    ensures ScanKey(b, pos).None? <==> KeyRunsOn(b, pos)
    decreases |b| - pos
  {
    hide U16At;
    if pos + 2 <= |b| {
      ScanKeyNone(b, pos + 2);
      if KeyRunsOn(b, pos) {
        assert U16At(b, pos) != 0;
      }
    }
  }

  /** The four malformed blocks: too short for a header, a length below the header or past the
      input, a key with no end, a value past the block. */
  lemma FrameErrors(b: seq<byte>)
    ensures |b| < 6 ==> Parse(b) == Err(Truncated)
    ensures 6 <= |b| && (U16At(b, 0) < 6 || |b| < U16At(b, 0)) ==> Parse(b) == Err(BadLength)
    ensures 6 <= |b| && 6 <= U16At(b, 0) <= |b| && KeyRunsOn(b[..U16At(b, 0)], 6) ==> Parse(b) == Err(KeyNotTerminated)
  {
    if 6 <= |b| && 6 <= U16At(b, 0) <= |b| {
      ScanKeyNone(b[..U16At(b, 0)], 6);
    }
  }

  /** A key of `k` units, then a value that does not fit in the block. */
  lemma ValueError(b: seq<byte>, k: nat)
    requires 6 <= |b| && 6 <= U16At(b, 0) <= |b| && 6 + 2 * k + 2 <= U16At(b, 0)
    requires 0 !in Units(b[..U16At(b, 0)], 6, k) && U16At(b, 6 + 2 * k) == 0
    requires var words := if U16At(b, 4) == 1 then 2 else 1;
             0 < words * U16At(b, 2) && U16At(b, 0) < Align4(6 + 2 * k + 2) + words * U16At(b, 2)
    ensures Parse(b) == Err(ValueOutOfBounds)
  {
    var block := b[..U16At(b, 0)];
    assert U16At(block, 6 + 2 * k) == U16At(b, 6 + 2 * k);
    ScanKeyComplete(block, 6, k);
  }
}
