/** The writer of version blocks, and the proof that the reader inverts it. */
module VersionEncoding {
  import opened Results
  import opened Bytes
  import opened VersionBlock
  import opened Seqs
  import Utf16

  /** A block to write: a text block counts its value in 16-bit words. */
  datatype Block = Block(key: string, text: bool, value: seq<byte>, children: seq<Block>)

  function NodeOf(b: Block): Node {
    Node(b.key, b.value, NodesOf(b.children))
  }

  function NodesOf(bs: seq<Block>): (ns: seq<Node>)
    ensures |ns| == |bs|
  {
    if bs == [] then [] else [NodeOf(bs[0])] + NodesOf(bs[1..])
  }

  function Padding(n: nat): (b: seq<byte>)
    ensures |b| == Align4(n) - n
  {
    seq(Align4(n) - n, _ => 0)
  }

  function KeyBytes(key: string): seq<byte> {
    Words(Utf16.Encode(key)) + PutU16(0)
  }

  /** Key, padding and value: what follows the header of a block without children. */
  function OwnBytes(b: Block): seq<byte> {
    KeyBytes(b.key) + Padding(HEADER + |KeyBytes(b.key)|) + b.value
  }

  function Header(size: nat, b: Block): (h: seq<byte>)
    ensures |h| == HEADER
  {
    PutU16(size) + PutU16(if b.text then |b.value| / 2 else |b.value|) + PutU16(if b.text then 1 else 0)
  }

  function Encode(b: Block): (bytes: seq<byte>)
    ensures |bytes| >= HEADER + |OwnBytes(b)|
    decreases b
  {
    var body := OwnBytes(b) + EncodeChildren(HEADER + |OwnBytes(b)|, b.children);
    Header(HEADER + |body|, b) + body
  }

  /** The children of a block whose own bytes end at `at`, each after its padding. */
  function EncodeChildren(at: nat, bs: seq<Block>): seq<byte>
    decreases bs
  {
    if bs == [] then []
    else Padding(at) + Encode(bs[0]) + EncodeChildren(Align4(at) + |Encode(bs[0])|, bs[1..])
  }

  /** Keys end at their first NUL, and text values are whole words. */
  predicate WellFormed(b: Block) {
    && '\0' !in b.key
    && (b.text ==> |b.value| % 2 == 0)
    && AllWellFormed(b.children)
  }

  predicate AllWellFormed(bs: seq<Block>) {
    forall c :: c in bs ==> WellFormed(c)
  }

  function LayoutOf(at: nat, b: Block): Layout
    decreases b
  {
    var end := HEADER + |OwnBytes(b)|;
    Layout(at, |Encode(b)|, Align4(end), LayoutsOf(Align4(end), b.children))
  }

  function LayoutsOf(pos: nat, bs: seq<Block>): (ls: seq<Layout>)
    ensures |ls| == |bs|
    decreases bs
  {
    if bs == [] then []
    else [LayoutOf(pos, bs[0])] + LayoutsOf(Align4(pos + |Encode(bs[0])|), bs[1..])
  }

  lemma {:induction false} UnitsOfWords(before: seq<byte>, units: seq<u16>, after: seq<byte>)
    ensures Units(before + Words(units) + after, |before|, |units|) == units
    decreases units
  {
    if units != [] {
      var b, first, words := before + Words(units) + after, PutU16(units[0]), Words(units[1..]);
      Shift(before, first, words, after);
      assert U16At(b, |before|) == units[0] by {
        SplitConcat(before, first + (words + after));
        PutThenReadU16(units[0], words + after);
        ReadShifted(b, |before|, 0);
      }
      UnitsOfWords(before + first, units[1..], after);
    }
  }

  lemma HeaderRead(size: u16, b: Block, rest: seq<byte>)
    requires |b.value| <= size && (b.text ==> |b.value| % 2 == 0)
    ensures U16At(Header(size, b) + rest, 0) == size
    ensures ValueLength(Header(size, b) + rest) == |b.value|
  {
    var count := if b.text then |b.value| / 2 else |b.value|;
    var kind := if b.text then 1 else 0;
    var all := Header(size, b) + rest;
    assert all == PutU16(size) + (PutU16(count) + PutU16(kind) + rest);
    assert all[2..] == PutU16(count) + (PutU16(kind) + rest);
    assert all[4..] == PutU16(kind) + rest;
  }

  lemma KeyHolds(bytes: seq<byte>, h: seq<byte>, key: string, after: seq<byte>)
    requires |h| == HEADER && '\0' !in key
    requires bytes == (h + Words(Utf16.Encode(key))) + (PutU16(0) + after)
    ensures var k := |Utf16.Encode(key)|;
            && HEADER + 2 * k + 2 <= |bytes|
            && 0 !in Units(bytes, HEADER, k)
            && U16At(bytes, HEADER + 2 * k) == 0
            && key == Utf16.Decode(Units(bytes, HEADER, k))
  {
    var units := Utf16.Encode(key);
    assert Units(bytes, HEADER, |units|) == units by {
      UnitsOfWords(h, units, PutU16(0) + after);
    }
    assert U16At(bytes, HEADER + 2 * |units|) == 0 by {
      SplitConcat(h + Words(units), PutU16(0) + after);
      ReadShifted(bytes, HEADER + 2 * |units|, 0);
      PutThenReadU16(0, after);
    }
    Utf16.EncodeHasNoZero(key);
    Utf16.DecodeEncode(key);
  }

  lemma PartsPlaced(f: Frame, h: seq<byte>, w: seq<byte>, z: seq<byte>, pad: seq<byte>, tail: seq<byte>)
    requires f.block == h + (w + z + pad + f.value + tail)
    requires f.body == Align4(|h| + |w| + |z| + |pad| + |f.value|)
    ensures PlacedAt(f, |h| + |w| + |z| + |pad|)
  {
    hide Align4;
    ValuePlaced(h, w, z, pad, f.value, tail);
  }

  /** A key, its terminator, padding and a value laid end to end are where the format puts them. */
  lemma PartsHold(f: Frame, h: seq<byte>, pad: seq<byte>, tail: seq<byte>)
    requires |h| == HEADER && '\0' !in f.key
    requires HEADER + |KeyBytes(f.key)| + |pad| == Align4(HEADER + |KeyBytes(f.key)|)
    requires f.block == h + (KeyBytes(f.key) + pad + f.value + tail)
    requires f.body == Align4(HEADER + |KeyBytes(f.key)| + |pad| + |f.value|)
    ensures HoldsWithKey(f, |Utf16.Encode(f.key)|)
  {
    hide PlacedAt, Align4, Units, U16At;
    var words, zero := Words(Utf16.Encode(f.key)), PutU16(0);
    PartsPlaced(f, h, words, zero, pad, tail);
    assert f.block == (h + words) + (zero + (pad + f.value + tail)) by {
      Regroup(h, words, zero, pad, f.value, tail);
    }
    KeyHolds(f.block, h, f.key, pad + f.value + tail);
  }

  lemma ValuePlaced(h: seq<byte>, w: seq<byte>, z: seq<byte>, pad: seq<byte>, value: seq<byte>, tail: seq<byte>)
    ensures var at := |h| + |w| + |z| + |pad|;
            (h + (w + z + pad + value + tail))[at..at + |value|] == value
  {
    Regroup(h, w, z, pad, value, tail);
    Middle(h + (w + z) + pad, value, tail);
  }

  lemma BlockEncoded(b: Block, f: Frame)
    requires '\0' !in b.key
    requires f == Frame(Encode(b), b.key, b.value, Align4(HEADER + |OwnBytes(b)|))
    ensures HoldsWithKey(f, |Utf16.Encode(b.key)|)
  {
    hide HoldsWithKey;
    var tail := EncodeChildren(HEADER + |OwnBytes(b)|, b.children);
    PartsHold(f, Header(|Encode(b)|, b), Padding(HEADER + |KeyBytes(b.key)|), tail);
  }

  lemma HeaderEncoded(b: Block, rest: seq<byte>)
    requires |Encode(b)| < 0x1_0000 && (b.text ==> |b.value| % 2 == 0)
    ensures U16At(Encode(b) + rest, 0) == |Encode(b)|
    ensures ValueLength(Encode(b) + rest) == |b.value|
  {
    var size, body := |Encode(b)|, OwnBytes(b) + EncodeChildren(HEADER + |OwnBytes(b)|, b.children);
    Assoc(Header(size, b), body, rest);
    HeaderRead(size, b, body + rest);
  }

  lemma FrameEncoded(b: Block, rest: seq<byte>)
    requires WellFormed(b) && |Encode(b)| < 0x1_0000
    ensures Frames(Encode(b) + rest, Frame(Encode(b), b.key, b.value, Align4(HEADER + |OwnBytes(b)|)))
  {
    BlockEncoded(b, Frame(Encode(b), b.key, b.value, Align4(HEADER + |OwnBytes(b)|)));
    HeaderEncoded(b, rest);
    SplitConcat(Encode(b), rest);
  }

  lemma {:induction false} EncodeConforms(bytes: seq<byte>, b: Block, at: nat)
    requires WellFormed(b) && |Encode(b)| < 0x1_0000 && Encode(b) <= bytes
    ensures Conforms(bytes, NodeOf(b), LayoutOf(at, b))
    decreases b, 0
  {
    hide Frames, Header;
    var own, end := Encode(b), HEADER + |OwnBytes(b)|;
    PrefixSplit(own, bytes);
    FrameEncoded(b, bytes[|own|..]);
    assert own[end..] == EncodeChildren(end, b.children) by {
      DropTwo(Header(|own|, b), OwnBytes(b), EncodeChildren(end, b.children));
    }
    ChildrenConform(own, end, b.children);
    NodeConforms(bytes, NodeOf(b), LayoutOf(at, b), own);
  }

  /** Past its padding, the first child's encoding is followed by the others'. */
  lemma ChildrenSplit(bytes: seq<byte>, at: nat, bs: seq<Block>)
    requires at <= |bytes| && bytes[at..] == EncodeChildren(at, bs) && bs != []
    ensures var next := Align4(at) + |Encode(bs[0])|;
            && next <= |bytes|
            && Encode(bs[0]) <= bytes[Align4(at)..]
            && bytes[next..] == EncodeChildren(next, bs[1..])
  {
    var pad, first := Padding(at), Encode(bs[0]);
    SplitAfter(bytes, at, pad, first, EncodeChildren(at + |pad| + |first|, bs[1..]));
  }

  lemma {:induction false} ChildAdded(bytes: seq<byte>, pos: nat, bs: seq<Block>)
    requires bs != [] && pos + |Encode(bs[0])| <= |bytes|
    requires Conforms(bytes[pos..], NodeOf(bs[0]), LayoutOf(pos, bs[0]))
    requires var next := Align4(pos + |Encode(bs[0])|);
             KidsConform(bytes, next, NodesOf(bs[1..]), LayoutsOf(next, bs[1..]))
    ensures KidsConform(bytes, pos, NodesOf(bs), LayoutsOf(pos, bs))
  {
    hide Frames, OwnBytes, Header;
    var l, next := LayoutOf(pos, bs[0]), Align4(pos + |Encode(bs[0])|);
    assert l.at == pos && l.size == |Encode(bs[0])|;
    KidsCons(bytes, NodesOf(bs), LayoutsOf(pos, bs), NodeOf(bs[0]), NodesOf(bs[1..]), l, LayoutsOf(next, bs[1..]));
  }

  lemma {:induction false} ChildrenConform(bytes: seq<byte>, at: nat, bs: seq<Block>)
    requires at <= |bytes| < 0x1_0000 && bytes[at..] == EncodeChildren(at, bs)
    requires AllWellFormed(bs)
    ensures KidsConform(bytes, Align4(at), NodesOf(bs), LayoutsOf(Align4(at), bs))
    decreases bs
  {
    hide Align4, Frames, OwnBytes, Header;
    if bs == [] {
      NoChildren(bytes, at);
    } else {
      ChildrenSplit(bytes, at, bs);
      OneChild(bytes, Align4(at), bs[0]);
      ChildrenConform(bytes, Align4(at) + |Encode(bs[0])|, bs[1..]);
      ChildAdded(bytes, Align4(at), bs);
    }
  }

  lemma NoChildren(bytes: seq<byte>, at: nat)
    requires at <= |bytes| && bytes[at..] == []
    ensures KidsConform(bytes, Align4(at), NodesOf([]), LayoutsOf(Align4(at), []))
  {
  }

  lemma OneChild(bytes: seq<byte>, pos: nat, b: Block)
    requires pos <= |bytes| < 0x1_0000 && WellFormed(b) && Encode(b) <= bytes[pos..]
    ensures Conforms(bytes[pos..], NodeOf(b), LayoutOf(pos, b))
    decreases b, 1
  {
    hide Conforms, Encode, WellFormed;
    EncodeConforms(bytes[pos..], b, pos);
  }

  /** Whatever follows it, an encoded tree reads back as itself and consumes its own length. */
  lemma ParseEncode(b: Block, rest: seq<byte>)
    requires WellFormed(b) && |Encode(b)| < 0x1_0000
    ensures Parse(Encode(b) + rest) == Ok(Parsed(NodeOf(b), |Encode(b)|))
  {
    EncodeConforms(Encode(b) + rest, b, 0);
    ParseComplete(Encode(b) + rest, NodeOf(b), LayoutOf(0, b));
  }
}
