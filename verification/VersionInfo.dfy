/** The VERSIONINFO resource: the fixed numeric versions and every string of the string tables. */
module VersionInfo {
  import opened Results
  import opened Bytes
  import opened Seqs
  import opened VersionBlock
  import opened VersionEncoding
  import Utf16

  const FIXED_MAGIC: u32 := 0xFEEF04BD
  const FIXED_SIZE := 52
  const ROOT_KEY := "VS_VERSION_INFO"
  const STRINGS_KEY := "StringFileInfo"

  /** Both versions are four 16-bit fields. */
  datatype Info = Info(file: seq<u16>, product: seq<u16>, strings: map<string, string>)

  datatype InfoError = BadBlock(error: BlockError) | WrongRootKey | NoFixedInfo

  function SplitVersion(ms: u32, ls: u32): seq<u16> {
    [ms / 0x1_0000, ms % 0x1_0000, ls / 0x1_0000, ls % 0x1_0000]
  }

  /** The words of `b` from `i` up to the first zero one or the end; an odd last byte is ignored. */
  function UnitsZ(b: seq<byte>, i: nat): seq<u16>
    decreases |b| - i
  {
    if i + 1 >= |b| || U16At(b, i) == 0 then [] else [U16At(b, i)] + UnitsZ(b, i + 2)
  }

  function TextZ(b: seq<byte>): string {
    Utf16.Decode(UnitsZ(b, 0))
  }

  function AddStrings(m: map<string, string>, ss: seq<Node>): map<string, string>
    decreases ss
  {
    if ss == [] then m else AddStrings(m[ss[0].key := TextZ(ss[0].value)], ss[1..])
  }

  function AddTables(m: map<string, string>, tables: seq<Node>): map<string, string>
    decreases tables
  {
    if tables == [] then m else AddTables(AddStrings(m, tables[0].children), tables[1..])
  }

  function AddSections(m: map<string, string>, sections: seq<Node>): map<string, string>
    decreases sections
  {
    if sections == [] then m
    else if sections[0].key != STRINGS_KEY then AddSections(m, sections[1..])
    else AddSections(AddTables(m, sections[0].children), sections[1..])
  }

  predicate HasFixedInfo(value: seq<byte>) {
    |value| >= FIXED_SIZE && U32At(value, 0) == FIXED_MAGIC
  }

  function ReadInfo(data: seq<byte>): Result<Info, InfoError> {
    match Parse(data)
    case Err(e) => Err(BadBlock(e))
    case Ok(p) =>
      var v := p.node.value;
      if p.node.key != ROOT_KEY then Err(WrongRootKey)
      else if !HasFixedInfo(v) then Err(NoFixedInfo)
      else Ok(Info(SplitVersion(U32At(v, 8), U32At(v, 12)), SplitVersion(U32At(v, 16), U32At(v, 20)),
                   AddSections(map[], p.node.children)))
  }

  method DecodeUtf16Z(b: seq<byte>) returns (s: string)
    ensures s == TextZ(b)
  {
    var u: seq<u16> := [];
    var i := 0;
    assert [] + UnitsZ(b, 0) == UnitsZ(b, 0);
    while i + 1 < |b|
      invariant UnitsZ(b, 0) == u + UnitsZ(b, i)
      decreases |b| - i
    {
      var c := U16At(b, i);
      if c == 0 {
        break;
      }
      assert u + ([c] + UnitsZ(b, i + 2)) == u + [c] + UnitsZ(b, i + 2);
      u := u + [c];
      i := i + 2;
    }
    assert u + [] == u;
    s := Utf16.Decode(u);
  }

  method CollectStrings(sections: seq<Node>) returns (strings: map<string, string>)
    ensures strings == AddSections(map[], sections)
  {
    strings := map[];
    for i := 0 to |sections|
      invariant AddSections(strings, sections[i..]) == AddSections(map[], sections)
    {
      assert sections[i..][1..] == sections[i + 1..];
      if sections[i].key == STRINGS_KEY {
        strings := CollectTables(strings, sections[i].children);
      }
    }
  }

  method CollectTables(m: map<string, string>, tables: seq<Node>) returns (strings: map<string, string>)
    ensures strings == AddTables(m, tables)
  {
    strings := m;
    for j := 0 to |tables|
      invariant AddTables(strings, tables[j..]) == AddTables(m, tables)
    {
      assert tables[j..][1..] == tables[j + 1..];
      var ss := tables[j].children;
      ghost var before := strings;
      for k := 0 to |ss|
        invariant AddStrings(strings, ss[k..]) == AddStrings(before, ss)
      {
        assert ss[k..][1..] == ss[k + 1..];
        var text := DecodeUtf16Z(ss[k].value);
        strings := strings[ss[k].key := text];
      }
    }
  }

  method ParseVersionInfo(data: seq<byte>) returns (r: Result<Info, InfoError>)
    ensures r == ReadInfo(data)
  {
    var root := ParseNode(data);
    if root.Err? {
      return Err(BadBlock(root.error));
    }
    var v := root.value.node.value;
    if root.value.node.key != ROOT_KEY {
      return Err(WrongRootKey);
    }
    if |v| < FIXED_SIZE || U32At(v, 0) != FIXED_MAGIC {
      return Err(NoFixedInfo);
    }
    var strings := CollectStrings(root.value.node.children);
    r := Ok(Info(SplitVersion(U32At(v, 8), U32At(v, 12)), SplitVersion(U32At(v, 16), U32At(v, 20)), strings));
  }

  // A version resource as its author describes it, and what is read back from it.

  datatype Pair = Pair(key: string, value: string)

  datatype Table = Table(key: string, strings: seq<Pair>)

  datatype Section = Strings(tables: seq<Table>) | Other(block: Block)

  /** `structVersion` and `rest` are the fixed fields the reader does not look at. */
  datatype Resource = Resource(file: seq<u16>, product: seq<u16>, structVersion: u32, rest: seq<byte>,
                               sections: seq<Section>)

  function PairBlock(p: Pair): Block {
    Block(p.key, true, KeyBytes(p.value), [])
  }

  function PairBlocks(ps: seq<Pair>): seq<Block> {
    if ps == [] then [] else [PairBlock(ps[0])] + PairBlocks(ps[1..])
  }

  function TableBlocks(ts: seq<Table>): seq<Block>
    decreases ts
  {
    if ts == [] then [] else [Block(ts[0].key, true, [], PairBlocks(ts[0].strings))] + TableBlocks(ts[1..])
  }

  function SectionBlock(s: Section): Block {
    match s
    case Strings(tables) => Block(STRINGS_KEY, true, [], TableBlocks(tables))
    case Other(block) => block
  }

  function SectionBlocks(ss: seq<Section>): seq<Block>
    decreases ss
  {
    if ss == [] then [] else [SectionBlock(ss[0])] + SectionBlocks(ss[1..])
  }

  function Pack(hi: u16, lo: u16): u32 {
    var h: int, l: int := hi, lo;
    h * 0x1_0000 + l
  }

  function FixedBytes(r: Resource): seq<byte>
    requires |r.file| == |r.product| == 4
  {
    PutU32(FIXED_MAGIC) + (PutU32(r.structVersion)
    + (PutU32(Pack(r.file[0], r.file[1])) + (PutU32(Pack(r.file[2], r.file[3]))
    + (PutU32(Pack(r.product[0], r.product[1])) + (PutU32(Pack(r.product[2], r.product[3])) + r.rest)))))
  }

  function ResourceBlock(r: Resource): Block
    requires |r.file| == |r.product| == 4
  {
    Block(ROOT_KEY, false, FixedBytes(r), SectionBlocks(r.sections))
  }

  predicate WellFormedPairs(ps: seq<Pair>) {
    forall p :: p in ps ==> '\0' !in p.key && '\0' !in p.value
  }

  predicate WellFormedTables(ts: seq<Table>) {
    forall t :: t in ts ==> '\0' !in t.key && WellFormedPairs(t.strings)
  }

  predicate WellFormedSection(s: Section) {
    match s
    case Strings(tables) => WellFormedTables(tables)
    case Other(block) => WellFormed(block) && block.key != STRINGS_KEY
  }

  predicate WellFormedResource(r: Resource) {
    && |r.file| == |r.product| == 4
    && |r.rest| >= FIXED_SIZE - 24
    && forall s :: s in r.sections ==> WellFormedSection(s)
  }

  /** Every string of the resource, in the order it is written. */
  function TablePairs(ts: seq<Table>): seq<Pair>
    decreases ts
  {
    if ts == [] then [] else ts[0].strings + TablePairs(ts[1..])
  }

  function AllPairs(ss: seq<Section>): seq<Pair>
    decreases ss
  {
    if ss == [] then []
    else (if ss[0].Strings? then TablePairs(ss[0].tables) else []) + AllPairs(ss[1..])
  }

  function Assigned(m: map<string, string>, ps: seq<Pair>): map<string, string>
    decreases ps
  {
    if ps == [] then m else Assigned(m[ps[0].key := ps[0].value], ps[1..])
  }

  lemma {:induction false} AssignedKeeps(m: map<string, string>, ps: seq<Pair>, k: string)
    requires forall p :: p in ps ==> p.key != k
    ensures k in Assigned(m, ps) <==> k in m
    ensures k in m ==> Assigned(m, ps)[k] == m[k]
    decreases ps
  {
    if ps != [] {
      AssignedKeeps(m[ps[0].key := ps[0].value], ps[1..], k);
    }
  }

  /** The last of the pairs with a given key is the one that stays. */
  lemma {:induction false} AssignedLast(m: map<string, string>, ps: seq<Pair>, i: nat)
    requires i < |ps| && forall j :: i < j < |ps| ==> ps[j].key != ps[i].key
    ensures ps[i].key in Assigned(m, ps) && Assigned(m, ps)[ps[i].key] == ps[i].value
    decreases ps
  {
    var m', rest := m[ps[0].key := ps[0].value], ps[1..];
    if i == 0 {
      AssignedKeeps(m', rest, ps[0].key);
    } else {
      AssignedLast(m', rest, i - 1);
    }
  }

  lemma {:induction false} AssignedConcat(m: map<string, string>, ps: seq<Pair>, qs: seq<Pair>)
    ensures Assigned(m, ps + qs) == Assigned(Assigned(m, ps), qs)
    decreases ps
  {
    if ps == [] {
      assert ps + qs == qs;
    } else {
      TailOfConcat(ps, qs);
      AssignedConcat(m[ps[0].key := ps[0].value], ps[1..], qs);
    }
  }

  lemma {:induction false} UnitsZOfWords(before: seq<byte>, units: seq<u16>)
    requires 0 !in units
    ensures UnitsZ(before + Words(units) + PutU16(0), |before|) == units
    decreases units
  {
    var b := before + Words(units) + PutU16(0);
    if units == [] {
      assert b[|before|] == 0 && b[|before| + 1] == 0;
    } else {
      var first, words := PutU16(units[0]), Words(units[1..]);
      Shift(before, first, words, PutU16(0));
      assert U16At(b, |before|) == units[0] by {
        SplitConcat(before, first + (words + PutU16(0)));
        ReadShifted(b, |before|, 0);
        PutThenReadU16(units[0], words + PutU16(0));
      }
      UnitsZOfWords(before + first, units[1..]);
    }
  }

  lemma TextOfKeyBytes(s: string)
    requires '\0' !in s
    ensures TextZ(KeyBytes(s)) == s
  {
    Utf16.EncodeHasNoZero(s);
    UnitsZOfWords([], Utf16.Encode(s));
    assert [] + Words(Utf16.Encode(s)) + PutU16(0) == KeyBytes(s);
    Utf16.DecodeEncode(s);
  }

  lemma {:induction false} PairsRead(m: map<string, string>, ps: seq<Pair>)
    requires WellFormedPairs(ps)
    ensures AddStrings(m, NodesOf(PairBlocks(ps))) == Assigned(m, ps)
    ensures AllWellFormed(PairBlocks(ps))
    decreases ps
  {
    if ps != [] {
      TextOfKeyBytes(ps[0].value);
      PairsRead(m[ps[0].key := ps[0].value], ps[1..]);
    }
  }

  lemma {:induction false} TablesRead(m: map<string, string>, ts: seq<Table>)
    requires WellFormedTables(ts)
    ensures AddTables(m, NodesOf(TableBlocks(ts))) == Assigned(m, TablePairs(ts))
    ensures AllWellFormed(TableBlocks(ts))
    decreases ts
  {
    if ts != [] {
      var m' := Assigned(m, ts[0].strings);
      PairsRead(m, ts[0].strings);
      TablesRead(m', ts[1..]);
      AssignedConcat(m, ts[0].strings, TablePairs(ts[1..]));
    }
  }

  lemma SectionRead(s: Section)
    requires WellFormedSection(s)
    ensures WellFormed(SectionBlock(s))
    ensures s.Strings? <==> SectionBlock(s).key == STRINGS_KEY
  {
    if s.Strings? {
      TablesRead(map[], s.tables);
    }
  }

  lemma {:induction false} SectionsRead(m: map<string, string>, ss: seq<Section>)
    requires forall s :: s in ss ==> WellFormedSection(s)
    ensures AddSections(m, NodesOf(SectionBlocks(ss))) == Assigned(m, AllPairs(ss))
    ensures AllWellFormed(SectionBlocks(ss))
    decreases ss
  {
    if ss != [] {
      var s, rest := ss[0], ss[1..];
      assert s in ss;
      SectionRead(s);
      if s.Strings? {
        TablesRead(m, s.tables);
        SectionsRead(Assigned(m, TablePairs(s.tables)), rest);
        AssignedConcat(m, TablePairs(s.tables), AllPairs(rest));
      } else {
        SectionsRead(m, rest);
        assert [] + AllPairs(rest) == AllPairs(rest);
      }
    }
  }

  lemma FieldAt(v: seq<byte>, at: nat, field: u32, rest: seq<byte>)
    requires at <= |v| && v[at..] == PutU32(field) + rest
    ensures U32At(v, at) == field
    ensures v[at + 4..] == rest
  {
    PutThenReadU32(field, rest);
    ReadShifted(v, at, 0);
    ReadShifted(v, at, 2);
    DropDrop(v, at, at + 4);
    SplitConcat(PutU32(field), rest);
  }

  lemma FixedFields(a: u32, b: u32, c: u32, d: u32, e: u32, f: u32, rest: seq<byte>, v: seq<byte>)
    requires v == PutU32(a) + (PutU32(b) + (PutU32(c) + (PutU32(d) + (PutU32(e) + (PutU32(f) + rest)))))
    ensures |v| == 24 + |rest|
    ensures U32At(v, 0) == a && U32At(v, 8) == c && U32At(v, 12) == d && U32At(v, 16) == e && U32At(v, 20) == f
  {
    var afterE := PutU32(f) + rest;
    var afterD := PutU32(e) + afterE;
    var afterC := PutU32(d) + afterD;
    var afterB := PutU32(c) + afterC;
    assert v[0..] == v;
    FieldAt(v, 0, a, PutU32(b) + afterB);
    FieldAt(v, 4, b, afterB);
    FieldAt(v, 8, c, afterC);
    FieldAt(v, 12, d, afterD);
    FieldAt(v, 16, e, afterE);
    FieldAt(v, 20, f, rest);
  }

  /** Packing four fields into two words and splitting them again gives the fields. */
  lemma SplitPacked(fields: seq<u16>)
    requires |fields| == 4
    ensures SplitVersion(Pack(fields[0], fields[1]), Pack(fields[2], fields[3])) == fields
  {
  }

  lemma FixedRead(r: Resource)
    requires WellFormedResource(r)
    ensures var v := FixedBytes(r);
            && HasFixedInfo(v)
            && SplitVersion(U32At(v, 8), U32At(v, 12)) == r.file
            && SplitVersion(U32At(v, 16), U32At(v, 20)) == r.product
  {
    var file0, file1 := Pack(r.file[0], r.file[1]), Pack(r.file[2], r.file[3]);
    var prod0, prod1 := Pack(r.product[0], r.product[1]), Pack(r.product[2], r.product[3]);
    FixedFields(FIXED_MAGIC, r.structVersion, file0, file1, prod0, prod1, r.rest, FixedBytes(r));
    SplitPacked(r.file);
    SplitPacked(r.product);
  }

  lemma RootRead(data: seq<byte>, root: Node, used: nat)
    requires Parse(data) == Ok(Parsed(root, used))
    requires root.key == ROOT_KEY && HasFixedInfo(root.value)
    ensures ReadInfo(data) == Ok(Info(SplitVersion(U32At(root.value, 8), U32At(root.value, 12)),
                                      SplitVersion(U32At(root.value, 16), U32At(root.value, 20)),
                                      AddSections(map[], root.children)))
  {
  }

  lemma ResourceWellFormed(r: Resource)
    requires WellFormedResource(r)
    ensures WellFormed(ResourceBlock(r))
  {
    SectionsRead(map[], r.sections);
    assert '\0' !in ROOT_KEY;
  }

  lemma ResourceParsed(r: Resource, data: seq<byte>)
    requires WellFormedResource(r) && |Encode(ResourceBlock(r))| < 0x1_0000
    requires Encode(ResourceBlock(r)) <= data
    ensures Parse(data) == Ok(Parsed(NodeOf(ResourceBlock(r)), |Encode(ResourceBlock(r))|))
  {
    hide Parse, Encode, FixedBytes, WellFormed, WellFormedSection, NodeOf;
    var own := Encode(ResourceBlock(r));
    ResourceWellFormed(r);
    PrefixSplit(own, data);
    ParseEncode(ResourceBlock(r), data[|own|..]);
  }

  lemma ResourceNode(r: Resource)
    requires WellFormedResource(r)
    ensures NodeOf(ResourceBlock(r)) == Node(ROOT_KEY, FixedBytes(r), NodesOf(SectionBlocks(r.sections)))
  {
    hide FixedBytes, WellFormedSection;
  }

  /** A written resource reads back, whatever follows it: both four-field versions, and of every
      key its last string. */
  lemma ReadBack(r: Resource, data: seq<byte>)
    requires WellFormedResource(r) && |Encode(ResourceBlock(r))| < 0x1_0000
    requires Encode(ResourceBlock(r)) <= data
    ensures ReadInfo(data) == Ok(Info(r.file, r.product, Assigned(map[], AllPairs(r.sections))))
  {
    hide Parse, ReadInfo, Encode, NodeOf, FixedBytes, ResourceBlock, SectionBlocks, WellFormedSection, U32At, SplitVersion,
      AddSections, AllPairs;
    ResourceParsed(r, data);
    ResourceNode(r);
    FixedRead(r);
    RootRead(data, Node(ROOT_KEY, FixedBytes(r), NodesOf(SectionBlocks(r.sections))), |Encode(ResourceBlock(r))|);
    SectionsRead(map[], r.sections);
  }

  // What is refused, and strings without an end.

  /** A well-formed block is a version resource exactly when its key says so and its value has room
      for the fixed part and starts with the signature. */
  lemma InfoIff(data: seq<byte>, p: Parsed)
    requires Parse(data) == Ok(p)
    ensures var v := p.node.value;
            var fixed := |v| >= 52 && v[0] == 0xBD && v[1] == 0x04 && v[2] == 0xEF && v[3] == 0xFE;
            && (ReadInfo(data) == Err(WrongRootKey) <==> p.node.key != "VS_VERSION_INFO")
            && (ReadInfo(data) == Err(NoFixedInfo) <==> p.node.key == "VS_VERSION_INFO" && !fixed)
            && (ReadInfo(data).Ok? <==> p.node.key == "VS_VERSION_INFO" && fixed)
  {
    hide AddSections, Parse, U32At;
    if |p.node.value| >= 52 {
      Signature(p.node.value);
    }
  }

  lemma Signature(v: seq<byte>)
    requires |v| >= 4
    ensures U32At(v, 0) == FIXED_MAGIC <==> v[0] == 0xBD && v[1] == 0x04 && v[2] == 0xEF && v[3] == 0xFE
  {
  }

  lemma {:induction false} UnitsZFrom(units: seq<u16>, b: seq<byte>, i: nat, rest: seq<byte>)
    requires 0 !in units && i <= |b| && b[i..] == Words(units) + rest
    requires |rest| < 2 || U16At(rest, 0) == 0
    ensures UnitsZ(b, i) == units
    decreases |units|
  {
    if units == [] {
      EmptyConcat(rest);
      if |rest| >= 2 {
        ReadShifted(b, i, 0);
      }
    } else {
      var more := Words(units[1..]) + rest;
      Assoc(PutU16(units[0]), Words(units[1..]), rest);
      PutThenReadU16(units[0], more);
      ReadShifted(b, i, 0);
      DropDrop(b, i, i + 2);
      SplitConcat(PutU16(units[0]), more);
      UnitsZFrom(units[1..], b, i + 2, rest);
      assert units == [units[0]] + units[1..];
    }
  }

  /** A string value is its text up to the first zero unit, whatever follows; without one it is the
      whole value, less an odd last byte. */
  lemma TextRead(text: string, rest: seq<byte>)
    requires '\0' !in text && (|rest| < 2 || (rest[0] == 0 && rest[1] == 0))
    ensures TextZ(Words(Utf16.Encode(text)) + rest) == text
  {
    var b := Words(Utf16.Encode(text)) + rest;
    assert b[0..] == b;
    Utf16.EncodeHasNoZero(text);
    UnitsZFrom(Utf16.Encode(text), b, 0, rest);
    Utf16.DecodeEncode(text);
  }
}
