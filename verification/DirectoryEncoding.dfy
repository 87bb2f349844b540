/** Resource directories as bytes, and what the walk finds in a section they are written to. */
module DirectoryEncoding {
  import opened Results
  import opened Seqs
  import opened Bytes
  import opened ResourceDirectory
  import VersionEncoding
  import VersionInfo

  datatype Entry = Entry(id: u32, field: u32)

  /** A directory: the first twelve bytes of its header, which hold nothing the walk uses, the
      entries named by a string, and the entries with an integer ID. */
  datatype Directory = Directory(header: seq<byte>, named: seq<Entry>, ids: seq<Entry>)

  ghost predicate WellFormed(d: Directory) {
    && |d.header| == 12 && |d.named| < 0x1_0000 && |d.ids| < 0x1_0000
    && (forall i :: 0 <= i < |d.named| ==> 0x8000_0000 <= d.named[i].id)
    && (forall i :: 0 <= i < |d.ids| ==> d.ids[i].id < 0x8000_0000)
  }

  function EntryBytes(es: seq<Entry>): (b: seq<byte>)
    ensures |b| == 8 * |es|
  {
    if es == [] then [] else PutU32(es[0].id) + PutU32(es[0].field) + EntryBytes(es[1..])
  }

  /** The header ends in the two counts; the named entries come first. */
  function DirectoryBytes(d: Directory): (b: seq<byte>) {
    d.header + PutU16(|d.named|) + PutU16(|d.ids|) + EntryBytes(d.named) + EntryBytes(d.ids)
  }

  /** A data entry: where the data is loaded, how long it is, and eight bytes the walk does not use. */
  function DataEntryBytes(rva: u32, size: u32, rest: seq<byte>): (b: seq<byte>) {
    PutU32(rva) + PutU32(size) + rest
  }

  ghost predicate WrittenAt(rsrc: seq<byte>, off: nat, b: seq<byte>) {
    off <= |rsrc| && b <= rsrc[off..]
  }

  // Reading what is written.

  lemma PartWritten(rsrc: seq<byte>, off: nat, a: seq<byte>, b: seq<byte>)
    requires WrittenAt(rsrc, off, a + b)
    ensures WrittenAt(rsrc, off, a) && WrittenAt(rsrc, off + |a|, b)
  {
    assert rsrc[off..][..|a|] == (a + b)[..|a|] == a;
    DropDrop(rsrc, off, off + |a|);
    assert rsrc[off..][|a|..][..|b|] == (a + b)[|a|..] == b;
  }

  lemma ReadU16(rsrc: seq<byte>, off: nat, x: u16)
    requires WrittenAt(rsrc, off, PutU16(x))
    ensures off + 2 <= |rsrc| && U16At(rsrc, off) == x
  {
    PrefixSplit(PutU16(x), rsrc[off..]);
    PutThenReadU16(x, rsrc[off..][2..]);
    ReadShifted(rsrc, off, 0);
  }

  lemma ReadU32(rsrc: seq<byte>, off: nat, x: u32)
    requires WrittenAt(rsrc, off, PutU32(x))
    ensures off + 4 <= |rsrc| && U32At(rsrc, off) == x
  {
    PrefixSplit(PutU32(x), rsrc[off..]);
    PutThenReadU32(x, rsrc[off..][4..]);
    ReadShifted(rsrc, off, 0);
    ReadShifted(rsrc, off, 2);
  }

  lemma {:induction false} ReadEntry(rsrc: seq<byte>, off: nat, es: seq<Entry>, i: nat)
    requires WrittenAt(rsrc, off, EntryBytes(es)) && i < |es|
    ensures off + 8 * i + 8 <= |rsrc|
    ensures U32At(rsrc, off + 8 * i) == es[i].id && U32At(rsrc, off + 8 * i + 4) == es[i].field
    decreases |es|
  {
    hide U32At, PutU32;
    var id, field := PutU32(es[0].id), PutU32(es[0].field);
    PartWritten(rsrc, off, id + field, EntryBytes(es[1..]));
    if i == 0 {
      PartWritten(rsrc, off, id, field);
      ReadU32(rsrc, off, es[0].id);
      ReadU32(rsrc, off + 4, es[0].field);
    } else {
      ReadEntry(rsrc, off + 8, es[1..], i - 1);
    }
  }

  /** Both counts and every entry of a written directory, the named ones first. */
  lemma ReadDirectory(rsrc: seq<byte>, off: nat, d: Directory)
    requires WrittenAt(rsrc, off, DirectoryBytes(d)) && WellFormed(d)
    ensures off + 16 + 8 * (|d.named| + |d.ids|) <= |rsrc|
    ensures U16At(rsrc, off + 12) == |d.named| && U16At(rsrc, off + 14) == |d.ids|
    ensures WrittenAt(rsrc, off + 16, EntryBytes(d.named))
    ensures WrittenAt(rsrc, off + 16 + 8 * |d.named|, EntryBytes(d.ids))
  {
    hide EntryBytes, PutU16;
    var n, m := PutU16(|d.named|), PutU16(|d.ids|);
    PartWritten(rsrc, off, d.header + n + m + EntryBytes(d.named), EntryBytes(d.ids));
    PartWritten(rsrc, off, d.header + n + m, EntryBytes(d.named));
    PartWritten(rsrc, off, d.header + n, m);
    PartWritten(rsrc, off, d.header, n);
    ReadU16(rsrc, off + 12, |d.named|);
    ReadU16(rsrc, off + 14, |d.ids|);
  }

  /** Where entry `i` of a written directory is, and what it holds. */
  lemma EntryOf(rsrc: seq<byte>, off: nat, d: Directory, i: nat)
    requires WrittenAt(rsrc, off, DirectoryBytes(d)) && WellFormed(d) && i < |d.named| + |d.ids|
    ensures off + 16 + 8 * i + 8 <= |rsrc|
    ensures var e := if i < |d.named| then d.named[i] else d.ids[i - |d.named|];
            U32At(rsrc, off + 16 + 8 * i) == e.id && U32At(rsrc, off + 16 + 8 * i + 4) == e.field
  {
    hide DirectoryBytes, U32At, EntryBytes;
    ReadDirectory(rsrc, off, d);
    if i < |d.named| {
      ReadEntry(rsrc, off + 16, d.named, i);
    } else {
      ReadEntry(rsrc, off + 16 + 8 * |d.named|, d.ids, i - |d.named|);
    }
  }

  /** A look-up by ID takes the first entry with that ID, one without an ID the first integer entry. */
  predicate Wanted(e: Entry, wanted: Option<u32>) {
    wanted == None || wanted == Some(e.id)
  }

  ghost predicate NoneBefore(d: Directory, wanted: Option<u32>, k: nat)
    requires k <= |d.ids|
  {
    forall i :: 0 <= i < k ==> !Wanted(d.ids[i], wanted)
  }

  lemma LookUpFirst(rsrc: seq<byte>, off: nat, d: Directory, wanted: Option<u32>, k: nat)
    requires WrittenAt(rsrc, off, DirectoryBytes(d)) && WellFormed(d)
    requires k < |d.ids| && Wanted(d.ids[k], wanted) && NoneBefore(d, wanted, k)
    ensures LookUp(rsrc, off, wanted) == Ok(Some(d.ids[k].field))
  {
    hide DirectoryBytes, U32At;
    var n := |d.named| + k;
    ReadDirectory(rsrc, off, d);
    EntryOf(rsrc, off, d, n);
    forall j | 0 <= j < n
      ensures !Matches(U32At(rsrc, EntryPos(off, j)), wanted)
    {
      EntryOf(rsrc, off, d, j);
    }
    assert FirstMatch(rsrc, off, wanted, n, d.ids[k].field);
    LookUpIff(rsrc, off, wanted, d.ids[k].field);
  }

  lemma {:induction false} ScanNone(rsrc: seq<byte>, off: nat, d: Directory, wanted: Option<u32>, i: nat)
    requires WrittenAt(rsrc, off, DirectoryBytes(d)) && WellFormed(d) && off + 16 <= |rsrc|
    requires NoneBefore(d, wanted, |d.ids|) && i <= |d.named| + |d.ids|
    ensures ScanEntries(rsrc, off, wanted, i) == Ok(None)
    decreases |d.named| + |d.ids| - i
  {
    hide DirectoryBytes, U32At;
    ReadDirectory(rsrc, off, d);
    if i < |d.named| + |d.ids| {
      EntryOf(rsrc, off, d, i);
      ScanNone(rsrc, off, d, wanted, i + 1);
    }
  }

  lemma LookUpNone(rsrc: seq<byte>, off: nat, d: Directory, wanted: Option<u32>)
    requires WrittenAt(rsrc, off, DirectoryBytes(d)) && WellFormed(d) && NoneBefore(d, wanted, |d.ids|)
    ensures LookUp(rsrc, off, wanted) == Ok(None)
  {
    hide DirectoryBytes, U32At;
    ReadDirectory(rsrc, off, d);
    ScanNone(rsrc, off, d, wanted, 0);
  }

  // The walk over written directories.

  /** The root directory is at the start of the section, and entry `k` is its first for RT_VERSION. */
  ghost predicate RootWritten(rsrc: seq<byte>, root: Directory, k: nat) {
    && WellFormed(root) && WrittenAt(rsrc, 0, DirectoryBytes(root))
    && k < |root.ids| && root.ids[k].id == 16
    && forall i :: 0 <= i < k ==> root.ids[i].id != 16
  }

  /** The directory an entry's data field points to, below the high bit. */
  ghost predicate BelowWritten(rsrc: seq<byte>, field: u32, d: Directory) {
    0x8000_0000 <= field && WellFormed(d) && WrittenAt(rsrc, field - 0x8000_0000, DirectoryBytes(d))
  }

  lemma RootFound(rsrc: seq<byte>, root: Directory, k: nat)
    requires RootWritten(rsrc, root, k)
    ensures LookUp(rsrc, 0, Some(RT_VERSION)) == Ok(Some(root.ids[k].field))
  {
    hide DirectoryBytes, U32At;
    LookUpFirst(rsrc, 0, root, Some(RT_VERSION), k);
  }

  lemma BelowFound(rsrc: seq<byte>, field: u32, d: Directory, level: nat)
    requires BelowWritten(rsrc, field, d) && 0 < level
    ensures d.ids == [] ==> Descend(rsrc, field, level) == Err(NoVersionResource)
    ensures d.ids != [] ==> Descend(rsrc, field, level) == Descend(rsrc, d.ids[0].field, level - 1)
  {
    hide DirectoryBytes, U32At;
    if d.ids == [] {
      LookUpNone(rsrc, field - HIGH_BIT, d, None);
    } else {
      LookUpFirst(rsrc, field - HIGH_BIT, d, None, 0);
    }
  }

  /** A section that holds, anywhere and among anything else, the three directories and the data
      entry of a version resource: the walk returns the bytes the data entry describes. */
  lemma WrittenFound(rsrc: seq<byte>, sectionRVA: u32, root: Directory, k: nat, names: Directory, languages: Directory,
                     start: nat, size: nat, rest: seq<byte>)
    requires RootWritten(rsrc, root, k)
    requires BelowWritten(rsrc, root.ids[k].field, names) && names.ids != []
    requires BelowWritten(rsrc, names.ids[0].field, languages) && languages.ids != []
    requires languages.ids[0].field < 0x8000_0000 && |rest| == 8
    requires start + size <= |rsrc| && sectionRVA + start < 0x1_0000_0000 && size < 0x1_0000_0000
    requires WrittenAt(rsrc, languages.ids[0].field, DataEntryBytes(sectionRVA + start, size, rest))
    ensures Find(rsrc, sectionRVA) == Ok(rsrc[start..start + size])
  {
    hide BelowWritten, WrittenAt, LookUp, U32At, PutU32, DirectoryBytes;
    RootFound(rsrc, root, k);
    BelowFound(rsrc, root.ids[k].field, names, 2);
    BelowFound(rsrc, names.ids[0].field, languages, 1);
    var leaf, rva := languages.ids[0].field, sectionRVA + start;
    PartWritten(rsrc, leaf, PutU32(rva) + PutU32(size), rest);
    PartWritten(rsrc, leaf, PutU32(rva), PutU32(size));
    ReadU32(rsrc, leaf, rva);
    ReadU32(rsrc, leaf + 4, size);
    assert Descend(rsrc, leaf, 0) == Ok(leaf);
  }

  /** No RT_VERSION entry in the root directory, named entries or not: there is no version resource. */
  lemma NoneWritten(rsrc: seq<byte>, sectionRVA: u32, root: Directory)
    requires WellFormed(root) && WrittenAt(rsrc, 0, DirectoryBytes(root))
    requires forall i :: 0 <= i < |root.ids| ==> root.ids[i].id != 16
    ensures Find(rsrc, sectionRVA) == Err(NoVersionResource)
  {
    hide DirectoryBytes, U32At;
    LookUpNone(rsrc, 0, root, Some(RT_VERSION));
  }

  /** What the walk says of a written root directory whose RT_VERSION entry leads nowhere. */
  lemma WrittenRefused(rsrc: seq<byte>, sectionRVA: u32, root: Directory, k: nat, names: Directory, languages: Directory)
    requires RootWritten(rsrc, root, k)
    ensures root.ids[k].field < 0x8000_0000 ==> Find(rsrc, sectionRVA) == Err(ExpectedDirectory)
    ensures BelowWritten(rsrc, root.ids[k].field, names) && names.ids == [] ==>
              Find(rsrc, sectionRVA) == Err(NoVersionResource)
    ensures BelowWritten(rsrc, root.ids[k].field, names) && names.ids != [] && names.ids[0].field < 0x8000_0000 ==>
              Find(rsrc, sectionRVA) == Err(ExpectedDirectory)
    ensures BelowWritten(rsrc, root.ids[k].field, names) && names.ids != [] ==>
              BelowWritten(rsrc, names.ids[0].field, languages) ==>
                && (languages.ids == [] ==> Find(rsrc, sectionRVA) == Err(NoVersionResource))
                && (languages.ids != [] && 0x8000_0000 <= languages.ids[0].field ==>
                      Find(rsrc, sectionRVA) == Err(ExpectedData))
                && (languages.ids != [] && |rsrc| - 16 < languages.ids[0].field < 0x8000_0000 ==>
                      Find(rsrc, sectionRVA) == Err(DataEntryOutOfBounds))
  {
    hide BelowWritten, LookUp, U32At, WrittenAt, DirectoryBytes, DataAt;
    RootFound(rsrc, root, k);
    var field := root.ids[k].field;
    if BelowWritten(rsrc, field, names) {
      BelowFound(rsrc, field, names, 2);
      if names.ids != [] && BelowWritten(rsrc, names.ids[0].field, languages) {
        BelowFound(rsrc, names.ids[0].field, languages, 1);
        if languages.ids != [] && languages.ids[0].field < HIGH_BIT {
          assert Descend(rsrc, languages.ids[0].field, 0) == Ok(languages.ids[0].field);
          LeafRefused(rsrc, sectionRVA, languages.ids[0].field);
        }
      }
    }
  }

  lemma LeafRefused(rsrc: seq<byte>, sectionRVA: u32, leaf: u32)
    ensures |rsrc| < leaf + 16 ==> DataAt(rsrc, sectionRVA, leaf) == Err(DataEntryOutOfBounds)
  {
  }

  /** A data entry that describes bytes outside the section is refused. */
  lemma OutsideRefused(rsrc: seq<byte>, sectionRVA: u32, leaf: u32, rva: u32, size: u32, rest: seq<byte>)
    requires |rest| == 8 && WrittenAt(rsrc, leaf, DataEntryBytes(rva, size, rest))
    ensures DataAt(rsrc, sectionRVA, leaf) == Err(DataOutOfSection) <==>
            rva < sectionRVA || rva + size > sectionRVA + |rsrc|
  {
    hide U32At, PutU32;
    PartWritten(rsrc, leaf, PutU32(rva) + PutU32(size), rest);
    PartWritten(rsrc, leaf, PutU32(rva), PutU32(size));
    ReadU32(rsrc, leaf, rva);
    ReadU32(rsrc, leaf + 4, size);
  }

  // A whole written section.

  /** One layout: the three directories, the data entry and the data, with anything between them and
      after them, and any other entries beside the ones that lead to the data. */
  datatype Layout = Layout(root: Directory, names: Directory, languages: Directory, gaps: seq<seq<byte>>,
                           rest: seq<byte>, data: seq<byte>, after: seq<byte>)

  function NamesAt(l: Layout): nat
    requires |l.gaps| == 4
  {
    |DirectoryBytes(l.root) + l.gaps[0]|
  }

  function LanguagesAt(l: Layout): nat
    requires |l.gaps| == 4
  {
    NamesAt(l) + |DirectoryBytes(l.names) + l.gaps[1]|
  }

  function LeafAt(l: Layout): nat
    requires |l.gaps| == 4
  {
    LanguagesAt(l) + |DirectoryBytes(l.languages) + l.gaps[2]|
  }

  function DataStart(l: Layout): nat
    requires |l.gaps| == 4
  {
    LeafAt(l) + 8 + |l.rest + l.gaps[3]|
  }

  function SectionBytes(l: Layout, sectionRVA: u32): (b: seq<byte>)
    requires |l.gaps| == 4
    requires sectionRVA + DataStart(l) < 0x1_0000_0000 && |l.data| < 0x1_0000_0000
  {
    DirectoryBytes(l.root) + l.gaps[0]
    + (DirectoryBytes(l.names) + l.gaps[1]
    + (DirectoryBytes(l.languages) + l.gaps[2]
    + (DataEntryBytes(sectionRVA + DataStart(l), |l.data|, l.rest) + l.gaps[3]
    + (l.data + l.after))))
  }

  /** The entries that lead to the data point to where the parts are; the rest is anything. */
  ghost predicate Linked(l: Layout, k: nat) {
    && |l.gaps| == 4 && |l.rest| == 8
    && WellFormed(l.root) && WellFormed(l.names) && WellFormed(l.languages)
    && k < |l.root.ids| && l.root.ids[k].id == 16 && (forall i :: 0 <= i < k ==> l.root.ids[i].id != 16)
    && l.root.ids[k].field == 0x8000_0000 + NamesAt(l)
    && l.names.ids != [] && l.names.ids[0].field == 0x8000_0000 + LanguagesAt(l)
    && l.languages.ids != [] && l.languages.ids[0].field == LeafAt(l) < 0x8000_0000
  }

  lemma NextWritten(rsrc: seq<byte>, off: nat, part: seq<byte>, gap: seq<byte>, more: seq<byte>)
    requires WrittenAt(rsrc, off, part + gap + more)
    ensures WrittenAt(rsrc, off, part) && WrittenAt(rsrc, off + |part + gap|, more)
  {
    PartWritten(rsrc, off, part + gap, more);
    PartWritten(rsrc, off, part, gap);
  }

  lemma WholeWritten(rsrc: seq<byte>)
    ensures WrittenAt(rsrc, 0, rsrc)
  {
    assert rsrc[0..] == rsrc;
  }

  lemma LayoutWritten(l: Layout, sectionRVA: u32)
    requires |l.gaps| == 4 && sectionRVA + DataStart(l) < 0x1_0000_0000 && |l.data| < 0x1_0000_0000
    ensures var rsrc := SectionBytes(l, sectionRVA);
            && WrittenAt(rsrc, 0, DirectoryBytes(l.root))
            && WrittenAt(rsrc, NamesAt(l), DirectoryBytes(l.names))
            && WrittenAt(rsrc, LanguagesAt(l), DirectoryBytes(l.languages))
            && WrittenAt(rsrc, LeafAt(l), DataEntryBytes(sectionRVA + DataStart(l), |l.data|, l.rest))
            && WrittenAt(rsrc, DataStart(l), l.data)
  {
    hide DirectoryBytes, DataEntryBytes, WrittenAt;
    var rsrc := SectionBytes(l, sectionRVA);
    var entry := DataEntryBytes(sectionRVA + DataStart(l), |l.data|, l.rest);
    var fifth := l.data + l.after;
    var fourth := entry + l.gaps[3] + fifth;
    var third := DirectoryBytes(l.languages) + l.gaps[2] + fourth;
    var second := DirectoryBytes(l.names) + l.gaps[1] + third;
    WholeWritten(rsrc);
    NextWritten(rsrc, 0, DirectoryBytes(l.root), l.gaps[0], second);
    NextWritten(rsrc, NamesAt(l), DirectoryBytes(l.names), l.gaps[1], third);
    NextWritten(rsrc, LanguagesAt(l), DirectoryBytes(l.languages), l.gaps[2], fourth);
    NextWritten(rsrc, LeafAt(l), entry, l.gaps[3], fifth);
    EntryLength(sectionRVA + DataStart(l), |l.data|, l.rest);
    PartWritten(rsrc, DataStart(l), l.data, l.after);
  }

  /** Reading a written section gives the data that was written to it. */
  lemma SectionFound(l: Layout, k: nat, sectionRVA: u32)
    requires Linked(l, k) && sectionRVA + DataStart(l) < 0x1_0000_0000 && |l.data| < 0x1_0000_0000
    ensures Find(SectionBytes(l, sectionRVA), sectionRVA) == Ok(l.data)
  {
    hide DirectoryBytes, DataEntryBytes, SectionBytes, WellFormed, NamesAt, LanguagesAt, LeafAt, DataStart, Find;
    var rsrc := SectionBytes(l, sectionRVA);
    LayoutWritten(l, sectionRVA);
    WrittenFound(rsrc, sectionRVA, l.root, k, l.names, l.languages, DataStart(l), |l.data|, l.rest);
    assert rsrc[DataStart(l)..DataStart(l) + |l.data|] == rsrc[DataStart(l)..][..|l.data|] == l.data;
  }

  lemma EntryLength(rva: u32, size: u32, rest: seq<byte>)
    ensures |DataEntryBytes(rva, size, rest)| == 8 + |rest|
  {
  }

  /** A version resource written into a section comes back from the file: its versions and strings. */
  lemma SectionReadBack(l: Layout, k: nat, sectionRVA: u32, v: VersionInfo.Resource, tail: seq<byte>)
    requires Linked(l, k) && sectionRVA + DataStart(l) < 0x1_0000_0000 && |l.data| < 0x1_0000_0000
    requires VersionInfo.WellFormedResource(v)
    requires |VersionEncoding.Encode(VersionInfo.ResourceBlock(v))| < 0x1_0000
    requires l.data == VersionEncoding.Encode(VersionInfo.ResourceBlock(v)) + tail
    ensures ReadFile(Opened(Some(Section(sectionRVA, Ok(SectionBytes(l, sectionRVA))))))
         == Ok(VersionInfo.Info(v.file, v.product, VersionInfo.Assigned(map[], VersionInfo.AllPairs(v.sections))))
  {
    hide Linked, SectionBytes, DirectoryBytes, Find, VersionInfo.ReadInfo, VersionInfo.WellFormedSection,
         VersionInfo.ResourceBlock, VersionEncoding.Encode;
    SectionFound(l, k, sectionRVA);
    VersionInfo.ReadBack(v, l.data);
  }
}
