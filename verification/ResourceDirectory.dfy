/** The walk of a .rsrc section: type, name and language directories down to the RT_VERSION data. */
module ResourceDirectory {
  import opened Results
  import opened Bytes
  import VersionEncoding
  import VersionInfo

  const RT_VERSION: u32 := 16
  const HIGH_BIT: u32 := 0x8000_0000

  datatype WalkError =
    | DirectoryOutOfBounds
    | EntryOutOfBounds
    | ExpectedDirectory
    | ExpectedData
    | DataEntryOutOfBounds
    | DataOutOfSection
    | NoVersionResource

  /** An entry matches on its integer ID; one named by a string (high bit set) never does. */
  predicate Matches(id: u32, wanted: Option<u32>) {
    id < HIGH_BIT && (wanted.Some? ==> id == wanted.value)
  }

  function EntryCount(rsrc: seq<byte>, off: nat): nat
    requires off + 16 <= |rsrc|
  {
    U16At(rsrc, off + 12) as nat + U16At(rsrc, off + 14) as nat
  }

  function EntryPos(off: nat, i: nat): nat {
    off + 16 + 8 * i
  }

  /** The data field of the first matching entry from the `i`-th on. */
  function ScanEntries(rsrc: seq<byte>, off: nat, wanted: Option<u32>, i: nat): Result<Option<u32>, WalkError>
    requires off + 16 <= |rsrc|
    decreases EntryCount(rsrc, off) - i
  {
    if i >= EntryCount(rsrc, off) then Ok(None)
    else if EntryPos(off, i) + 8 > |rsrc| then Err(EntryOutOfBounds)
    else if Matches(U32At(rsrc, EntryPos(off, i)), wanted) then Ok(Some(U32At(rsrc, EntryPos(off, i) + 4)))
    else ScanEntries(rsrc, off, wanted, i + 1)
  }

  function LookUp(rsrc: seq<byte>, off: nat, wanted: Option<u32>): Result<Option<u32>, WalkError> {
    if off + 16 > |rsrc| then Err(DirectoryOutOfBounds) else ScanEntries(rsrc, off, wanted, 0)
  }

  /** The leaf `level` directories below the entry `field`. */
  function Descend(rsrc: seq<byte>, field: u32, level: nat): Result<u32, WalkError>
    decreases level
  {
    if level == 0 then
      if field >= HIGH_BIT then Err(ExpectedData) else Ok(field)
    else if field < HIGH_BIT then Err(ExpectedDirectory)
    else
      match LookUp(rsrc, field - HIGH_BIT, None)
      case Err(e) => Err(e)
      case Ok(None) => Err(NoVersionResource)
      case Ok(Some(next)) => Descend(rsrc, next, level - 1)
  }

  function DataAt(rsrc: seq<byte>, sectionRVA: u32, leaf: u32): Result<seq<byte>, WalkError> {
    if leaf + 16 > |rsrc| then Err(DataEntryOutOfBounds)
    else
      var start: int, size: int := U32At(rsrc, leaf) - sectionRVA, U32At(rsrc, leaf + 4);
      if start < 0 || start + size > |rsrc| then Err(DataOutOfSection) else Ok(rsrc[start..start + size])
  }

  function Find(rsrc: seq<byte>, sectionRVA: u32): Result<seq<byte>, WalkError> {
    match LookUp(rsrc, 0, Some(RT_VERSION))
    case Err(e) => Err(e)
    case Ok(None) => Err(NoVersionResource)
    case Ok(Some(field)) =>
      match Descend(rsrc, field, 2)
      case Err(e) => Err(e)
      case Ok(leaf) => DataAt(rsrc, sectionRVA, leaf)
  }

  method DirEntry(rsrc: seq<byte>, off: nat, wanted: Option<u32>) returns (r: Result<Option<u32>, WalkError>)
    ensures r == LookUp(rsrc, off, wanted)
  {
    if off + 16 > |rsrc| {
      return Err(DirectoryOutOfBounds);
    }
    var named: int, ids: int := U16At(rsrc, off + 12), U16At(rsrc, off + 14);
    for i := 0 to named + ids
      invariant ScanEntries(rsrc, off, wanted, i) == ScanEntries(rsrc, off, wanted, 0)
    {
      var e := EntryPos(off, i);
      if e + 8 > |rsrc| {
        return Err(EntryOutOfBounds);
      }
      if Matches(U32At(rsrc, e), wanted) {
        return Ok(Some(U32At(rsrc, e + 4)));
      }
    }
    r := Ok(None);
  }

  method FindVersionResource(rsrc: seq<byte>, sectionRVA: u32) returns (r: Result<seq<byte>, WalkError>)
    ensures r == Find(rsrc, sectionRVA)
  {
    var found := DirEntry(rsrc, 0, Some(RT_VERSION));
    if found.Err? {
      return Err(found.error);
    }
    if found.value.None? {
      return Err(NoVersionResource);
    }
    var entry: u32 := found.value.value;
    ghost var root := entry;
    for level := 0 to 2
      invariant Descend(rsrc, entry, 2 - level) == Descend(rsrc, root, 2)
    {
      if entry < HIGH_BIT {
        return Err(ExpectedDirectory);
      }
      found := DirEntry(rsrc, entry - HIGH_BIT, None);
      if found.Err? {
        return Err(found.error);
      }
      if found.value.None? {
        return Err(NoVersionResource);
      }
      entry := found.value.value;
    }
    if entry >= HIGH_BIT {
      return Err(ExpectedData);
    }
    r := DataAt(rsrc, sectionRVA, entry);
  }

  // The same walk, as a statement about the section.

  /** Entry `i` of the directory at `off` is its first matching one, and its data field is `field`. */
  ghost predicate FirstMatch(rsrc: seq<byte>, off: nat, wanted: Option<u32>, i: nat, field: u32) {
    && off + 16 <= |rsrc| && i < EntryCount(rsrc, off) && EntryPos(off, i) + 8 <= |rsrc|
    && Matches(U32At(rsrc, EntryPos(off, i)), wanted)
    && field == U32At(rsrc, EntryPos(off, i) + 4)
    && forall j :: 0 <= j < i ==> !Matches(U32At(rsrc, EntryPos(off, j)), wanted)
  }

  ghost predicate Holds(rsrc: seq<byte>, off: nat, wanted: Option<u32>, field: u32) {
    exists i :: FirstMatch(rsrc, off, wanted, i, field)
  }

  /** Following first entries from the RT_VERSION type entry, two directories lead to `leaf`. */
  ghost predicate LeadsTo(rsrc: seq<byte>, names: u32, languages: u32, leaf: u32) {
    && names < HIGH_BIT && languages < HIGH_BIT && leaf < HIGH_BIT
    && Holds(rsrc, 0, Some(RT_VERSION), names + HIGH_BIT)
    && Holds(rsrc, names, None, languages + HIGH_BIT)
    && Holds(rsrc, languages, None, leaf)
  }

  /** The data entry at `leaf` describes the `size` bytes of the section from `start`. */
  ghost predicate Describes(rsrc: seq<byte>, sectionRVA: u32, leaf: u32, start: nat, size: nat) {
    && leaf + 16 <= |rsrc|
    && U32At(rsrc, leaf) == sectionRVA + start && U32At(rsrc, leaf + 4) == size
    && start + size <= |rsrc|
  }

  lemma {:induction false} ScanSound(rsrc: seq<byte>, off: nat, wanted: Option<u32>, i: nat, field: u32) returns (k: nat)
    requires off + 16 <= |rsrc| && ScanEntries(rsrc, off, wanted, i) == Ok(Some(field))
    requires EntryPos(off, i) <= |rsrc|
    requires forall j :: 0 <= j < i ==> !Matches(U32At(rsrc, EntryPos(off, j)), wanted)
    ensures FirstMatch(rsrc, off, wanted, k, field)
    decreases EntryCount(rsrc, off) - i
  {
    if Matches(U32At(rsrc, EntryPos(off, i)), wanted) {
      k := i;
    } else {
      k := ScanSound(rsrc, off, wanted, i + 1, field);
    }
  }

  lemma {:induction false} ScanComplete(rsrc: seq<byte>, off: nat, wanted: Option<u32>, i: nat, k: nat, field: u32)
    requires FirstMatch(rsrc, off, wanted, k, field) && i <= k
    ensures ScanEntries(rsrc, off, wanted, i) == Ok(Some(field))
    decreases k - i
  {
    if i < k {
      ScanComplete(rsrc, off, wanted, i + 1, k, field);
    }
  }

  lemma LookUpIff(rsrc: seq<byte>, off: nat, wanted: Option<u32>, field: u32)
    ensures LookUp(rsrc, off, wanted) == Ok(Some(field)) <==> Holds(rsrc, off, wanted, field)
  {
    if LookUp(rsrc, off, wanted) == Ok(Some(field)) {
      var k := ScanSound(rsrc, off, wanted, 0, field);
    }
    if i :| FirstMatch(rsrc, off, wanted, i, field) {
      ScanComplete(rsrc, off, wanted, 0, i, field);
    }
  }

  /** The walk succeeds exactly when the section leads to data inside it, and returns that data. */
  lemma FindIff(rsrc: seq<byte>, sectionRVA: u32, data: seq<byte>)
    ensures Find(rsrc, sectionRVA) == Ok(data) <==>
            exists names, languages, leaf, start: nat, size: nat ::
              && LeadsTo(rsrc, names, languages, leaf)
              && Describes(rsrc, sectionRVA, leaf, start, size)
              && data == rsrc[start..start + size]
  {
    if Find(rsrc, sectionRVA) == Ok(data) {
      var names, languages, leaf, start, size := FindSound(rsrc, sectionRVA, data);
    }
    if names, languages, leaf, start: nat, size: nat :|
        LeadsTo(rsrc, names, languages, leaf) && Describes(rsrc, sectionRVA, leaf, start, size)
        && data == rsrc[start..start + size] {
      FindComplete(rsrc, sectionRVA, names, languages, leaf, start, size);
    }
  }

  lemma OneDown(rsrc: seq<byte>, field: u32, level: nat) returns (next: u32)
    requires 0 < level && Descend(rsrc, field, level).Ok?
    ensures HIGH_BIT <= field
    ensures Holds(rsrc, field - HIGH_BIT, None, next)
    ensures Descend(rsrc, next, level - 1) == Descend(rsrc, field, level)
  {
    next := LookUp(rsrc, field - HIGH_BIT, None).value.value;
    LookUpIff(rsrc, field - HIGH_BIT, None, next);
  }

  lemma {:induction false} FindSound(rsrc: seq<byte>, sectionRVA: u32, data: seq<byte>)
      returns (names: u32, languages: u32, leaf: u32, start: nat, size: nat)
    requires Find(rsrc, sectionRVA) == Ok(data)
    ensures LeadsTo(rsrc, names, languages, leaf) && Describes(rsrc, sectionRVA, leaf, start, size)
    ensures data == rsrc[start..start + size]
  {
    hide U32At;
    var first := LookUp(rsrc, 0, Some(RT_VERSION)).value.value;
    LookUpIff(rsrc, 0, Some(RT_VERSION), first);
    var second := OneDown(rsrc, first, 2);
    leaf := OneDown(rsrc, second, 1);
    names, languages := first - HIGH_BIT, second - HIGH_BIT;
    start, size := U32At(rsrc, leaf) - sectionRVA, U32At(rsrc, leaf + 4);
  }

  lemma FindComplete(rsrc: seq<byte>, sectionRVA: u32, names: u32, languages: u32, leaf: u32, start: nat, size: nat)
    requires LeadsTo(rsrc, names, languages, leaf) && Describes(rsrc, sectionRVA, leaf, start, size)
    ensures Find(rsrc, sectionRVA) == Ok(rsrc[start..start + size])
  {
    hide LookUp, U32At;
    LookUpIff(rsrc, 0, Some(RT_VERSION), names + HIGH_BIT);
    StepDown(rsrc, names, languages + HIGH_BIT, 2);
    StepDown(rsrc, languages, leaf, 1);
    assert Descend(rsrc, leaf, 0) == Ok(leaf);
    assert DataAt(rsrc, sectionRVA, leaf) == Ok(rsrc[start..start + size]);
  }

  lemma StepDown(rsrc: seq<byte>, off: u32, next: u32, level: nat)
    requires off < HIGH_BIT && 0 < level && Holds(rsrc, off, None, next)
    ensures Descend(rsrc, off + HIGH_BIT, level) == Descend(rsrc, next, level - 1)
  {
    LookUpIff(rsrc, off, None, next);
  }

  // Both readers together.

  /** A .rsrc section: where it is loaded, and its bytes unless reading them fails. */
  datatype Section = Section(rva: u32, data: Result<seq<byte>, string>)

  /** A file that opens as a PE image may have a .rsrc section. */
  datatype File = Unopened(error: string) | Opened(rsrc: Option<Section>)

  datatype FileError =
    | OpenFailed(cause: string)
    | SectionUnread(cause: string)
    | NotFound(walk: WalkError)
    | BadVersion(info: VersionInfo.InfoError)

  method ReadVersionInfo(file: File) returns (r: Result<VersionInfo.Info, FileError>)
    ensures r == ReadFile(file)
  {
    if file.Unopened? {
      return Err(OpenFailed(file.error));
    }
    if file.rsrc.None? {
      return Err(NotFound(NoVersionResource));
    }
    var section := file.rsrc.value;
    if section.data.Err? {
      return Err(SectionUnread(section.data.error));
    }
    var data := FindVersionResource(section.data.value, section.rva);
    if data.Err? {
      return Err(NotFound(data.error));
    }
    var info := VersionInfo.ParseVersionInfo(data.value);
    r := if info.Ok? then Ok(info.value) else Err(BadVersion(info.error));
  }

  function ReadFile(file: File): Result<VersionInfo.Info, FileError> {
    match file
    case Unopened(cause) => Err(OpenFailed(cause))
    case Opened(None) => Err(NotFound(NoVersionResource))
    case Opened(Some(Section(_, Err(cause)))) => Err(SectionUnread(cause))
    case Opened(Some(Section(rva, Ok(bytes)))) =>
      match Find(bytes, rva)
      case Err(e) => Err(NotFound(e))
      case Ok(data) =>
        match VersionInfo.ReadInfo(data)
        case Err(e) => Err(BadVersion(e))
        case Ok(info) => Ok(info)
  }

  /** A section whose RT_VERSION data is a written resource gives back that resource's versions
      and strings, whatever else the section holds. */
  lemma FileReadBack(section: seq<byte>, sectionRVA: u32, names: u32, languages: u32, leaf: u32,
                     start: nat, size: nat, v: VersionInfo.Resource)
    requires LeadsTo(section, names, languages, leaf) && Describes(section, sectionRVA, leaf, start, size)
    requires VersionInfo.WellFormedResource(v)
    requires |VersionEncoding.Encode(VersionInfo.ResourceBlock(v))| < 0x1_0000
    requires VersionEncoding.Encode(VersionInfo.ResourceBlock(v)) <= section[start..start + size]
    ensures ReadFile(Opened(Some(Section(sectionRVA, Ok(section)))))
         == Ok(VersionInfo.Info(v.file, v.product, VersionInfo.Assigned(map[], VersionInfo.AllPairs(v.sections))))
  {
    hide LeadsTo, Find, U32At, VersionInfo.ReadInfo, VersionInfo.WellFormedSection, VersionInfo.ResourceBlock, VersionEncoding.Encode;
    FindComplete(section, sectionRVA, names, languages, leaf, start, size);
    VersionInfo.ReadBack(v, section[start..start + size]);
  }
}
