/** Where the installer puts things: the two layout computations, the partition tables they lead to, and why the regions
    written at each stage do not disturb each other. */
module InstallPlan {
  import opened Bytes
  import opened DiskLayout
  import Checksums

  const ROOT_INDEX: nat := 2

  datatype Kind = BiosMbr | UefiGpt

  datatype Layout = Layout(
    kind: Kind, bootStart: nat, bootSectors: nat, rootStart: nat, rootSectors: nat, required: nat, targetSectors: nat)

  datatype PlanError =
    | BootReadFailed | NoMbr | BootOverflow | EspOverflow | EspOverlapsGpt | AlignmentOverflow | LayoutOverflow
    | TargetTooSmall

  datatype Plan = Planned(layout: Layout) | Refused(error: PlanError)

  /** Boot area below root area, both on the disk, and room for the partition tables around them. */
  ghost predicate LayoutOk(l: Layout) {
    l.targetSectors < U32_LIMIT && l.required <= l.targetSectors && l.bootStart + l.bootSectors <= l.rootStart &&
    match l.kind
    case BiosMbr => l.bootStart == 0 && l.bootSectors >= 1 && l.required == l.rootStart + l.rootSectors
    case UefiGpt =>
      l.bootStart >= FIRST_USABLE && l.bootSectors >= 1 && l.required == l.rootStart + l.rootSectors + GPT_TRAILING
  }

  /** Some boot partition of the MBR ends past the last sector number. */
  predicate BootsOverflow(mbr: Sector) {
    exists i :: 0 <= i < 4 && IsBoot(PartitionAt(mbr, i)) && EndLba(PartitionAt(mbr, i)).None?
  }

  /** `end` is the least end of a boot area: past sector 0 and past every boot partition. */
  ghost predicate IsBootEnd(mbr: Sector, end: nat) {
    end >= 1 && (forall i :: 0 <= i < 4 && IsBoot(PartitionAt(mbr, i)) ==> EndsBy(PartitionAt(mbr, i), end)) &&
    (end > 1 ==> exists i :: 0 <= i < 4 && IsBoot(PartitionAt(mbr, i)) && EndLba(PartitionAt(mbr, i)) == Some(end))
  }

  /** When each refusal occurs, and when none does. */
  ghost predicate BiosOutcome(mbr: Option<Sector>, root: nat, target: nat, r: Plan) {
    if mbr.None? then r == Refused(BootReadFailed)
    else if ParseMbr(mbr.value).None? then r == Refused(NoMbr)
    else if BootsOverflow(mbr.value) then r == Refused(BootOverflow)
    else
      forall end: nat :: IsBootEnd(mbr.value, end) ==>
        var start := AlignUp(end);
        if start.None? then r == Refused(AlignmentOverflow)
        else if start.value + root >= U32_LIMIT then r == Refused(LayoutOverflow)
        else if target < start.value + root then r == Refused(TargetTooSmall)
        else r == Planned(Layout(BiosMbr, 0, end, start.value, root, start.value + root, target))
  }

  lemma BootEndUnique(mbr: Sector, a: nat, b: nat)
    requires IsBootEnd(mbr, a) && IsBootEnd(mbr, b)
    ensures a == b
  {
    if a > 1 {
      var i :| 0 <= i < 4 && IsBoot(PartitionAt(mbr, i)) && EndLba(PartitionAt(mbr, i)) == Some(a);
      assert EndsBy(PartitionAt(mbr, i), b);
    }
    if b > 1 {
      var i :| 0 <= i < 4 && IsBoot(PartitionAt(mbr, i)) && EndLba(PartitionAt(mbr, i)) == Some(b);
      assert EndsBy(PartitionAt(mbr, i), a);
    }
  }

  /** The boot disk's MBR tells where its boot area ends; the root area starts on the next 1 MiB boundary. */
  method PlanBios(mbr: Option<Sector>, root: nat, target: nat) returns (r: Plan)
    requires root < U32_LIMIT && target < U32_LIMIT
    ensures BiosOutcome(mbr, root, target, r)
    ensures mbr.Some? && ParseMbr(mbr.value).Some? && !BootsOverflow(mbr.value) ==>
      exists end: nat :: IsBootEnd(mbr.value, end)
    ensures r.Planned? ==>
      LayoutOk(r.layout) && r.layout.kind == BiosMbr && r.layout.rootSectors == root && r.layout.targetSectors == target
    ensures r.Planned? ==> r.layout.rootStart % ALIGNMENT == 0 && mbr.Some? && ParseMbr(mbr.value).Some?
    ensures r.Planned? ==> forall i: nat ::
      i < 4 && IsBoot(PartitionAt(mbr.value, i)) ==> EndsBy(PartitionAt(mbr.value, i), r.layout.bootSectors)
  {
    if mbr.None? { return Refused(BootReadFailed); }
    var ps := ParseMbr(mbr.value);
    if ps.None? { return Refused(NoMbr); }
    var end := BootAreaEnd(ps.value);
    BootEndOf(mbr.value, ps.value, end);
    if end.None? { return Refused(BootOverflow); }
    forall other: nat | IsBootEnd(mbr.value, other) ensures other == end.value {
      BootEndUnique(mbr.value, other, end.value);
    }
    var start := AlignUp(end.value);
    if start.None? { return Refused(AlignmentOverflow); }
    if start.value + root >= U32_LIMIT { return Refused(LayoutOverflow); }
    if target < start.value + root { return Refused(TargetTooSmall); }
    forall i: nat | i < 4 && IsBoot(PartitionAt(mbr.value, i)) ensures EndsBy(PartitionAt(mbr.value, i), end.value) {
      assert ps.value[i] == PartitionAt(mbr.value, i);
    }
    return Planned(Layout(BiosMbr, 0, end.value, start.value, root, start.value + root, target));
  }

  /** The end found is that of the MBR's own partitions. */
  lemma BootEndOf(mbr: Sector, ps: seq<Partition>, end: Option<nat>)
    requires ParseMbr(mbr) == Some(ps)
    requires end.None? <==> exists i :: 0 <= i < |ps| && IsBoot(ps[i]) && EndLba(ps[i]).None?
    requires end.Some? ==> end.value >= 1 && forall i :: 0 <= i < |ps| && IsBoot(ps[i]) ==> EndsBy(ps[i], end.value)
    requires end.Some? && end.value > 1 ==> exists i :: 0 <= i < |ps| && IsBoot(ps[i]) && EndLba(ps[i]) == end
    ensures end.None? <==> BootsOverflow(mbr)
    ensures end.Some? ==> IsBootEnd(mbr, end.value)
  {
    assert |ps| == 4 && forall i :: 0 <= i < 4 ==> ps[i] == PartitionAt(mbr, i);
    if end.None? {
      var i :| 0 <= i < |ps| && IsBoot(ps[i]) && EndLba(ps[i]).None?;
      assert IsBoot(PartitionAt(mbr, i));
    }
    if BootsOverflow(mbr) {
      var i :| 0 <= i < 4 && IsBoot(PartitionAt(mbr, i)) && EndLba(PartitionAt(mbr, i)).None?;
      assert IsBoot(ps[i]) && EndLba(ps[i]).None?;
    }
    if end.Some? && end.value > 1 {
      var i :| 0 <= i < |ps| && IsBoot(ps[i]) && EndLba(ps[i]) == end;
      assert IsBoot(PartitionAt(mbr, i));
    }
    forall i | end.Some? && 0 <= i < 4 && IsBoot(PartitionAt(mbr, i)) ensures EndsBy(PartitionAt(mbr, i), end.value) {
      assert IsBoot(ps[i]) && EndsBy(ps[i], end.value);
    }
  }

  predicate EndsBy(p: Partition, end: nat) { EndLba(p).Some? && EndLba(p).value <= end }

  function PlanUefi(esp: GptPartition, root: nat, target: nat): Plan {
    var sectors, end := SizeOf(esp), EndOf(esp);
    if sectors.None? || end.None? then Refused(EspOverflow)
    else if esp.start < FIRST_USABLE then Refused(EspOverlapsGpt)
    else
      var start := AlignUp(end.value);
      if start.None? then Refused(AlignmentOverflow)
      else if start.value + root >= U32_LIMIT || start.value + root + GPT_TRAILING >= U32_LIMIT
        then Refused(LayoutOverflow)
      else if target < start.value + root + GPT_TRAILING then Refused(TargetTooSmall)
      else Planned(Layout(UefiGpt, esp.start, sectors.value, start.value, root, start.value + root + GPT_TRAILING,
        target))
  }

  lemma PlanUefiOk(esp: GptPartition, root: nat, target: nat)
    requires target < U32_LIMIT && PlanUefi(esp, root, target).Planned?
    ensures LayoutOk(PlanUefi(esp, root, target).layout)
  {
  }

  // ---- Regions -----------------------------------------------------------------------------

  function BootLba(l: Layout, i: nat): nat { l.bootStart + i }
  function RootLba(l: Layout, i: nat): nat { l.rootStart + i }

  /** Sector 0 of a BIOS disk is patched after it is copied, so its copy is not verified. */
  function VerifyStart(l: Layout): nat { if l.kind == BiosMbr then 1 else 0 }

  /** The sectors that hold partition tables. */
  predicate IsMeta(l: Layout, lba: nat) {
    if l.kind == BiosMbr then lba == 0 else lba < FIRST_USABLE || lba + GPT_TRAILING >= l.targetSectors
  }

  /** Boot, root and table sectors are pairwise disjoint, BIOS sector 0 excepted, and none lies past the disk. */
  lemma RegionsApart(l: Layout, i: nat, j: nat)
    requires LayoutOk(l)
    ensures i < l.bootSectors ==> BootLba(l, i) < l.targetSectors
    ensures VerifyStart(l) <= i < l.bootSectors ==> !IsMeta(l, BootLba(l, i))
    ensures j < l.rootSectors ==> RootLba(l, j) < l.targetSectors && !IsMeta(l, RootLba(l, j))
    ensures i < l.bootSectors && j < l.rootSectors ==> BootLba(l, i) != RootLba(l, j)
  {
  }

  // ---- The tables ----------------------------------------------------------------------------

  function RootPartition(l: Layout): Partition { Partition(0, COOLFS_TYPE, l.rootStart, l.rootSectors) }

  function PatchedMbr(source: Sector, l: Layout): Sector { WritePartition(source, ROOT_INDEX, RootPartition(l)) }

  /** The boot code is the source's, and the first CoolFS partition in use is the root area. */
  function MbrCheck(source: Sector, target: Sector, l: Layout): bool {
    source[..TABLE] == target[..TABLE] &&
    var ps := ParseMbr(target);
    ps.Some? &&
    var root := FindPartition(ps.value, COOLFS_TYPE);
    root.Some? && root.value.start == l.rootStart && root.value.sectors == l.rootSectors
  }

  /** A partition of the source in use as CoolFS. */
  predicate IsCoolFs(s: Sector, i: nat)
    requires i < 4
  {
    PartitionAt(s, i).sys == COOLFS_TYPE && !Unused(PartitionAt(s, i))
  }

  predicate SameExtent(s: Sector, i: nat, l: Layout)
    requires i < 4
  {
    PartitionAt(s, i).start == l.rootStart && PartitionAt(s, i).sectors == l.rootSectors
  }

  /** After patching the MBR `read` when the tables were written, the check against `again` succeeds if and only if the
      boot code has not changed in between, the root area is not empty, and no other CoolFS partition comes first. */
  lemma MbrCheckExact(read: Sector, again: Sector, l: Layout)
    requires l.rootStart < U32_LIMIT && l.rootSectors < U32_LIMIT
    ensures MbrCheck(again, PatchedMbr(read, l), l) <==>
      again[..TABLE] == read[..TABLE] && l.rootSectors != 0 &&
      (if IsCoolFs(read, 0) then SameExtent(read, 0, l) else IsCoolFs(read, 1) ==> SameExtent(read, 1, l))
  {
    var t := PatchedMbr(read, l);
    WritePartitionReads(read, ROOT_INDEX, RootPartition(l), 0);
    WritePartitionReads(read, ROOT_INDEX, RootPartition(l), 1);
    WritePartitionReads(read, ROOT_INDEX, RootPartition(l), 2);
    WritePartitionReads(read, ROOT_INDEX, RootPartition(l), 3);
    var ps := ParseMbr(t).value;
    FindUnrolled(ps);
  }

  /** It can fail on an honest copy: a source whose first partition is another CoolFS one. */
  lemma MbrCheckExample(l: Layout)
    requires 1 < l.rootStart < U32_LIMIT && l.rootSectors < U32_LIMIT
    ensures var read := WritePartition(Repeat(0, SECTOR), 0, Partition(0, COOLFS_TYPE, 1, 1));
      !MbrCheck(read, PatchedMbr(read, l), l)
  {
    var p := Partition(0, COOLFS_TYPE, 1, 1);
    WritePartitionReads(Repeat(0, SECTOR), 0, p, 0);
    var read := WritePartition(Repeat(0, SECTOR), 0, p);
    assert IsCoolFs(read, 0);
    MbrCheckExact(read, read, l);
  }

  lemma FindUnrolled(ps: seq<Partition>)
    requires |ps| == 4
    ensures FindPartition(ps, COOLFS_TYPE) ==
      if ps[0].sys == COOLFS_TYPE && !Unused(ps[0]) then Some(ps[0])
      else if ps[1].sys == COOLFS_TYPE && !Unused(ps[1]) then Some(ps[1])
      else if ps[2].sys == COOLFS_TYPE && !Unused(ps[2]) then Some(ps[2])
      else if ps[3].sys == COOLFS_TYPE && !Unused(ps[3]) then Some(ps[3]) else None
  {
    var c, d := ps[2..], ps[3..];
    assert ps[1..][1..] == c && c[1..] == d && d[1..] == [];
    assert FindPartition(d, COOLFS_TYPE) == if ps[3].sys == COOLFS_TYPE && !Unused(ps[3]) then Some(ps[3]) else None;
    assert FindPartition(c, COOLFS_TYPE) ==
      if ps[2].sys == COOLFS_TYPE && !Unused(ps[2]) then Some(ps[2]) else FindPartition(d, COOLFS_TYPE);
  }

  type Sum4 = s: seq<u8> | |s| == 4 witness [0, 0, 0, 0]

  /** The fixed identities a GPT is written with, names in UTF-16, and the checksum it is sealed with. */
  datatype Ids = Ids(
    esp: Guid, root: Guid, espUnique: Guid, rootUnique: Guid, disk: Guid, espName: seq<u8>, rootName: seq<u8>,
      crc: seq<u8> -> Sum4)

  predicate IdsOk(ids: Ids) {
    ids.esp != ids.root && ids.esp != Repeat(0, 16) && ids.root != Repeat(0, 16) && |ids.espName| <= 72 &&
      |ids.rootName| <= 72
  }

  const ESP_UNIQUE: Guid := [0x85, 0x10, 0, 0xc0, 0, 0x85, 0, 0x45, 0x91, 0, 0x43, 0x4f, 0x4f, 0x4c, 0x4f, 0x53]
  const ROOT_UNIQUE: Guid := [0x85, 0x20, 0, 0xc0, 0, 0x85, 0, 0x45, 0x92, 0, 0x43, 0x4f, 0x4f, 0x4c, 0x4f, 0x53]
  const DISK_ID: Guid := [0x85, 0, 0, 0xc0, 0, 0x85, 0, 0x45, 0x90, 0, 0x43, 0x4f, 0x4f, 0x4c, 0x4f, 0x53]
  const ESP_NAME: seq<u8> := [0x63, 0, 0x6f, 0, 0x6f, 0, 0x6c, 0, 0x4f, 0, 0x53, 0, 0x20, 0, 0x45, 0, 0x46, 0, 0x49, 0]
  const ROOT_NAME: seq<u8> :=
    [0x63, 0, 0x6f, 0, 0x6f, 0, 0x6c, 0, 0x4f, 0, 0x53, 0, 0x20, 0, 0x52, 0, 0x6f, 0, 0x6f, 0, 0x74, 0]

  function InstallIds(): (r: Ids)
    ensures IdsOk(r)
  {
    assert ESP_GUID[0] == 0x28 && ROOT_GUID[0] == 0xf0 && Repeat(0, 16)[0] == 0;
    Ids(ESP_GUID, ROOT_GUID, ESP_UNIQUE, ROOT_UNIQUE, DISK_ID, ESP_NAME, ROOT_NAME, Crc32Bytes)
  }

  function EspEntry(ids: Ids, l: Layout): (r: seq<u8>)
    requires l.bootSectors > 0 && IdsOk(ids)
    ensures |r| == GPT_ENTRY
  {
    GptEntry(ids.esp, ids.espUnique, l.bootStart, l.bootSectors, ids.espName)
  }

  function RootEntry(ids: Ids, l: Layout): (r: seq<u8>)
    requires l.rootSectors > 0 && IdsOk(ids)
    ensures |r| == GPT_ENTRY
  {
    GptEntry(ids.root, ids.rootUnique, l.rootStart, l.rootSectors, ids.rootName)
  }

  function Crc32Bytes(bytes: seq<u8>): Sum4 {
    LeBytes(Checksums.ValueOf(Checksums.Crc32(bytes)), 4)
  }

  /** Sector `i` of the entry array. */
  function EntrySectorAt(ids: Ids, l: Layout, i: nat): Sector
    requires l.bootSectors > 0 && l.rootSectors > 0 && IdsOk(ids)
  {
    if i == 0 then EntrySector(EspEntry(ids, l), RootEntry(ids, l)) else Repeat(0, SECTOR)
  }

  function EntryArray(ids: Ids, l: Layout): seq<u8>
    requires l.bootSectors > 0 && l.rootSectors > 0 && IdsOk(ids)
  {
    EspEntry(ids, l) + RootEntry(ids, l) + Repeat(0, (GPT_COUNT - 2) * GPT_ENTRY)
  }

  /** The header, with its own checksum taken while that field is zero. */
  function Sealed(crc: seq<u8> -> Sum4, h: Header): (r: Header)
    requires HeaderOk(h)
    ensures HeaderOk(r) && r == h.(headerCrc := r.headerCrc)
  {
    h.(headerCrc := crc(HeaderSector(h.(headerCrc := [0, 0, 0, 0]))[..92]))
  }

  /** A reader that zeroes the checksum field and recomputes the checksum over the 92 bytes of the header gets that
      field. */
  predicate HeaderSealed(crc: seq<u8> -> Sum4, s: Sector) { s[16..20] == crc(Splice(s, 16, [0, 0, 0, 0])[..92]) }

  lemma SealedReads(crc: seq<u8> -> Sum4, h: Header)
    requires HeaderOk(h)
    ensures var s := HeaderSector(Sealed(crc, h)); HeaderSealed(crc, s) && s[88..92] == h.entriesCrc
  {
    var r := Sealed(crc, h);
    HeaderFieldAt(r, 3);
    HeaderFieldAt(r, 12);
    HeaderZeroed(r);
  }

  lemma HeaderZeroed(h: Header)
    requires HeaderOk(h)
    ensures HeaderSector(h.(headerCrc := [0, 0, 0, 0])) == Splice(HeaderSector(h), 16, [0, 0, 0, 0])
  {
    var zeros := [0, 0, 0, 0];
    var pre, post := HeaderFields(h)[..3], HeaderFields(h)[4..];
    HeaderSplit(h, h);
    HeaderSplit(h, h.(headerCrc := zeros));
    FieldRewritten(Repeat(0, SECTOR), pre, Field(16, h.headerCrc), zeros, post);
  }

  lemma HeaderSplit(h: Header, g: Header)
    requires HeaderOk(h) && HeaderOk(g) && g == h.(headerCrc := g.headerCrc)
    ensures HeaderFields(g) == HeaderFields(h)[..3] + [Field(16, g.headerCrc)] + HeaderFields(h)[4..]
    ensures AllFrom(HeaderFields(h)[..3], 0, SECTOR) && AllFrom(HeaderFields(h)[4..], 20, SECTOR)
  {
  }

  /** Sectors end to end. */
  function Joined(sectors: seq<Sector>): (r: seq<u8>)
    ensures |r| == SECTOR * |sectors|
  {
    if sectors == [] then [] else sectors[0] + Joined(sectors[1..])
  }

  function ZeroSector(): Sector { Repeat(0, SECTOR) }

  lemma {:induction false} JoinedZeros(n: nat)
    ensures Joined(Repeat(ZeroSector(), n)) == Repeat(0, SECTOR * n)
  {
    if n > 0 {
      JoinedZeros(n - 1);
      assert Repeat(ZeroSector(), n)[1..] == Repeat(ZeroSector(), n - 1);
    }
  }

  /** The sectors of the entry array hold the entries the checksum is taken over. */
  lemma ArraySectors(ids: Ids, l: Layout)
    requires l.bootSectors > 0 && l.rootSectors > 0 && IdsOk(ids)
    ensures Joined([EntrySectorAt(ids, l, 0)] + Repeat(ZeroSector(), GPT_ENTRY_SECTORS - 1)) == EntryArray(ids, l)
  {
    var first, zeros := EntrySectorAt(ids, l, 0), Repeat(ZeroSector(), GPT_ENTRY_SECTORS - 1);
    var all: seq<Sector> := [first] + zeros;
    assert all[0] == first && all[1..] == zeros;
    JoinedZeros(GPT_ENTRY_SECTORS - 1);
    PaddedEntries(EspEntry(ids, l), RootEntry(ids, l));
  }

  lemma PaddedEntries(a: seq<u8>, b: seq<u8>)
    requires |a| == |b| == GPT_ENTRY
    ensures EntrySector(a, b) + Repeat(0, SECTOR * (GPT_ENTRY_SECTORS - 1)) ==
      a + b + Repeat(0, (GPT_COUNT - 2) * GPT_ENTRY)
  {
  }

  /** A header at `current` whose entries start at `entries`, before its own checksum is in place. */
  function HeaderAt(disk: Guid, sectors: nat, current: nat, backup: nat, entries: nat, sum: Sum4): (h: Header)
    requires sectors > GPT_TRAILING
    ensures HeaderOk(h)
  {
    Header(current, backup, FIRST_USABLE, sectors - GPT_TRAILING, entries, disk, [0, 0, 0, 0], sum)
  }

  function PrimaryOf(ids: Ids, sectors: nat, sum: Sum4): (h: Header)
    requires sectors > GPT_TRAILING
    ensures HeaderOk(h)
  {
    Sealed(ids.crc, HeaderAt(ids.disk, sectors, 1, sectors - 1, 2, sum))
  }

  function BackupOf(ids: Ids, sectors: nat, sum: Sum4): (h: Header)
    requires sectors > GPT_TRAILING
    ensures HeaderOk(h)
  {
    Sealed(ids.crc, HeaderAt(ids.disk, sectors, sectors - 1, 1, sectors - GPT_TRAILING, sum))
  }

  function PrimaryHeader(ids: Ids, l: Layout): (h: Header)
    requires l.bootSectors > 0 && l.rootSectors > 0 && l.targetSectors > GPT_TRAILING && IdsOk(ids)
    ensures HeaderOk(h)
  {
    PrimaryOf(ids, l.targetSectors, ids.crc(EntryArray(ids, l)))
  }

  function BackupHeader(ids: Ids, l: Layout): (h: Header)
    requires l.bootSectors > 0 && l.rootSectors > 0 && l.targetSectors > GPT_TRAILING && IdsOk(ids)
    ensures HeaderOk(h)
  {
    BackupOf(ids, l.targetSectors, ids.crc(EntryArray(ids, l)))
  }

  predicate Matches(esp: Option<GptPartition>, root: Option<GptPartition>, l: Layout) {
    esp.Some? && root.Some? && esp.value.start == l.bootStart && SizeOf(esp.value) == Some(l.bootSectors) &&
    root.value.start == l.rootStart && SizeOf(root.value) == Some(l.rootSectors)
  }

  /** Both partitions are found, with the extents of the layout. */
  predicate GptCheck(ids: Ids, disk: seq<Sector>, l: Layout) {
    Matches(FindGpt(disk, ids.esp), FindGpt(disk, ids.root), l)
  }

  function EspOf(ids: Ids, l: Layout): GptPartition
    requires l.bootSectors > 0
  {
    GptPartition(ids.esp, l.bootStart, l.bootStart + l.bootSectors - 1)
  }

  function RootOf(ids: Ids, l: Layout): GptPartition
    requires l.rootSectors > 0
  {
    GptPartition(ids.root, l.rootStart, l.rootStart + l.rootSectors - 1)
  }

  ghost predicate PrimaryFor(h: Header, l: Layout) {
    HeaderOk(h) && h.current == 1 && h.backup == l.targetSectors - 1 && h.firstUsable == FIRST_USABLE &&
    h.lastUsable == l.targetSectors - GPT_TRAILING && h.entries == 2
  }

  lemma PrimaryFits(ids: Ids, l: Layout)
    requires LayoutOk(l) && l.kind == UefiGpt && l.rootSectors > 0 && IdsOk(ids)
    ensures PrimaryFor(PrimaryHeader(ids, l), l)
  {
  }

  /** The tables as the installer writes them, under a primary header `h`. */
  ghost predicate GptWritten(ids: Ids, disk: seq<Sector>, l: Layout, h: Header)
    requires l.bootSectors > 0 && l.rootSectors > 0 && HeaderOk(h) && IdsOk(ids)
  {
    |disk| == l.targetSectors >= 3 && disk[0] == ProtectiveMbr(l.targetSectors) && disk[1] == HeaderSector(h) &&
    disk[2] == EntrySectorAt(ids, l, 0)
  }

  lemma EntriesRead(ids: Ids, l: Layout)
    requires LayoutOk(l) && l.kind == UefiGpt && l.rootSectors > 0 && IdsOk(ids)
    ensures ParseGptEntry(EspEntry(ids, l)) == Some(EspOf(ids, l)) &&
      ParseGptEntry(RootEntry(ids, l)) == Some(RootOf(ids, l))
  {
    GptEntryReads(ids.esp, ids.espUnique, l.bootStart, l.bootSectors, ids.espName);
    GptEntryReads(ids.root, ids.rootUnique, l.rootStart, l.rootSectors, ids.rootName);
  }

  lemma BothMatch(ids: Ids, l: Layout)
    requires LayoutOk(l) && l.kind == UefiGpt && l.rootSectors > 0
    ensures Matches(Some(EspOf(ids, l)), Some(RootOf(ids, l)), l)
  {
  }

  lemma PrimaryInRange(l: Layout, h: Header)
    requires LayoutOk(l) && l.kind == UefiGpt && PrimaryFor(h, l)
    ensures h.current < l.targetSectors && h.backup < l.targetSectors && h.firstUsable <= h.lastUsable < l.targetSectors
    ensures 3 <= l.targetSectors < U32_LIMIT && h.entries == 2 && HeaderOk(h)
  {
  }

  // ---- Both copies of the tables -------------------------------------------------------------

  /** The sectors at both ends of a GPT disk that hold its tables. */
  function MetaOf(disk: seq<Sector>): (r: seq<Sector>)
    requires |disk| >= FIRST_USABLE + GPT_TRAILING
    ensures |r| == FIRST_USABLE + GPT_TRAILING
  {
    disk[..FIRST_USABLE] + disk[|disk| - GPT_TRAILING..]
  }

  /** Protective MBR, primary header and entries at the start, entries and backup header at the end. */
  function Laid(first: Sector, header: Sector, entries: Sector, backup: Sector): (r: seq<Sector>)
    ensures |r| == FIRST_USABLE + GPT_TRAILING
  {
    var zeros := Repeat(ZeroSector(), GPT_ENTRY_SECTORS - 1);
    [first, header, entries] + zeros + [entries] + zeros + [backup]
  }

  /** All the tables of a layout. */
  function Tables(ids: Ids, l: Layout): (r: seq<Sector>)
    requires l.bootSectors > 0 && l.rootSectors > 0 && l.targetSectors > GPT_TRAILING && IdsOk(ids)
    ensures |r| == FIRST_USABLE + GPT_TRAILING
  {
    Laid(ProtectiveMbr(l.targetSectors), HeaderSector(PrimaryHeader(ids, l)), EntrySectorAt(ids, l, 0),
         HeaderSector(BackupHeader(ids, l)))
  }

  function PrimaryArray(disk: seq<Sector>): (r: seq<Sector>)
    requires |disk| >= FIRST_USABLE + GPT_TRAILING
    ensures |r| == GPT_ENTRY_SECTORS
  {
    disk[2..2 + GPT_ENTRY_SECTORS]
  }

  function BackupArray(disk: seq<Sector>): (r: seq<Sector>)
    requires |disk| >= FIRST_USABLE + GPT_TRAILING
    ensures |r| == GPT_ENTRY_SECTORS
  {
    disk[|disk| - GPT_TRAILING..|disk| - 1]
  }

  /** The last sector is a header that leads to a second copy of the entries. */
  predicate GptBacked(disk: seq<Sector>)
    requires |disk| >= FIRST_USABLE + GPT_TRAILING
  {
    ParseHeader(disk[|disk| - 1], |disk|) == Some((|disk| - GPT_TRAILING, GPT_COUNT)) &&
      BackupArray(disk) == PrimaryArray(disk)
  }

  /** Both headers carry their own checksum and that of the entries. */
  predicate GptSummed(crc: seq<u8> -> Sum4, disk: seq<Sector>)
    requires |disk| >= FIRST_USABLE + GPT_TRAILING
  {
    var sum := crc(Joined(PrimaryArray(disk)));
    HeaderSealed(crc, disk[1]) && HeaderSealed(crc, disk[|disk| - 1]) && disk[1][88..92] == sum &&
      disk[|disk| - 1][88..92] == sum
  }

  predicate GptWhole(ids: Ids, disk: seq<Sector>, l: Layout) {
    |disk| >= FIRST_USABLE + GPT_TRAILING && GptCheck(ids, disk, l) && GptBacked(disk) && GptSummed(ids.crc, disk)
  }

  lemma LaidAt(disk: seq<Sector>, first: Sector, header: Sector, entries: Sector, backup: Sector)
    requires |disk| >= FIRST_USABLE + GPT_TRAILING && MetaOf(disk) == Laid(first, header, entries, backup)
    ensures disk[0] == first && disk[1] == header && disk[2] == entries && disk[|disk| - 1] == backup
    ensures PrimaryArray(disk) == BackupArray(disk) == [entries] + Repeat(ZeroSector(), GPT_ENTRY_SECTORS - 1)
  {
    var m, n := Laid(first, header, entries, backup), |disk| - GPT_TRAILING;
    var list := [entries] + Repeat(ZeroSector(), GPT_ENTRY_SECTORS - 1);
    var head, tail := disk[..FIRST_USABLE], disk[n..];
    assert head == MetaOf(disk)[..FIRST_USABLE] == [first, header] + list;
    assert tail == MetaOf(disk)[FIRST_USABLE..] == list + [backup];
    assert PrimaryArray(disk) == head[2..] == list;
    assert BackupArray(disk) == tail[..GPT_ENTRY_SECTORS] == list;
    assert disk[|disk| - 1] == tail[GPT_ENTRY_SECTORS];
    assert disk[0] == head[0] && disk[1] == head[1] && disk[2] == head[2];
  }

  lemma BackupFits(ids: Ids, l: Layout)
    requires LayoutOk(l) && l.kind == UefiGpt && l.rootSectors > 0 && IdsOk(ids)
    ensures var h := BackupHeader(ids, l);
      h.current == l.targetSectors - 1 && h.backup == 1 && h.firstUsable == FIRST_USABLE &&
      h.lastUsable == h.entries == l.targetSectors - GPT_TRAILING && HeaderOk(h)
  {
  }

  /** The headers count the first sector of the backup entries among the usable ones, though the UEFI specification has
      the backup entries lie after the last usable sector; no partition the installer writes reaches it. */
  lemma UsableReachesBackup(ids: Ids, l: Layout)
    requires LayoutOk(l) && l.kind == UefiGpt && l.rootSectors > 0 && IdsOk(ids)
    ensures PrimaryHeader(ids, l).lastUsable == BackupHeader(ids, l).lastUsable == BackupHeader(ids, l).entries
    ensures EspOf(ids, l).end < RootOf(ids, l).start <= RootOf(ids, l).end < BackupHeader(ids, l).entries
  {
  }

  /** On a GPT disk with both copies of the tables the check always succeeds, both headers lead to the same entries, and
      all checksums agree. */
  lemma TablesWhole(ids: Ids, disk: seq<Sector>, l: Layout)
    requires LayoutOk(l) && l.kind == UefiGpt && l.rootSectors > 0 && IdsOk(ids) && |disk| == l.targetSectors
    requires |disk| >= FIRST_USABLE + GPT_TRAILING
    requires MetaOf(disk) == Tables(ids, l)
    ensures GptWhole(ids, disk, l)
  {
    var h, b, e := PrimaryHeader(ids, l), BackupHeader(ids, l), EntrySectorAt(ids, l, 0);
    LaidAt(disk, ProtectiveMbr(l.targetSectors), HeaderSector(h), e, HeaderSector(b));
    PrimaryFits(ids, l);
    GptCheckPasses(ids, disk, l, h);
    BackupFits(ids, l);
    BackupReads(disk, b);
    ArraySectors(ids, l);
    PrimarySealed(ids, l.targetSectors, ids.crc(EntryArray(ids, l)));
    BackupSealed(ids, l.targetSectors, ids.crc(EntryArray(ids, l)));
  }

  /** So it is with the identities and the checksum the installer writes. */
  lemma InstalledTablesWhole(disk: seq<Sector>, l: Layout)
    requires LayoutOk(l) && l.kind == UefiGpt && l.rootSectors > 0 && |disk| == l.targetSectors
    requires |disk| >= FIRST_USABLE + GPT_TRAILING && MetaOf(disk) == Tables(InstallIds(), l)
    ensures GptWhole(InstallIds(), disk, l)
  {
    TablesWhole(InstallIds(), disk, l);
  }

  lemma BackupReads(disk: seq<Sector>, h: Header)
    requires FIRST_USABLE + GPT_TRAILING <= |disk| < U32_LIMIT && HeaderOk(h) && disk[|disk| - 1] == HeaderSector(h)
    requires h.current == |disk| - 1 && h.backup == 1 && h.firstUsable == FIRST_USABLE &&
      h.lastUsable == h.entries == |disk| - GPT_TRAILING
    requires PrimaryArray(disk) == BackupArray(disk)
    ensures GptBacked(disk)
  {
    BackupParses(disk[|disk| - 1], h, |disk|);
  }

  lemma BackupParses(s: Sector, h: Header, sectors: nat)
    requires FIRST_USABLE + GPT_TRAILING <= sectors < U32_LIMIT && HeaderOk(h) && s == HeaderSector(h)
    requires h.current == sectors - 1 && h.backup == 1 && h.firstUsable == FIRST_USABLE
    requires h.lastUsable == h.entries == sectors - GPT_TRAILING
    ensures ParseHeader(s, sectors) == Some((sectors - GPT_TRAILING, GPT_COUNT))
  {
    HeaderReads(h, sectors);
  }

  lemma PrimarySealed(ids: Ids, sectors: nat, sum: Sum4)
    requires sectors > GPT_TRAILING
    ensures var s := HeaderSector(PrimaryOf(ids, sectors, sum)); HeaderSealed(ids.crc, s) && s[88..92] == sum
  {
    SealedReads(ids.crc, HeaderAt(ids.disk, sectors, 1, sectors - 1, 2, sum));
  }

  lemma BackupSealed(ids: Ids, sectors: nat, sum: Sum4)
    requires sectors > GPT_TRAILING
    ensures var s := HeaderSector(BackupOf(ids, sectors, sum)); HeaderSealed(ids.crc, s) && s[88..92] == sum
  {
    SealedReads(ids.crc, HeaderAt(ids.disk, sectors, sectors - 1, 1, sectors - GPT_TRAILING, sum));
  }

  /** On a GPT disk the check of the tables always succeeds. */
  lemma GptCheckPasses(ids: Ids, disk: seq<Sector>, l: Layout, h: Header)
    requires LayoutOk(l) && l.kind == UefiGpt && l.rootSectors > 0 && IdsOk(ids)
    requires PrimaryFor(h, l) && GptWritten(ids, disk, l, h)
    ensures GptCheck(ids, disk, l)
  {
    EntriesRead(ids, l);
    PrimaryInRange(l, h);
    FindsBoth(disk, h, EspEntry(ids, l), RootEntry(ids, l), EspOf(ids, l), RootOf(ids, l));
    BothMatch(ids, l);
  }
}
