/** Partition tables: the MBR and GPT sectors the installer writes and the way it reads them back. */
module DiskLayout {
  import opened Bytes

  const SECTOR: nat := 512
  const TABLE: nat := 446
  const SIGNATURE_AT: nat := 510
  const STAGE2_TYPE: u8 := 0x20
  const FAT32_TYPE: u8 := 0x0C
  const COOLFS_TYPE: u8 := 0xC0
  const ALIGNMENT: nat := 2048
  const U32_LIMIT: nat := 0x1_0000_0000
  const GPT_ENTRY: nat := 128
  const GPT_COUNT: nat := 128
  const GPT_ENTRY_SECTORS: nat := 32
  const GPT_TRAILING: nat := 33
  const FIRST_USABLE: nat := 34

  type Sector = s: seq<u8> | |s| == 512 witness Repeat(0, 512)

  // ---- Fields written into a block of bytes ------------------------------------------------

  datatype Field = Field(off: nat, bytes: seq<u8>)

  /** Fields in ascending order that do not overlap. */
  ghost predicate Apart(fields: seq<Field>, len: nat) {
    (forall i :: 0 <= i < |fields| ==> fields[i].off + |fields[i].bytes| <= len) &&
    (forall i, j :: 0 <= i < j < |fields| ==> fields[i].off + |fields[i].bytes| <= fields[j].off)
  }

  function Put(base: seq<u8>, fields: seq<Field>): (r: seq<u8>)
    requires forall i :: 0 <= i < |fields| ==> fields[i].off + |fields[i].bytes| <= |base|
    ensures |r| == |base|
  {
    if fields == [] then base
    else
      var n := |fields| - 1;
      Splice(Put(base, fields[..n]), fields[n].off, fields[n].bytes)
  }

  /** Every field reads back, whatever the others hold. */
  lemma {:induction false} FieldReads(base: seq<u8>, fields: seq<Field>, k: nat)
    requires Apart(fields, |base|) && k < |fields|
    ensures var f := fields[k]; Put(base, fields)[f.off..f.off + |f.bytes|] == f.bytes
  {
    var n := |fields| - 1;
    var before, last, f := Put(base, fields[..n]), fields[n], fields[k];
    if k < n {
      FieldReads(base, fields[..n], k);
      assert fields[..n][k] == f;
      SliceKept(before, last.off, last.bytes, f.off, |f.bytes|);
    } else {
      SliceWritten(before, last.off, last.bytes);
    }
  }

  /** Every field fits, and none starts before `from`. */
  ghost predicate AllFrom(fields: seq<Field>, from: nat, len: nat) {
    forall i :: 0 <= i < |fields| ==> from <= fields[i].off && fields[i].off + |fields[i].bytes| <= len
  }

  /** Overwriting a field is as if it had been written so from the start. */
  lemma FieldRewritten(s: seq<u8>, pre: seq<Field>, f: Field, bytes: seq<u8>, post: seq<Field>)
    requires AllFrom(pre, 0, |s|) && f.off + |f.bytes| <= |s| && |bytes| == |f.bytes| &&
      AllFrom(post, f.off + |f.bytes|, |s|)
    ensures AllFrom(pre + [f] + post, 0, |s|) && AllFrom(pre + [Field(f.off, bytes)] + post, 0, |s|)
    ensures Put(s, pre + [Field(f.off, bytes)] + post) == Splice(Put(s, pre + [f] + post), f.off, bytes)
  {
    var g := Field(f.off, bytes);
    FieldAmong(s, pre, f, post);
    FieldAmong(s, pre, g, post);
    SpliceOver(Put(Put(s, pre), post), f.off, f.bytes, bytes);
  }

  lemma FieldAmong(s: seq<u8>, pre: seq<Field>, f: Field, post: seq<Field>)
    requires AllFrom(pre, 0, |s|) && f.off + |f.bytes| <= |s| && AllFrom(post, f.off + |f.bytes|, |s|)
    ensures AllFrom(pre + [f] + post, 0, |s|) &&
      Put(s, pre + [f] + post) == Splice(Put(Put(s, pre), post), f.off, f.bytes)
  {
    PutOne(s, pre, f);
    PutAppend(s, pre + [f], post);
    PutCommutes(Put(s, pre), f.off, f.bytes, post);
  }

  lemma {:induction false} PutOne(s: seq<u8>, pre: seq<Field>, f: Field)
    requires AllFrom(pre, 0, |s|) && f.off + |f.bytes| <= |s|
    ensures AllFrom(pre + [f], 0, |s|) && Put(s, pre + [f]) == Splice(Put(s, pre), f.off, f.bytes)
  {
    assert (pre + [f])[..|pre|] == pre;
  }

  lemma {:induction false} PutAppend(s: seq<u8>, a: seq<Field>, b: seq<Field>)
    requires AllFrom(a, 0, |s|) && AllFrom(b, 0, |s|)
    ensures AllFrom(a + b, 0, |s|) && Put(s, a + b) == Put(Put(s, a), b)
    decreases |b|
  {
    AllFromBoth(a, b, |s|);
    if b == [] {
      assert a + b == a;
    } else {
      var n := |b| - 1;
      var rest, last := b[..n], b[n];
      assert b == rest + [last] && a + b == a + rest + [last];
      PutAppend(s, a, rest);
      PutOne(s, a + rest, last);
      PutOne(Put(s, a), rest, last);
    }
  }

  lemma AllFromBoth(a: seq<Field>, b: seq<Field>, len: nat)
    requires AllFrom(a, 0, len) && AllFrom(b, 0, len)
    ensures AllFrom(a + b, 0, len)
  {
  }

  lemma {:induction false} PutCommutes(s: seq<u8>, off: nat, t: seq<u8>, fields: seq<Field>)
    requires AllFrom(fields, off + |t|, |s|) && off + |t| <= |s|
    ensures Put(Splice(s, off, t), fields) == Splice(Put(s, fields), off, t)
  {
    if fields != [] {
      var n := |fields| - 1;
      var last := fields[n];
      PutCommutes(s, off, t, fields[..n]);
      SpliceApart(Put(s, fields[..n]), off, t, last.off, last.bytes);
    }
  }

  lemma SpliceApart(s: seq<u8>, a: nat, t: seq<u8>, b: nat, u: seq<u8>)
    requires a + |t| <= b && b + |u| <= |s|
    ensures Splice(Splice(s, a, t), b, u) == Splice(Splice(s, b, u), a, t)
  {
  }

  lemma SpliceOver(s: seq<u8>, a: nat, t: seq<u8>, u: seq<u8>)
    requires |t| == |u| && a + |t| <= |s|
    ensures Splice(Splice(s, a, t), a, u) == Splice(s, a, u)
  {
  }

  function U32At(b: seq<u8>, off: nat): nat
    requires off + 4 <= |b|
  {
    FromLe(b[off..off + 4])
  }

  function U64At(b: seq<u8>, off: nat): nat
    requires off + 8 <= |b|
  {
    FromLe(b[off..off + 8])
  }

  lemma U32RoundTrip(v: nat)
    requires v < U32_LIMIT
    ensures FromLe(LeBytes(v, 4)) == v && FromLe(LeBytes(v, 8)) == v
  {
    assert Pow256(4) == U32_LIMIT && Pow256(8) >= U32_LIMIT;
    LeRoundTrip(v, 4);
    LeRoundTrip(v, 8);
  }

  // ---- MBR ---------------------------------------------------------------------------------

  datatype Partition = Partition(boot: u8, sys: u8, start: nat, sectors: nat)

  predicate Unused(p: Partition) { p.sys == 0 || p.sectors == 0 }

  function PartitionAt(s: Sector, i: nat): Partition
    requires i < 4
  {
    var off := TABLE + 16 * i;
    Partition(s[off], s[off + 4], U32At(s, off + 8), U32At(s, off + 12))
  }

  predicate HasSignature(s: Sector) { s[SIGNATURE_AT..SIGNATURE_AT + 2] == [0x55, 0xAA] }

  function ParseMbr(s: Sector): Option<seq<Partition>> {
    if !HasSignature(s) then None else Some([PartitionAt(s, 0), PartitionAt(s, 1), PartitionAt(s, 2),
      PartitionAt(s, 3)])
  }

  function EntryBytes(p: Partition): (r: seq<u8>)
    ensures |r| == 16
  {
    [p.boot, 0, 0, 0, p.sys, 0, 0, 0] + LeBytes(p.start, 4) + LeBytes(p.sectors, 4)
  }

  /** The sector with partition `i` and the signature written into it. */
  function WritePartition(s: Sector, i: nat, p: Partition): Sector
    requires i < 4
  {
    Splice(Splice(s, TABLE + 16 * i, EntryBytes(p)), SIGNATURE_AT, [0x55, 0xAA])
  }

  lemma EntryReads(b: Sector, i: nat, p: Partition)
    requires i < 4 && p.start < U32_LIMIT && p.sectors < U32_LIMIT
    requires b[TABLE + 16 * i..TABLE + 16 * i + 16] == EntryBytes(p)
    ensures PartitionAt(b, i) == p
  {
    var off := TABLE + 16 * i;
    var e := b[off..off + 16];
    SliceOfSlice(b, off, 16, 8, 12);
    SliceOfSlice(b, off, 16, 12, 16);
    assert e[8..12] == LeBytes(p.start, 4);
    assert e[12..16] == LeBytes(p.sectors, 4);
    assert e[0] == b[off] && e[4] == b[off + 4];
    U32RoundTrip(p.start);
    U32RoundTrip(p.sectors);
  }

  lemma SameEntry(a: Sector, b: Sector, i: nat)
    requires i < 4 && a[TABLE + 16 * i..TABLE + 16 * i + 16] == b[TABLE + 16 * i..TABLE + 16 * i + 16]
    ensures PartitionAt(a, i) == PartitionAt(b, i)
  {
    var off := TABLE + 16 * i;
    SliceOfSlice(a, off, 16, 8, 12);
    SliceOfSlice(a, off, 16, 12, 16);
    SliceOfSlice(b, off, 16, 8, 12);
    SliceOfSlice(b, off, 16, 12, 16);
    assert a[off..off + 16][0] == a[off] && b[off..off + 16][0] == b[off];
    assert a[off..off + 16][4] == a[off + 4] && b[off..off + 16][4] == b[off + 4];
  }

  /** Only that partition changes; the boot code and the other partitions stay, and the result has its signature. */
  lemma WritePartitionReads(s: Sector, i: nat, p: Partition, j: nat)
    requires i < 4 && j < 4 && p.start < U32_LIMIT && p.sectors < U32_LIMIT
    ensures var w := WritePartition(s, i, p);
      HasSignature(w) && w[..TABLE] == s[..TABLE] && PartitionAt(w, j) == if j == i then p else PartitionAt(s, j)
  {
    var mid := Splice(s, TABLE + 16 * i, EntryBytes(p));
    var w := WritePartition(s, i, p);
    SliceWritten(mid, SIGNATURE_AT, [0x55, 0xAA]);
    var off := TABLE + 16 * j;
    SliceKept(mid, SIGNATURE_AT, [0x55, 0xAA], off, 16);
    SliceKept(mid, SIGNATURE_AT, [0x55, 0xAA], 0, TABLE);
    SliceKept(s, TABLE + 16 * i, EntryBytes(p), 0, TABLE);
    if j == i {
      SliceWritten(s, off, EntryBytes(p));
      EntryReads(w, i, p);
    } else {
      SliceKept(s, TABLE + 16 * i, EntryBytes(p), off, 16);
      SameEntry(w, s, j);
    }
  }

  /** The first partition in use with this type. */
  function FindPartition(ps: seq<Partition>, sys: u8): Option<Partition> {
    if ps == [] then None
    else if ps[0].sys == sys && !Unused(ps[0]) then Some(ps[0])
    else FindPartition(ps[1..], sys)
  }

  // ---- Where the boot area ends --------------------------------------------------------------

  function EndLba(p: Partition): Option<nat> {
    if Unused(p) then Some(0) else if p.start + p.sectors >= U32_LIMIT then None else Some(p.start + p.sectors)
  }

  predicate IsBoot(p: Partition) { p.sys == STAGE2_TYPE || p.sys == FAT32_TYPE }

  /** At least 1, and past every boot partition; none if one of those reaches past 2^32. */
  method BootAreaEnd(ps: seq<Partition>) returns (end: Option<nat>)
    ensures end.None? <==> exists i :: 0 <= i < |ps| && IsBoot(ps[i]) && EndLba(ps[i]).None?
    ensures end.Some? ==> 1 <= end.value < U32_LIMIT
    ensures end.Some? ==> forall i ::
      0 <= i < |ps| && IsBoot(ps[i]) ==> EndLba(ps[i]).Some? && EndLba(ps[i]).value <= end.value
    ensures end.Some? && end.value > 1 ==> exists i :: 0 <= i < |ps| && IsBoot(ps[i]) && EndLba(ps[i]) == end
  {
    var e := 1;
    var i := 0;
    while i < |ps|
      invariant 0 <= i <= |ps| && 1 <= e < U32_LIMIT
      invariant forall j :: 0 <= j < i && IsBoot(ps[j]) ==> EndLba(ps[j]).Some? && EndLba(ps[j]).value <= e
      invariant e > 1 ==> exists j :: 0 <= j < i && IsBoot(ps[j]) && EndLba(ps[j]) == Some(e)
    {
      if IsBoot(ps[i]) {
        var here := EndLba(ps[i]);
        if here.None? { return None; }
        if here.value > e { e := here.value; }
      }
      i := i + 1;
    }
    return Some(e);
  }

  function AlignUp(lba: nat): (r: Option<nat>)
    ensures r.Some? ==> lba <= r.value < lba + ALIGNMENT && r.value % ALIGNMENT == 0
  {
    if lba + ALIGNMENT - 1 >= U32_LIMIT then None else Some((lba + ALIGNMENT - 1) / ALIGNMENT * ALIGNMENT)
  }

  // ---- GPT ---------------------------------------------------------------------------------

  type Guid = g: seq<u8> | |g| == 16 witness Repeat(0, 16)

  const ESP_GUID: Guid :=
    [0x28, 0x73, 0x2a, 0xc1, 0x1f, 0xf8, 0xd2, 0x11, 0xba, 0x4b, 0x00, 0xa0, 0xc9, 0x3e, 0xc9, 0x3b]
  const ROOT_GUID: Guid :=
    [0xf0, 0xc6, 0xc7, 0xb9, 0x2e, 0x9d, 0x6a, 0x4f, 0x9a, 0x3d, 0x43, 0x4f, 0x4f, 0x4c, 0x46, 0x53]
  const GPT_MAGIC: seq<u8> := [0x45, 0x46, 0x49, 0x20, 0x50, 0x41, 0x52, 0x54]

  datatype GptPartition = GptPartition(kind: Guid, start: nat, end: nat)

  function SizeOf(p: GptPartition): Option<nat> {
    if p.end < p.start || p.end - p.start + 1 >= U32_LIMIT then None else Some(p.end - p.start + 1)
  }

  function EndOf(p: GptPartition): Option<nat> { if p.end + 1 >= U32_LIMIT then None else Some(p.end + 1) }

  function EntryFields(kind: Guid, unique: Guid, start: nat, sectors: nat, name: seq<u8>): seq<Field>
    requires sectors > 0
  {
    [Field(0, kind), Field(16, unique), Field(32, LeBytes(start, 8)), Field(40, LeBytes(start + sectors - 1, 8)),
      Field(56, name)]
  }

  /** `name` is the partition's name in UTF-16, at most 36 units. */
  function GptEntry(kind: Guid, unique: Guid, start: nat, sectors: nat, name: seq<u8>): (r: seq<u8>)
    requires sectors > 0 && |name| <= 72
    ensures |r| == GPT_ENTRY
  {
    Put(Repeat(0, GPT_ENTRY), EntryFields(kind, unique, start, sectors, name))
  }

  function ParseGptEntry(e: seq<u8>): Option<GptPartition> {
    if |e| < GPT_ENTRY || e[..16] == Repeat(0, 16) then None
    else
      var start, end := U64At(e, 32), U64At(e, 40);
      if start >= U32_LIMIT || end >= U32_LIMIT || start == 0 || end < start then None
      else Some(GptPartition(e[..16], start, end))
  }

  lemma GptEntryReads(kind: Guid, unique: Guid, start: nat, sectors: nat, name: seq<u8>)
    requires 0 < start && 0 < sectors && start + sectors <= U32_LIMIT && |name| <= 72 && kind != Repeat(0, 16)
    ensures ParseGptEntry(GptEntry(kind, unique, start, sectors, name)) ==
      Some(GptPartition(kind, start, start + sectors - 1))
  {
    var fields, base := EntryFields(kind, unique, start, sectors, name), Repeat(0 as u8, GPT_ENTRY);
    FieldReads(base, fields, 0);
    FieldReads(base, fields, 2);
    FieldReads(base, fields, 3);
    U32RoundTrip(start);
    U32RoundTrip(start + sectors - 1);
    assert GptEntry(kind, unique, start, sectors, name)[0..16] == kind;
  }

  datatype Header = Header(current: nat, backup: nat, firstUsable: nat, lastUsable: nat, entries: nat, disk: Guid,
    headerCrc: seq<u8>, entriesCrc: seq<u8>)

  predicate HeaderOk(h: Header) { |h.headerCrc| == 4 && |h.entriesCrc| == 4 }

  function HeaderFields(h: Header): seq<Field> {
    [Field(0, GPT_MAGIC), Field(8, [0, 0, 1, 0]), Field(12, LeBytes(92, 4)), Field(16, h.headerCrc),
     Field(24, LeBytes(h.current, 8)), Field(32, LeBytes(h.backup, 8)), Field(40, LeBytes(h.firstUsable, 8)),
     Field(48, LeBytes(h.lastUsable, 8)), Field(56, h.disk), Field(72, LeBytes(h.entries, 8)),
     Field(80, LeBytes(GPT_COUNT, 4)), Field(84, LeBytes(GPT_ENTRY, 4)), Field(88, h.entriesCrc)]
  }

  function HeaderSector(h: Header): Sector
    requires HeaderOk(h)
  {
    Put(Repeat(0, SECTOR), HeaderFields(h))
  }

  /** The place and number of the entries, if the header makes sense on a disk of this size. */
  function ParseHeader(s: Sector, disk: nat): Option<(nat, nat)> {
    var size := U32At(s, 12);
    var current, backup := U64At(s, 24), U64At(s, 32);
    var first, last, entries := U64At(s, 40), U64At(s, 48), U64At(s, 72);
    if s[..8] != GPT_MAGIC || !(92 <= size <= SECTOR) then None
    else if current >= U32_LIMIT || backup >= U32_LIMIT || first >= U32_LIMIT || last >= U32_LIMIT ||
      entries >= U32_LIMIT then None
    else if U32At(s, 84) != GPT_ENTRY || U32At(s, 80) == 0 then None
    else if current >= disk || backup >= disk || first > last || last >= disk then None
    else Some((entries, U32At(s, 80)))
  }

  lemma HeaderFieldAt(h: Header, k: nat)
    requires HeaderOk(h) && k < 13
    ensures var f := HeaderFields(h)[k]; HeaderSector(h)[f.off..f.off + |f.bytes|] == f.bytes
  {
    FieldReads(Repeat(0, SECTOR), HeaderFields(h), k);
  }

  lemma HeaderReads(h: Header, disk: nat)
    requires HeaderOk(h) && h.current < disk && h.backup < disk && h.firstUsable <= h.lastUsable < disk
    requires disk < U32_LIMIT && h.entries < U32_LIMIT
    ensures ParseHeader(HeaderSector(h), disk) == Some((h.entries, GPT_COUNT))
  {
    var s := HeaderSector(h);
    HeaderFieldAt(h, 0);
    HeaderFieldAt(h, 2);
    HeaderFieldAt(h, 10);
    HeaderFieldAt(h, 11);
    U32RoundTrip(92);
    U32RoundTrip(GPT_COUNT);
    assert s[0..8] == GPT_MAGIC;
    HeaderPlaces(h);
  }

  lemma HeaderPlaces(h: Header)
    requires HeaderOk(h) && h.current < U32_LIMIT && h.backup < U32_LIMIT
    requires h.firstUsable < U32_LIMIT && h.lastUsable < U32_LIMIT && h.entries < U32_LIMIT
    ensures var s := HeaderSector(h);
      U64At(s, 24) == h.current && U64At(s, 32) == h.backup && U64At(s, 40) == h.firstUsable &&
        U64At(s, 48) == h.lastUsable &&
      U64At(s, 72) == h.entries
  {
    HeaderFieldAt(h, 4);
    HeaderFieldAt(h, 5);
    HeaderFieldAt(h, 6);
    HeaderFieldAt(h, 7);
    HeaderFieldAt(h, 9);
    U32RoundTrip(h.current);
    U32RoundTrip(h.backup);
    U32RoundTrip(h.firstUsable);
    U32RoundTrip(h.lastUsable);
    U32RoundTrip(h.entries);
  }

  // ---- The protective MBR --------------------------------------------------------------------

  function ProtectiveMbr(total: nat): Sector {
    WritePartition(Repeat(0, SECTOR), 0, Partition(0, 0xEE, 1, if total == 0 then 0 else total - 1))
  }

  predicate HasProtective(s: Sector) {
    HasSignature(s) && exists i: nat :: i < 4 && PartitionAt(s, i).sys == 0xEE && PartitionAt(s, i).start == 1
  }

  lemma ProtectiveReads(total: nat)
    requires total < U32_LIMIT
    ensures HasProtective(ProtectiveMbr(total))
  {
    WritePartitionReads(Repeat(0, SECTOR), 0, Partition(0, 0xEE, 1, if total == 0 then 0 else total - 1), 0);
  }

  // ---- Finding a partition -------------------------------------------------------------------

  /** The first entry of this kind from number `i` on; the search ends at a sector the disk does not have. */
  function FindEntry(disk: seq<Sector>, entries: nat, i: nat, count: nat, kind: Guid): Option<GptPartition>
    decreases count - i
  {
    if i >= count || entries + i / 4 >= |disk| then None
    else
      var p := ParseGptEntry(disk[entries + i / 4][i % 4 * GPT_ENTRY..i % 4 * GPT_ENTRY + GPT_ENTRY]);
      if p.Some? && p.value.kind == kind then p else FindEntry(disk, entries, i + 1, count, kind)
  }

  function FindGpt(disk: seq<Sector>, kind: Guid): Option<GptPartition> {
    if |disk| < 2 || !HasProtective(disk[0]) then None
    else
      var h := ParseHeader(disk[1], |disk|);
      if h.None? then None else FindEntry(disk, h.value.0, 0, Min(h.value.1, GPT_COUNT), kind)
  }

  /** The first sector of the entry array: two entries, the rest empty. */
  function EntrySector(first: seq<u8>, second: seq<u8>): Sector
    requires |first| == |second| == GPT_ENTRY
  {
    first + second + Repeat(0, 2 * GPT_ENTRY)
  }

  /** Both partitions are found on a disk that holds the three sectors. */
  lemma FindsBoth(disk: seq<Sector>, h: Header, a: seq<u8>, b: seq<u8>, p: GptPartition, q: GptPartition)
    requires 3 <= |disk| < U32_LIMIT && disk[0] == ProtectiveMbr(|disk|) && HeaderOk(h) && disk[1] == HeaderSector(h)
    requires h.entries == 2 && h.current < |disk| && h.backup < |disk| && h.firstUsable <= h.lastUsable < |disk|
    requires |a| == |b| == GPT_ENTRY && disk[2] == EntrySector(a, b)
    requires ParseGptEntry(a) == Some(p) && ParseGptEntry(b) == Some(q) && p.kind != q.kind
    ensures FindGpt(disk, p.kind) == Some(p) && FindGpt(disk, q.kind) == Some(q)
  {
    ProtectiveReads(|disk|);
    HeaderReads(h, |disk|);
    assert disk[2][0..128] == a;
    assert disk[2][128..256] == b;
    assert FindEntry(disk, 2, 1, GPT_COUNT, q.kind) == Some(q);
    assert FindEntry(disk, 2, 0, GPT_COUNT, q.kind) == FindEntry(disk, 2, 1, GPT_COUNT, q.kind);
  }
}
