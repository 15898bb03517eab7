/**
 The 64-slot write-back block cache of CoolFS over a sector device whose reads
 and writes may fail part-way.  `content` is the plain array of blocks that the
 cache stands for.
 */
module CoolCache {
  import opened Bytes
  import opened CoolGeometry

  const SECTOR_SIZE := 512
  const SECTORS_PER_BLOCK := 8
  const CACHE_SLOTS := 64
  const CLOCK_MODULUS: nat := 0x1_0000_0000_0000_0000

  type Sector = s: seq<u8> | |s| == SECTOR_SIZE witness Repeat(0, SECTOR_SIZE)
  type Block = s: seq<u8> | |s| == BLOCK_SIZE witness Repeat(0, BLOCK_SIZE)

  predicate DiskFits(sectors: seq<Sector>) {
    |sectors| >= TOTAL_BLOCKS * SECTORS_PER_BLOCK
  }

  /** The block that eight consecutive sectors hold. */
  function DiskBlock(sectors: seq<Sector>, b: nat): (r: Block)
    requires DiskFits(sectors) && b < TOTAL_BLOCKS
  {
    seq(BLOCK_SIZE, i requires 0 <= i < BLOCK_SIZE =>
      sectors[b * SECTORS_PER_BLOCK + i / SECTOR_SIZE][i % SECTOR_SIZE])
  }

  lemma DiskBlockFrame(s: seq<Sector>, t: seq<Sector>, b: nat)
    requires DiskFits(s) && |s| == |t| && b < TOTAL_BLOCKS
    requires forall i :: b * SECTORS_PER_BLOCK <= i < (b + 1) * SECTORS_PER_BLOCK ==> s[i] == t[i]
    ensures DiskBlock(s, b) == DiskBlock(t, b)
  {
  }

  lemma DiskBlockIs(s: seq<Sector>, b: nat, data: Block)
    requires DiskFits(s) && b < TOTAL_BLOCKS
    requires forall i :: b * SECTORS_PER_BLOCK <= i < (b + 1) * SECTORS_PER_BLOCK ==>
      s[i] == SectorOf(data, i - b * SECTORS_PER_BLOCK)
    ensures DiskBlock(s, b) == data
  {
    forall i | 0 <= i < BLOCK_SIZE ensures DiskBlock(s, b)[i] == data[i] {
      var k := i / SECTOR_SIZE;
      assert s[b * SECTORS_PER_BLOCK + k] == SectorOf(data, k);
    }
  }

  function SectorOf(data: Block, k: nat): Sector
    requires k < SECTORS_PER_BLOCK
  {
    data[k * SECTOR_SIZE..(k + 1) * SECTOR_SIZE]
  }

  /** The attached root region.  An unreliable device may fail any request; a
      failed write leaves the sector in an arbitrary state. */
  class Device {
    var sectors: seq<Sector>
    const reliable: bool

    method ReadSector(lba: nat) returns (ok: bool, sec: Sector)
      ensures ok ==> lba < |sectors| && sec == sectors[lba]
      ensures reliable && lba < |sectors| ==> ok
    {
      sec := Repeat(0, SECTOR_SIZE);
      if lba >= |sectors| { return false, sec; }
      if !reliable {
        if * { return false, sec; }
      }
      return true, sectors[lba];
    }

    method WriteSector(lba: nat, sec: Sector) returns (ok: bool)
      modifies this
      ensures |sectors| == |old(sectors)|
      ensures forall i :: 0 <= i < |sectors| && i != lba ==> sectors[i] == old(sectors)[i]
      ensures ok ==> lba < |sectors| && sectors[lba] == sec
      ensures reliable && lba < |sectors| ==> ok
    {
      if lba >= |sectors| { return false; }
      if !reliable {
        if * {
          var torn: Sector := *;
          sectors := sectors[lba := torn];
          return false;
        }
      }
      sectors := sectors[lba := sec];
      return true;
    }

    method ReadDiskBlock(block: nat) returns (ok: bool, out: Block)
      requires DiskFits(sectors)
      ensures ok ==> block < TOTAL_BLOCKS && out == DiskBlock(sectors, block)
      ensures reliable && block < TOTAL_BLOCKS ==> ok
    {
      out := Repeat(0, BLOCK_SIZE);
      if block >= TOTAL_BLOCKS { return false, out; }
      var base := block * SECTORS_PER_BLOCK;
      for sector := 0 to SECTORS_PER_BLOCK
        invariant forall i ::
          0 <= i < sector * SECTOR_SIZE ==> out[i] == sectors[base + i / SECTOR_SIZE][i % SECTOR_SIZE]
      {
        var good, sec := ReadSector(base + sector);
        if !good { return false, out; }
        out := Splice(out, sector * SECTOR_SIZE, sec);
      }
      return true, out;
    }

    method WriteDiskBlock(block: nat, data: Block) returns (ok: bool)
      requires DiskFits(sectors)
      modifies this
      ensures |sectors| == |old(sectors)|
      ensures ok ==> block < TOTAL_BLOCKS && DiskBlock(sectors, block) == data
      ensures forall b :: 0 <= b < TOTAL_BLOCKS && b != block ==> DiskBlock(sectors, b) == DiskBlock(old(sectors), b)
      ensures reliable && block < TOTAL_BLOCKS ==> ok
    {
      if block >= TOTAL_BLOCKS { return false; }
      var base := block * SECTORS_PER_BLOCK;
      ok := true;
      var sector := 0;
      while sector < SECTORS_PER_BLOCK && ok
        invariant 0 <= sector <= SECTORS_PER_BLOCK
        invariant |sectors| == |old(sectors)|
        invariant ok ==> forall i :: base <= i < base + sector ==> sectors[i] == SectorOf(data, i - base)
        invariant forall i ::
          0 <= i < |sectors| && !(base <= i < base + SECTORS_PER_BLOCK) ==> sectors[i] == old(sectors)[i]
        invariant !ok ==> !reliable
        decreases SECTORS_PER_BLOCK - sector, ok
      {
        ok := WriteSector(base + sector, SectorOf(data, sector));
        if ok { sector := sector + 1; }
      }
      if ok { DiskBlockIs(sectors, block, data); }
      forall b | 0 <= b < TOTAL_BLOCKS && b != block
        ensures DiskBlock(sectors, b) == DiskBlock(old(sectors), b)
      {
        DiskBlockFrame(sectors, old(sectors), b);
      }
    }
  }

  datatype CacheEntry = CacheEntry(block: nat, data: Block, dirty: bool, age: nat)

  ghost predicate InCache(entries: seq<CacheEntry>, b: nat) {
    exists i :: 0 <= i < |entries| && entries[i].block == b
  }

  /** A cached block holds the logical content; a clean one equals the disk. */
  ghost predicate EntryOk(e: CacheEntry, sectors: seq<Sector>, content: seq<Block>)
    requires DiskFits(sectors) && |content| == TOTAL_BLOCKS
  {
    e.block < TOTAL_BLOCKS && e.data == content[e.block] && (!e.dirty ==> e.data == DiskBlock(sectors, e.block))
  }

  ghost predicate Distinct(entries: seq<CacheEntry>) {
    forall i, j :: 0 <= i < j < |entries| ==> entries[i].block != entries[j].block
  }

  /** What every state of the cache satisfies. */
  ghost predicate Coherent(entries: seq<CacheEntry>, sectors: seq<Sector>, content: seq<Block>) {
    DiskFits(sectors) && |content| == TOTAL_BLOCKS &&
    |entries| <= CACHE_SLOTS &&
    Distinct(entries) &&
    (forall i :: 0 <= i < |entries| ==> EntryOk(entries[i], sectors, content)) &&
    (forall b {:trigger InCache(entries, b)} ::
      0 <= b < TOTAL_BLOCKS ==> InCache(entries, b) || content[b] == DiskBlock(sectors, b))
  }

  /** Replacing an entry by another one for the same block. */
  lemma UpdateEntry(entries: seq<CacheEntry>, sectors: seq<Sector>, content: seq<Block>, i: nat, e: CacheEntry)
    requires Coherent(entries, sectors, content) && i < |entries|
    requires e.block == entries[i].block && EntryOk(e, sectors, content)
    ensures Coherent(entries[i := e], sectors, content)
    ensures forall b :: InCache(entries[i := e], b) <==> InCache(entries, b)
  {
    var after := entries[i := e];
    assert forall k :: 0 <= k < |entries| ==> after[k].block == entries[k].block;
    forall b: nat ensures InCache(after, b) <==> InCache(entries, b) {
      if InCache(entries, b) { var k :| 0 <= k < |entries| && entries[k].block == b; assert after[k].block == b; }
      if InCache(after, b) { var k :| 0 <= k < |after| && after[k].block == b; assert entries[k].block == b; }
    }
  }

  lemma AddEntry(entries: seq<CacheEntry>, sectors: seq<Sector>, content: seq<Block>, e: CacheEntry)
    requires Coherent(entries, sectors, content) && |entries| < CACHE_SLOTS
    requires !InCache(entries, e.block) && EntryOk(e, sectors, content)
    ensures Coherent(entries + [e], sectors, content)
    ensures forall b :: InCache(entries, b) ==> InCache(entries + [e], b)
  {
    var after := entries + [e];
    assert forall k :: 0 <= k < |entries| ==> after[k] == entries[k] && entries[k].block != e.block;
    forall b: nat | InCache(entries, b) ensures InCache(after, b) {
      var k :| 0 <= k < |entries| && entries[k].block == b;
      assert after[k].block == b;
    }
  }

  /** Removing an entry whose block the disk holds. */
  lemma RemoveEntry(entries: seq<CacheEntry>, sectors: seq<Sector>, content: seq<Block>, at: nat)
    requires Coherent(entries, sectors, content) && at < |entries|
    requires entries[at].data == DiskBlock(sectors, entries[at].block)
    ensures Coherent(entries[..at] + entries[at + 1..], sectors, content)
    ensures forall b :: InCache(entries[..at] + entries[at + 1..], b) <==> InCache(entries, b) && b != entries[at].block
  {
    var after := entries[..at] + entries[at + 1..];
    assert forall k :: 0 <= k < |after| ==> after[k] == entries[if k < at then k else k + 1];
    forall b: nat ensures InCache(after, b) <==> InCache(entries, b) && b != entries[at].block {
      if InCache(entries, b) && b != entries[at].block {
        var k :| 0 <= k < |entries| && entries[k].block == b;
        assert after[if k < at then k else k - 1].block == b;
      }
    }
  }

  /** Moving the entry at the end to slot `at` is the same set of entries. */
  lemma PermuteEntry(entries: seq<CacheEntry>, rest: seq<CacheEntry>, sectors: seq<Sector>, content: seq<Block>,
      at: nat, e: CacheEntry)
    requires at < |entries| && rest == entries[..at] + entries[at + 1..] + [e] && Coherent(rest, sectors, content)
    ensures Coherent(entries[at := e], sectors, content)
  {
    var after := entries[at := e];
    assert forall k :: 0 <= k < |after| ==>
      after[k] == rest[if k < at then k else if k == at then |rest| - 1 else k - 1];
    forall b: nat ensures InCache(after, b) <==> InCache(rest, b) {
      if InCache(rest, b) {
        var k :| 0 <= k < |rest| && rest[k].block == b;
        assert after[if k < at then k else if k == |rest| - 1 then at else k + 1].block == b;
      }
    }
  }

  /** Writing a block's logical content to disk keeps the cache coherent, even when the write fails
      part-way, as long as the block stays dirty in the cache. */
  lemma DiskWrite(entries: seq<CacheEntry>, s: seq<Sector>, t: seq<Sector>, content: seq<Block>, i: nat)
    requires Coherent(entries, s, content) && i < |entries| && |s| == |t| && entries[i].dirty
    requires forall b :: 0 <= b < TOTAL_BLOCKS && b != entries[i].block ==> DiskBlock(t, b) == DiskBlock(s, b)
    ensures Coherent(entries, t, content)
  {
    assert InCache(entries, entries[i].block);
    forall k | 0 <= k < |entries| ensures EntryOk(entries[k], t, content) {
      assert EntryOk(entries[k], s, content);
      assert k != i ==> entries[k].block != entries[i].block;
    }
  }

  /** A write through the cache changes one block of the logical content. */
  lemma WriteEntry(entries: seq<CacheEntry>, sectors: seq<Sector>, content: seq<Block>, i: nat, data: Block)
    requires Coherent(entries, sectors, content) && i < |entries|
    ensures Coherent(entries[i := entries[i].(dirty := true, data := data)], sectors, content[entries[i].block := data])
  {
    var after := entries[i := entries[i].(dirty := true, data := data)];
    var b0 := entries[i].block;
    assert EntryOk(entries[i], sectors, content);
    forall k | 0 <= k < |after| ensures EntryOk(after[k], sectors, content[b0 := data]) {
      assert EntryOk(entries[k], sectors, content);
      assert k != i ==> entries[k].block != b0;
    }
    forall b | 0 <= b < TOTAL_BLOCKS ensures InCache(after, b) || content[b0 := data][b] == DiskBlock(sectors, b) {
      if InCache(entries, b) {
        var k :| 0 <= k < |entries| && entries[k].block == b;
        assert after[k].block == b;
      } else {
        assert entries[i].block != b;
      }
    }
  }

  /** When every entry is clean the disk is the logical content. */
  lemma AllClean(entries: seq<CacheEntry>, sectors: seq<Sector>, content: seq<Block>)
    requires Coherent(entries, sectors, content)
    requires forall i :: 0 <= i < |entries| ==> !entries[i].dirty
    ensures forall b :: 0 <= b < TOTAL_BLOCKS ==> DiskBlock(sectors, b) == content[b]
  {
    forall b | 0 <= b < TOTAL_BLOCKS ensures DiskBlock(sectors, b) == content[b] {
      if InCache(entries, b) {
        var k :| 0 <= k < |entries| && entries[k].block == b;
        assert EntryOk(entries[k], sectors, content);
      }
    }
  }

  /** One past the position of the last access to `b`; 0 if it was never accessed. */
  ghost function LastUse(trace: seq<nat>, b: nat): (r: nat)
    ensures r <= |trace|
  {
    if trace == [] then 0
    else if trace[|trace| - 1] == b then |trace|
    else LastUse(trace[..|trace| - 1], b)
  }

  lemma LastUseAppend(trace: seq<nat>, x: nat, b: nat)
    ensures LastUse(trace + [x], b) == if b == x then |trace| + 1 else LastUse(trace, b)
  {
    assert (trace + [x])[..|trace|] == trace;
  }

  function NextClock(clock: nat): nat {
    Max((clock + 1) % CLOCK_MODULUS, 1)
  }

  /** Until the clock wraps, the age of every entry is the position of its last access. */
  ghost predicate Stamped(entries: seq<CacheEntry>, clock: nat, trace: seq<nat>) {
    clock < CLOCK_MODULUS &&
    (|trace| < CLOCK_MODULUS ==>
      clock == |trace| && forall i :: 0 <= i < |entries| ==> entries[i].age == LastUse(trace, entries[i].block))
  }

  /** After an access to `block`, entries for other blocks keep their stamp and the entry for
      `block` carries the new clock. */
  lemma StampAccess(entries: seq<CacheEntry>, clock: nat, trace: seq<nat>, after: seq<CacheEntry>, block: nat)
    requires Stamped(entries, clock, trace)
    requires forall i :: 0 <= i < |after| ==>
      (after[i].block == block && after[i].age == NextClock(clock)) ||
      (after[i].block != block && i < |entries| && after[i] == entries[i])
    ensures Stamped(after, NextClock(clock), trace + [block])
  {
    forall i | 0 <= i < |after| && |trace| + 1 < CLOCK_MODULUS
      ensures after[i].age == LastUse(trace + [block], after[i].block)
    {
      LastUseAppend(trace, block, after[i].block);
    }
  }

  class BlockCache {
    const device: Device
    var entries: seq<CacheEntry>
    var clock: nat
    ghost var content: seq<Block>
    ghost var trace: seq<nat>

    ghost predicate Valid()
      reads this, device
    {
      Coherent(entries, device.sectors, content) && Stamped(entries, clock, trace)
    }

    /** An empty cache: the logical content is the disk. */
    constructor (device: Device)
      requires DiskFits(device.sectors)
      ensures Valid() && this.device == device && entries == [] && trace == []
      ensures forall b :: 0 <= b < TOTAL_BLOCKS ==> content[b] == DiskBlock(device.sectors, b)
    {
      this.device := device;
      entries := [];
      clock := 0;
      ghost var sectors := device.sectors;
      content := seq(TOTAL_BLOCKS, b requires 0 <= b < TOTAL_BLOCKS && DiskFits(sectors) => DiskBlock(sectors, b));
      trace := [];
    }

    /** A cache that already holds one block, as read from the disk. */
    constructor WithCleanBlock(device: Device, block: nat, data: Block)
      requires DiskFits(device.sectors) && block < TOTAL_BLOCKS && data == DiskBlock(device.sectors, block)
      ensures Valid() && this.device == device && entries == [CacheEntry(block, data, false, 1)] && trace == [block]
      ensures forall b :: 0 <= b < TOTAL_BLOCKS ==> content[b] == DiskBlock(device.sectors, b)
    {
      this.device := device;
      entries := [CacheEntry(block, data, false, 1)];
      clock := 1;
      ghost var sectors := device.sectors;
      content := seq(TOTAL_BLOCKS, b requires 0 <= b < TOTAL_BLOCKS && DiskFits(sectors) => DiskBlock(sectors, b));
      trace := [block];
    }

    method Position(block: nat) returns (idx: int)
      ensures -1 <= idx < |entries|
      ensures idx >= 0 ==> entries[idx].block == block
      ensures idx < 0 ==> !InCache(entries, block)
    {
      idx := 0;
      while idx < |entries|
        invariant 0 <= idx <= |entries|
        invariant forall k :: 0 <= k < idx ==> entries[k].block != block
      {
        if entries[idx].block == block { return; }
        idx := idx + 1;
      }
      idx := -1;
    }

    /** The first entry of least age. */
    method Oldest() returns (idx: nat)
      requires entries != []
      ensures idx < |entries|
      ensures forall k :: 0 <= k < |entries| ==> entries[idx].age <= entries[k].age
      ensures forall k :: 0 <= k < idx ==> entries[idx].age < entries[k].age
    {
      idx := 0;
      for i := 1 to |entries|
        invariant idx < i
        invariant forall k :: 0 <= k < i ==> entries[idx].age <= entries[k].age
        invariant forall k :: 0 <= k < idx ==> entries[idx].age < entries[k].age
      {
        if entries[i].age < entries[idx].age { idx := i; }
      }
    }

    /** Bring `block` into the cache.  The logical content never changes, whatever fails. */
    method CacheIndex(block: nat) returns (ok: bool, idx: nat)
      requires Valid()
      modifies this, device
      ensures Valid() && content == old(content)
      ensures ok ==> idx < |entries| && entries[idx].block == block
      ensures device.reliable && block < TOTAL_BLOCKS ==> ok
      ensures block >= TOTAL_BLOCKS ==> !ok && trace == old(trace)
      ensures block < TOTAL_BLOCKS ==> trace == old(trace) + [block]
      ensures LeastRecent(old(entries), entries, old(trace), block)
    {
      if block >= TOTAL_BLOCKS { return false, 0; }
      clock := NextClock(clock);
      trace := trace + [block];
      var hit := Position(block);
      if hit >= 0 {
        assert EntryOk(entries[hit], device.sectors, content);
        UpdateEntry(entries, device.sectors, content, hit, entries[hit].(age := clock));
        entries := entries[hit := entries[hit].(age := clock)];
        StampAccess(old(entries), old(clock), old(trace), entries, block);
        StaysCached(old(entries), entries, old(trace), block);
        return true, hit;
      }
      var good, data := device.ReadDiskBlock(block);
      if !good {
        StampAccess(entries, old(clock), old(trace), entries, block);
        StaysCached(entries, entries, old(trace), block);
        return false, 0;
      }
      ghost var loaded := CacheEntry(block, data, false, clock);
      if |entries| < CACHE_SLOTS {
        AddEntry(entries, device.sectors, content, loaded);
        entries := entries + [CacheEntry(block, data, false, clock)];
        StampAccess(old(entries), old(clock), old(trace), entries, block);
        StaysCached(old(entries), entries, old(trace), block);
        return true, |entries| - 1;
      }
      var evict := Oldest();
      ok := WriteBack(evict);
      if !ok {
        StampAccess(entries, old(clock), old(trace), entries, block);
        StaysCached(entries, entries, old(trace), block);
        return false, 0;
      }
      Evict(entries, device.sectors, content, evict, loaded, old(trace));
      entries := entries[evict := CacheEntry(block, data, false, clock)];
      StampAccess(old(entries), old(clock), old(trace), entries, block);
      return true, evict;
    }

    /** Write the entry's block to disk if it is dirty; the entry itself is left alone. */
    method WriteBack(i: nat) returns (ok: bool)
      requires Coherent(entries, device.sectors, content) && i < |entries|
      modifies device
      ensures Coherent(entries, device.sectors, content)
      ensures ok ==> DiskBlock(device.sectors, entries[i].block) == entries[i].data
      ensures forall b :: 0 <= b < TOTAL_BLOCKS && b != entries[i].block ==>
        DiskBlock(device.sectors, b) == DiskBlock(old(device.sectors), b)
      ensures device.reliable ==> ok
    {
      assert EntryOk(entries[i], device.sectors, content);
      if !entries[i].dirty { return true; }
      ok := device.WriteDiskBlock(entries[i].block, entries[i].data);
      DiskWrite(entries, old(device.sectors), device.sectors, content, i);
    }

    method Get(block: nat) returns (ok: bool, data: Block)
      requires Valid()
      modifies this, device
      ensures Valid() && content == old(content)
      ensures ok ==> block < TOTAL_BLOCKS && data == content[block]
      ensures device.reliable && block < TOTAL_BLOCKS ==> ok
    {
      var good, idx := CacheIndex(block);
      if !good { return false, Repeat(0, BLOCK_SIZE); }
      assert EntryOk(entries[idx], device.sectors, content);
      return true, entries[idx].data;
    }

    /** `get_mut` followed by a copy into the block. */
    method Write(block: nat, off: nat, bytes: seq<u8>) returns (ok: bool)
      requires Valid() && off + |bytes| <= BLOCK_SIZE
      modifies this, device
      ensures Valid()
      ensures ok ==> block < TOTAL_BLOCKS && content == old(content)[block := Splice(old(content)[block], off, bytes)]
      ensures !ok ==> content == old(content)
      ensures device.reliable && block < TOTAL_BLOCKS ==> ok
    {
      var good, idx := CacheIndex(block);
      if !good { return false; }
      assert EntryOk(entries[idx], device.sectors, content);
      WriteEntry(entries, device.sectors, content, idx, Splice(entries[idx].data, off, bytes));
      content := content[block := Splice(content[block], off, bytes)];
      entries := entries[idx := entries[idx].(dirty := true, data := Splice(entries[idx].data, off, bytes))];
      return true;
    }

    /** Write back every dirty block in slot order, stopping at the first failure. */
    method Flush() returns (ok: bool)
      requires Valid()
      modifies this, device
      ensures Valid() && content == old(content) && trace == old(trace)
      ensures |entries| == |old(entries)|
      ensures forall i :: 0 <= i < |entries| ==> entries[i] in {old(entries)[i], old(entries)[i].(dirty := false)}
      ensures ok ==> forall b :: 0 <= b < TOTAL_BLOCKS ==> DiskBlock(device.sectors, b) == content[b]
      ensures device.reliable ==> ok
    {
      var i := 0;
      while i < |entries|
        invariant 0 <= i <= |entries| == |old(entries)|
        invariant Valid() && content == old(content) && trace == old(trace)
        invariant forall k :: 0 <= k < |entries| ==> entries[k] in {old(entries)[k], old(entries)[k].(dirty := false)}
        invariant forall k :: 0 <= k < i ==> !entries[k].dirty
      {
        var written := WriteBack(i);
        if !written { return false; }
        assert EntryOk(entries[i], device.sectors, content);
        UpdateEntry(entries, device.sectors, content, i, entries[i].(dirty := false));
        entries := entries[i := entries[i].(dirty := false)];
        i := i + 1;
      }
      AllClean(entries, device.sectors, content);
      return true;
    }

    /** The oldest clean entry that is not the superblock. */
    method OldestTrimmable() returns (idx: int)
      ensures -1 <= idx < |entries|
      ensures idx >= 0 ==> Trimmable(entries[idx])
      ensures idx >= 0 ==> forall k ::
        0 <= k < |entries| && Trimmable(entries[k]) ==> entries[idx].age <= entries[k].age
      ensures idx < 0 ==> forall k :: 0 <= k < |entries| ==> !Trimmable(entries[k])
    {
      idx := -1;
      for i := 0 to |entries|
        invariant -1 <= idx < i
        invariant idx >= 0 ==> Trimmable(entries[idx])
        invariant idx >= 0 ==> forall k :: 0 <= k < i && Trimmable(entries[k]) ==> entries[idx].age <= entries[k].age
        invariant idx < 0 ==> forall k :: 0 <= k < i ==> !Trimmable(entries[k])
      {
        if Trimmable(entries[i]) && (idx < 0 || entries[i].age < entries[idx].age) { idx := i; }
      }
    }

    /** Drop clean blocks other than the superblock, oldest first, down to `keep` entries. */
    method TrimClean(keep: nat) returns (freed: nat)
      requires Valid()
      modifies this
      ensures Valid() && content == old(content) && trace == old(trace)
      ensures |entries| <= |old(entries)| && freed == (|old(entries)| - |entries|) * BLOCK_SIZE
      ensures |entries| >= Min(keep, |old(entries)|)
      ensures |entries| > keep ==> forall i :: 0 <= i < |entries| ==> !Trimmable(entries[i])
      ensures TrimmedOldest(old(entries), entries)
    {
      var removed := 0;
      while |entries| > keep
        invariant Valid() && content == old(content) && trace == old(trace)
        invariant |entries| + removed == |old(entries)| && |entries| >= Min(keep, |old(entries)|)
        invariant TrimmedOldest(old(entries), entries)
      {
        var evict := OldestTrimmable();
        if evict < 0 { break; }
        assert EntryOk(entries[evict], device.sectors, content);
        RemoveEntry(entries, device.sectors, content, evict);
        TrimStep(old(entries), entries, evict);
        entries := entries[..evict] + entries[evict + 1..];
        removed := removed + 1;
      }
      return removed * BLOCK_SIZE;
    }
  }

  predicate Trimmable(e: CacheEntry) {
    !e.dirty && e.block != 0
  }

  /** Nothing was added, only trimmable entries are gone, and none of them is younger than a trimmable one that
      stays. */
  ghost predicate TrimmedOldest(before: seq<CacheEntry>, after: seq<CacheEntry>) {
    (forall e :: e in after ==> e in before) &&
    (forall e :: e in before && e !in after ==> Trimmable(e) && forall k ::
      k in after && Trimmable(k) ==> e.age <= k.age)
  }

  lemma TrimStep(before: seq<CacheEntry>, entries: seq<CacheEntry>, at: nat)
    requires at < |entries| && TrimmedOldest(before, entries) && Trimmable(entries[at])
    requires forall k :: 0 <= k < |entries| && Trimmable(entries[k]) ==> entries[at].age <= entries[k].age
    ensures TrimmedOldest(before, entries[..at] + entries[at + 1..])
  {
    var after := entries[..at] + entries[at + 1..];
    forall k | 0 <= k < |entries| && k != at ensures entries[k] in after {
      assert after[if k < at then k else k - 1] == entries[k];
    }
  }

  /** Only the least recently accessed block can leave, and only from a full cache on a miss. */
  ghost predicate LeastRecent(before: seq<CacheEntry>, after: seq<CacheEntry>, trace: seq<nat>, block: nat) {
    forall i :: 0 <= i < |before| ==>
      InCache(after, before[i].block) ||
      (|before| == CACHE_SLOTS && !InCache(before, block) &&
        (|trace| < CLOCK_MODULUS ==> LeastUsed(before, trace, before[i].block)))
  }

  ghost predicate LeastUsed(entries: seq<CacheEntry>, trace: seq<nat>, b: nat) {
    forall j :: 0 <= j < |entries| ==> LastUse(trace, b) <= LastUse(trace, entries[j].block)
  }

  lemma StaysCached(before: seq<CacheEntry>, after: seq<CacheEntry>, trace: seq<nat>, block: nat)
    requires |before| <= |after| && forall i :: 0 <= i < |before| ==> after[i].block == before[i].block
    ensures LeastRecent(before, after, trace, block)
  {
  }

  lemma Evict(entries: seq<CacheEntry>, sectors: seq<Sector>, content: seq<Block>, at: nat, e: CacheEntry,
      trace: seq<nat>)
    requires Coherent(entries, sectors, content) && |entries| == CACHE_SLOTS && at < |entries|
    requires entries[at].data == DiskBlock(sectors, entries[at].block)
    requires !InCache(entries, e.block) && EntryOk(e, sectors, content)
    requires forall k :: 0 <= k < |entries| ==> entries[at].age <= entries[k].age
    requires |trace| < CLOCK_MODULUS ==> forall i ::
      0 <= i < |entries| ==> entries[i].age == LastUse(trace, entries[i].block)
    ensures Coherent(entries[at := e], sectors, content)
    ensures LeastRecent(entries, entries[at := e], trace, e.block)
  {
    RemoveEntry(entries, sectors, content, at);
    var rest := entries[..at] + entries[at + 1..];
    AddEntry(rest, sectors, content, e);
    PermuteEntry(entries, rest + [e], sectors, content, at, e);
    forall i | 0 <= i < |entries| && i != at ensures InCache(entries[at := e], entries[i].block) {
      assert entries[at := e][i] == entries[i];
    }
  }
}
