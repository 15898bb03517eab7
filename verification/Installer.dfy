/** The installation job: copy, patch, copy, flush and verify, a budget of sectors at a time. */
module Installer {
  import opened Bytes
  import opened DiskLayout
  import opened InstallPlan
  import Checksums

  const REFRESH_SECTORS: nat := 128

  datatype Phase =
    | CopyBoot | PatchLayout | CopyRoot | Flush | VerifyLayout | VerifyBoot | VerifyRoot | Complete | Failed

  datatype Reason =
    | SourceRead | SourceRefresh | SourceOverflow | TargetWrite | TargetRead | TargetFlush
    | TargetOverflow | LayoutNotWritable | LayoutMismatch | BootMismatch | RootMismatch

  /** The target disk and what has been copied to it.  `bootCopy` and `rootCopy` are the source sectors as last read,
      `mbr` the boot disk's MBR as read for patching and `tables` the table sectors as patched; a job's `again` is the
      MBR as read for the check. */
  datatype Copy = Copy(
    layout: Layout, ids: Ids, target: seq<Sector>, bootSums: seq<u32>, rootSums: seq<u32>,
    bootCopy: seq<Sector>, rootCopy: seq<Sector>, mbr: Sector, tables: seq<Sector>)

  datatype Job = Job(copy: Copy, phase: Phase, reason: Option<Reason>, cursor: nat, again: Sector)

  function Rank(p: Phase): nat {
    match p
    case CopyBoot => 7
    case PatchLayout => 6
    case CopyRoot => 5
    case Flush => 4
    case VerifyLayout => 3
    case VerifyBoot => 2
    case VerifyRoot => 1
    case Complete => 0
    case Failed => 0
  }

  function Sum(s: Sector): u32 { Checksums.SectorChecksum(s) }

  // ---- What each phase has achieved ----------------------------------------------------------

  /** One checksum for each copied sector. */
  ghost predicate Summed(sums: seq<u32>, copy: seq<Sector>) {
    |sums| == |copy| && forall i :: 0 <= i < |copy| ==> sums[i] == Sum(copy[i])
  }

  /** The disk holds the copied sectors from number `from` on, at `base` and after. */
  ghost predicate Holds(disk: seq<Sector>, base: nat, copy: seq<Sector>, from: nat) {
    base + |copy| <= |disk| && forall i: nat :: from <= i < |copy| ==> disk[base + i] == copy[i]
  }

  /** Whether an invariant holds, as a value: an equation is one condition to check, however many the invariant has. */
  datatype Health = Sound | Broken

  ghost function DiskHealth(l: Layout, ids: Ids, sectors: nat): Health {
    if LayoutOk(l) && IdsOk(ids) && sectors == l.targetSectors then Sound else Broken
  }

  ghost predicate DiskOk(c: Copy) { DiskHealth(c.layout, c.ids, |c.target|) == Sound }

  ghost predicate BootHeld(c: Copy, count: nat, from: nat) {
    |c.bootCopy| == count && Summed(c.bootSums, c.bootCopy) && Holds(c.target, c.layout.bootStart, c.bootCopy, from)
  }

  ghost predicate RootHeld(c: Copy, count: nat) {
    |c.rootCopy| == count && Summed(c.rootSums, c.rootCopy) && Holds(c.target, c.layout.rootStart, c.rootCopy, 0)
  }

  /** What a caller can know beforehand about the check of a patched MBR. */
  ghost predicate Sane(again: Sector, mbr: Sector, l: Layout) {
    again[..TABLE] == mbr[..TABLE] && l.rootSectors != 0 &&
    (if IsCoolFs(mbr, 0) then SameExtent(mbr, 0, l) else IsCoolFs(mbr, 1) ==> SameExtent(mbr, 1, l))
  }

  ghost predicate MbrTable(l: Layout, mbr: Sector, table: Sector) {
    forall again: Sector {:trigger MbrCheck(again, table, l)} :: MbrCheck(again, table, l) <==> Sane(again, mbr, l)
  }

  /** Every disk with these sectors at its ends is a whole GPT disk. */
  ghost predicate GptTables(ids: Ids, l: Layout, tables: seq<Sector>) {
    |tables| == FIRST_USABLE + GPT_TRAILING &&
    forall disk: seq<Sector> {:trigger GptWhole(ids, disk, l)} ::
      |disk| == l.targetSectors && |disk| >= |tables| && MetaOf(disk) == tables ==> GptWhole(ids, disk, l)
  }

  /** The table sectors of the disk are the patched ones, and these pass the check whenever they should. */
  ghost predicate TablesHeld(c: Copy) {
    if c.layout.kind == BiosMbr
      then |c.tables| == 1 <= |c.target| && c.target[0] == c.tables[0] && MbrTable(c.layout, c.mbr, c.tables[0])
    else
      c.layout.rootSectors > 0 && GptTables(c.ids, c.layout, c.tables) &&
      |c.target| >= FIRST_USABLE + GPT_TRAILING && MetaOf(c.target) == c.tables
  }

  /** Boot and root sectors on the target are those last read, and the tables are in place. */
  ghost predicate Copied(c: Copy) {
    BootHeld(c, c.layout.bootSectors, VerifyStart(c.layout)) && RootHeld(c, c.layout.rootSectors) && TablesHeld(c)
  }

  /** No mismatch of copied sectors; a check of the tables fails only on a BIOS disk, when that could be foreseen. */
  ghost predicate Excused(j: Job, why: Reason) {
    var l := j.copy.layout;
    why != BootMismatch && why != RootMismatch && why != TargetOverflow &&
    (why == LayoutMismatch ==> l.kind == BiosMbr && !Sane(j.again, j.copy.mbr, l)) &&
    (why == LayoutNotWritable ==> l.rootSectors == 0)
  }

  ghost predicate Good(j: Job) {
    var c, l := j.copy, j.copy.layout;
    DiskOk(c) && (j.reason.Some? <==> j.phase == Failed) &&
    match j.phase
    case CopyBoot => j.cursor <= l.bootSectors && BootHeld(c, j.cursor, 0) && RootHeld(c, 0)
    case PatchLayout => BootHeld(c, l.bootSectors, 0) && RootHeld(c, 0)
    case CopyRoot =>
      BootHeld(c, l.bootSectors, VerifyStart(l)) && j.cursor <= l.rootSectors && RootHeld(c, j.cursor) && TablesHeld(c)
    case Flush => Copied(c)
    case VerifyLayout => Copied(c)
    case VerifyBoot => Copied(c) && VerifyStart(l) <= j.cursor <= l.bootSectors
    case VerifyRoot => Copied(c) && j.cursor <= l.rootSectors
    case Complete => Copied(c)
    case Failed => Excused(j, j.reason.value)
  }

  ghost function HealthOf(j: Job): Health { if Good(j) then Sound else Broken }

  // ---- The steps on values ---------------------------------------------------------------------

  ghost function Stopped(j: Job, why: Reason): Job { j.(phase := Failed, reason := Some(why)) }

  predicate IsIo(why: Reason) {
    why in {SourceRead, SourceRefresh, SourceOverflow, TargetWrite, TargetRead, TargetFlush}
  }

  lemma StopOk(j: Job, why: Reason)
    requires DiskOk(j.copy) && Excused(j, why)
    ensures HealthOf(Stopped(j, why)) == Sound
  {
  }

  /** From one phase to the next, with nothing on the disk changed. */
  ghost function Next(j: Job, phase: Phase, cursor: nat): Job { j.(phase := phase, cursor := cursor) }

  ghost function BootSector(c: Copy, i: nat, s: Sector): Copy
    requires BootLba(c.layout, i) < |c.target|
  {
    c.(target := c.target[BootLba(c.layout, i) := s], bootSums := c.bootSums + [Sum(s)], bootCopy := c.bootCopy + [s])
  }

  lemma BootSectorOk(j: Job, s: Sector)
    requires HealthOf(j) == Sound && j.phase == CopyBoot && j.cursor < j.copy.layout.bootSectors
    ensures BootLba(j.copy.layout, j.cursor) < |j.copy.target| && BootLba(j.copy.layout, j.cursor) < U32_LIMIT
    ensures |j.copy.bootCopy| == j.cursor
    ensures HealthOf(Job(BootSector(j.copy, j.cursor, s), CopyBoot, None, j.cursor + 1, j.again)) == Sound
  {
    var c := j.copy;
    RegionsApart(c.layout, j.cursor, 0);
    HoldsMore(c.target, c.layout.bootStart, c.bootCopy, 0, s);
    var c' := BootSector(c, j.cursor, s);
    assert BootHeld(c', j.cursor + 1, 0) && RootHeld(c', 0);
  }

  ghost function RootSector(c: Copy, i: nat, s: Sector): Copy
    requires RootLba(c.layout, i) < |c.target|
  {
    c.(target := c.target[RootLba(c.layout, i) := s], rootSums := c.rootSums + [Sum(s)], rootCopy := c.rootCopy + [s])
  }

  lemma RootSectorOk(j: Job, s: Sector)
    requires HealthOf(j) == Sound && j.phase == CopyRoot && j.cursor < j.copy.layout.rootSectors
    ensures RootLba(j.copy.layout, j.cursor) < |j.copy.target| && RootLba(j.copy.layout, j.cursor) < U32_LIMIT
    ensures |j.copy.rootCopy| == j.cursor
    ensures HealthOf(Job(RootSector(j.copy, j.cursor, s), CopyRoot, None, j.cursor + 1, j.again)) == Sound
  {
    var c := j.copy;
    RegionsApart(c.layout, 0, j.cursor);
    HoldsMore(c.target, c.layout.rootStart, c.rootCopy, 0, s);
    var c' := RootSector(c, j.cursor, s);
    RootWriteKeeps(c, j.cursor, s, c');
    assert RootHeld(c', j.cursor + 1);
  }

  ghost function Refreshed(c: Copy, i: nat, s: Sector): Copy
    requires RootLba(c.layout, i) < |c.target| && i < |c.rootSums| && i < |c.rootCopy|
  {
    c.(target := c.target[RootLba(c.layout, i) := s], rootSums := c.rootSums[i := Sum(s)],
      rootCopy := c.rootCopy[i := s])
  }

  lemma RefreshedOk(j: Job, i: nat, s: Sector)
    requires HealthOf(j) == Sound && j.phase == CopyRoot && j.cursor == j.copy.layout.rootSectors &&
      i < j.copy.layout.rootSectors
    ensures RootLba(j.copy.layout, i) < |j.copy.target| && RootLba(j.copy.layout, i) < U32_LIMIT
    ensures i < |j.copy.rootSums| && i < |j.copy.rootCopy|
    ensures HealthOf(j.(copy := Refreshed(j.copy, i, s))) == Sound
  {
    var c := j.copy;
    RegionsApart(c.layout, 0, i);
    HoldsAgain(c.target, c.layout.rootStart, c.rootCopy, i, s);
    var c' := Refreshed(c, i, s);
    RootWriteKeeps(c, i, s, c');
    assert RootHeld(c', j.cursor);
  }

  /** Writing a root sector disturbs neither the boot sectors nor the tables. */
  lemma RootWriteKeeps(c: Copy, i: nat, s: Sector, c': Copy)
    requires DiskOk(c) && i < c.layout.rootSectors && RootLba(c.layout, i) < |c.target|
    requires BootHeld(c, c.layout.bootSectors, VerifyStart(c.layout)) && TablesHeld(c)
    requires c' == c.(target := c.target[RootLba(c.layout, i) := s], rootSums := c'.rootSums, rootCopy := c'.rootCopy)
    ensures BootHeld(c', c.layout.bootSectors, VerifyStart(c.layout)) && TablesHeld(c')
  {
    RegionsApart(c.layout, 0, i);
    forall k: nat | VerifyStart(c.layout) <= k < |c.bootCopy|
      ensures c'.target[BootLba(c.layout, k)] == c.target[BootLba(c.layout, k)]
    {
      RegionsApart(c.layout, k, i);
    }
    if c.layout.kind == UefiGpt { MetaKept(c.target, RootLba(c.layout, i), s, c.layout); }
  }

  lemma MetaKept(disk: seq<Sector>, lba: nat, s: Sector, l: Layout)
    requires |disk| == l.targetSectors >= FIRST_USABLE + GPT_TRAILING && l.kind == UefiGpt && lba < |disk| &&
      !IsMeta(l, lba)
    ensures MetaOf(disk[lba := s]) == MetaOf(disk)
  {
  }

  lemma HoldsMore(disk: seq<Sector>, base: nat, copy: seq<Sector>, from: nat, s: Sector)
    requires Holds(disk, base, copy, from) && base + |copy| < |disk|
    ensures Holds(disk[base + |copy| := s], base, copy + [s], from)
  {
  }

  lemma HoldsAgain(disk: seq<Sector>, base: nat, copy: seq<Sector>, i: nat, s: Sector)
    requires Holds(disk, base, copy, 0) && i < |copy|
    ensures Holds(disk[base + i := s], base, copy[i := s], 0)
  {
  }

  ghost function PatchedBios(c: Copy, mbr: Sector): Copy
    requires |c.target| > 0
  {
    var table := PatchedMbr(mbr, c.layout);
    c.(target := c.target[0 := table], mbr := mbr, tables := [table])
  }

  lemma PatchedBiosOk(j: Job, mbr: Sector)
    requires HealthOf(j) == Sound && j.phase == PatchLayout && j.copy.layout.kind == BiosMbr
    ensures |j.copy.target| > 0 && HealthOf(Job(PatchedBios(j.copy, mbr), CopyRoot, None, 0, j.again)) == Sound
  {
    var c, l := j.copy, j.copy.layout;
    var table := PatchedMbr(mbr, l);
    forall again: Sector ensures MbrCheck(again, table, l) <==> Sane(again, mbr, l) { MbrCheckExact(mbr, again, l); }
    var c' := PatchedBios(c, mbr);
    assert BootHeld(c', l.bootSectors, 1) && RootHeld(c', 0);
  }

  ghost predicate OnlyMeta(l: Layout, before: seq<Sector>, after: seq<Sector>) {
    |after| == |before| && forall lba: nat :: lba < |before| && !IsMeta(l, lba) ==> after[lba] == before[lba]
  }

  ghost function PatchedGpt(c: Copy, after: seq<Sector>): Copy
    requires |after| >= FIRST_USABLE + GPT_TRAILING
  {
    c.(target := after, tables := MetaOf(after))
  }

  lemma PatchedGptOk(j: Job, after: seq<Sector>)
    requires HealthOf(j) == Sound && j.phase == PatchLayout && j.copy.layout.kind == UefiGpt &&
      j.copy.layout.rootSectors > 0
    requires OnlyMeta(j.copy.layout, j.copy.target, after) && |after| >= FIRST_USABLE + GPT_TRAILING
    requires GptTables(j.copy.ids, j.copy.layout, MetaOf(after))
    ensures HealthOf(Job(PatchedGpt(j.copy, after), CopyRoot, None, 0, j.again)) == Sound
  {
    var c, l := j.copy, j.copy.layout;
    forall k: nat | k < |c.bootCopy| ensures after[BootLba(l, k)] == c.target[BootLba(l, k)] { RegionsApart(l, k, 0); }
    var c' := PatchedGpt(c, after);
    assert BootHeld(c', l.bootSectors, 0) && RootHeld(c', 0);
  }

  /** The tables the installer builds make a whole GPT of every disk that has them at its ends. */
  lemma TablesPass(ids: Ids, l: Layout)
    requires LayoutOk(l) && l.kind == UefiGpt && l.rootSectors > 0 && IdsOk(ids)
    ensures GptTables(ids, l, Tables(ids, l))
  {
    var tables := Tables(ids, l);
    forall disk: seq<Sector> | |disk| == l.targetSectors && |disk| >= |tables| && MetaOf(disk) == tables
      ensures GptWhole(ids, disk, l)
    {
      TablesWhole(ids, disk, l);
    }
  }

  /** A completed GPT installation: both partitions are found, both headers lead to the same entries, every checksum
      agrees. */
  lemma CompleteGpt(j: Job)
    requires HealthOf(j) == Sound && j.phase == Complete && j.copy.layout.kind == UefiGpt
    ensures GptWhole(j.copy.ids, j.copy.target, j.copy.layout)
  {
  }

  function ArrayOf(entries: Sector): (r: seq<Sector>)
    ensures |r| == GPT_ENTRY_SECTORS
  {
    [entries] + Repeat(ZeroSector(), GPT_ENTRY_SECTORS - 1)
  }

  lemma LaidOut(mid: seq<Sector>, disk: seq<Sector>, first: Sector, header: Sector, entries: Sector, backup: Sector)
    requires |disk| == |mid| >= FIRST_USABLE + GPT_TRAILING
    requires mid[0] == first && mid[1] == header && mid[2..FIRST_USABLE] == ArrayOf(entries)
    requires forall lba: nat :: lba < |disk| - GPT_TRAILING ==> disk[lba] == mid[lba]
    requires disk[|disk| - GPT_TRAILING..|disk| - 1] == ArrayOf(entries) && disk[|disk| - 1] == backup
    ensures MetaOf(disk) == Laid(first, header, entries, backup)
  {
    var list := ArrayOf(entries);
    assert disk[..FIRST_USABLE] == [first, header] + mid[2..FIRST_USABLE];
    assert disk[|disk| - GPT_TRAILING..] == disk[|disk| - GPT_TRAILING..|disk| - 1] + [backup];
    assert Laid(first, header, entries, backup) == [first, header] + list + (list + [backup]);
  }

  lemma CopiesDone(j: Job)
    requires HealthOf(j) == Sound
    ensures j.phase == CopyBoot && j.cursor == j.copy.layout.bootSectors ==> HealthOf(Next(j, PatchLayout, 0)) == Sound
    ensures j.phase == CopyRoot && j.cursor == j.copy.layout.rootSectors ==> HealthOf(Next(j, Flush, 0)) == Sound
  {
  }

  lemma ChecksDone(j: Job)
    requires HealthOf(j) == Sound
    ensures j.phase == Flush ==> HealthOf(Next(j, VerifyLayout, 0)) == Sound
    ensures j.phase == VerifyLayout ==> HealthOf(Next(j, VerifyBoot, VerifyStart(j.copy.layout))) == Sound
    ensures j.phase == VerifyBoot ==> HealthOf(Next(j, VerifyRoot, 0)) == Sound
    ensures j.phase == VerifyRoot ==> HealthOf(Next(j, Complete, j.cursor)) == Sound
  {
  }

  lemma HeldAgrees(disk: seq<Sector>, base: nat, copy: seq<Sector>, sums: seq<u32>, from: nat, i: nat)
    requires Summed(sums, copy) && Holds(disk, base, copy, from) && from <= i < |copy|
    ensures base + i < |disk| && i < |sums| && Sum(disk[base + i]) == sums[i]
  {
    assert disk[base + i] == copy[i];
  }

  /** A boot sector read back has the checksum taken when it was copied. */
  lemma BootAgrees(j: Job)
    requires HealthOf(j) == Sound && j.phase == VerifyBoot && j.cursor < j.copy.layout.bootSectors
    ensures var c, lba := j.copy, BootLba(j.copy.layout, j.cursor);
      lba < |c.target| && lba < U32_LIMIT && j.cursor < |c.bootSums| && Sum(c.target[lba]) == c.bootSums[j.cursor]
  {
    var c := j.copy;
    HeldAgrees(c.target, c.layout.bootStart, c.bootCopy, c.bootSums, VerifyStart(c.layout), j.cursor);
  }

  lemma RootAgrees(j: Job)
    requires HealthOf(j) == Sound && j.phase == VerifyRoot && j.cursor < j.copy.layout.rootSectors
    ensures var c, lba := j.copy, RootLba(j.copy.layout, j.cursor);
      lba < |c.target| && lba < U32_LIMIT && j.cursor < |c.rootSums| && Sum(c.target[lba]) == c.rootSums[j.cursor]
  {
    var c := j.copy;
    HeldAgrees(c.target, c.layout.rootStart, c.rootCopy, c.rootSums, 0, j.cursor);
  }

  lemma VerifiedOne(j: Job)
    requires HealthOf(j) == Sound
    ensures j.phase == VerifyBoot && j.cursor < j.copy.layout.bootSectors ==>
      HealthOf(Next(j, VerifyBoot, j.cursor + 1)) == Sound
    ensures j.phase == VerifyRoot && j.cursor < j.copy.layout.rootSectors ==>
      HealthOf(Next(j, VerifyRoot, j.cursor + 1)) == Sound
  {
  }

  lemma MbrVerdict(j: Job, again: Sector)
    requires HealthOf(j) == Sound && j.phase == VerifyLayout && j.copy.layout.kind == BiosMbr
    ensures var c := j.copy;
      |c.target| > 0 && (MbrCheck(again, c.target[0], c.layout) <==> Sane(again, c.mbr, c.layout))
    ensures HealthOf(j.(again := again)) == Sound
  {
  }

  lemma GptVerdict(j: Job)
    requires HealthOf(j) == Sound && j.phase == VerifyLayout && j.copy.layout.kind == UefiGpt
    ensures GptCheck(j.copy.ids, j.copy.target, j.copy.layout)
  {
    assert GptWhole(j.copy.ids, j.copy.target, j.copy.layout);
  }

  // ---- What was read ----------------------------------------------------------------------------

  /** A job with what it has read: from the source, with the place, and back from the target.  `settled` are the root
      sectors read once the source was flushed. */
  datatype Record = Record(
    job: Job, base: nat, bootSeen: seq<Sector>, rootSeen: seq<Sector>, settled: seq<Sector>,
    bootReads: set<(nat, Sector)>, rootReads: set<(nat, Sector)>)

  ghost predicate ReadFrom(log: set<(nat, Sector)>, base: nat, copy: seq<Sector>) {
    forall i: nat {:trigger Logged(log, base, copy, i)} :: i < |copy| ==> Logged(log, base, copy, i)
  }

  ghost predicate Logged(log: set<(nat, Sector)>, base: nat, copy: seq<Sector>, i: nat)
    requires i < |copy|
  {
    (base + i, copy[i]) in log
  }

  lemma LoggedMore(log: set<(nat, Sector)>, base: nat, copy: seq<Sector>, more: (nat, Sector))
    requires ReadFrom(log, base, copy)
    ensures ReadFrom(log + {more}, base, copy)
  {
    forall i: nat | i < |copy| ensures Logged(log + {more}, base, copy, i) { assert Logged(log, base, copy, i); }
  }

  lemma LoggedNext(log: set<(nat, Sector)>, base: nat, copy: seq<Sector>, s: Sector)
    requires ReadFrom(log, base, copy) && (base + |copy|, s) in log
    ensures ReadFrom(log, base, copy + [s])
  {
    forall i: nat | i < |copy + [s]| ensures Logged(log, base, copy + [s], i) {
      if i < |copy| { assert Logged(log, base, copy, i); }
    }
  }

  lemma LoggedAgain(log: set<(nat, Sector)>, base: nat, copy: seq<Sector>, k: nat, s: Sector)
    requires ReadFrom(log, base, copy) && k < |copy| && (base + k, s) in log
    ensures ReadFrom(log, base, copy[k := s])
  {
    var after := copy[k := s];
    forall i: nat | i < |after| ensures Logged(log, base, after, i) { assert Logged(log, base, copy, i); }
  }

  /** Every copied sector was read from its own place on the source. */
  ghost predicate Traced(r: Record) {
    var c := r.job.copy;
    ReadFrom(r.bootReads, c.layout.bootStart, c.bootCopy) && ReadFrom(r.rootReads, r.base, c.rootCopy) &&
    (c.layout.kind == BiosMbr && c.tables != [] ==> (0, c.mbr) in r.bootReads)
  }

  predicate Settled(p: Phase) { p != Failed && Rank(p) <= Rank(Flush) }

  /** The first 128 root sectors of the copy were read once the source was flushed. */
  ghost predicate Renewed(l: Layout, settled: seq<Sector>, copy: seq<Sector>) {
    settled <= copy && |settled| == Min(l.rootSectors, REFRESH_SECTORS)
  }

  /** The sectors read back have the checksums from number `from` to before `to`. */
  ghost predicate Confirmed(seen: seq<Sector>, sums: seq<u32>, from: nat, to: nat) {
    from <= to <= |sums| && |seen| == to - from && forall i :: 0 <= i < |seen| ==> Sum(seen[i]) == sums[from + i]
  }

  ghost predicate BootConfirmed(r: Record, to: nat) {
    Confirmed(r.bootSeen, r.job.copy.bootSums, VerifyStart(r.job.copy.layout), to)
  }

  ghost predicate RootConfirmed(r: Record, to: nat) { Confirmed(r.rootSeen, r.job.copy.rootSums, 0, to) }

  /** Every sector below the cursor has been read back, with the checksum of its copy. */
  ghost predicate Checked(r: Record) {
    var l := r.job.copy.layout;
    match r.job.phase
    case VerifyBoot => BootConfirmed(r, r.job.cursor)
    case VerifyRoot => BootConfirmed(r, l.bootSectors) && RootConfirmed(r, r.job.cursor)
    case Complete => BootConfirmed(r, l.bootSectors) && RootConfirmed(r, l.rootSectors)
    case _ => true
  }

  ghost predicate Documented(r: Record) {
    Traced(r) && Checked(r) && (Settled(r.job.phase) ==> Renewed(r.job.copy.layout, r.settled, r.job.copy.rootCopy))
  }

  ghost function RecordHealth(r: Record): Health { if r.job.phase == Failed || Documented(r) then Sound else Broken }

  lemma ReadLogged(r: Record, lba: nat, s: Sector)
    requires RecordHealth(r) == Sound
    ensures RecordHealth(r.(bootReads := r.bootReads + {(lba, s)})) == Sound
    ensures RecordHealth(r.(rootReads := r.rootReads + {(lba, s)})) == Sound
  {
    if r.job.phase != Failed {
      LoggedMore(r.bootReads, r.job.copy.layout.bootStart, r.job.copy.bootCopy, (lba, s));
      LoggedMore(r.rootReads, r.base, r.job.copy.rootCopy, (lba, s));
    }
  }

  lemma BootLogged(r: Record, s: Sector, j: Job)
    requires RecordHealth(r) == Sound && r.job.phase == CopyBoot == j.phase
    requires (r.job.copy.layout.bootStart + |r.job.copy.bootCopy|, s) in r.bootReads
    requires j.copy == r.job.copy.(target := j.copy.target, bootSums := j.copy.bootSums,
      bootCopy := r.job.copy.bootCopy + [s])
    ensures RecordHealth(r.(job := j)) == Sound
  {
    LoggedNext(r.bootReads, r.job.copy.layout.bootStart, r.job.copy.bootCopy, s);
  }

  lemma RootLogged(r: Record, s: Sector, j: Job)
    requires RecordHealth(r) == Sound && r.job.phase == CopyRoot == j.phase &&
      (r.base + |r.job.copy.rootCopy|, s) in r.rootReads
    requires j.copy == r.job.copy.(target := j.copy.target, rootSums := j.copy.rootSums,
      rootCopy := r.job.copy.rootCopy + [s])
    ensures RecordHealth(r.(job := j)) == Sound
  {
    LoggedNext(r.rootReads, r.base, r.job.copy.rootCopy, s);
  }

  lemma AgainLogged(r: Record, i: nat, s: Sector, j: Job)
    requires RecordHealth(r) == Sound && r.job.phase == CopyRoot == j.phase && i < |r.job.copy.rootCopy| &&
      (r.base + i, s) in r.rootReads
    requires j.copy == r.job.copy.(target := j.copy.target, rootSums := j.copy.rootSums,
      rootCopy := r.job.copy.rootCopy[i := s])
    ensures RecordHealth(r.(job := j)) == Sound
  {
    LoggedAgain(r.rootReads, r.base, r.job.copy.rootCopy, i, s);
  }

  lemma SettledFree(r: Record, settled: seq<Sector>)
    requires RecordHealth(r) == Sound && r.job.phase == CopyRoot
    ensures RecordHealth(r.(settled := settled)) == Sound
  {
  }

  lemma PatchLogged(r: Record, j: Job)
    requires RecordHealth(r) == Sound && r.job.phase == PatchLayout && j.phase == CopyRoot
    requires j.copy == r.job.copy.(target := j.copy.target, mbr := j.copy.mbr, tables := j.copy.tables)
    requires j.copy.layout.kind == BiosMbr ==> (0, j.copy.mbr) in r.bootReads
    ensures RecordHealth(r.(job := j)) == Sound
  {
  }

  /** Steps that copy nothing. */
  lemma StepLogged(r: Record, j: Job)
    requires RecordHealth(r) == Sound && j.copy == r.job.copy
    ensures r.job.phase == CopyBoot && j.phase == PatchLayout ==> RecordHealth(r.(job := j)) == Sound
    ensures r.job.phase == CopyRoot && j.phase == Flush && Renewed(j.copy.layout, r.settled, j.copy.rootCopy) ==>
      RecordHealth(r.(job := j)) == Sound
    ensures r.job.phase == Flush && j.phase == VerifyLayout ==> RecordHealth(r.(job := j)) == Sound
    ensures r.job.phase == VerifyLayout == j.phase ==> RecordHealth(r.(job := j)) == Sound
  {
  }

  lemma ChecksStart(r: Record, j: Job)
    requires RecordHealth(r) == Sound && HealthOf(r.job) == Sound &&
      j == Next(r.job, VerifyBoot, VerifyStart(r.job.copy.layout))
    requires r.job.phase == VerifyLayout
    ensures RecordHealth(r.(job := j, bootSeen := [])) == Sound
  {
  }

  lemma ChecksEnd(r: Record, j: Job)
    requires RecordHealth(r) == Sound && HealthOf(r.job) == Sound
    ensures r.job.phase == VerifyBoot && j == Next(r.job, VerifyRoot, 0) ==>
      r.job.cursor >= r.job.copy.layout.bootSectors ==> RecordHealth(r.(job := j, rootSeen := [])) == Sound
    ensures r.job.phase == VerifyRoot && j == Next(r.job, Complete, r.job.cursor) ==>
      r.job.cursor >= r.job.copy.layout.rootSectors ==> RecordHealth(r.(job := j)) == Sound
  {
  }

  lemma BootSeen(r: Record, s: Sector, j: Job)
    requires RecordHealth(r) == Sound && r.job.phase == VerifyBoot && j == Next(r.job, VerifyBoot, r.job.cursor + 1)
    requires r.job.cursor < |r.job.copy.bootSums| && Sum(s) == r.job.copy.bootSums[r.job.cursor]
    ensures RecordHealth(r.(job := j, bootSeen := r.bootSeen + [s])) == Sound
  {
  }

  lemma RootSeen(r: Record, s: Sector, j: Job)
    requires RecordHealth(r) == Sound && r.job.phase == VerifyRoot && j == Next(r.job, VerifyRoot, r.job.cursor + 1)
    requires r.job.cursor < |r.job.copy.rootSums| && Sum(s) == r.job.copy.rootSums[r.job.cursor]
    ensures RecordHealth(r.(job := j, rootSeen := r.rootSeen + [s])) == Sound
  {
  }

  // ---- The job ------------------------------------------------------------------------------

  class InstallerJob {
    const layout: Layout
    const ids: Ids
    const sourceBase: nat

    var target: seq<Sector>
    var phase: Phase
    var reason: Option<Reason>
    var cursor: nat
    var bootSums: seq<u32>
    var rootSums: seq<u32>
    ghost var bootCopy: seq<Sector>
    ghost var rootCopy: seq<Sector>
    ghost var mbr: Sector
    ghost var again: Sector
    ghost var tables: seq<Sector>
    ghost var bootSeen: seq<Sector>
    ghost var rootSeen: seq<Sector>
    ghost var settled: seq<Sector>
    ghost var bootReads: set<(nat, Sector)>
    ghost var rootReads: set<(nat, Sector)>

    ghost function Now(): Job
      reads this
    {
      Job(Copy(layout, ids, target, bootSums, rootSums, bootCopy, rootCopy, mbr, tables), phase, reason, cursor, again)
    }

    ghost predicate Valid()
      reads this
    {
      HealthOf(Now()) == Sound && RecordHealth(Log()) == Sound
    }

    ghost function Log(): Record
      reads this
    {
      Record(Now(), sourceBase, bootSeen, rootSeen, settled, bootReads, rootReads)
    }

    constructor (layout: Layout, ids: Ids, sourceBase: nat, target: seq<Sector>)
      requires LayoutOk(layout) && IdsOk(ids) && |target| == layout.targetSectors
      ensures Valid() && phase == CopyBoot && this.layout == layout && this.ids == ids
    {
      this.layout, this.ids, this.sourceBase, this.target := layout, ids, sourceBase, target;
      phase, reason, cursor := CopyBoot, None, 0;
      bootSums, rootSums, bootCopy, rootCopy, tables, bootSeen, rootSeen, settled := [], [], [], [], [], [], [], [];
      bootReads, rootReads := {}, {};
      mbr, again := Repeat(0, SECTOR), Repeat(0, SECTOR);
    }

    /** A request that failed. */
    method FailIo(why: Reason)
      requires DiskHealth(layout, ids, |target|) == Sound && IsIo(why)
      modifies this`phase, this`reason
      ensures Valid() && phase == Failed && reason == Some(why)
    {
      Fail(why);
    }

    method Fail(why: Reason)
      requires DiskHealth(layout, ids, |target|) == Sound && Excused(Now(), why)
      modifies this`phase, this`reason
      ensures Valid() && phase == Failed && reason == Some(why)
    {
      StopOk(Now(), why);
      phase := Failed;
      reason := Some(why);
    }

    /** A sector of the running system: whatever it holds now, or a read error. */
    method ReadAny() returns (ok: bool, s: Sector)
    {
      ok := *;
      assert |Repeat(0 as u8, SECTOR)| == SECTOR;
      var any: seq<u8> :| |any| == SECTOR;
      s := any;
    }

    method ReadBoot(lba: nat) returns (ok: bool, s: Sector)
      requires Valid()
      modifies this`bootReads
      ensures Valid() && old(bootReads) <= bootReads && (ok ==> (lba, s) in bootReads)
    {
      ok, s := ReadAny();
      ReadLogged(Log(), lba, s);
      bootReads := bootReads + {(lba, s)};
    }

    method ReadRoot(lba: nat) returns (ok: bool, s: Sector)
      requires Valid()
      modifies this`rootReads
      ensures Valid() && old(rootReads) <= rootReads && (ok ==> (lba, s) in rootReads)
    {
      ok, s := ReadAny();
      ReadLogged(Log(), lba, s);
      rootReads := rootReads + {(lba, s)};
    }

    /** A target that stores what is written, unless it reports an error. */
    method WriteTarget(lba: nat, s: Sector) returns (ok: bool)
      modifies this`target
      ensures |target| == |old(target)|
      ensures ok ==> lba < |old(target)| && target == old(target)[lba := s]
      ensures forall k :: 0 <= k < |target| && k != lba ==> target[k] == old(target)[k]
    {
      ok := *;
      if lba >= |target| { return false; }
      if ok {
        target := target[lba := s];
      } else {
        assert |Repeat(0 as u8, SECTOR)| == SECTOR;
        var torn: seq<u8> :| |torn| == SECTOR;
        target := target[lba := torn];
      }
    }

    method ReadTarget(lba: nat) returns (ok: bool, s: Sector)
      ensures ok ==> lba < |target| && s == target[lba]
    {
      ok := *;
      if lba >= |target| { ok := false; }
      s := if ok then target[lba] else Repeat(0, SECTOR);
    }

    /** Copies one boot sector, or goes on when all are copied. */
    method CopyBootStep() returns (used: bool)
      requires Valid() && phase == CopyBoot
      modifies this
      ensures Valid() && if used then phase == CopyBoot else Rank(phase) < Rank(CopyBoot)
    {
      if cursor >= layout.bootSectors {
        CopiesDone(Now());
        StepLogged(Log(), Next(Now(), PatchLayout, 0));
        phase, cursor := PatchLayout, 0;
        return false;
      }
      var read, s := ReadBoot(layout.bootStart + cursor);
      if !read { FailIo(SourceRead); return false; }
      used := StoreBoot(s);
    }

    method StoreBoot(s: Sector) returns (ok: bool)
      requires Valid() && phase == CopyBoot && cursor < layout.bootSectors &&
        (layout.bootStart + cursor, s) in bootReads
      modifies this
      ensures Valid() && if ok then phase == CopyBoot else phase == Failed
    {
      BootSectorOk(Now(), s);
      ghost var next := Job(BootSector(Now().copy, cursor, s), CopyBoot, None, cursor + 1, again);
      BootLogged(Log(), s, next);
      ghost var log := Log().(job := next);
      bootSums := bootSums + [Sum(s)];
      ok := WriteTarget(layout.bootStart + cursor, s);
      if !ok { FailIo(TargetWrite); return; }
      bootCopy := bootCopy + [s];
      cursor := cursor + 1;
      assert Now() == next && Log() == log;
    }

    /** Copies one root sector; after the last one the first 128 are copied again from the flushed source. */
    method CopyRootStep() returns (used: bool)
      requires Valid() && phase == CopyRoot
      modifies this
      ensures Valid() && if used then phase == CopyRoot else Rank(phase) < Rank(CopyRoot)
    {
      if cursor >= layout.rootSectors {
        RefreshRoot();
        return false;
      }
      used := CopyRootSector();
    }

    method CopyRootSector() returns (used: bool)
      requires Valid() && phase == CopyRoot && cursor < layout.rootSectors
      modifies this
      ensures Valid() && if used then phase == CopyRoot else phase == Failed
    {
      if sourceBase + cursor >= U32_LIMIT { FailIo(SourceOverflow); return false; }
      var read, s := ReadRoot(sourceBase + cursor);
      if !read { FailIo(SourceRead); return false; }
      used := StoreRoot(s);
    }

    method StoreRoot(s: Sector) returns (ok: bool)
      requires Valid() && phase == CopyRoot && cursor < layout.rootSectors && (sourceBase + cursor, s) in rootReads
      modifies this
      ensures Valid() && if ok then phase == CopyRoot else phase == Failed
    {
      RootSectorOk(Now(), s);
      ghost var next := Job(RootSector(Now().copy, cursor, s), CopyRoot, None, cursor + 1, again);
      RootLogged(Log(), s, next);
      ghost var log := Log().(job := next);
      rootSums := rootSums + [Sum(s)];
      ok := WriteTarget(layout.rootStart + cursor, s);
      if !ok { FailIo(TargetWrite); return; }
      rootCopy := rootCopy + [s];
      cursor := cursor + 1;
      assert Now() == next && Log() == log;
    }

    method RefreshRoot()
      requires Valid() && phase == CopyRoot && cursor >= layout.rootSectors
      modifies this
      ensures Valid() && (phase == Flush || phase == Failed)
    {
      var stable: bool := *;
      if !stable { FailIo(SourceRefresh); return; }
      Unsettle();
      var limit := Min(layout.rootSectors, REFRESH_SECTORS);
      var i := 0;
      while i < limit
        invariant 0 <= i <= limit && Valid() && phase == CopyRoot && cursor >= layout.rootSectors && Renewing(i)
      {
        var ok := RefreshOne(i);
        if !ok { return; }
        i := i + 1;
      }
      RefreshDone();
    }

    /** The first `i` sectors of the copy have been read again. */
    ghost predicate Renewing(i: nat)
      reads this
    {
      settled <= rootCopy && |settled| == i
    }

    ghost method Unsettle()
      requires Valid() && phase == CopyRoot
      modifies this`settled
      ensures Valid() && Renewing(0)
    {
      SettledFree(Log(), []);
      settled := [];
    }

    method RefreshOne(i: nat) returns (ok: bool)
      requires Valid() && phase == CopyRoot && cursor >= layout.rootSectors && i < layout.rootSectors && Renewing(i)
      modifies this
      ensures Valid() && if ok then phase == CopyRoot && cursor == old(cursor) && Renewing(i + 1) else phase == Failed
    {
      if sourceBase + i >= U32_LIMIT { FailIo(SourceOverflow); return false; }
      var read, s := ReadRoot(sourceBase + i);
      if !read { FailIo(SourceRefresh); return false; }
      ok := StoreAgain(i, s);
      if ok { Settle(i, s); }
    }

    ghost method Settle(i: nat, s: Sector)
      requires Valid() && phase == CopyRoot && Renewing(i) && i < |rootCopy| && rootCopy[i] == s
      modifies this`settled
      ensures Valid() && Renewing(i + 1)
    {
      SettledFree(Log(), settled + [s]);
      settled := settled + [s];
    }

    method RefreshDone()
      requires Valid() && phase == CopyRoot && cursor >= layout.rootSectors &&
        Renewing(Min(layout.rootSectors, REFRESH_SECTORS))
      modifies this`phase, this`cursor
      ensures Valid() && phase == Flush
    {
      CopiesDone(Now());
      StepLogged(Log(), Next(Now(), Flush, 0));
      phase, cursor := Flush, 0;
    }

    method StoreAgain(i: nat, s: Sector) returns (ok: bool)
      requires Valid() && phase == CopyRoot && cursor >= layout.rootSectors && i < layout.rootSectors &&
        (sourceBase + i, s) in rootReads
      modifies this
      ensures Valid() && settled == old(settled) && if ok
        then phase == CopyRoot && cursor == old(cursor) else phase == Failed
      ensures ok ==> i < |old(rootCopy)| && rootCopy == old(rootCopy)[i := s]
    {
      RefreshedOk(Now(), i, s);
      ghost var next := Now().(copy := Refreshed(Now().copy, i, s));
      AgainLogged(Log(), i, s, next);
      ghost var log := Log().(job := next);
      ok := WriteTarget(layout.rootStart + i, s);
      if !ok { FailIo(TargetWrite); return; }
      rootSums := rootSums[i := Sum(s)];
      rootCopy := rootCopy[i := s];
      assert Now() == next && Log() == log;
    }

    method FlushStep()
      requires Valid() && phase == Flush
      modifies this
      ensures Valid() && Rank(phase) < Rank(Flush)
    {
      var ok: bool := *;
      if !ok { FailIo(TargetFlush); return; }
      ChecksDone(Now());
      StepLogged(Log(), Next(Now(), VerifyLayout, 0));
      phase, cursor := VerifyLayout, 0;
    }

    /** The partition tables, over whatever the copy left in their place. */
    method PatchStep()
      requires Valid() && phase == PatchLayout
      modifies this
      ensures Valid() && Rank(phase) < Rank(PatchLayout)
    {
      if layout.kind == BiosMbr { PatchMbr(); } else { PatchGpt(); }
    }

    method PatchMbr()
      requires Valid() && phase == PatchLayout && layout.kind == BiosMbr
      modifies this
      ensures Valid() && (phase == CopyRoot || phase == Failed)
    {
      var read, s := ReadBoot(0);
      if !read { FailIo(SourceRead); return; }
      StoreMbr(s, PatchedMbr(s, layout));
    }

    method StoreMbr(source: Sector, table: Sector)
      requires Valid() && phase == PatchLayout && layout.kind == BiosMbr && table == PatchedMbr(source, layout) &&
        (0, source) in bootReads
      modifies this
      ensures Valid() && (phase == CopyRoot || phase == Failed)
    {
      PatchedBiosOk(Now(), source);
      ghost var next := Job(PatchedBios(Now().copy, source), CopyRoot, None, 0, again);
      PatchLogged(Log(), next);
      ghost var log := Log().(job := next);
      var ok := WriteTarget(0, table);
      if !ok { FailIo(TargetWrite); return; }
      mbr, tables := source, [table];
      phase, cursor := CopyRoot, 0;
      assert Now() == next && Log() == log;
    }

    /** Protective MBR, primary header, first sector of the entries, backup header. */
    method BuildTables() returns (first: Sector, header: Sector, entries: Sector, backup: Sector)
      requires LayoutOk(layout) && IdsOk(ids) && layout.kind == UefiGpt && layout.rootSectors > 0
      ensures GptTables(ids, layout, Laid(first, header, entries, backup))
    {
      TablesPass(ids, layout);
      first, header := ProtectiveMbr(layout.targetSectors), HeaderSector(PrimaryHeader(ids, layout));
      entries, backup := EntrySectorAt(ids, layout, 0), HeaderSector(BackupHeader(ids, layout));
    }

    method WriteEntryArray(start: nat, entries: Sector) returns (ok: bool)
      modifies this`target
      ensures |target| == |old(target)|
      ensures ok ==>
        start + GPT_ENTRY_SECTORS <= |target| && target[start..start + GPT_ENTRY_SECTORS] == ArrayOf(entries)
      ensures ok ==> forall lba: nat ::
        lba < |target| && !(start <= lba < start + GPT_ENTRY_SECTORS) ==> target[lba] == old(target)[lba]
    {
      ghost var goal := ArrayOf(entries);
      var i := 0;
      while i < GPT_ENTRY_SECTORS
        invariant 0 <= i <= GPT_ENTRY_SECTORS && |target| == |old(target)| && (i > 0 ==> start + i <= |target|)
        invariant forall k :: 0 <= k < i ==> target[start + k] == goal[k]
        invariant forall lba: nat ::
          lba < |target| && !(start <= lba < start + GPT_ENTRY_SECTORS) ==> target[lba] == old(target)[lba]
      {
        ok := WriteTarget(start + i, if i == 0 then entries else ZeroSector());
        if !ok { return; }
        i := i + 1;
      }
      return true;
    }

    /** Writes all the tables; nothing outside their own sectors changes. */
    method WriteTables(first: Sector, header: Sector, entries: Sector, backup: Sector) returns (ok: bool)
      requires LayoutOk(layout) && layout.kind == UefiGpt && |target| == layout.targetSectors
      modifies this`target
      ensures |target| == |old(target)|
      ensures ok ==> OnlyMeta(layout, old(target), target) && |target| >= FIRST_USABLE + GPT_TRAILING
      ensures ok ==> MetaOf(target) == Laid(first, header, entries, backup)
    {
      var end := layout.targetSectors;
      ok := WriteTarget(0, first);
      if !ok { return; }
      ok := WriteEntryArray(2, entries);
      if !ok { return; }
      ok := WriteTarget(1, header);
      if !ok { return; }
      ghost var mid := target;
      assert mid[2..FIRST_USABLE] == ArrayOf(entries);
      ok := WriteEntryArray(end - GPT_TRAILING, entries);
      if !ok { return; }
      ok := WriteTarget(end - 1, backup);
      if ok { LaidOut(mid, target, first, header, entries, backup); }
    }

    method PatchGpt()
      requires Valid() && phase == PatchLayout && layout.kind == UefiGpt
      modifies this
      ensures Valid() && (phase == CopyRoot || phase == Failed)
    {
      if layout.rootSectors == 0 { Fail(LayoutNotWritable); return; }
      ghost var j := Now();
      var first, header, entries, backup := BuildTables();
      var ok := WriteTables(first, header, entries, backup);
      if !ok { FailIo(TargetWrite); return; }
      TablesInPlace(j);
    }

    /** The tables have been written over the disk of `before`. */
    method TablesInPlace(ghost before: Job)
      requires HealthOf(before) == Sound && before.phase == PatchLayout && layout.kind == UefiGpt &&
        layout.rootSectors > 0
      requires Now() == before.(copy := before.copy.(target := target)) && OnlyMeta(layout, before.copy.target, target)
      requires |target| >= FIRST_USABLE + GPT_TRAILING && GptTables(ids, layout, MetaOf(target)) &&
        RecordHealth(Log().(job := before)) == Sound
      modifies this
      ensures Valid() && phase == CopyRoot
    {
      PatchedGptOk(before, target);
      PatchLogged(Log().(job := before), Job(PatchedGpt(before.copy, target), CopyRoot, None, 0, again));
      tables := MetaOf(target);
      phase, cursor := CopyRoot, 0;
    }

    method VerifyLayoutStep()
      requires Valid() && phase == VerifyLayout
      modifies this
      ensures Valid() && Rank(phase) < Rank(VerifyLayout)
    {
      if layout.kind == BiosMbr {
        VerifyMbr();
      } else {
        var read: bool := *;
        if !read { FailIo(TargetRead); return; }
        GptVerdict(Now());
        if !GptCheck(ids, target, layout) {
          assert false;
        }
        PassLayout();
      }
    }

    method VerifyMbr()
      requires Valid() && phase == VerifyLayout && layout.kind == BiosMbr
      modifies this
      ensures Valid() && (phase == VerifyBoot || phase == Failed)
    {
      var read, s := ReadBoot(0);
      if !read { FailIo(SourceRead); return; }
      var ok, t := ReadTarget(0);
      if !ok { FailIo(TargetRead); return; }
      MbrVerdict(Now(), s);
      StepLogged(Log(), Now().(again := s));
      again := s;
      if !MbrCheck(s, t, layout) { Fail(LayoutMismatch); return; }
      PassLayout();
    }

    method PassLayout()
      requires Valid() && phase == VerifyLayout
      modifies this`phase, this`cursor, this`bootSeen
      ensures Valid() && phase == VerifyBoot
    {
      ChecksDone(Now());
      ChecksStart(Log(), Next(Now(), VerifyBoot, VerifyStart(layout)));
      phase, cursor, bootSeen := VerifyBoot, VerifyStart(layout), [];
    }

    /** Works through at most `budget` sectors.  Whatever the source holds and whichever request fails, the job never
        fails through a mismatch of copied sectors; and when it is complete, every root sector on the target is the
        source's as last read, every verified boot sector is its copy, and the tables are those written. */
    method Tick(budget: nat)
      requires Valid()
      modifies this
      ensures Valid()
      ensures phase == Complete ==> Copied(Now().copy) && Documented(Log())
      ensures phase == Failed ==> reason.Some? && Excused(Now(), reason.value)
    {
      var remaining := Max(budget, 1);
      while remaining > 0 && phase != Complete && phase != Failed
        invariant Valid()
        decreases Rank(phase), remaining
      {
        var used := TickOne();
        if used { remaining := remaining - 1; }
      }
    }

    /** One turn of the loop: a sector of the current phase, or the step to a later one. */
    method TickOne() returns (used: bool)
      requires Valid() && phase != Complete && phase != Failed
      modifies this
      ensures Valid() && if used then phase == old(phase) else Rank(phase) < Rank(old(phase))
    {
      used := false;
      match phase {
        case CopyBoot => used := CopyBootStep();
        case PatchLayout => PatchStep();
        case CopyRoot => used := CopyRootStep();
        case Flush => FlushStep();
        case VerifyLayout => VerifyLayoutStep();
        case VerifyBoot => used := VerifyBootStep();
        case VerifyRoot => used := VerifyRootStep();
      }
    }

    method VerifyBootStep() returns (used: bool)
      requires Valid() && phase == VerifyBoot
      modifies this
      ensures Valid() && if used then phase == VerifyBoot else Rank(phase) < Rank(VerifyBoot)
    {
      if cursor >= layout.bootSectors {
        BootDone();
        return false;
      }
      var read, s := ReadTarget(layout.bootStart + cursor);
      if !read { FailIo(TargetRead); return false; }
      CheckBoot(s);
      return true;
    }

    /** A mismatch would end the job; there is none. */
    method CheckBoot(s: Sector)
      requires Valid() && phase == VerifyBoot && cursor < layout.bootSectors
      requires layout.bootStart + cursor < |target| && s == target[layout.bootStart + cursor]
      modifies this`cursor, this`bootSeen
      ensures Valid()
    {
      BootAgrees(Now());
      if Sum(s) != bootSums[cursor] {
        assert false;
      }
      ConfirmBoot(s);
    }

    method BootDone()
      requires Valid() && phase == VerifyBoot && cursor >= layout.bootSectors
      modifies this`phase, this`cursor, this`rootSeen
      ensures Valid() && phase == VerifyRoot
    {
      ChecksDone(Now());
      ChecksEnd(Log(), Next(Now(), VerifyRoot, 0));
      phase, cursor, rootSeen := VerifyRoot, 0, [];
    }

    method ConfirmBoot(s: Sector)
      requires Valid() && phase == VerifyBoot && cursor < layout.bootSectors && cursor < |bootSums| &&
        Sum(s) == bootSums[cursor]
      modifies this`cursor, this`bootSeen
      ensures Valid()
    {
      VerifiedOne(Now());
      BootSeen(Log(), s, Next(Now(), VerifyBoot, cursor + 1));
      bootSeen, cursor := bootSeen + [s], cursor + 1;
    }

    method VerifyRootStep() returns (used: bool)
      requires Valid() && phase == VerifyRoot
      modifies this
      ensures Valid() && if used then phase == VerifyRoot else Rank(phase) < Rank(VerifyRoot)
    {
      if cursor >= layout.rootSectors {
        ChecksDone(Now());
        ChecksEnd(Log(), Next(Now(), Complete, cursor));
        phase := Complete;
        return false;
      }
      var read, s := ReadTarget(layout.rootStart + cursor);
      if !read { FailIo(TargetRead); return false; }
      CheckRoot(s);
      return true;
    }

    method CheckRoot(s: Sector)
      requires Valid() && phase == VerifyRoot && cursor < layout.rootSectors
      requires layout.rootStart + cursor < |target| && s == target[layout.rootStart + cursor]
      modifies this`cursor, this`rootSeen
      ensures Valid()
    {
      RootAgrees(Now());
      if Sum(s) != rootSums[cursor] {
        assert false;
      }
      ConfirmRoot(s);
    }

    method ConfirmRoot(s: Sector)
      requires Valid() && phase == VerifyRoot && cursor < layout.rootSectors && cursor < |rootSums| &&
        Sum(s) == rootSums[cursor]
      modifies this`cursor, this`rootSeen
      ensures Valid()
    {
      VerifiedOne(Now());
      RootSeen(Log(), s, Next(Now(), VerifyRoot, cursor + 1));
      rootSeen, cursor := rootSeen + [s], cursor + 1;
    }
  }
}
