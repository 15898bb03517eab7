/** Formatting a disk, mounting one, and whole runs of operations between the two. */
module CoolFormat {
  import opened Bytes
  import opened CoolGeometry
  import opened CoolLayout
  import opened CoolVolume
  import opened CoolImage
  import opened CoolRefine
  import opened CoolSuper
  import Cache = CoolCache
  import FileSystem = CoolFs
  import Ops = CoolTreeOps
  import Tree = CoolTree

  function RootInode(): Inode { Inode(KIND_DIR, 0, Repeat(0, DIRECT_BLOCKS), 0, 0, 0, DEFAULT_DIR_MODE) }

  ghost function Region(hi: nat): set<nat> {
    if hi <= DATA_START then {} else Region(hi - 1) + {hi - 1}
  }

  lemma {:induction false} RegionIs(hi: nat)
    ensures forall b: nat :: b in Region(hi) <==> DATA_START <= b < hi
    ensures |Region(hi)| == Max(hi - DATA_START, 0)
  {
    if hi > DATA_START { RegionIs(hi - 1); }
  }

  /** An inode table and bitmap of zeros. */
  ghost predicate Blank(v: Vol) {
    Lengths(v) && (forall i :: 0 <= i < INODE_COUNT ==> v.inodes[i] == FreeInode()) &&
      (forall b :: 0 <= b < TOTAL_BLOCKS ==> !v.used[b])
  }

  lemma ZeroIsBlank(f: seq<u8>)
    requires |f| == FS_LEN && forall k :: BLOCK_SIZE <= k < DATA_START * BLOCK_SIZE ==> f[k] == 0
    ensures Blank(View(f))
  {
    forall i | 0 <= i < INODE_COUNT ensures View(f).inodes[i] == FreeInode() { ZeroInode(f, i); }
    forall b | 0 <= b < TOTAL_BLOCKS ensures !UsedAt(f, b) { ZeroBits(b % 8); }
  }

  lemma ZeroInode(f: seq<u8>, i: nat)
    requires |f| == FS_LEN && i < INODE_COUNT && forall k :: BLOCK_SIZE <= k < DATA_START * BLOCK_SIZE ==> f[k] == 0
    ensures InodeAt(f, i) == FreeInode()
  {
    var r := f[InodeOff(i)..InodeOff(i) + INODE_SIZE];
    assert forall k :: 0 <= k < INODE_SIZE ==> r[k] == 0;
    assert DecodeInode(r).direct == Repeat(0, DIRECT_BLOCKS);
  }

  lemma {:induction false} ZeroBits(k: nat)
    ensures !BitOf(0, k)
  {
    if k > 0 { ZeroBits(k - 1); }
  }

  lemma HeadWritten(f: seq<u8>)
    requires |f| == FS_LEN && forall k :: 0 <= k < BLOCK_SIZE ==> f[k] == 0
    ensures BlockAt(Splice(f, 0, EncodeSuper(Standard())), 0) == FormattedHead()
  {
    BlockAtSplice(f, 0, 0, EncodeSuper(Standard()), 0);
    assert BlockAt(f, 0) == Repeat(0, BLOCK_SIZE);
  }

  /** A fresh volume: only the root, only the metadata blocks used. */
  ghost predicate Fresh(v: Vol) {
    Lengths(v) && v.inodes[0] == RootInode() && (forall i :: 1 <= i < INODE_COUNT ==> v.inodes[i] == FreeInode()) &&
    forall b :: 0 <= b < TOTAL_BLOCKS ==> (v.used[b] <==> b < DATA_START)
  }

  lemma FreshOwned(v: Vol, i: nat)
    requires Fresh(v) && i < INODE_COUNT
    ensures OwnsWell(v, i) && Owned(v.data, v.inodes[i]) == [] && ListOk(BlockList(v.data, v.inodes[i])) &&
      Content(v.data, v.inodes[i]) == []
  {
    EmptyInode(v.data, v.inodes[i]);
  }

  lemma FreshMounts(v: Vol)
    requires Fresh(v)
    ensures Mounted(v) == Mount(Ops.Formatted())
  {
    forall i: nat | i < INODE_COUNT ensures OwnsWell(v, i) && forall b: nat :: !Owns(v, i, b) { FreshOwned(v, i); }
    assert VolInv(v);
    forall i: nat | i < INODE_COUNT ensures Canonical(v, i) && NodeOf(v, i) == Ops.Formatted().nodes[i] {
      FreshOwned(v, i);
      ListsOk(v, i);
    }
    assert Abs(v).nodes == Ops.Formatted().nodes;
    RegionIs(TOTAL_BLOCKS);
    assert FreeSet(v.used) == Region(TOTAL_BLOCKS);
    Ops.FormattedOk();
  }

  /** Zero the metadata blocks, write the superblock, mark the metadata used and make the root directory. */
  method FormatImage(device: Cache.Device) returns (image: Image)
    requires device.reliable && Cache.DiskFits(device.sectors)
    modifies device
    ensures fresh(image) && fresh(image.cache) && image.cache.device == device
    ensures image.Ready() && Mounted(image.vol) == Mount(Ops.Formatted()) && image.vol.head == FormattedHead()
  {
    var cache := new Cache.BlockCache(device);
    image := new Image(cache);
    for b := 0 to DATA_START
      invariant image.cache == cache && cache.device == device && fresh(cache) && fresh(image)
      invariant image.Ready() && forall k :: 0 <= k < b * BLOCK_SIZE ==> image.flat[k] == 0
    {
      var ok := image.FillAt(b * BLOCK_SIZE, BLOCK_SIZE, 0);
    }
    ghost var zeros := image.flat;
    var ok := image.WriteAt(0, EncodeSuper(Standard()));
    HeadWritten(zeros);
    ZeroIsBlank(image.flat);
    ghost var blank := image.vol;
    for b := 0 to DATA_START
      invariant image.cache == cache && cache.device == device && fresh(cache) && fresh(image)
      invariant image.Ready() && image.vol == blank.(used := image.vol.used)
      invariant forall c :: 0 <= c < TOTAL_BLOCKS ==> (image.vol.used[c] <==> c < b)
    {
      image.SetBlockUsed(b, true);
    }
    image.WriteInode(0, RootInode());
    FreshMounts(image.vol);
  }

  datatype Opening = Opened(image: Image) | Foreign(sb: Super) | Failed

  ghost predicate OnDisk(image: Image, sectors: seq<Cache.Sector>)
    requires Cache.DiskFits(sectors)
    reads image
  {
    |image.flat| == FS_LEN && forall b: nat ::
      b < TOTAL_BLOCKS ==> BlockAt(image.flat, b) == Cache.DiskBlock(sectors, b)
  }

  /** Mount what block 0 describes; a disk without a superblock is formatted and flushed. */
  method LoadOrFormat(device: Cache.Device) returns (r: Opening)
    requires Cache.DiskFits(device.sectors) && (device.reliable || Opens(Cache.DiskBlock(device.sectors, 0)).Some?)
    modifies device
    ensures Cache.DiskFits(device.sectors) && (device.reliable ==> !r.Failed?)
    ensures r.Opened? ==>
      fresh(r.image) && r.image.Valid() && r.image.cache.device == device && OnDisk(r.image, device.sectors)
    ensures var sb := old(Opens(Cache.DiskBlock(device.sectors, 0)));
      if sb.None? then
        r.Opened? && Mounted(r.image.vol) == Mount(Ops.Formatted()) && r.image.vol.head == FormattedHead()
      else
        device.sectors == old(device.sectors) && (r.Opened? ==> sb == Some(Standard())) &&
        (r.Foreign? ==> r.sb == sb.value != Standard())
  {
    var ok, first := device.ReadDiskBlock(0);
    if !ok { return Failed; }
    var sb := Opens(first);
    if sb.Some? {
      if sb.value != Standard() { return Foreign(sb.value); }
      var cache := new Cache.BlockCache.WithCleanBlock(device, 0, first);
      var loaded := new Image(cache);
      WholeDisk(loaded, device.sectors);
      return Opened(loaded);
    }
    var image := FormatImage(device);
    ok := image.cache.Flush();
    WholeDisk(image, device.sectors);
    return Opened(image);
  }

  lemma WholeDisk(image: Image, sectors: seq<Cache.Sector>)
    requires image.Valid() && Cache.DiskFits(sectors)
    requires forall b :: 0 <= b < TOTAL_BLOCKS ==> Cache.DiskBlock(sectors, b) == image.cache.content[b]
    ensures OnDisk(image, sectors)
  {
    forall b: nat | b < TOTAL_BLOCKS ensures BlockAt(image.flat, b) == Cache.DiskBlock(sectors, b) {
      PieceAt(image.cache.content, image.flat, b * BLOCK_SIZE, BLOCK_SIZE);
      assert image.cache.content[b][0..BLOCK_SIZE] == image.cache.content[b];
    }
  }

  /** Images that agree with the same disk agree. */
  lemma SameDisk(f: seq<u8>, g: seq<u8>)
    requires |f| == |g| == FS_LEN && forall b: nat :: b < TOTAL_BLOCKS ==> BlockAt(f, b) == BlockAt(g, b)
    ensures f == g
  {
    forall k | 0 <= k < FS_LEN ensures f[k] == g[k] {
      var b := k / BLOCK_SIZE;
      assert BlockAt(f, b)[k % BLOCK_SIZE] == BlockAt(g, b)[k % BLOCK_SIZE];
    }
  }

  lemma HeadOnDisk(image: Image, sectors: seq<Cache.Sector>)
    requires image.Valid() && Cache.DiskFits(sectors) && OnDisk(image, sectors)
    ensures Cache.DiskBlock(sectors, 0) == image.vol.head
  {
    assert BlockAt(image.flat, 0) == image.vol.head;
  }

  lemma SameImage(a: Image, b: Image, sectors: seq<Cache.Sector>)
    requires a.Valid() && b.Valid() && Cache.DiskFits(sectors) && OnDisk(a, sectors) && OnDisk(b, sectors)
    ensures a.flat == b.flat && a.vol == b.vol
  {
    SameDisk(a.flat, b.flat);
    ViewUnique(a.flat, a.vol);
    ViewUnique(b.flat, b.vol);
  }

  method FlushAll(image: Image) returns (ok: bool)
    requires image.Valid()
    modifies image.cache, image.cache.device
    ensures image.Valid() && (image.cache.device.reliable ==> ok)
    ensures ok ==> OnDisk(image, image.cache.device.sectors)
  {
    ok := image.cache.Flush();
    if ok { WholeDisk(image, image.cache.device.sectors); }
  }

  /** Mounting a disk that holds all of an image gives the same image. */
  method Reopen(image: Image) returns (r: Opening)
    requires image.Valid() && Opens(image.vol.head) == Some(Standard()) && OnDisk(image, image.cache.device.sectors)
    modifies image.cache.device
    ensures image.Valid() && !r.Foreign? && (image.cache.device.reliable ==> r.Opened?)
    ensures r.Opened? ==> r.image.Valid() && r.image.cache.device == image.cache.device
    ensures r.Opened? ==> r.image.flat == image.flat && r.image.vol == image.vol
  {
    ghost var sectors, sb := image.cache.device.sectors, Opens(image.vol.head);
    assert Opens(Cache.DiskBlock(sectors, 0)) == sb && sb.Some? by { HeadOnDisk(image, sectors); }
    r := LoadOrFormat(image.cache.device);
    if r.Opened? { SameImage(r.image, image, sectors); }
  }

  /** After a successful flush the disk holds everything: mounting it again shows the same tree, and never formats
      it. */
  method FlushAndReopen(image: Image) returns (ok: bool, r: Opening)
    requires image.Valid() && Opens(image.vol.head) == Some(Standard())
    modifies image.cache, image.cache.device
    ensures image.Valid() && (image.cache.device.reliable ==> ok && r.Opened?)
    ensures ok ==> !r.Foreign?
    ensures ok && r.Opened? ==> r.image.Valid() && r.image.cache.device == image.cache.device
    ensures ok && r.Opened? ==> r.image.flat == image.flat && r.image.vol == old(image.vol)
  {
    ok := FlushAll(image);
    if !ok { return false, Failed; }
    r := Reopen(image);
  }

  // ---- Whole runs ------------------------------------------------------------------------------

  method Apply(image: Image, op: Ops.Op)
    requires FileSystem.Live(image)
    modifies image, image.cache, image.cache.device
    ensures FileSystem.Live(image) && image.vol.head == old(image.vol.head)
    ensures FileSystem.Fs(image) == Ops.Apply(old(FileSystem.Fs(image)), op).fs
  {
    ghost var out := Ops.Apply(FileSystem.Fs(image), op);
    var r;
    match op {
      case OpCreate(p, kind, meta) => r := FileSystem.CreateNode(image, p, kind, meta);
      case OpWrite(p, data) => r := FileSystem.WriteFile(image, p, data);
      case OpDelete(p) => r := FileSystem.DeleteFile(image, p);
      case OpRename(p, n) => r := FileSystem.Rename(image, p, n);
      case OpChmod(p, mode) => r := FileSystem.Chmod(image, p, mode);
      case OpChown(p, uid, gid) => r := FileSystem.Chown(image, p, uid, gid);
      case OpSafeWrite(p, data, meta) => r := FileSystem.SafeWrite(image, p, data, meta);
    }
    assert Tree.Outcome(r, FileSystem.Fs(image)) == out;
  }

  /** From formatting on, every run leaves a volume that satisfies every invariant and stands for the tree the run
      computes. */
  method FormatAndRun(device: Cache.Device, ops: seq<Ops.Op>) returns (image: Image)
    requires device.reliable && Cache.DiskFits(device.sectors)
    modifies device
    ensures fresh(image) && fresh(image.cache) && image.cache.device == device && FileSystem.Live(image) &&
      VolInv(image.vol)
    ensures FileSystem.Fs(image) == Ops.Run(Ops.Formatted(), ops) && Opens(image.vol.head) == Some(Standard())
  {
    image := FormatImage(device);
    FormattedOpens();
    ghost var head := image.vol.head;
    ghost var start := Ops.Formatted();
    for k := 0 to |ops|
      invariant fresh(image) && fresh(image.cache) && image.cache.device == device && FileSystem.Live(image)
      invariant image.vol.head == head && Ops.Run(FileSystem.Fs(image), ops[k..]) == Ops.Run(start, ops)
    {
      assert ops[k..][0] == ops[k] && ops[k..][1..] == ops[k + 1..];
      Apply(image, ops[k]);
    }
    MountedTree(image.vol);
  }

  /** Format, run, flush, mount again: the tree is the one the run computes. */
  method RunAndRemount(device: Cache.Device, ops: seq<Ops.Op>) returns (again: Image)
    requires device.reliable && Cache.DiskFits(device.sectors)
    modifies device
    ensures FileSystem.Live(again) && FileSystem.Fs(again) == Ops.Run(Ops.Formatted(), ops)
  {
    var image := FormatAndRun(device, ops);
    var ok, r := FlushAndReopen(image);
    again := r.image;
  }
}
