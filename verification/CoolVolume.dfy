/**
 The structured view of a CoolFS image (inodes, bitmap, data blocks), its ownership invariant, and the tree of
 nodes it represents.
 */
module CoolVolume {
  import opened Bytes
  import opened CoolGeometry
  import opened CoolLayout
  import Tree = CoolTree

  /** `head` is block 0, which holds the superblock. */
  datatype Vol = Vol(head: Block, inodes: seq<Inode>, used: seq<bool>, data: seq<Block>)

  // ---- From bytes to structures -------------------------------------------------

  function InodeOff(i: nat): nat { INODE_TABLE_START * BLOCK_SIZE + i * INODE_SIZE }

  function InodeAt(f: seq<u8>, i: nat): Inode
    requires |f| == FS_LEN && i < INODE_COUNT
  {
    DecodeInode(f[InodeOff(i)..InodeOff(i) + INODE_SIZE])
  }

  function BitByte(b: nat): nat { BITMAP_START * BLOCK_SIZE + b / 8 }

  predicate UsedAt(f: seq<u8>, b: nat)
    requires |f| == FS_LEN && b < TOTAL_BLOCKS
  {
    BitOf(f[BitByte(b)], b % 8)
  }

  function BlockAt(f: seq<u8>, b: nat): Block
    requires |f| == FS_LEN && b < TOTAL_BLOCKS
  {
    f[b * BLOCK_SIZE..(b + 1) * BLOCK_SIZE]
  }

  function ZeroBlock(): Block { Repeat(0, BLOCK_SIZE) }

  function DataAt(f: seq<u8>, b: nat): Block
    requires |f| == FS_LEN && b < TOTAL_BLOCKS
  {
    if b < DATA_START then ZeroBlock() else BlockAt(f, b)
  }

  /** Metadata blocks show as zero in `data`; their content is in the head, the inodes and the bitmap. */
  ghost function View(f: seq<u8>): (v: Vol)
    requires |f| == FS_LEN
    ensures |v.inodes| == INODE_COUNT && |v.used| == TOTAL_BLOCKS && |v.data| == TOTAL_BLOCKS
  {
    Vol(BlockAt(f, 0), seq(INODE_COUNT, i requires 0 <= i < INODE_COUNT => InodeAt(f, i)),
        seq(TOTAL_BLOCKS, b requires 0 <= b < TOTAL_BLOCKS => UsedAt(f, b)),
        seq(TOTAL_BLOCKS, b requires 0 <= b < TOTAL_BLOCKS => DataAt(f, b)))
  }

  /** `v` is the view of `f`. */
  ghost predicate IsView(f: seq<u8>, v: Vol) {
    |f| == FS_LEN && Lengths(v) && v.head == BlockAt(f, 0) &&
    (forall i {:trigger InodeAt(f, i)} :: 0 <= i < INODE_COUNT ==> v.inodes[i] == InodeAt(f, i)) &&
    (forall b {:trigger UsedAt(f, b)} :: 0 <= b < TOTAL_BLOCKS ==> v.used[b] == UsedAt(f, b)) &&
    (forall b {:trigger DataAt(f, b)} :: 0 <= b < TOTAL_BLOCKS ==> v.data[b] == DataAt(f, b))
  }

  lemma ViewIs(f: seq<u8>)
    requires |f| == FS_LEN
    ensures IsView(f, View(f))
  {
  }

  lemma ViewUnique(f: seq<u8>, v: Vol)
    requires IsView(f, v)
    ensures v == View(f)
  {
    var w := View(f);
    forall i | 0 <= i < INODE_COUNT ensures v.inodes[i] == w.inodes[i] { assert v.inodes[i] == InodeAt(f, i); }
    forall b | 0 <= b < TOTAL_BLOCKS ensures v.used[b] == w.used[b] && v.data[b] == w.data[b] {
      assert v.used[b] == UsedAt(f, b) && v.data[b] == DataAt(f, b);
    }
    assert v.inodes == w.inodes && v.used == w.used && v.data == w.data;
  }

  function Seen(n: Inode): Inode { n.(mode := NormMode(n.kind, n.mode)) }

  lemma ViewInode(f: seq<u8>, i: nat, n: Inode)
    requires |f| == FS_LEN && i < INODE_COUNT && InodeFits(n)
    ensures View(Splice(f, InodeOff(i), EncodeInode(n))) == View(f).(inodes := View(f).inodes[i := Seen(n)])
  {
    var g := Splice(f, InodeOff(i), EncodeInode(n));
    InodeRoundTrip(n);
    forall j | 0 <= j < INODE_COUNT ensures InodeAt(g, j) == if j == i then Seen(n) else InodeAt(f, j) {
      var o := InodeOff(j);
      if j == i {
        assert g[o..o + INODE_SIZE] == EncodeInode(n);
      } else {
        assert g[o..o + INODE_SIZE] == f[o..o + INODE_SIZE];
      }
    }
    forall b | 0 <= b < TOTAL_BLOCKS ensures UsedAt(g, b) == UsedAt(f, b) {}
    forall b | b == 0 || DATA_START <= b < TOTAL_BLOCKS ensures BlockAt(g, b) == BlockAt(f, b) {}
  }

  lemma ViewBit(f: seq<u8>, b: nat, v: bool)
    requires |f| == FS_LEN && b < TOTAL_BLOCKS
    requires 0 <= WithBit(f[BitByte(b)], b % 8, v) < 256
    ensures View(Splice(f, BitByte(b), [WithBit(f[BitByte(b)], b % 8, v)])) == View(f).(used := View(f).used[b := v])
  {
    var g := Splice(f, BitByte(b), [WithBit(f[BitByte(b)], b % 8, v)]);
    forall c | 0 <= c < TOTAL_BLOCKS ensures UsedAt(g, c) == if c == b then v else UsedAt(f, c) {
      if BitByte(c) == BitByte(b) { WithBitAt(f[BitByte(b)], b % 8, v, c % 8); }
    }
    forall j | 0 <= j < INODE_COUNT ensures InodeAt(g, j) == InodeAt(f, j) {
      var o := InodeOff(j);
      assert g[o..o + INODE_SIZE] == f[o..o + INODE_SIZE];
    }
    forall c | c == 0 || DATA_START <= c < TOTAL_BLOCKS ensures BlockAt(g, c) == BlockAt(f, c) {}
  }

  lemma BlockAtSplice(f: seq<u8>, b: nat, off: nat, bytes: seq<u8>, c: nat)
    requires |f| == FS_LEN && b < TOTAL_BLOCKS && off + |bytes| <= BLOCK_SIZE && c < TOTAL_BLOCKS
    ensures BlockAt(Splice(f, b * BLOCK_SIZE + off, bytes), c) == if c == b
      then Splice(BlockAt(f, b), off, bytes) else BlockAt(f, c)
  {
    var g := Splice(f, b * BLOCK_SIZE + off, bytes);
    if c == b {
      var want := Splice(BlockAt(f, b), off, bytes);
      forall k | 0 <= k < BLOCK_SIZE ensures BlockAt(g, b)[k] == want[k] {
        assert BlockAt(g, b)[k] == g[b * BLOCK_SIZE + k];
      }
    } else {
      assert BlockAt(g, c) == BlockAt(f, c);
    }
  }

  lemma ViewData(f: seq<u8>, b: nat, off: nat, bytes: seq<u8>)
    requires |f| == FS_LEN && DATA_START <= b < TOTAL_BLOCKS && off + |bytes| <= BLOCK_SIZE
    ensures View(Splice(f, b * BLOCK_SIZE + off, bytes)) ==
      View(f).(data := View(f).data[b := Splice(View(f).data[b], off, bytes)])
  {
    var g := Splice(f, b * BLOCK_SIZE + off, bytes);
    forall c | c == 0 || DATA_START <= c < TOTAL_BLOCKS
      ensures BlockAt(g, c) == if c == b then Splice(BlockAt(f, b), off, bytes) else BlockAt(f, c)
    {
      BlockAtSplice(f, b, off, bytes, c);
    }
    forall j | 0 <= j < INODE_COUNT ensures InodeAt(g, j) == InodeAt(f, j) {
      var o := InodeOff(j);
      assert g[o..o + INODE_SIZE] == f[o..o + INODE_SIZE];
    }
    forall c | 0 <= c < TOTAL_BLOCKS ensures UsedAt(g, c) == UsedAt(f, c) {}
  }

  // ---- Blocks of an inode ----------------------------------------------------------

  function BlockCount(size: nat): nat { DivUp(size, BLOCK_SIZE) }

  predicate InRegion(b: nat) { DATA_START <= b < TOTAL_BLOCKS }

  function IndirectList(blk: Block, k: nat): (r: seq<nat>)
    requires k <= INDIRECT_ENTRIES
    ensures |r| == k
  {
    seq(k, j requires 0 <= j < k => Le32(blk, 4 * j))
  }

  /** Size within the limit, and an indirect block exactly when the direct ones do not suffice. */
  predicate Shaped(n: Inode) {
    InodeFits(n) && n.size <= Tree.MAX_FILE_BYTES &&
    (BlockCount(n.size) > DIRECT_BLOCKS <==> n.indirect != 0) && (n.indirect != 0 ==> InRegion(n.indirect))
  }

  function BlockList(data: seq<Block>, n: Inode): (r: seq<nat>)
    requires |data| == TOTAL_BLOCKS && Shaped(n)
    ensures |r| == BlockCount(n.size)
  {
    var cnt := BlockCount(n.size);
    if cnt <= DIRECT_BLOCKS then n.direct[..cnt] else n.direct + IndirectList(data[n.indirect], cnt - DIRECT_BLOCKS)
  }

  function Owned(data: seq<Block>, n: Inode): (r: seq<nat>)
    requires |data| == TOTAL_BLOCKS && Shaped(n)
    ensures |r| == Tree.Need(n.size)
  {
    BlockList(data, n) + if n.indirect != 0 then [n.indirect] else []
  }

  predicate NoDup<T(==)>(s: seq<T>) { forall i, j :: 0 <= i < j < |s| ==> s[i] != s[j] }

  predicate Lengths(v: Vol) { |v.inodes| == INODE_COUNT && |v.used| == TOTAL_BLOCKS && |v.data| == TOTAL_BLOCKS }

  predicate KindOk(n: Inode) {
    n.kind <= KIND_DIR && (n.kind == KIND_FREE ==> n.size == 0 && n.indirect == 0)
  }

  /** The blocks of one inode are distinct, in the data region and marked used. */
  predicate OwnsWell(v: Vol, i: nat)
    requires Lengths(v) && i < INODE_COUNT
  {
    Shaped(v.inodes[i]) && KindOk(v.inodes[i]) &&
    var own := Owned(v.data, v.inodes[i]);
    NoDup(own) && forall k :: 0 <= k < |own| ==> InRegion(own[k]) && v.used[own[k]]
  }

  ghost predicate Owns(v: Vol, i: nat, b: nat)
    requires Lengths(v)
  {
    i < INODE_COUNT && Shaped(v.inodes[i]) && b in Owned(v.data, v.inodes[i])
  }

  /** The used bits are the metadata blocks plus the disjoint union of what the inodes own. */
  ghost predicate VolInv(v: Vol) {
    Lengths(v) &&
    (forall i: nat :: i < INODE_COUNT ==> OwnsWell(v, i)) &&
    (forall i: nat, j: nat, b: nat :: Owns(v, i, b) && Owns(v, j, b) ==> i == j) &&
    (forall b: nat :: b < DATA_START ==> v.used[b]) &&
    (forall b: nat :: InRegion(b) && v.used[b] ==> exists i: nat :: Owns(v, i, b))
  }

  ghost function FreeSet(used: seq<bool>): set<nat>
    requires |used| == TOTAL_BLOCKS
  {
    set b: nat | b < TOTAL_BLOCKS && DATA_START <= b && !used[b]
  }

  ghost function SetOf(s: seq<nat>): set<nat> { set b: nat | b in s }

  lemma {:induction false} SetOfSize(s: seq<nat>)
    requires NoDup(s)
    ensures |SetOf(s)| == |s|
  {
    if s != [] {
      var n := |s| - 1;
      SetOfSize(s[..n]);
      assert SetOf(s) == SetOf(s[..n]) + {s[n]};
    }
  }

  // ---- Content and the tree ----------------------------------------------------------

  predicate ListOk(list: seq<nat>) { forall k :: 0 <= k < |list| ==> InRegion(list[k]) }

  /** The first `size` bytes of the listed blocks. */
  ghost function Gather(data: seq<Block>, list: seq<nat>, size: nat): (r: seq<u8>)
    requires |data| == TOTAL_BLOCKS && ListOk(list) && size <= |list| * BLOCK_SIZE
    ensures |r| == size
  {
    seq(size, k requires 0 <= k < size => GatherAt(data, list, k))
  }

  function GatherAt(data: seq<Block>, list: seq<nat>, k: nat): u8
    requires |data| == TOTAL_BLOCKS && ListOk(list) && k < |list| * BLOCK_SIZE
  {
    data[list[k / BLOCK_SIZE]][k % BLOCK_SIZE]
  }

  ghost function Content(data: seq<Block>, n: Inode): (r: seq<u8>)
    requires |data| == TOTAL_BLOCKS && Shaped(n) && ListOk(BlockList(data, n))
    ensures |r| == n.size
  {
    Gather(data, BlockList(data, n), n.size)
  }

  lemma ListsOk(v: Vol, i: nat)
    requires VolInv(v) && i < INODE_COUNT
    ensures Shaped(v.inodes[i]) && ListOk(BlockList(v.data, v.inodes[i]))
  {
    assert OwnsWell(v, i);
    var own := Owned(v.data, v.inodes[i]);
    assert forall k :: 0 <= k < |BlockList(v.data, v.inodes[i])| ==> BlockList(v.data, v.inodes[i])[k] == own[k];
  }

  function DecodeEntry(chunk: seq<u8>): seq<Tree.Entry>
    requires |chunk| == 32
  {
    var inode, len := Le32(chunk, 0), chunk[4];
    if inode == 0 || len == 0 || len > Tree.MAX_NAME_LEN then [] else [Tree.Entry(inode, chunk[5..5 + len])]
  }

  function DecodeDir(bytes: seq<u8>): seq<Tree.Entry> {
    if |bytes| < 32 then [] else DecodeEntry(bytes[..32]) + DecodeDir(bytes[32..])
  }

  predicate Encodable(e: Tree.Entry) { 0 < e.inode <= MAX_U32 && 0 < |e.name| <= Tree.MAX_NAME_LEN }

  function EncodeEntry(e: Tree.Entry): (r: seq<u8>)
    requires Encodable(e)
    ensures |r| == 32
  {
    ToLe32(e.inode) + [|e.name|] + e.name + Repeat(0, Tree.MAX_NAME_LEN - |e.name|)
  }

  function EncodeDir(es: seq<Tree.Entry>): (r: seq<u8>)
    requires forall e :: e in es ==> Encodable(e)
    ensures |r| == 32 * |es|
  {
    if es == [] then [] else EncodeEntry(es[0]) + EncodeDir(es[1..])
  }

  lemma EntryRoundTrip(e: Tree.Entry)
    requires Encodable(e)
    ensures DecodeEntry(EncodeEntry(e)) == [e]
  {
    var r := EncodeEntry(e);
    assert r[0..4] == ToLe32(e.inode);
    Le32Slice(r, 0, e.inode);
    assert r[4] == |e.name|;
    assert r[5..5 + |e.name|] == e.name;
  }

  /** A directory's records read back as written. */
  lemma {:induction false} DirRoundTrip(es: seq<Tree.Entry>)
    requires forall e :: e in es ==> Encodable(e)
    ensures DecodeDir(EncodeDir(es)) == es
    decreases |es|
  {
    if es != [] {
      var r := EncodeDir(es);
      assert es[0] in es && forall e :: e in es[1..] ==> e in es;
      EntryRoundTrip(es[0]);
      DirRoundTrip(es[1..]);
      assert r[..32] == EncodeEntry(es[0]) && r[32..] == EncodeDir(es[1..]);
    }
  }

  function MetaOf(n: Inode): Tree.Meta { Tree.Meta(n.uid, n.gid, n.mode) }

  /** The content of inode `i`. */
  ghost function BytesOf(v: Vol, i: nat): seq<u8>
    requires Lengths(v) && i < INODE_COUNT
  {
    var n := v.inodes[i];
    if Shaped(n) && ListOk(BlockList(v.data, n)) then Content(v.data, n) else []
  }

  ghost function NodeOf(v: Vol, i: nat): Tree.Node
    requires Lengths(v) && i < INODE_COUNT
  {
    var n := v.inodes[i];
    if n.kind == KIND_FREE then Tree.Free
    else if n.kind == KIND_FILE then Tree.File(BytesOf(v, i), MetaOf(n))
    else Tree.Dir(DecodeDir(BytesOf(v, i)), MetaOf(n))
  }

  /** The tree of nodes and the number of free blocks that the volume stands for. */
  ghost function Abs(v: Vol): Tree.Fs {
    if VolInv(v) then Tree.Fs(seq(INODE_COUNT, i requires 0 <= i < INODE_COUNT => NodeOf(v, i)), |FreeSet(v.used)|)
    else Tree.Fs([], 0)
  }

  /** A directory holds exactly the records it decodes to, with nothing between them. */
  ghost predicate Canonical(v: Vol, i: nat)
    requires Lengths(v) && i < INODE_COUNT
  {
    v.inodes[i].kind == KIND_DIR ==> CanonicalBytes(BytesOf(v, i))
  }

  ghost predicate CanonicalBytes(bytes: seq<u8>) {
    var es := DecodeDir(bytes);
    (forall e :: e in es ==> Encodable(e)) && bytes == EncodeDir(es)
  }

  ghost predicate DirsCanonical(v: Vol) {
    VolInv(v) && forall i: nat :: i < INODE_COUNT ==> Canonical(v, i)
  }
}
