/** Where CoolFS keeps its structures on the flat image: inode records, the block bitmap and the data blocks. */
module CoolLayout {
  import opened Bytes
  import opened CoolGeometry
  import Cache = CoolCache
  import Tree = CoolTree

  const FS_LEN := TOTAL_BLOCKS * BLOCK_SIZE
  const KIND_FREE: u8 := 0
  const KIND_FILE: u8 := 1
  const KIND_DIR: u8 := 2

  type Block = Cache.Block

  // ---- The flat image --------------------------------------------------------

  function FlatAt(content: seq<Block>, i: nat): u8
    requires |content| == TOTAL_BLOCKS && i < FS_LEN
  {
    content[i / BLOCK_SIZE][i % BLOCK_SIZE]
  }

  /** `flat` is the blocks of `content` end to end. */
  ghost predicate IsFlat(content: seq<Block>, flat: seq<u8>) {
    |content| == TOTAL_BLOCKS && |flat| == FS_LEN &&
    forall i {:trigger FlatAt(content, i)} :: 0 <= i < FS_LEN ==> flat[i] == FlatAt(content, i)
  }

  ghost function Flat(content: seq<Block>): (f: seq<u8>)
    requires |content| == TOTAL_BLOCKS
    ensures IsFlat(content, f)
  {
    seq(FS_LEN, i requires 0 <= i < FS_LEN => FlatAt(content, i))
  }

  /** A write inside one block is a write at the same place of the flat image. */
  lemma FlatWrite(content: seq<Block>, flat: seq<u8>, b: nat, off: nat, bytes: seq<u8>)
    requires IsFlat(content, flat) && b < TOTAL_BLOCKS && off + |bytes| <= BLOCK_SIZE
    ensures IsFlat(content[b := Splice(content[b], off, bytes)], Splice(flat, b * BLOCK_SIZE + off, bytes))
  {
    var after := content[b := Splice(content[b], off, bytes)];
    var want := Splice(flat, b * BLOCK_SIZE + off, bytes);
    forall i | 0 <= i < FS_LEN ensures want[i] == FlatAt(after, i) {
      assert flat[i] == FlatAt(content, i);
      if i / BLOCK_SIZE == b { assert i == b * BLOCK_SIZE + i % BLOCK_SIZE; }
    }
  }

  /** The piece of a block is the piece of the flat image. */
  lemma PieceAt(content: seq<Block>, flat: seq<u8>, at: nat, take: nat)
    requires IsFlat(content, flat) && at < FS_LEN && at % BLOCK_SIZE + take <= BLOCK_SIZE
    ensures at + take <= FS_LEN
    ensures content[at / BLOCK_SIZE][at % BLOCK_SIZE..at % BLOCK_SIZE + take] == flat[at..at + take]
  {
    var piece, want := content[at / BLOCK_SIZE][at % BLOCK_SIZE..at % BLOCK_SIZE + take], flat[at..at + take];
    forall k | 0 <= k < take ensures piece[k] == want[k] {
      assert flat[at + k] == FlatAt(content, at + k);
      assert (at + k) / BLOCK_SIZE == at / BLOCK_SIZE && (at + k) % BLOCK_SIZE == at % BLOCK_SIZE + k;
    }
  }

  // ---- Inode records ----------------------------------------------------------

  datatype Inode = Inode(kind: u8, size: u32, direct: seq<u32>, indirect: u32, uid: u32, gid: u32, mode: u16)

  predicate InodeFits(n: Inode) { |n.direct| == DIRECT_BLOCKS }

  function FreeInode(): Inode { Inode(KIND_FREE, 0, Repeat(0, DIRECT_BLOCKS), 0, 0, 0, 0) }

  function NewInode(kind: u8, uid: u32, gid: u32, mode: u16): Inode {
    Inode(kind, 0, Repeat(0, DIRECT_BLOCKS), 0, uid, gid, mode % 512)
  }

  /** The mode a reader sees: nine bits, with zero replaced by the default of a live inode's kind. */
  function NormMode(kind: u8, mode: nat): u16 {
    if kind == KIND_FREE then mode % 512
    else Tree.NormMode(if kind == KIND_DIR then Tree.KindDir else Tree.KindFile, mode)
  }

  function Words(ws: seq<u32>): (r: seq<u8>)
    ensures |r| == 4 * |ws|
  {
    if ws == [] then [] else Words(ws[..|ws| - 1]) + ToLe32(ws[|ws| - 1])
  }

  lemma {:induction false} WordsAt(ws: seq<u32>, k: nat)
    requires k < |ws|
    ensures Words(ws)[4 * k..4 * k + 4] == ToLe32(ws[k])
  {
    var n := |ws| - 1;
    if k < n {
      WordsAt(ws[..n], k);
      assert Words(ws)[4 * k..4 * k + 4] == Words(ws[..n])[4 * k..4 * k + 4];
    }
  }

  function EncodeInode(n: Inode): (r: seq<u8>)
    requires InodeFits(n)
    ensures |r| == INODE_SIZE
  {
    [n.kind] + Repeat(0, 3) + ToLe32(n.size) + Words(n.direct) + ToLe32(n.indirect) +
    ToLe32(n.uid) + ToLe32(n.gid) + ToLe32(n.mode % 512) + Repeat(0, 40)
  }

  function DecodeInode(r: seq<u8>): (n: Inode)
    requires |r| == INODE_SIZE
    ensures InodeFits(n)
  {
    Inode(r[0], Le32(r, 4), seq(DIRECT_BLOCKS, k requires 0 <= k < DIRECT_BLOCKS => Le32(r, 8 + 4 * k)), Le32(r, 200),
          Le32(r, 204), Le32(r, 208), NormMode(r[0], Le32(r, 212)))
  }

  lemma EncodeParts(n: Inode)
    requires InodeFits(n)
    ensures var r := EncodeInode(n);
      r[0] == n.kind && r[4..8] == ToLe32(n.size) && r[8..200] == Words(n.direct) &&
        r[200..204] == ToLe32(n.indirect) &&
      r[204..208] == ToLe32(n.uid) && r[208..212] == ToLe32(n.gid) && r[212..216] == ToLe32(n.mode % 512)
  {
  }

  lemma DirectWord(n: Inode, k: nat)
    requires InodeFits(n) && k < DIRECT_BLOCKS
    ensures Le32(EncodeInode(n), 8 + 4 * k) == n.direct[k]
  {
    var r := EncodeInode(n);
    EncodeParts(n);
    WordsAt(n.direct, k);
    assert r[8 + 4 * k..8 + 4 * k + 4] == r[8..200][4 * k..4 * k + 4];
    Le32Slice(r, 8 + 4 * k, n.direct[k]);
  }

  lemma OtherWords(n: Inode)
    requires InodeFits(n)
    ensures var r := EncodeInode(n);
      Le32(r, 4) == n.size && Le32(r, 200) == n.indirect && Le32(r, 204) == n.uid && Le32(r, 208) == n.gid &&
        Le32(r, 212) == n.mode % 512
  {
    var r := EncodeInode(n);
    EncodeParts(n);
    Le32Slice(r, 4, n.size); Le32Slice(r, 200, n.indirect); Le32Slice(r, 204, n.uid);
    Le32Slice(r, 208, n.gid); Le32Slice(r, 212, n.mode % 512);
  }

  /** An inode record reads back as written, with its mode as a reader sees it. */
  lemma InodeRoundTrip(n: Inode)
    requires InodeFits(n)
    ensures DecodeInode(EncodeInode(n)) == n.(mode := NormMode(n.kind, n.mode))
  {
    var d := DecodeInode(EncodeInode(n));
    OtherWords(n);
    forall k | 0 <= k < DIRECT_BLOCKS ensures d.direct[k] == n.direct[k] { DirectWord(n, k); }
    assert d.direct == n.direct;
    assert EncodeInode(n)[0] == n.kind;
  }

  // ---- Bitmap bits ---------------------------------------------------------------

  /** Bit `k` of `x`. */
  predicate BitOf(x: nat, k: nat) {
    if k == 0 then x % 2 == 1 else BitOf(x / 2, k - 1)
  }

  /** `x` with bit `k` set (`x | 1 << k`) or cleared (`x & !(1 << k)`). */
  function WithBit(x: nat, k: nat, v: bool): nat {
    if k == 0 then 2 * (x / 2) + (if v then 1 else 0) else x % 2 + 2 * WithBit(x / 2, k - 1, v)
  }

  /** Setting or clearing one bit changes that bit alone. */
  lemma {:induction false} WithBitAt(x: nat, k: nat, v: bool, j: nat)
    ensures BitOf(WithBit(x, k, v), j) == if j == k then v else BitOf(x, j)
    decreases k
  {
    var y := WithBit(x, k, v);
    if k == 0 {
      assert y / 2 == x / 2;
    } else {
      assert y / 2 == WithBit(x / 2, k - 1, v) && y % 2 == x % 2;
      if j > 0 { WithBitAt(x / 2, k - 1, v, j - 1); }
    }
  }

  lemma {:induction false} WithBitFits(x: nat, k: nat, v: bool, width: nat)
    requires x < Pow2(width) && k < width
    ensures WithBit(x, k, v) < Pow2(width)
    decreases k
  {
    if k > 0 { WithBitFits(x / 2, k - 1, v, width - 1); }
  }

  lemma WithBitByte(x: u8, k: nat, v: bool)
    requires k < 8
    ensures 0 <= WithBit(x, k, v) < 256
  {
    assert Pow2(8) == 256 by { assert Pow2(4) == 16; }
    WithBitFits(x, k, v, 8);
  }
}
