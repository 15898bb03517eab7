/** The superblock in block 0: its record, its checks, and which geometry a mounted disk has. */
module CoolSuper {
  import opened Bytes
  import opened CoolGeometry
  import opened CoolLayout

  const MAGIC: seq<u8> := [0x43, 0x4F, 0x4F, 0x4C, 0x46, 0x53, 0x31, 0]
  const VERSION: u32 := 1
  const LEAST_BLOCKS := 1024
  const U32_MODULUS := 0x1_0000_0000

  datatype Super = Super(
    total: u32, inodes: u32, tableStart: u32, tableBlocks: u32, bitmapStart: u32, bitmapBlocks: u32, dataStart: u32,
      root: u32)

  /** The geometry of a formatted disk. */
  function Standard(): Super { Super(TOTAL_BLOCKS, INODE_COUNT, INODE_TABLE_START, 32, BITMAP_START, 1, DATA_START, 0) }

  function Fields(sb: Super): (r: seq<u32>)
    ensures |r| == 11
  {
    [VERSION, BLOCK_SIZE, sb.total, sb.inodes, INODE_SIZE, sb.tableStart, sb.tableBlocks, sb.bitmapStart,
      sb.bitmapBlocks, sb.dataStart, sb.root]
  }

  function EncodeSuper(sb: Super): (r: seq<u8>)
    ensures |r| == 52
  {
    MAGIC + Words(Fields(sb))
  }

  /** The sum of two words wraps, as in a release build. */
  predicate Plausible(sb: Super) {
    sb.total != 0 && sb.inodes != 0 && sb.root < sb.inodes && sb.dataStart < sb.total &&
    (sb.bitmapStart + sb.bitmapBlocks) % U32_MODULUS <= sb.dataStart
  }

  function ParseSuper(b: seq<u8>): Option<Super> {
    if |b| < BLOCK_SIZE || b[..8] != MAGIC then None
    else if Le32(b, 8) != VERSION || Le32(b, 12) != BLOCK_SIZE || Le32(b, 24) != INODE_SIZE then None
    else
      var sb := Super(Le32(b, 16), Le32(b, 20), Le32(b, 28), Le32(b, 32), Le32(b, 36), Le32(b, 40), Le32(b, 44),
        Le32(b, 48));
      if Plausible(sb) then Some(sb) else None
  }

  /** The geometry a disk with this block 0 is mounted with; without one it is formatted. */
  function Opens(b: seq<u8>): Option<Super> {
    var sb := ParseSuper(b);
    if sb.Some? && LEAST_BLOCKS <= sb.value.total <= TOTAL_BLOCKS then sb else None
  }

  lemma FieldReads(b: seq<u8>, sb: Super, k: nat)
    requires |b| == BLOCK_SIZE && b[..52] == EncodeSuper(sb) && k < 11
    ensures Le32(b, 8 + 4 * k) == Fields(sb)[k]
  {
    var r := EncodeSuper(sb);
    WordsAt(Fields(sb), k);
    assert r[8..] == Words(Fields(sb));
    assert b[..52][8 + 4 * k..12 + 4 * k] == b[8 + 4 * k..12 + 4 * k];
    assert r[8..][4 * k..4 * k + 4] == r[8 + 4 * k..12 + 4 * k];
    Le32Slice(b, 8 + 4 * k, Fields(sb)[k]);
  }

  /** A written superblock is read back if and only if its numbers are plausible. */
  lemma SuperRoundTrip(b: seq<u8>, sb: Super)
    requires |b| == BLOCK_SIZE && b[..52] == EncodeSuper(sb)
    ensures ParseSuper(b) == if Plausible(sb) then Some(sb) else None
  {
    assert b[..8] == b[..52][..8] == MAGIC;
    forall k | 0 <= k < 11 ensures Le32(b, 8 + 4 * k) == Fields(sb)[k] { FieldReads(b, sb, k); }
    FieldReads(b, sb, 0);
    FieldReads(b, sb, 1);
    FieldReads(b, sb, 2);
    FieldReads(b, sb, 3);
    FieldReads(b, sb, 4);
    FieldReads(b, sb, 5);
    FieldReads(b, sb, 6);
    FieldReads(b, sb, 7);
    FieldReads(b, sb, 8);
    FieldReads(b, sb, 9);
    FieldReads(b, sb, 10);
  }

  /** Block 0 of a formatted disk. */
  function FormattedHead(): Block { Splice(Repeat(0, BLOCK_SIZE), 0, EncodeSuper(Standard())) }

  lemma FormattedOpens()
    ensures Opens(FormattedHead()) == Some(Standard())
  {
    assert FormattedHead()[..52] == EncodeSuper(Standard());
    SuperRoundTrip(FormattedHead(), Standard());
  }
}
