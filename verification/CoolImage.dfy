/**
 The CoolFS image: byte access through the block cache, inode records, the bitmap, file content and directories.
 Every public operation is proved to compute the function of the same name on the tree of nodes.
 */
module CoolImage {
  import opened Bytes
  import opened CoolGeometry
  import opened CoolLayout
  import opened CoolVolume
  import opened CoolVolumeLaws
  import Cache = CoolCache
  import Tree = CoolTree
  import Inv = CoolTreeInv

  class Image {
    const cache: Cache.BlockCache
    ghost var flat: seq<u8>
    ghost var vol: Vol

    /** The flat image and its structured view are those of the blocks the cache stands for. */
    ghost predicate Valid()
      reads this, cache, cache.device
    {
      cache.Valid() && IsFlat(cache.content, flat) && IsView(flat, vol)
    }

    /** The device fails no request. */
    ghost predicate Ready()
      reads this, cache, cache.device
    {
      Valid() && cache.device.reliable
    }

    constructor (cache: Cache.BlockCache)
      requires cache.Valid()
      ensures Valid() && this.cache == cache
    {
      this.cache := cache;
      flat := Flat(cache.content);
      vol := View(Flat(cache.content));
    }


    // ---- Byte access -----------------------------------------------------------

    method ReadU8(offset: nat) returns (ok: bool, x: u8)
      requires Valid()
      modifies cache, cache.device
      ensures Valid() && flat == old(flat)
      ensures ok ==> offset < FS_LEN && x == flat[offset]
      ensures cache.device.reliable && offset < FS_LEN ==> ok
    {
      if offset >= FS_LEN { return false, 0; }
      var good, data := cache.Get(offset / BLOCK_SIZE);
      if !good { return false, 0; }
      assert flat[offset] == FlatAt(cache.content, offset);
      return true, data[offset % BLOCK_SIZE];
    }

    /** Read across block boundaries, one block at a time. */
    method ReadVec(offset: nat, len: nat) returns (ok: bool, out: seq<u8>)
      requires Valid()
      modifies cache, cache.device
      ensures Valid() && flat == old(flat)
      ensures ok ==> offset + len <= FS_LEN && out == flat[offset..offset + len]
      ensures cache.device.reliable && offset + len <= FS_LEN ==> ok
    {
      out := [];
      if offset + len > FS_LEN { return false, out; }
      var done := 0;
      while done < len
        invariant 0 <= done <= len
        invariant Valid() && flat == old(flat) && out == flat[offset..offset + done]
      {
        var at := offset + done;
        var take := Min(len - done, BLOCK_SIZE - at % BLOCK_SIZE);
        var good, data := cache.Get(at / BLOCK_SIZE);
        if !good { return false, out; }
        PieceAt(cache.content, flat, at, take);
        SliceConcat(flat, offset, at, at + take);
        out := out + data[at % BLOCK_SIZE..at % BLOCK_SIZE + take];
        done := done + take;
      }
      return true, out;
    }

    /** Write across block boundaries; on failure a prefix has been written. */
    method WriteAt(offset: nat, input: seq<u8>) returns (ok: bool)
      requires Valid()
      modifies this, cache, cache.device
      ensures Valid() && vol == View(flat)
      ensures ok ==> offset + |input| <= FS_LEN && flat == Splice(old(flat), offset, input)
      ensures !ok && offset + |input| <= FS_LEN ==>
        exists k :: 0 <= k <= |input| && flat == Splice(old(flat), offset, input[..k])
      ensures !ok && offset + |input| > FS_LEN ==> flat == old(flat)
      ensures cache.device.reliable && offset + |input| <= FS_LEN ==> ok
    {
      ViewUnique(flat, vol);
      if offset + |input| > FS_LEN { return false; }
      ghost var now, done;
      ok, now, done := WritePieces(offset, input);
      assert input[..|input|] == input;
      flat := now;
      vol := View(now);
      ViewIs(now);
    }

    /** The loop over blocks: the cache then stands for the image with the first `done` bytes written. */
    method WritePieces(offset: nat, input: seq<u8>) returns (ok: bool, ghost now: seq<u8>, ghost done: nat)
      requires cache.Valid() && IsFlat(cache.content, flat) && |flat| == FS_LEN && offset + |input| <= FS_LEN
      modifies cache, cache.device
      ensures cache.Valid() && IsFlat(cache.content, now)
      ensures done <= |input| && now == Splice(flat, offset, input[..done])
      ensures (cache.device.reliable ==> ok) && (ok ==> done == |input|)
    {
      ok, now, done := true, flat, 0;
      var put := 0;
      assert Splice(flat, offset, input[..0]) == flat;
      while put < |input| && ok
        invariant 0 <= put == done <= |input|
        invariant cache.Valid() && IsFlat(cache.content, now) && now == Splice(flat, offset, input[..put])
        invariant cache.device.reliable ==> ok
        decreases |input| - put, ok
      {
        var at := offset + put;
        var take := Min(|input| - put, BLOCK_SIZE - at % BLOCK_SIZE);
        ok := WritePiece(now, at, input[put..put + take]);
        if ok {
          SpliceAdjacent(flat, offset, input[..put], input[put..put + take]);
          assert input[..put] + input[put..put + take] == input[..put + take];
          put := put + take;
          now, done := Splice(flat, offset, input[..put]), put;
        }
      }
    }

    /** Write inside one block. */
    method WritePiece(ghost now: seq<u8>, at: nat, piece: seq<u8>) returns (ok: bool)
      requires cache.Valid() && IsFlat(cache.content, now) && at < FS_LEN && at % BLOCK_SIZE + |piece| <= BLOCK_SIZE
      modifies cache, cache.device
      ensures cache.Valid() && at + |piece| <= FS_LEN
      ensures IsFlat(cache.content, if ok then Splice(now, at, piece) else now)
      ensures cache.device.reliable ==> ok
    {
      ghost var before := cache.content;
      ok := cache.Write(at / BLOCK_SIZE, at % BLOCK_SIZE, piece);
      if ok { FlatWrite(before, now, at / BLOCK_SIZE, at % BLOCK_SIZE, piece); }
    }

    method FillAt(offset: nat, len: nat, value: u8) returns (ok: bool)
      requires Valid()
      modifies this, cache, cache.device
      ensures Valid() && vol == View(flat)
      ensures ok ==> offset + len <= FS_LEN && flat == Splice(old(flat), offset, Repeat(value, len))
      ensures cache.device.reliable && offset + len <= FS_LEN ==> ok
    {
      ok := WriteAt(offset, Repeat(value, len));
    }

    method ReadU32At(offset: nat) returns (ok: bool, x: u32)
      requires Valid()
      modifies cache, cache.device
      ensures Valid() && flat == old(flat)
      ensures ok ==> offset + 4 <= FS_LEN && x == Le32(flat, offset)
      ensures cache.device.reliable && offset + 4 <= FS_LEN ==> ok
    {
      var good, b := ReadVec(offset, 4);
      if !good { return false, 0; }
      return true, Le32(b, 0);
    }

    // ---- Inode records -----------------------------------------------------------

    method ReadWords(offset: nat, count: nat) returns (words: seq<u32>)
      requires Ready() && offset + 4 * count <= FS_LEN
      modifies cache, cache.device
      ensures Ready() && flat == old(flat) && words == LeWords(flat, offset, count)
    {
      words := [];
      ghost var f := flat;
      for k := 0 to count
        invariant Ready() && flat == f && words == LeWords(f, offset, k)
      {
        var ok, word := ReadU32At(offset + 4 * k);
        LeWordsSnoc(f, offset, k);
        words := words + [word];
      }
    }

    method ReadInode(i: nat) returns (found: bool, n: Inode)
      requires Ready()
      modifies cache, cache.device
      ensures Ready() && flat == old(flat)
      ensures found <==> i < INODE_COUNT
      ensures found ==> n == vol.inodes[i] && InodeFits(n)
    {
      if i >= INODE_COUNT { return false, FreeInode(); }
      var off := InodeOff(i);
      ghost var f := flat;
      var ok, kind := ReadU8(off);
      var size := ReadWords(off + 4, 1);
      var direct := ReadWords(off + 8, DIRECT_BLOCKS);
      var rest := ReadWords(off + 200, 4);
      n := Inode(kind, size[0], direct, rest[0], rest[1], rest[2], NormMode(kind, rest[3]));
      InodeFields(f, i, n, size, rest);
      assert vol.inodes[i] == InodeAt(f, i);
      return true, n;
    }

    /** Overwrite the next bytes of a record that is being written from `base` on. */
    method Put(ghost f0: seq<u8>, base: nat, ghost sofar: seq<u8>, at: nat, bytes: seq<u8>)
      requires Ready() && |f0| == FS_LEN && at == base + |sofar| && at + |bytes| <= FS_LEN
      requires flat == Splice(f0, base, sofar)
      modifies this, cache, cache.device
      ensures Ready() && flat == Splice(f0, base, sofar + bytes) && vol == View(flat)
    {
      var ok := WriteAt(at, bytes);
      SpliceAdjacent(f0, base, sofar, bytes);
    }

    method WriteInode(i: nat, n: Inode)
      requires Ready() && i < INODE_COUNT && InodeFits(n)
      modifies this, cache, cache.device
      ensures Ready() && vol == old(vol).(inodes := old(vol).inodes[i := Seen(n)])
    {
      var off := InodeOff(i);
      ghost var f0 := flat;
      ViewUnique(flat, vol);
      ghost var r := [];
      assert Splice(f0, off, r) == f0;
      Put(f0, off, r, off, [n.kind]); r := r + [n.kind];
      Put(f0, off, r, off + 1, Repeat(0, 3)); r := r + Repeat(0, 3);
      Put(f0, off, r, off + 4, ToLe32(n.size)); r := r + ToLe32(n.size);
      ghost var head := r;
      assert n.direct[..0] == [] && head + Words([]) == head;
      for k := 0 to DIRECT_BLOCKS
        invariant Ready() && flat == Splice(f0, off, head + Words(n.direct[..k]))
      {
        Put(f0, off, head + Words(n.direct[..k]), off + 8 + 4 * k, ToLe32(n.direct[k]));
        WordsSnoc(head, n.direct, k);
      }
      assert n.direct[..DIRECT_BLOCKS] == n.direct;
      r := head + Words(n.direct);
      WriteInodeTail(n, f0, off, r);
      assert [] + [n.kind] == [n.kind];
      assert head == [n.kind] + Repeat(0, 3) + ToLe32(n.size);
      InodeParts(n, r);
      ViewInode(f0, i, n);
    }

    /** The fields behind the direct blocks. */
    method WriteInodeTail(n: Inode, ghost f0: seq<u8>, off: nat, ghost before: seq<u8>)
      requires Ready() && InodeFits(n) && |f0| == FS_LEN && off + 256 <= FS_LEN && |before| == 200
      requires flat == Splice(f0, off, before)
      modifies this, cache, cache.device
      ensures Ready() && flat == Splice(f0, off, before + TailOf(n)) && vol == View(flat)
    {
      ghost var r := before;
      Put(f0, off, r, off + 200, ToLe32(n.indirect)); r := r + ToLe32(n.indirect);
      Put(f0, off, r, off + 204, ToLe32(n.uid)); r := r + ToLe32(n.uid);
      Put(f0, off, r, off + 208, ToLe32(n.gid)); r := r + ToLe32(n.gid);
      Put(f0, off, r, off + 212, ToLe32(n.mode % 512)); r := r + ToLe32(n.mode % 512);
      Put(f0, off, r, off + 216, Repeat(0, 40)); r := r + Repeat(0, 40);
      assert r == before + TailOf(n);
    }

    // ---- Bitmap and blocks ---------------------------------------------------------

    method BlockUsed(b: nat) returns (u: bool)
      requires Ready()
      modifies cache, cache.device
      ensures Ready() && flat == old(flat)
      ensures b < TOTAL_BLOCKS ==> u == vol.used[b]
      ensures b >= TOTAL_BLOCKS ==> u
    {
      if b >= TOTAL_BLOCKS { return true; }
      var ok, x := ReadU8(BitByte(b));
      assert UsedAt(flat, b) == vol.used[b];
      return BitOf(x, b % 8);
    }

    method SetBlockUsed(b: nat, used: bool)
      requires Ready() && b < TOTAL_BLOCKS
      modifies this, cache, cache.device
      ensures Ready() && vol == old(vol).(used := old(vol).used[b := used])
    {
      var ok, x := ReadU8(BitByte(b));
      ghost var f0 := flat;
      assert UsedAt(flat, b) == vol.used[b];
      ViewUnique(flat, vol);
      WithBitByte(x, b % 8, used);
      ok := WriteAt(BitByte(b), [WithBit(x, b % 8, used)]);
      ViewBit(f0, b, used);
    }

    /** Overwrite part of a data block. */
    method WriteData(b: nat, off: nat, bytes: seq<u8>)
      requires Ready() && InRegion(b) && off + |bytes| <= BLOCK_SIZE
      modifies this, cache, cache.device
      ensures Ready() && vol == old(vol).(data := old(vol).data[b := Splice(old(vol).data[b], off, bytes)])
    {
      ghost var f0 := flat;
      ViewUnique(flat, vol);
      var ok := WriteAt(b * BLOCK_SIZE + off, bytes);
      ViewData(f0, b, off, bytes);
    }

    method ZeroData(b: nat)
      requires Ready() && InRegion(b)
      modifies this, cache, cache.device
      ensures Ready() && vol == old(vol).(data := old(vol).data[b := ZeroBlock()])
    {
      WriteData(b, 0, ZeroBlock());
      assert Splice(old(vol).data[b], 0, ZeroBlock()) == ZeroBlock();
    }

    /** First fit: the least free block of the data region, zeroed; `NoSpace` exactly when none is free. */
    method AllocBlock() returns (r: Tree.Result<u32>)
      requires Ready()
      modifies this, cache, cache.device
      ensures Ready()
      ensures r.Ok? ==>
        InRegion(r.value) && !old(vol).used[r.value] && (forall c :: DATA_START <= c < r.value ==> old(vol).used[c])
      ensures r.Ok? ==>
        vol == old(vol).(used := old(vol).used[r.value := true], data := old(vol).data[r.value := ZeroBlock()])
      ensures r.Err? ==> r.error == Tree.NoSpace && vol == old(vol) && forall c: nat :: InRegion(c) ==> old(vol).used[c]
    {
      for b := DATA_START to TOTAL_BLOCKS
        invariant Ready() && vol == old(vol)
        invariant forall c :: DATA_START <= c < b ==> old(vol).used[c]
      {
        var u := BlockUsed(b);
        if !u {
          SetBlockUsed(b, true);
          ZeroData(b);
          return Tree.Ok(b);
        }
      }
      return Tree.Err(Tree.NoSpace);
    }

    method FreeBlock(b: nat)
      requires Ready()
      modifies this, cache, cache.device
      ensures Ready()
      ensures InRegion(b) ==> vol == old(vol).(used := old(vol).used[b := false])
      ensures !InRegion(b) ==> vol == old(vol)
    {
      if b < DATA_START || b >= TOTAL_BLOCKS { return; }
      SetBlockUsed(b, false);
    }

    /** Take `needed` blocks, giving all of them back if there are not enough. */
    method AllocBlocks(needed: nat) returns (r: Tree.Result<seq<u32>>)
      requires Ready()
      modifies this, cache, cache.device
      ensures Ready()
      ensures r.Ok? <==> needed <= |FreeSet(old(vol).used)|
      ensures r.Ok? ==> |r.value| == needed && Took(old(vol), vol, r.value)
      ensures r.Err? ==> r.error == Tree.NoSpace && Undone(old(vol), vol)
    {
      var blocks: seq<u32> := [];
      for k := 0 to needed
        invariant Ready() && |blocks| == k && Took(old(vol), vol, blocks)
      {
        ghost var mid := vol;
        var got := AllocBlock();
        if got.Err? {
          TookAll(old(vol), mid, blocks);
          FreeBlocks(blocks);
          TookUndone(old(vol), mid, vol, blocks);
          return Tree.Err(got.error);
        }
        TookMore(old(vol), mid, blocks, got.value);
        blocks := blocks + [got.value];
      }
      TookFits(old(vol), vol, blocks);
      return Tree.Ok(blocks);
    }

    method FreeBlocks(blocks: seq<nat>)
      requires Ready() && ListOk(blocks)
      modifies this, cache, cache.device
      ensures Ready() && vol == old(vol).(used := vol.used)
      ensures forall b: nat :: b < TOTAL_BLOCKS ==> vol.used[b] == (old(vol).used[b] && b !in blocks)
    {
      for k := 0 to |blocks|
        invariant Ready() && vol == old(vol).(used := vol.used)
        invariant forall b: nat :: b < TOTAL_BLOCKS ==> vol.used[b] == (old(vol).used[b] && b !in blocks[..k])
      {
        FreeBlock(blocks[k]);
        assert blocks[..k + 1] == blocks[..k] + [blocks[k]];
      }
      assert blocks[..|blocks|] == blocks;
    }

    // ---- File content -----------------------------------------------------------------

    method InodeDataBlocks(n: Inode) returns (blocks: seq<u32>)
      requires Ready() && Shaped(n)
      modifies cache, cache.device
      ensures Ready() && flat == old(flat) && blocks == BlockList(vol.data, n)
    {
      var needed := BlockCount(n.size);
      if needed <= DIRECT_BLOCKS {
        blocks := n.direct[..needed];
      } else {
        var words := ReadWords(n.indirect * BLOCK_SIZE, needed - DIRECT_BLOCKS);
        IndirectBlockList(flat, vol, n);
        blocks := n.direct + words;
      }
    }

    method ReadInodeBytes(n: Inode) returns (out: seq<u8>)
      requires Ready() && Shaped(n) && ListOk(BlockList(vol.data, n))
      modifies cache, cache.device
      ensures Ready() && flat == old(flat) && out == Content(vol.data, n)
    {
      var blocks := InodeDataBlocks(n);
      ghost var data := vol.data;
      out := [];
      ghost var f := flat;
      for k := 0 to |blocks|
        invariant Ready() && flat == f
        invariant out == Gather(data, blocks, Min(n.size, k * BLOCK_SIZE))
      {
        var take := Min(n.size - |out|, BLOCK_SIZE);
        GatherMore(f, vol, blocks, k, take);
        var ok, piece := ReadVec(blocks[k] * BLOCK_SIZE, take);
        out := out + piece;
      }
    }

    /** Store the bytes in the given blocks, the last one padded with zeros. */
    method FillBlocks(blocks: seq<u32>, bytes: seq<u8>)
      requires Ready() && ListOk(blocks) && NoDup(blocks) && |blocks| == BlockCount(|bytes|)
      modifies this, cache, cache.device
      ensures Ready() && vol == old(vol).(data := vol.data)
      ensures forall b: nat :: b < TOTAL_BLOCKS && b !in blocks ==> vol.data[b] == old(vol).data[b]
      ensures forall k :: 0 <= k < |bytes| ==> GatherAt(vol.data, blocks, k) == bytes[k]
    {
      for i := 0 to |blocks|
        invariant Ready() && vol == old(vol).(data := vol.data)
        invariant forall b: nat :: b < TOTAL_BLOCKS && b !in blocks ==> vol.data[b] == old(vol).data[b]
        invariant forall k :: 0 <= k < |bytes| && k < i * BLOCK_SIZE ==> GatherAt(vol.data, blocks, k) == bytes[k]
      {
        var start := i * BLOCK_SIZE;
        var end := Min(start + BLOCK_SIZE, |bytes|);
        ghost var before := vol.data;
        ZeroData(blocks[i]);
        WriteData(blocks[i], 0, bytes[start..end]);
        FillStep(before, vol.data, blocks, bytes, i);
      }
    }

    /** List the blocks past the direct ones in the indirect block. */
    method FillIndirect(ind: nat, blocks: seq<u32>)
      requires Ready() && InRegion(ind) && DIRECT_BLOCKS < |blocks| <= DIRECT_BLOCKS + INDIRECT_ENTRIES
      modifies this, cache, cache.device
      ensures Ready() && vol == old(vol).(data := vol.data)
      ensures forall b: nat :: b < TOTAL_BLOCKS && b != ind ==> vol.data[b] == old(vol).data[b]
      ensures Lists(vol.data[ind], blocks, |blocks|)
    {
      ZeroData(ind);
      for i := DIRECT_BLOCKS to |blocks|
        invariant Ready() && vol == old(vol).(data := vol.data)
        invariant forall b: nat :: b < TOTAL_BLOCKS && b != ind ==> vol.data[b] == old(vol).data[b]
        invariant Lists(vol.data[ind], blocks, i)
      {
        ghost var before := vol.data[ind];
        WriteData(ind, 4 * (i - DIRECT_BLOCKS), ToLe32(blocks[i]));
        ListStep(before, blocks, i);
      }
    }

    /** Take the data blocks and, past 48 of them, an indirect block; all or nothing. */
    method Reserve(needed: nat) returns (r: Tree.Result<(seq<u32>, u32)>)
      requires Ready()
      modifies this, cache, cache.device
      ensures Ready()
      ensures r.Ok? <==> WithIndirect(needed) <= |FreeSet(old(vol).used)|
      ensures r.Ok? ==> |r.value.0| == needed && (r.value.1 != 0 <==> needed > DIRECT_BLOCKS)
      ensures r.Ok? ==> Took(old(vol), vol, OwnList(r.value.0, r.value.1))
      ensures r.Err? ==> r.error == Tree.NoSpace && Undone(old(vol), vol)
    {
      var got := AllocBlocks(needed);
      if got.Err? { return Tree.Err(got.error); }
      var blocks := got.value;
      ghost var mid := vol;
      if needed <= DIRECT_BLOCKS {
        TookFits(old(vol), mid, blocks);
        assert OwnList(blocks, 0) == blocks;
        return Tree.Ok((blocks, 0));
      }
      var extra := AllocBlock();
      if extra.Err? {
        TookAll(old(vol), mid, blocks);
        FreeBlocks(blocks);
        TookUndone(old(vol), mid, vol, blocks);
        return Tree.Err(extra.error);
      }
      TookMore(old(vol), mid, blocks, extra.value);
      TookFits(old(vol), vol, blocks + [extra.value]);
      return Tree.Ok((blocks, extra.value));
    }

    /** Fill the reserved blocks: the bytes, and the list of the blocks past the direct ones. */
    method FillReserved(ghost v0: Vol, bytes: seq<u8>, blocks: seq<u32>, ind: u32)
      requires Ready() && Lengths(v0) && Took(v0, vol, OwnList(blocks, ind))
      requires |bytes| <= Tree.MAX_FILE_BYTES && |blocks| == BlockCount(|bytes|) &&
        (ind != 0 <==> |blocks| > DIRECT_BLOCKS)
      modifies this, cache, cache.device
      ensures Ready() && Took(v0, vol, OwnList(blocks, ind)) && Holds(vol.data, bytes, blocks, ind)
    {
      OwnParts(v0, blocks, ind);
      FillBlocks(blocks, bytes);
      ghost var mid := vol.data;
      if ind != 0 { FillIndirect(ind, blocks); }
      FilledHolds(mid, vol.data, bytes, blocks, ind);
    }

    /** Fill the reserved blocks, point the inode at them, then give its old blocks back. */
    method Commit(ghost v0: Vol, i: nat, bytes: seq<u8>, blocks: seq<u32>, ind: u32)
      requires Ready() && VolInv(v0) && i < INODE_COUNT && v0.inodes[i].kind != KIND_FREE
      requires |bytes| <= Tree.MAX_FILE_BYTES && |blocks| == BlockCount(|bytes|) &&
        (ind != 0 <==> |blocks| > DIRECT_BLOCKS)
      requires Took(v0, vol, OwnList(blocks, ind))
      modifies this, cache, cache.device
      ensures Ready() && Reowned(v0, vol, i, OwnList(blocks, ind))
      ensures vol.inodes[i] == Rewritten(v0.inodes[i], |bytes|, blocks, ind) &&
        ListOk(BlockList(vol.data, vol.inodes[i]))
      ensures Content(vol.data, vol.inodes[i]) == bytes
    {
      ghost var own := OwnList(blocks, ind);
      FillReserved(v0, bytes, blocks, ind);
      ghost var filled := vol;
      var found, n := ReadInode(i);
      SeenView(flat, vol, i);
      OldBlockList(v0, filled, own, i);
      var oldBlocks := InodeDataBlocks(n);
      RewrittenContent(filled.data, n, bytes, blocks, ind);
      WriteInode(i, Rewritten(n, |bytes|, blocks, ind));
      FreeBlocks(oldBlocks);
      if n.indirect != 0 { FreeBlock(n.indirect); }
      CommitReowns(v0, filled, vol, i, own);
    }

    /** Replace an inode's content.  Succeeds exactly when enough blocks are free while the old ones are still
        held; then only this node and the free count of the tree change.  On `NoSpace` nothing visible changes. */
    method WriteInodeBytes(i: nat, bytes: seq<u8>) returns (r: Tree.Result<()>)
      requires Ready() && VolInv(vol) && i < INODE_COUNT && vol.inodes[i].kind != KIND_FREE
      modifies this, cache, cache.device
      ensures Ready()
      ensures Written(old(vol), vol, i, bytes, r)
    {
      ghost var v0 := vol;
      if |bytes| > Tree.MAX_FILE_BYTES { return Tree.Err(Tree.NoSpace); }
      var got := Reserve(BlockCount(|bytes|));
      if got.Err? { return Tree.Err(got.error); }
      Commit(v0, i, bytes, got.value.0, got.value.1);
      CommitStored(v0, vol, i, bytes, OwnList(got.value.0, got.value.1));
      return Tree.Ok(());
    }

    // ---- Inode allocation -----------------------------------------------------------------

    method FindFreeInode() returns (i: nat)
      requires Ready()
      modifies cache, cache.device
      ensures Ready() && flat == old(flat)
      ensures FirstFree(vol.inodes, i)
    {
      i := 1;
      while i < INODE_COUNT
        invariant 1 <= i <= INODE_COUNT && Ready()
        invariant forall k :: 1 <= k < i ==> vol.inodes[k].kind != KIND_FREE
      {
        var found, n := ReadInode(i);
        if n.kind == KIND_FREE { return; }
        i := i + 1;
      }
    }

    /** The first free inode from 1 on becomes an empty node. */
    method AllocInode(kind: Tree.Kind, meta: Tree.Meta) returns (r: Tree.Result<u32>)
      requires Ready()
      modifies this, cache, cache.device
      ensures Ready()
      ensures r.Ok? ==> FirstFree(old(vol).inodes, r.value) && r.value < INODE_COUNT
      ensures r.Ok? ==>
        vol == old(vol).(inodes := old(vol).inodes[r.value := Seen(NewInode(KindByte(kind), meta.uid, meta.gid,
          meta.mode))])
      ensures r.Err? ==> r.error == Tree.NoSpace && vol == old(vol) && FirstFree(old(vol).inodes, INODE_COUNT)
    {
      var i := FindFreeInode();
      if i == INODE_COUNT { return Tree.Err(Tree.NoSpace); }
      WriteInode(i, NewInode(KindByte(kind), meta.uid, meta.gid, meta.mode));
      return Tree.Ok(i);
    }

    /** Give an inode's blocks back and clear its record. */
    method ReleaseInode(i: nat)
      requires Ready() && i < INODE_COUNT && Shaped(vol.inodes[i]) && ListOk(BlockList(vol.data, vol.inodes[i]))
      modifies this, cache, cache.device
      ensures Ready() && Freed(old(vol), vol, i)
    {
      var found, n := ReadInode(i);
      var blocks := InodeDataBlocks(n);
      FreeBlocks(blocks);
      if n.indirect != 0 { FreeBlock(n.indirect); }
      WriteInode(i, FreeInode());
    }

    // ---- Directories ------------------------------------------------------------------------

    method ReadDirEntries(d: nat) returns (r: Tree.Result<seq<Tree.Entry>>)
      requires Ready() && (d < INODE_COUNT ==> Shaped(vol.inodes[d]) && ListOk(BlockList(vol.data, vol.inodes[d])))
      modifies cache, cache.device
      ensures Ready() && flat == old(flat)
      ensures r == DirOf(vol, d)
    {
      var found, n := ReadInode(d);
      if !found { return Tree.Err(Tree.NotFound); }
      if n.kind != KIND_DIR { return Tree.Err(Tree.NotDirectory); }
      var bytes := ReadInodeBytes(n);
      var es := ParseDir(bytes);
      return Tree.Ok(es);
    }

    method WriteDirEntries(d: nat, es: seq<Tree.Entry>) returns (r: Tree.Result<()>)
      requires Ready() && VolInv(vol) && d < INODE_COUNT && vol.inodes[d].kind != KIND_FREE && forall e ::
        e in es ==> Encodable(e)
      modifies this, cache, cache.device
      ensures Ready()
      ensures Written(old(vol), vol, d, EncodeDir(es), r)
    {
      var bytes := FormatDir(es);
      r := WriteInodeBytes(d, bytes);
    }
  }

  /** `v'` is `v` with the free blocks `s` taken; only their data may differ. */
  ghost predicate Took(v: Vol, v': Vol, s: seq<nat>) {
    Lengths(v) && Lengths(v') && v'.head == v.head && v'.inodes == v.inodes && FreshBlocks(v, s) &&
    (forall b: nat :: b < TOTAL_BLOCKS ==> v'.used[b] == (v.used[b] || b in s)) &&
    (forall b: nat :: b < TOTAL_BLOCKS && b !in s ==> v'.data[b] == v.data[b])
  }

  /** Nothing but the data of free blocks differs. */
  ghost predicate Undone(v: Vol, v': Vol) {
    Lengths(v) && Lengths(v') && v'.head == v.head && v'.inodes == v.inodes && v'.used == v.used &&
    forall b: nat :: b < TOTAL_BLOCKS && v.used[b] ==> v'.data[b] == v.data[b]
  }

  lemma TookMore(v: Vol, mid: Vol, s: seq<nat>, b: nat)
    requires Took(v, mid, s) && InRegion(b) && !mid.used[b]
    ensures Took(v, mid.(used := mid.used[b := true], data := mid.data[b := ZeroBlock()]), s + [b])
  {
  }

  lemma TookUndone(v: Vol, mid: Vol, v': Vol, s: seq<nat>)
    requires Took(v, mid, s) && Lengths(v') && v' == mid.(used := v'.used)
    requires forall b: nat :: b < TOTAL_BLOCKS ==> v'.used[b] == (mid.used[b] && b !in s)
    ensures Undone(v, v')
  {
    assert forall b: nat :: b < TOTAL_BLOCKS && v.used[b] ==> b !in s;
    assert v'.used == v.used;
  }

  lemma TookFree(v: Vol, v': Vol, s: seq<nat>)
    requires Took(v, v', s)
    ensures |s| <= |FreeSet(v.used)| && |FreeSet(v'.used)| == |FreeSet(v.used)| - |s|
  {
    FreeSetChange(v.used, v'.used, s, []);
  }

  lemma TookFits(v: Vol, v': Vol, s: seq<nat>)
    requires Took(v, v', s)
    ensures |s| <= |FreeSet(v.used)|
  {
    TookFree(v, v', s);
  }

  lemma TookAll(v: Vol, v': Vol, s: seq<nat>)
    requires Took(v, v', s) && forall c: nat :: InRegion(c) ==> v'.used[c]
    ensures |s| == |FreeSet(v.used)| && ListOk(s)
  {
    TookFree(v, v', s);
    assert FreeSet(v'.used) == {};
  }

  lemma IndirectWords(f: seq<u8>, v: Vol, ind: nat, k: nat)
    requires IsView(f, v) && InRegion(ind) && k <= INDIRECT_ENTRIES
    ensures LeWords(f, ind * BLOCK_SIZE, k) == IndirectList(v.data[ind], k)
  {
    var blk := v.data[ind];
    assert blk == DataAt(f, ind);
    forall j | 0 <= j < k ensures Le32(f, ind * BLOCK_SIZE + 4 * j) == Le32(blk, 4 * j) {
      assert forall m :: 0 <= m < BLOCK_SIZE ==> blk[m] == f[ind * BLOCK_SIZE + m];
    }
  }

  lemma IndirectBlockList(f: seq<u8>, v: Vol, n: Inode)
    requires IsView(f, v) && Shaped(n) && BlockCount(n.size) > DIRECT_BLOCKS
    ensures n.direct + LeWords(f, n.indirect * BLOCK_SIZE, BlockCount(n.size) - DIRECT_BLOCKS) == BlockList(v.data, n)
  {
    IndirectWords(f, v, n.indirect, BlockCount(n.size) - DIRECT_BLOCKS);
  }

  lemma GatherMore(f: seq<u8>, v: Vol, blocks: seq<nat>, k: nat, take: nat)
    requires IsView(f, v) && ListOk(blocks) && k < |blocks| && take <= BLOCK_SIZE
    ensures (blocks[k] + 1) * BLOCK_SIZE <= FS_LEN
    ensures Gather(v.data, blocks, k * BLOCK_SIZE) + f[blocks[k] * BLOCK_SIZE..blocks[k] * BLOCK_SIZE + take] ==
      Gather(v.data, blocks, k * BLOCK_SIZE + take)
  {
    var data := v.data;
    var lo := blocks[k] * BLOCK_SIZE;
    var want := Gather(data, blocks, k * BLOCK_SIZE + take);
    assert data[blocks[k]] == DataAt(f, blocks[k]);
    var piece := f[lo..lo + take];
    forall j | k * BLOCK_SIZE <= j < k * BLOCK_SIZE + take ensures want[j] == piece[j - k * BLOCK_SIZE] {
      assert j / BLOCK_SIZE == k && j % BLOCK_SIZE == j - k * BLOCK_SIZE;
      assert BlockAt(f, blocks[k])[j - k * BLOCK_SIZE] == piece[j - k * BLOCK_SIZE];
    }
  }

  lemma FillStep(before: seq<Block>, after: seq<Block>, blocks: seq<u32>, bytes: seq<u8>, i: nat)
    requires |before| == |after| == TOTAL_BLOCKS && ListOk(blocks) && NoDup(blocks) &&
      i < |blocks| == BlockCount(|bytes|)
    requires forall k :: 0 <= k < |bytes| && k < i * BLOCK_SIZE ==> GatherAt(before, blocks, k) == bytes[k]
    requires var start := i * BLOCK_SIZE; var end := Min(start + BLOCK_SIZE, |bytes|);
      after == before[blocks[i] := ZeroBlock()][blocks[i] := Splice(ZeroBlock(), 0, bytes[start..end])]
    ensures forall k :: 0 <= k < |bytes| && k < (i + 1) * BLOCK_SIZE ==> GatherAt(after, blocks, k) == bytes[k]
  {
    forall k | 0 <= k < |bytes| && k < (i + 1) * BLOCK_SIZE ensures GatherAt(after, blocks, k) == bytes[k] {
      if k < i * BLOCK_SIZE {
        assert GatherAt(before, blocks, k) == bytes[k];
        assert k / BLOCK_SIZE < i;
      } else {
        assert k / BLOCK_SIZE == i && k == i * BLOCK_SIZE + k % BLOCK_SIZE;
      }
    }
  }

  /** The indirect block lists the blocks from the 49th up to (not including) the `upto`-th. */
  ghost predicate Lists(blk: Block, blocks: seq<u32>, upto: nat) {
    upto <= |blocks| && upto <= DIRECT_BLOCKS + INDIRECT_ENTRIES &&
    forall k :: DIRECT_BLOCKS <= k < upto ==> Le32(blk, 4 * (k - DIRECT_BLOCKS)) == blocks[k]
  }

  lemma ListStep(blk: Block, blocks: seq<u32>, i: nat)
    requires DIRECT_BLOCKS <= i < |blocks| <= DIRECT_BLOCKS + INDIRECT_ENTRIES && Lists(blk, blocks, i)
    ensures Lists(Splice(blk, 4 * (i - DIRECT_BLOCKS), ToLe32(blocks[i])), blocks, i + 1)
  {
    var off := 4 * (i - DIRECT_BLOCKS);
    var after := Splice(blk, off, ToLe32(blocks[i]));
    forall k | DIRECT_BLOCKS <= k < i + 1 ensures Le32(after, 4 * (k - DIRECT_BLOCKS)) == blocks[k] {
      if k == i {
        assert after[off..off + 4] == ToLe32(blocks[i]);
        Le32Slice(after, off, blocks[i]);
      } else {
        assert Le32(after, 4 * (k - DIRECT_BLOCKS)) == Le32(blk, 4 * (k - DIRECT_BLOCKS));
      }
    }
  }

  function WithIndirect(needed: nat): nat { if needed > DIRECT_BLOCKS then needed + 1 else needed }

  function OwnList(blocks: seq<u32>, ind: u32): seq<nat> {
    blocks + if ind != 0 then [ind] else []
  }

  lemma OwnParts(v: Vol, blocks: seq<u32>, ind: u32)
    requires Lengths(v) && FreshBlocks(v, OwnList(blocks, ind))
    ensures NoDup(blocks) && ListOk(blocks) && (ind != 0 ==> InRegion(ind) && ind !in blocks)
    ensures forall b: nat :: b in OwnList(blocks, ind) <==> b in blocks || (ind != 0 && b == ind)
  {
    var own := OwnList(blocks, ind);
    assert forall k :: 0 <= k < |blocks| ==> own[k] == blocks[k];
    if ind != 0 { assert own[|blocks|] == ind; }
  }

  lemma FilledHolds(mid: seq<Block>, data: seq<Block>, bytes: seq<u8>, blocks: seq<u32>, ind: u32)
    requires |mid| == |data| == TOTAL_BLOCKS && |bytes| <= Tree.MAX_FILE_BYTES && |blocks| == BlockCount(|bytes|) &&
      ListOk(blocks)
    requires (|blocks| > DIRECT_BLOCKS <==> ind != 0) &&
      (ind != 0 ==> InRegion(ind) && ind !in blocks && Lists(data[ind], blocks, |blocks|))
    requires forall b: nat :: b < TOTAL_BLOCKS && (ind == 0 || b != ind) ==> data[b] == mid[b]
    requires forall k :: 0 <= k < |bytes| ==> GatherAt(mid, blocks, k) == bytes[k]
    ensures Holds(data, bytes, blocks, ind)
  {
    forall k | 0 <= k < |bytes| ensures GatherAt(data, blocks, k) == bytes[k] {
      assert GatherAt(mid, blocks, k) == bytes[k];
      assert blocks[k / BLOCK_SIZE] in blocks;
    }
  }

  lemma SeenView(f: seq<u8>, v: Vol, i: nat)
    requires IsView(f, v) && i < INODE_COUNT
    ensures Seen(v.inodes[i]) == v.inodes[i]
  {
    assert v.inodes[i] == InodeAt(f, i);
  }

  /** Taking free blocks leaves every inode's blocks in place. */
  lemma OldBlockList(v: Vol, v': Vol, own: seq<nat>, i: nat)
    requires VolInv(v) && Took(v, v', own) && i < INODE_COUNT
    ensures Shaped(v.inodes[i]) && BlockList(v'.data, v.inodes[i]) == BlockList(v.data, v.inodes[i])
    ensures ListOk(BlockList(v.data, v.inodes[i]))
  {
    ListsOk(v, i);
    var n := v.inodes[i];
    if n.indirect != 0 {
      assert Owned(v.data, n)[|BlockList(v.data, n)|] == n.indirect;
      OwnsUsed(v, i, n.indirect);
    }
  }

  lemma CommitReowns(v: Vol, filled: Vol, v': Vol, i: nat, own: seq<nat>)
    requires VolInv(v) && Took(v, filled, own) && i < INODE_COUNT && Lengths(v') && v.inodes[i].kind != KIND_FREE
    requires v'.head == v.head && v'.data == filled.data && v'.inodes == v.inodes[i := v'.inodes[i]]
    requires Shaped(v'.inodes[i]) && v'.inodes[i].kind == v.inodes[i].kind && Owned(v'.data, v'.inodes[i]) == own
    requires Shaped(v.inodes[i])
    requires var n := v.inodes[i];
      forall b: nat :: b < TOTAL_BLOCKS ==>
        v'.used[b] == (filled.used[b] && b !in BlockList(v.data, n) && (n.indirect == 0 || b != n.indirect))
    ensures Reowned(v, v', i, own)
  {
    assert OwnsWell(v, i);
    var n := v.inodes[i];
    var old' := Owned(v.data, n);
    forall b: nat ensures Owns(v, i, b) <==> b in BlockList(v.data, n) || (n.indirect != 0 && b == n.indirect) {}
    forall b: nat | Owns(v, i, b) ensures b < TOTAL_BLOCKS && v.used[b] && b !in own {
      OwnsUsed(v, i, b);
    }
  }

  /** After a successful write the node holds the bytes and nothing else in the tree changed. */
  ghost predicate Stored(v: Vol, v': Vol, i: nat, bytes: seq<u8>) {
    Lengths(v) && Lengths(v') && v'.head == v.head && i < INODE_COUNT && |Abs(v).nodes| == INODE_COUNT &&
    var n := v.inodes[i];
    Tree.Need(|bytes|) <= Abs(v).free &&
    Abs(v') == Tree.Fs(Abs(v).nodes[i := Build(n, bytes)], Abs(v).free - Tree.Need(|bytes|) + Tree.Need(n.size)) &&
    v'.inodes == v.inodes[i := v'.inodes[i]] && v'.inodes[i].kind == n.kind && v'.inodes[i].size == |bytes| &&
    (DirsCanonical(v) && (n.kind == KIND_DIR ==> CanonicalBytes(bytes)) ==> DirsCanonical(v'))
  }

  /** The bytes of an inode record behind the direct blocks. */
  function TailOf(n: Inode): (r: seq<u8>)
    requires InodeFits(n)
    ensures |r| == 56
  {
    ToLe32(n.indirect) + ToLe32(n.uid) + ToLe32(n.gid) + ToLe32(n.mode % 512) + Repeat(0, 40)
  }

  lemma InodeParts(n: Inode, r: seq<u8>)
    requires InodeFits(n) && r == [n.kind] + Repeat(0, 3) + ToLe32(n.size) + Words(n.direct)
    ensures r + TailOf(n) == EncodeInode(n)
  {
  }

  /** The outcome of a content write: `Stored` exactly when the blocks suffice, else `NoSpace` with nothing visible
      changed. */
  ghost predicate Written(v: Vol, v': Vol, i: nat, bytes: seq<u8>, r: Tree.Result<()>) {
    Lengths(v) &&
    (r.Ok? <==> |bytes| <= Tree.MAX_FILE_BYTES && Tree.Need(|bytes|) <= |FreeSet(v.used)|) &&
    (r.Err? ==> r.error == Tree.NoSpace && Undone(v, v')) &&
    (r.Ok? ==> VolInv(v') && Stored(v, v', i, bytes))
  }

  /** The first free inode from 1 on is `i`; INODE_COUNT stands for none. */
  ghost predicate FirstFree(inodes: seq<Inode>, i: nat) {
    |inodes| == INODE_COUNT && 1 <= i <= INODE_COUNT && (i < INODE_COUNT ==> inodes[i].kind == KIND_FREE) &&
    forall k :: 1 <= k < i ==> inodes[k].kind != KIND_FREE
  }

  ghost predicate Freed(v: Vol, v': Vol, i: nat) {
    Lengths(v) && Lengths(v') && i < INODE_COUNT && Shaped(v.inodes[i]) &&
    v'.head == v.head && v'.inodes == v.inodes[i := FreeInode()] && v'.data == v.data &&
    var n := v.inodes[i];
    forall b: nat :: b < TOTAL_BLOCKS ==>
      v'.used[b] == (v.used[b] && b !in BlockList(v.data, n) && (n.indirect == 0 || b != n.indirect))
  }

  /** The records of directory `d`, or why there are none. */
  ghost function DirOf(v: Vol, d: nat): Tree.Result<seq<Tree.Entry>>
    requires Lengths(v)
  {
    if d >= INODE_COUNT then Tree.Err(Tree.NotFound)
    else if v.inodes[d].kind != KIND_DIR then Tree.Err(Tree.NotDirectory)
    else if Shaped(v.inodes[d]) && ListOk(BlockList(v.data, v.inodes[d]))
      then Tree.Ok(DecodeDir(Content(v.data, v.inodes[d])))
    else Tree.Err(Tree.Io)
  }

  ghost function Build(n: Inode, bytes: seq<u8>): Tree.Node {
    if n.kind == KIND_FREE then Tree.Free
    else if n.kind == KIND_FILE then Tree.File(bytes, MetaOf(n))
    else Tree.Dir(DecodeDir(bytes), MetaOf(n))
  }

  lemma CommitStored(v: Vol, v': Vol, i: nat, bytes: seq<u8>, own: seq<nat>)
    requires VolInv(v) && Reowned(v, v', i, own) && |own| == Tree.Need(|bytes|)
    requires v'.inodes[i].kind == v.inodes[i].kind && MetaOf(v'.inodes[i]) == MetaOf(v.inodes[i]) &&
      v'.inodes[i].size == |bytes|
    requires ListOk(BlockList(v'.data, v'.inodes[i])) && Content(v'.data, v'.inodes[i]) == bytes
    ensures VolInv(v') && Stored(v, v', i, bytes)
  {
    ReownAbs(v, v', i, own);
    assert BytesOf(v', i) == bytes;
    assert NodeOf(v', i) == Build(v.inodes[i], bytes);
    if DirsCanonical(v) && (v.inodes[i].kind == KIND_DIR ==> CanonicalBytes(bytes)) {
      assert Canonical(v', i);
      ReownSound(v, v', i, own);
    }
  }

  /** Data of free blocks is invisible. */
  lemma UndoneInv(v: Vol, v': Vol)
    requires VolInv(v) && Undone(v, v')
    ensures VolInv(v') && Abs(v') == Abs(v) && (DirsCanonical(v) ==> DirsCanonical(v'))
  {
    forall i: nat | i < INODE_COUNT
      ensures Shaped(v.inodes[i]) && Owned(v'.data, v.inodes[i]) == Owned(v.data, v.inodes[i]) && OwnsWell(v', i)
    {
      UndoneOwned(v, v', i);
    }
    forall i: nat, b: nat ensures Owns(v', i, b) <==> Owns(v, i, b) {}
    assert VolInv(v') by {
      forall b: nat | InRegion(b) && v'.used[b] ensures exists i: nat :: Owns(v', i, b) {
        var i: nat :| Owns(v, i, b);
        assert Owns(v', i, b);
      }
    }
    forall i: nat | i < INODE_COUNT ensures NodeOf(v', i) == NodeOf(v, i) && Canonical(v', i) == Canonical(v, i) {
      UndoneContent(v, v', i);
    }
    assert Abs(v').nodes == Abs(v).nodes;
    if DirsCanonical(v) {
      forall i: nat | i < INODE_COUNT ensures Canonical(v', i) { assert Canonical(v, i); }
    }
  }

  lemma UndoneOwned(v: Vol, v': Vol, i: nat)
    requires VolInv(v) && Undone(v, v') && i < INODE_COUNT
    ensures Shaped(v.inodes[i]) && BlockList(v'.data, v.inodes[i]) == BlockList(v.data, v.inodes[i])
    ensures Owned(v'.data, v.inodes[i]) == Owned(v.data, v.inodes[i]) && OwnsWell(v', i)
  {
    assert OwnsWell(v, i);
    var n := v.inodes[i];
    if n.indirect != 0 {
      assert Owned(v.data, n)[|BlockList(v.data, n)|] == n.indirect;
      OwnsUsed(v, i, n.indirect);
    }
  }

  lemma UndoneContent(v: Vol, v': Vol, i: nat)
    requires VolInv(v) && Undone(v, v') && i < INODE_COUNT
    ensures NodeOf(v', i) == NodeOf(v, i) && Canonical(v', i) == Canonical(v, i)
  {
    UndoneOwned(v, v', i);
    ListsOk(v, i);
    var n := v.inodes[i];
    var list := BlockList(v.data, n);
    forall k | 0 <= k < n.size ensures GatherAt(v'.data, list, k) == GatherAt(v.data, list, k) {
      assert Owned(v.data, n)[k / BLOCK_SIZE] == list[k / BLOCK_SIZE];
      OwnsUsed(v, i, list[k / BLOCK_SIZE]);
    }
    assert Content(v'.data, n) == Content(v.data, n);
  }

  method ParseDir(bytes: seq<u8>) returns (es: seq<Tree.Entry>)
    ensures es == DecodeDir(bytes)
  {
    es := [];
    var k := 0;
    while k + 32 <= |bytes|
      invariant 0 <= k <= |bytes| && es + DecodeDir(bytes[k..]) == DecodeDir(bytes)
    {
      ghost var rest := bytes[k..];
      assert rest[..32] == bytes[k..k + 32] && rest[32..] == bytes[k + 32..];
      Assoc(es, DecodeEntry(bytes[k..k + 32]), DecodeDir(bytes[k + 32..]));
      es := es + DecodeEntry(bytes[k..k + 32]);
      k := k + 32;
    }
  }

  method FormatDir(es: seq<Tree.Entry>) returns (bytes: seq<u8>)
    requires forall e :: e in es ==> Encodable(e)
    ensures bytes == EncodeDir(es)
  {
    bytes := [];
    for k := 0 to |es|
      invariant bytes + EncodeDir(es[k..]) == EncodeDir(es)
    {
      assert es[k..][0] == es[k] && es[k..][1..] == es[k + 1..];
      Assoc(bytes, EncodeEntry(es[k]), EncodeDir(es[k + 1..]));
      bytes := bytes + EncodeEntry(es[k]);
    }
  }

  /** Everything a mounted image satisfies. */
  ghost predicate FsOk(v: Vol) {
    VolInv(v) && DirsCanonical(v) && Inv.TreeInv(Abs(v))
  }

  function KindByte(kind: Tree.Kind): u8 { if kind.KindDir? then KIND_DIR else KIND_FILE }

  /** The inode's size field is the size of the node. */
  lemma SizeIs(v: Vol, i: nat)
    requires DirsCanonical(v) && i < INODE_COUNT
    ensures Tree.Size(NodeOf(v, i)) == v.inodes[i].size && Abs(v).nodes[i] == NodeOf(v, i)
  {
    assert OwnsWell(v, i) && Canonical(v, i);
    ListsOk(v, i);
  }

  lemma FirstFreeIs(v: Vol, i: nat)
    requires VolInv(v) && FirstFree(v.inodes, i)
    ensures Tree.FirstFreeInode(Abs(v).nodes, 1) == i
  {
    assert forall k: nat :: k < INODE_COUNT ==> (Abs(v).nodes[k].Free? <==> v.inodes[k].kind == KIND_FREE);
  }

  lemma NothingOwned(v: Vol, i: nat)
    requires VolInv(v) && i < INODE_COUNT && v.inodes[i].kind == KIND_FREE
    ensures forall b: nat :: !Owns(v, i, b)
  {
    assert OwnsWell(v, i);
  }

  lemma EmptyInode(data: seq<Block>, n: Inode)
    requires |data| == TOTAL_BLOCKS && InodeFits(n) && n.size == 0 && n.indirect == 0
    ensures Shaped(n) && Owned(data, n) == [] && BlockList(data, n) == [] && Content(data, n) == []
  {
  }

  lemma NewInodeAbs(v: Vol, v': Vol, i: nat, kind: Tree.Kind, meta: Tree.Meta)
    requires DirsCanonical(v) && i < INODE_COUNT && v.inodes[i].kind == KIND_FREE
    requires v' == v.(inodes := v.inodes[i := Seen(NewInode(KindByte(kind), meta.uid, meta.gid, meta.mode))])
    ensures DirsCanonical(v')
    ensures Abs(v') == Abs(v).(nodes := Abs(v).nodes[i := Tree.NewNode(kind, meta)])
  {
    NewRecord(kind, meta);
    EmptyRecord(v, v', i);
    ReownSound(v, v', i, []);
  }

  lemma NewRecord(kind: Tree.Kind, meta: Tree.Meta)
    ensures var n := Seen(NewInode(KindByte(kind), meta.uid, meta.gid, meta.mode));
      n.kind != KIND_FREE && InodeFits(n) && Shaped(n) && KindOk(n) && n.size == 0 && n.indirect == 0 &&
      Build(n, []) == Tree.NewNode(kind, meta)
  {
  }

  lemma EmptyRecord(v: Vol, v': Vol, i: nat)
    requires VolInv(v) && Lengths(v') && i < INODE_COUNT && v.inodes[i].kind == KIND_FREE
    requires v' == v.(inodes := v'.inodes) && v'.inodes == v.inodes[i := v'.inodes[i]]
    requires var n := v'.inodes[i]; InodeFits(n) && Shaped(n) && KindOk(n) && n.size == 0 && n.indirect == 0
    ensures Reowned(v, v', i, []) && Canonical(v', i)
    ensures NodeOf(v', i) == Build(v'.inodes[i], []) && v.inodes[i].size == 0
  {
    EmptyInode(v'.data, v'.inodes[i]);
    EmptyReowned(v, v', i);
    assert OwnsWell(v, i);
    EmptyNode(v', i);
  }

  lemma EmptyNode(v: Vol, i: nat)
    requires Lengths(v) && i < INODE_COUNT && InodeFits(v.inodes[i]) && v.inodes[i].size == 0 &&
      v.inodes[i].indirect == 0
    ensures BytesOf(v, i) == [] && NodeOf(v, i) == Build(v.inodes[i], []) && Canonical(v, i)
  {
    EmptyInode(v.data, v.inodes[i]);
  }

  lemma EmptyReowned(v: Vol, v': Vol, i: nat)
    requires VolInv(v) && Lengths(v') && i < INODE_COUNT && v.inodes[i].kind == KIND_FREE
    requires v' == v.(inodes := v'.inodes) && v'.inodes == v.inodes[i := v'.inodes[i]]
    requires Shaped(v'.inodes[i]) && KindOk(v'.inodes[i]) && Owned(v'.data, v'.inodes[i]) == []
    ensures Reowned(v, v', i, [])
  {
    NothingOwned(v, i);
  }

  lemma FreedAbs(v: Vol, v': Vol, i: nat)
    requires DirsCanonical(v) && Freed(v, v', i)
    ensures DirsCanonical(v')
    ensures Abs(v') == Tree.Release(Abs(v), i)
  {
    var n := v.inodes[i];
    EmptyInode(v'.data, FreeInode());
    forall b: nat ensures Owns(v, i, b) <==> b in BlockList(v.data, n) || (n.indirect != 0 && b == n.indirect) {}
    assert Reowned(v, v', i, []);
    SizeIs(v, i);
    EmptyNode(v', i);
    ReownSound(v, v', i, []);
  }

  function LeWords(f: seq<u8>, off: nat, n: nat): (r: seq<u32>)
    requires off + 4 * n <= |f|
    ensures |r| == n
  {
    seq(n, j requires 0 <= j < n => Le32(f, off + 4 * j))
  }

  lemma LeWordsSnoc(f: seq<u8>, off: nat, n: nat)
    requires off + 4 * n + 4 <= |f|
    ensures LeWords(f, off, n) + [Le32(f, off + 4 * n)] == LeWords(f, off, n + 1)
  {
  }

  /** Words read from the flat image make the inode of the view. */
  lemma InodeFields(f: seq<u8>, i: nat, n: Inode, size: seq<u32>, rest: seq<u32>)
    requires |f| == FS_LEN && i < INODE_COUNT
    requires size == LeWords(f, InodeOff(i) + 4, 1) && rest == LeWords(f, InodeOff(i) + 200, 4)
    requires n.kind == f[InodeOff(i)] && n.direct == LeWords(f, InodeOff(i) + 8, DIRECT_BLOCKS) && n.size == size[0]
    requires n.indirect == rest[0] && n.uid == rest[1] && n.gid == rest[2] && n.mode == NormMode(n.kind, rest[3])
    ensures n == InodeAt(f, i) && InodeFits(n)
  {
    var off := InodeOff(i);
    var r := f[off..off + INODE_SIZE];
    assert forall k :: 0 <= k < INODE_SIZE - 3 ==> Le32(r, k) == Le32(f, off + k);
    assert n.direct == DecodeInode(r).direct;
  }

  lemma WordsSnoc(head: seq<u8>, ws: seq<u32>, k: nat)
    requires k < |ws|
    ensures head + Words(ws[..k]) + ToLe32(ws[k]) == head + Words(ws[..k + 1])
  {
    assert ws[..k + 1][..k] == ws[..k];
    Assoc(head, Words(ws[..k]), ToLe32(ws[k]));
  }
}
