/** How changes to one inode and the bitmap act on ownership, on the other inodes and on the tree. */
module CoolVolumeLaws {
  import opened Bytes
  import opened CoolGeometry
  import opened CoolLayout
  import opened CoolVolume
  import Tree = CoolTree

  /** `v'` is `v` with inode `i` now owning `own`, all taken from the free blocks, and its old blocks given back. */
  ghost predicate Reowned(v: Vol, v': Vol, i: nat, own: seq<nat>) {
    Lengths(v) && Lengths(v') && v'.head == v.head && i < INODE_COUNT && v'.inodes == v.inodes[i := v'.inodes[i]] &&
    Shaped(v'.inodes[i]) && KindOk(v'.inodes[i]) && own == Owned(v'.data, v'.inodes[i]) && FreshBlocks(v, own) &&
    (forall b: nat :: b < TOTAL_BLOCKS && b !in own ==> v'.data[b] == v.data[b]) &&
    (forall b: nat :: b < TOTAL_BLOCKS ==> v'.used[b] == ((v.used[b] && !Owns(v, i, b)) || b in own))
  }

  /** Distinct free blocks of the data region. */
  ghost predicate FreshBlocks(v: Vol, s: seq<nat>)
    requires Lengths(v)
  {
    NoDup(s) && forall k :: 0 <= k < |s| ==> InRegion(s[k]) && !v.used[s[k]]
  }

  lemma OwnsUsed(v: Vol, i: nat, b: nat)
    requires VolInv(v) && Owns(v, i, b)
    ensures InRegion(b) && v.used[b]
  {
    assert OwnsWell(v, i);
  }

  lemma OtherData(v: Vol, v': Vol, i: nat, own: seq<nat>, j: nat)
    requires VolInv(v) && Reowned(v, v', i, own) && j < INODE_COUNT && j != i
    ensures v'.inodes[j] == v.inodes[j] && Shaped(v.inodes[j])
    ensures forall b: nat :: Owns(v, j, b) ==> b < TOTAL_BLOCKS && v'.data[b] == v.data[b]
    ensures Owned(v'.data, v.inodes[j]) == Owned(v.data, v.inodes[j])
    ensures BlockList(v'.data, v.inodes[j]) == BlockList(v.data, v.inodes[j])
  {
    assert OwnsWell(v, j);
    var n := v.inodes[j];
    forall b: nat | Owns(v, j, b) ensures b < TOTAL_BLOCKS && v'.data[b] == v.data[b] {
      OwnsUsed(v, j, b);
    }
    if n.indirect != 0 {
      assert Owned(v.data, n)[|BlockList(v.data, n)|] == n.indirect;
      assert Owns(v, j, n.indirect);
    }
  }

  lemma OtherOwns(v: Vol, v': Vol, i: nat, own: seq<nat>)
    requires VolInv(v) && Reowned(v, v', i, own)
    ensures forall j: nat, b: nat :: Owns(v', j, b) <==> if j == i then b in own else Owns(v, j, b)
  {
    forall j: nat, b: nat ensures Owns(v', j, b) <==> if j == i then b in own else Owns(v, j, b) {
      if j < INODE_COUNT && j != i { OtherData(v, v', i, own, j); }
    }
  }

  lemma OtherOwnsWell(v: Vol, v': Vol, i: nat, own: seq<nat>, j: nat)
    requires VolInv(v) && Reowned(v, v', i, own) && j < INODE_COUNT
    ensures OwnsWell(v', j)
  {
    if j != i {
      assert OwnsWell(v, j);
      OtherData(v, v', i, own, j);
      var theirs := Owned(v.data, v.inodes[j]);
      forall k | 0 <= k < |theirs| ensures v'.used[theirs[k]] {
        assert Owns(v, j, theirs[k]);
      }
    }
  }

  /** Ownership stays a partition of the used blocks. */
  lemma ReownInv(v: Vol, v': Vol, i: nat, own: seq<nat>)
    requires VolInv(v) && Reowned(v, v', i, own)
    ensures VolInv(v')
  {
    OtherOwns(v, v', i, own);
    forall j: nat | j < INODE_COUNT ensures OwnsWell(v', j) { OtherOwnsWell(v, v', i, own, j); }
    forall j: nat, k: nat, b: nat | Owns(v', j, b) && Owns(v', k, b) ensures j == k {
      if j != i { OwnsUsed(v, j, b); }
      if k != i { OwnsUsed(v, k, b); }
    }
    forall b: nat | b < DATA_START ensures v'.used[b] {
      if Owns(v, i, b) { OwnsUsed(v, i, b); }
    }
    forall b: nat | InRegion(b) && v'.used[b] ensures exists j: nat :: Owns(v', j, b) {
      if b in own {
        assert Owns(v', i, b);
      } else {
        var j: nat :| Owns(v, j, b);
        assert Owns(v', j, b);
      }
    }
  }

  lemma OtherNode(v: Vol, v': Vol, i: nat, own: seq<nat>, j: nat)
    requires VolInv(v) && Reowned(v, v', i, own) && j < INODE_COUNT && j != i
    ensures NodeOf(v', j) == NodeOf(v, j)
    ensures Canonical(v', j) == Canonical(v, j)
  {
    OtherData(v, v', i, own, j);
    ListsOk(v, j);
    var n := v.inodes[j];
    var list := BlockList(v.data, n);
    forall k | 0 <= k < n.size ensures GatherAt(v'.data, list, k) == GatherAt(v.data, list, k) {
      assert Owned(v.data, n)[k / BLOCK_SIZE] == list[k / BLOCK_SIZE];
      assert Owns(v, j, list[k / BLOCK_SIZE]);
    }
    assert Content(v'.data, n) == Content(v.data, n);
  }

  lemma FreeSetChange(used: seq<bool>, used': seq<bool>, took: seq<nat>, gave: seq<nat>)
    requires |used| == |used'| == TOTAL_BLOCKS && NoDup(took) && NoDup(gave)
    requires forall k :: 0 <= k < |took| ==> InRegion(took[k]) && !used[took[k]]
    requires forall k :: 0 <= k < |gave| ==> InRegion(gave[k]) && used[gave[k]]
    requires forall b: nat :: b < TOTAL_BLOCKS ==> used'[b] == ((used[b] && b !in gave) || b in took)
    ensures |took| <= |FreeSet(used)|
    ensures |FreeSet(used')| == |FreeSet(used)| - |took| + |gave|
  {
    SetOfSize(took);
    SetOfSize(gave);
    var t, g, f := SetOf(took), SetOf(gave), FreeSet(used);
    assert t <= f;
    assert |f - t| == |f| - |t|;
    assert FreeSet(used') == (f - t) + g;
    assert (f - t) !! g;
  }

  /** The free count changes by exactly what was taken and given back. */
  lemma ReownFree(v: Vol, v': Vol, i: nat, own: seq<nat>)
    requires VolInv(v) && Reowned(v, v', i, own)
    ensures |FreeSet(v'.used)| == |FreeSet(v.used)| - |own| + Tree.Need(v.inodes[i].size)
    ensures |own| <= |FreeSet(v.used)|
  {
    assert OwnsWell(v, i);
    FreeSetChange(v.used, v'.used, own, Owned(v.data, v.inodes[i]));
  }

  /** Only node `i` and the free count of the tree change. */
  lemma ReownAbs(v: Vol, v': Vol, i: nat, own: seq<nat>)
    requires VolInv(v) && Reowned(v, v', i, own)
    ensures VolInv(v')
    ensures |own| <= Abs(v).free
    ensures Abs(v') == Tree.Fs(Abs(v).nodes[i := NodeOf(v', i)], Abs(v).free - |own| + Tree.Need(v.inodes[i].size))
  {
    ReownInv(v, v', i, own);
    ReownFree(v, v', i, own);
    ReownNodes(v, v', i, own);
  }

  lemma ReownNodes(v: Vol, v': Vol, i: nat, own: seq<nat>)
    requires VolInv(v) && VolInv(v') && Reowned(v, v', i, own)
    ensures Abs(v').nodes == Abs(v).nodes[i := NodeOf(v', i)]
  {
    forall j: nat | j < INODE_COUNT && j != i ensures Abs(v').nodes[j] == Abs(v).nodes[j] {
      OtherNode(v, v', i, own, j);
    }
  }

  /** The same, with every directory canonical before and after. */
  lemma ReownSound(v: Vol, v': Vol, i: nat, own: seq<nat>)
    requires DirsCanonical(v) && Reowned(v, v', i, own) && Canonical(v', i)
    ensures DirsCanonical(v')
    ensures |own| <= Abs(v).free
    ensures Abs(v') == Tree.Fs(Abs(v).nodes[i := NodeOf(v', i)], Abs(v).free - |own| + Tree.Need(v.inodes[i].size))
  {
    ReownAbs(v, v', i, own);
    forall j: nat | j < INODE_COUNT ensures Canonical(v', j) {
      if j != i { OtherNode(v, v', i, own, j); assert Canonical(v, j); }
    }
  }

  // ---- New content -------------------------------------------------------------------

  /** The inode record that `write_inode_bytes` stores: the first 48 blocks direct, the rest behind `ind`. */
  function Rewritten(n: Inode, size: u32, blocks: seq<u32>, ind: u32): Inode {
    var k := Min(|blocks|, DIRECT_BLOCKS);
    n.(size := size, direct := blocks[..k] + Repeat(0, DIRECT_BLOCKS - k), indirect := ind)
  }

  /** The blocks hold the bytes, and the indirect block lists the blocks past the direct ones. */
  ghost predicate Holds(data: seq<Block>, bytes: seq<u8>, blocks: seq<u32>, ind: u32) {
    |data| == TOTAL_BLOCKS && |blocks| == BlockCount(|bytes|) && |bytes| <= Tree.MAX_FILE_BYTES && ListOk(blocks) &&
    (|blocks| > DIRECT_BLOCKS <==> ind != 0) && (ind != 0 ==> InRegion(ind)) &&
    (forall k :: 0 <= k < |bytes| ==> GatherAt(data, blocks, k) == bytes[k]) &&
    (forall k :: DIRECT_BLOCKS <= k < |blocks| ==> Le32(data[ind], 4 * (k - DIRECT_BLOCKS)) == blocks[k])
  }

  lemma RewrittenContent(data: seq<Block>, n: Inode, bytes: seq<u8>, blocks: seq<u32>, ind: u32)
    requires Holds(data, bytes, blocks, ind)
    ensures var n' := Rewritten(n, |bytes|, blocks, ind);
      Shaped(n') && BlockList(data, n') == blocks && Content(data, n') == bytes &&
      Owned(data, n') == blocks + if ind != 0 then [ind] else []
  {
    var n' := Rewritten(n, |bytes|, blocks, ind);
    var cnt := |blocks|;
    if cnt <= DIRECT_BLOCKS {
      assert n'.direct[..cnt] == blocks;
    } else {
      assert n'.direct == blocks[..DIRECT_BLOCKS];
      var tail := IndirectList(data[ind], cnt - DIRECT_BLOCKS);
      forall k | 0 <= k < |tail| ensures tail[k] == blocks[DIRECT_BLOCKS + k] {
        assert Le32(data[ind], 4 * (DIRECT_BLOCKS + k - DIRECT_BLOCKS)) == blocks[DIRECT_BLOCKS + k];
      }
      assert BlockList(data, n') == blocks;
    }
    assert Content(data, n') == bytes;
  }
}
