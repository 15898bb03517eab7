/** A FAT32 volume: mirrored tables of 32-bit entries and the clusters they chain together. */
module Fat32 {
  import opened Bytes
  import opened FatTable

  const ENTRIES_PER_SECTOR: nat := 128
  const SECTOR: nat := 512

  // ---- Table entries -------------------------------------------------------------------

  function Low(w: u32): nat { w % ENTRY_BASE }

  /** The new low 28 bits under the old top four. */
  function Patch(w: u32, v: nat): u32
    requires v < ENTRY_BASE
  {
    w - w % ENTRY_BASE + v
  }

  lemma PatchKeepsTop(w: u32, v: nat)
    requires v < ENTRY_BASE
    ensures Low(Patch(w, v)) == v && Patch(w, v) / ENTRY_BASE == w / ENTRY_BASE
  {
  }

  lemma PatchBack(w: u32, v: nat)
    requires v < ENTRY_BASE && Low(w) == FREE
    ensures Patch(Patch(w, v), FREE) == w
  {
  }

  function TableOf(fat: seq<u32>): (t: Table)
    ensures |t| == |fat| && forall c :: 0 <= c < |fat| ==> t[c] == Low(fat[c])
  {
    seq(|fat|, c requires 0 <= c < |fat| => Low(fat[c]))
  }

  /** Every copy with entry `c` set. */
  function SetEntry(fats: seq<seq<u32>>, c: nat, v: nat): (r: seq<seq<u32>>)
    requires v < ENTRY_BASE && forall k :: 0 <= k < |fats| ==> c < |fats[k]|
    ensures |r| == |fats| && forall k :: 0 <= k < |fats| ==> r[k] == fats[k][c := Patch(fats[k][c], v)]
  {
    seq(|fats|, k requires 0 <= k < |fats| => fats[k][c := Patch(fats[k][c], v)])
  }

  ghost predicate Mirrored(fats: seq<seq<u32>>) {
    fats != [] && forall k :: 0 <= k < |fats| ==> TableOf(fats[k]) == TableOf(fats[0])
  }

  /** Every word keeps its top four bits. */
  ghost predicate SameTops(before: seq<u32>, after: seq<u32>) {
    |after| == |before| && forall c :: 0 <= c < |before| ==> after[c] / ENTRY_BASE == before[c] / ENTRY_BASE
  }

  lemma SetEntryMirrored(fats: seq<seq<u32>>, c: nat, v: nat)
    requires Mirrored(fats) && v < ENTRY_BASE && c < |fats[0]| && forall k :: 0 <= k < |fats| ==> |fats[k]| == |fats[0]|
    ensures var r := SetEntry(fats, c, v); Mirrored(r) && TableOf(r[0]) == TableOf(fats[0])[c := v]
    ensures forall k :: 0 <= k < |fats| ==> SameTops(fats[k], SetEntry(fats, c, v)[k])
  {
    var r := SetEntry(fats, c, v);
    forall k | 0 <= k < |r| ensures TableOf(r[k]) == TableOf(fats[k])[c := v] && SameTops(fats[k], r[k]) {
      PatchKeepsTop(fats[k][c], v);
    }
  }

  // ---- File content ---------------------------------------------------------------------

  function Content(data: seq<seq<u8>>, ch: Chain): seq<u8>
    requires forall i :: 0 <= i < |ch| ==> ch[i] < |data|
  {
    if ch == [] then [] else data[ch[0]] + Content(data, ch[1..])
  }

  /** The bytes cut into clusters, the last one padded with zeros. */
  function Padded(bytes: seq<u8>, size: nat, count: nat): seq<u8>
    decreases count
  {
    if count == 0 then []
    else
      var take := Min(size, |bytes|);
      bytes[..take] + Repeat(0, size - take) + Padded(bytes[take..], size, count - 1)
  }

  ghost predicate Fits(len: nat, size: nat, count: nat)
    decreases count
  {
    len == 0 || (count > 0 && Fits(len - Min(size, len), size, count - 1))
  }

  lemma {:induction false} PaddedStart(bytes: seq<u8>, size: nat, count: nat)
    requires Fits(|bytes|, size, count)
    ensures |bytes| <= |Padded(bytes, size, count)| && Padded(bytes, size, count)[..|bytes|] == bytes
    decreases count
  {
    if count > 0 {
      var take := Min(size, |bytes|);
      if take < |bytes| {
        PaddedStart(bytes[take..], size, count - 1);
        var rest := Padded(bytes[take..], size, count - 1);
        assert bytes[..take] + Repeat(0, size - take) == bytes[..take];
        assert (bytes[..take] + rest)[..|bytes|] == bytes[..take] + rest[..|bytes| - take];
      } else {
        assert bytes[..take] == bytes;
      }
    }
  }

  lemma PaddedRead(bytes: seq<u8>, size: nat, count: nat, content: seq<u8>)
    requires Fits(|bytes|, size, count) && content == Padded(bytes, size, count)
    ensures content[..Min(|bytes|, |content|)] == bytes
  {
    PaddedStart(bytes, size, count);
  }

  // ---- How many clusters ------------------------------------------------------------------

  /** As the writer counts: sectors rounded up, then clusters rounded up. */
  function ClustersNeeded(len: nat, spc: nat): nat
    requires spc > 0
  {
    var sectors := (len + SECTOR - 1) / SECTOR;
    (sectors + spc - 1) / spc
  }

  lemma DivLess(x: nat, d: nat)
    requires 0 < d <= x
    ensures (x - d) / d == x / d - 1
  {
    var k := (x - d) / d - (x / d - 1);
    assert x == d * (x / d) + x % d;
    assert x - d == d * ((x - d) / d) + (x - d) % d;
    Distribute(d, (x - d) / d, x / d - 1);
    assert d * (x / d - 1) == d * (x / d) - d;
    assert d * k == x % d - (x - d) % d;
    NoMultiple(d, k);
  }

  lemma Distribute(d: int, a: int, b: int)
    ensures d * (a - b) == d * a - d * b
  {
  }

  lemma NoMultiple(d: int, k: int)
    requires d > 0 && -d < d * k < d
    ensures k == 0
  {
    if k >= 1 { MulAtLeast(d, k); }
    if k <= -1 { MulAtLeast(d, -k); }
  }

  lemma MulAtLeast(d: int, k: int)
    requires d > 0 && k >= 1
    ensures d * k >= d && d * -k == -(d * k)
  {
  }

  lemma {:induction false} NeededFits(len: nat, spc: nat)
    requires spc > 0
    ensures Fits(len, spc * SECTOR, ClustersNeeded(len, spc))
    ensures len > 0 ==> ClustersNeeded(len, spc) > 0
    decreases len
  {
    var size := spc * SECTOR;
    var sectors := (len + SECTOR - 1) / SECTOR;
    if len > 0 {
      assert sectors >= 1;
      AtLeastOne(sectors, spc);
    }
    if len > size {
      NeededRest(len, spc);
      NeededFits(len - size, spc);
    }
  }

  /** One full cluster less to store takes one cluster less. */
  lemma NeededRest(len: nat, spc: nat)
    requires spc > 0 && len > spc * SECTOR
    ensures ClustersNeeded(len - spc * SECTOR, spc) == ClustersNeeded(len, spc) - 1
  {
    var sectors := (len + SECTOR - 1) / SECTOR;
    assert (len - spc * SECTOR + SECTOR - 1) / SECTOR == sectors - spc;
    assert sectors > spc;
    DivLess(sectors + spc - 1, spc);
  }

  /** One cluster less would not do. */
  lemma {:induction false} NeededLeast(len: nat, spc: nat)
    requires spc > 0 && len > 0
    ensures ClustersNeeded(len, spc) > 0 && !Fits(len, spc * SECTOR, ClustersNeeded(len, spc) - 1)
    decreases len
  {
    NeededFits(len, spc);
    if len > spc * SECTOR {
      NeededRest(len, spc);
      NeededLeast(len - spc * SECTOR, spc);
    } else {
      OneEnough(len, spc);
    }
  }

  lemma OneEnough(len: nat, spc: nat)
    requires spc > 0 && 0 < len <= spc * SECTOR
    ensures ClustersNeeded(len, spc) == 1
  {
    var sectors := (len + SECTOR - 1) / SECTOR;
    assert 1 <= sectors <= spc;
    DivLess(sectors + spc - 1, spc);
    assert (sectors - 1) / spc == 0;
  }

  lemma AtLeastOne(x: nat, d: nat)
    requires x >= 1 && d > 0
    ensures (x + d - 1) / d >= 1
  {
    DivLess(x + d - 1, d);
  }

  // ---- The volume -----------------------------------------------------------------------

  /** In every copy exactly the listed entries are set to `v`, each under its own top bits. */
  ghost predicate Marked(before: seq<seq<u32>>, after: seq<seq<u32>>, list: seq<nat>, v: nat)
    requires v < ENTRY_BASE
  {
    |after| == |before| && forall k :: 0 <= k < |before| ==>
      |after[k]| == |before[k]| &&
      forall c :: 0 <= c < |before[k]| ==> after[k][c] == if c in list then Patch(before[k][c], v) else before[k][c]
  }

  lemma MarkMore(before: seq<seq<u32>>, mid: seq<seq<u32>>, list: seq<nat>, v: nat, c: nat)
    requires v < ENTRY_BASE && Marked(before, mid, list, v) && forall k :: 0 <= k < |mid| ==> c < |mid[k]|
    ensures Marked(before, SetEntry(mid, c, v), list + [c], v)
  {
    var after := SetEntry(mid, c, v);
    forall k | 0 <= k < |before|
      ensures |after[k]| == |before[k]| &&
        forall d :: 0 <= d < |before[k]| ==> after[k][d] == if d in list + [c]
          then Patch(before[k][d], v) else before[k][d]
    {
      PatchTwice(before[k][c], v);
    }
  }

  lemma PatchTwice(w: u32, v: nat)
    requires v < ENTRY_BASE
    ensures Patch(Patch(w, v), v) == Patch(w, v)
  {
  }

  /** Marking free entries and then freeing them restores every word. */
  lemma MarkedBack(before: seq<seq<u32>>, mid: seq<seq<u32>>, after: seq<seq<u32>>, list: seq<nat>)
    requires Marked(before, mid, list, EOC) && Marked(mid, after, list, FREE)
    requires forall k, c :: 0 <= k < |before| && 0 <= c < |before[k]| && c in list ==> Low(before[k][c]) == FREE
    ensures after == before
  {
    forall k | 0 <= k < |before| ensures after[k] == before[k] {
      forall c | 0 <= c < |before[k]| ensures after[k][c] == before[k][c] {
        if c in list { PatchBack(before[k][c], EOC); }
      }
    }
  }

  lemma MarkedTable(before: seq<seq<u32>>, after: seq<seq<u32>>, list: seq<nat>, v: nat)
    requires v < ENTRY_BASE && Marked(before, after, list, v) && before != []
    ensures var t, t' := TableOf(before[0]), TableOf(after[0]);
      |t'| == |t| && forall c :: 0 <= c < |t| ==> t'[c] == if c in list then v else t[c]
  {
    forall c | 0 <= c < |before[0]| ensures Low(after[0][c]) == if c in list then v else Low(before[0][c]) {
      PatchKeepsTop(before[0][c], v);
    }
  }

  lemma FewerFree(t: Table, c: nat, v: nat)
    requires c in FreeClusters(t) && v != FREE
    ensures |FreeClusters(t[c := v])| == |FreeClusters(t)| - 1
  {
    assert FreeClusters(t[c := v]) == FreeClusters(t) - {c};
  }

  /** A table together with the chains it holds and the clusters outside all chains that are not free. */
  datatype Layout = Layout(table: Table, chains: set<Chain>, spare: set<nat>)

  type Sound = l: Layout | Chained(l.table, l.chains, l.spare) ghost witness Layout([], {}, {})

  class Volume {
    const spc: nat
    const sectorsPerFat: nat
    var fats: seq<seq<u32>>
    var data: seq<seq<u8>>
    ghost var layout: Sound

    ghost predicate Shaped()
      reads this
    {
      spc > 0 && Mirrored(fats) && (forall k :: 0 <= k < |fats| ==> |fats[k]| == sectorsPerFat * ENTRIES_PER_SECTOR) &&
      |data| == sectorsPerFat * ENTRIES_PER_SECTOR && forall c :: 0 <= c < |data| ==> |data[c]| == spc * SECTOR
    }

    /** The copies agree, and the entries in use form the chains of the layout. */
    ghost predicate Valid()
      reads this
    {
      Shaped() && layout.table == TableOf(fats[0])
    }

    /** Sets an entry in every copy of the table, keeping its top four bits. */
    method WriteEntry(c: nat, v: nat)
      requires Shaped() && c < |fats[0]| && v < ENTRY_BASE
      modifies this`fats
      ensures Shaped() && fats == SetEntry(old(fats), c, v) && TableOf(fats[0]) == TableOf(old(fats)[0])[c := v]
    {
      SetEntryMirrored(fats, c, v);
      ghost var goal := SetEntry(fats, c, v);
      var k := 0;
      while k < |fats|
        invariant 0 <= k <= |fats| == |old(fats)|
        invariant forall j :: 0 <= j < k ==> fats[j] == goal[j]
        invariant forall j :: k <= j < |fats| ==> fats[j] == old(fats)[j]
      {
        var fat: seq<u32> := fats[k];
        var word: u32 := fat[c];
        fat := fat[c := Patch(word, v)];
        fats := fats[k := fat];
        k := k + 1;
      }
      assert fats == goal;
    }

    /** The lowest free cluster, searched sector by sector; none if every entry from 2 on is in use. */
    method FindFree() returns (found: Option<nat>)
      requires Valid()
      ensures found.Some? ==> IsCluster(layout.table, found.value) && layout.table[found.value] == FREE
      ensures found.Some? ==> forall c :: 2 <= c < found.value ==> layout.table[c] != FREE
      ensures found.None? ==> forall c :: 2 <= c < |layout.table| ==> layout.table[c] != FREE
    {
      var sector := 0;
      while sector < sectorsPerFat
        invariant 0 <= sector <= sectorsPerFat
        invariant forall c :: 2 <= c < sector * ENTRIES_PER_SECTOR ==> layout.table[c] != FREE
      {
        var idx := 0;
        while idx < ENTRIES_PER_SECTOR
          invariant 0 <= idx <= ENTRIES_PER_SECTOR
          invariant forall c :: 2 <= c < sector * ENTRIES_PER_SECTOR + idx ==> layout.table[c] != FREE
        {
          var cluster := sector * ENTRIES_PER_SECTOR + idx;
          if 2 <= cluster < |fats[0]| {
            if fats[0][cluster] % ENTRY_BASE == FREE { return Some(cluster); }
          }
          idx := idx + 1;
        }
        sector := sector + 1;
      }
      return None;
    }

    /** Takes the lowest free cluster, zeroed, as a chain of its own; fails exactly when none is free. */
    method AllocCluster() returns (r: Option<nat>)
      requires Valid()
      modifies this
      ensures Valid()
      ensures r.None? ==>
        FreeClusters(layout.table) == {} && fats == old(fats) && data == old(data) && layout == old(layout)
      ensures r.Some? ==> r.value in FreeClusters(old(layout).table) && fats == SetEntry(old(fats), r.value, EOC)
      ensures r.Some? ==> forall c :: c in FreeClusters(old(layout).table) ==> r.value <= c
      ensures r.Some? ==> data == old(data)[r.value := Repeat(0, spc * SECTOR)]
      ensures r.Some? ==>
        layout == Layout(old(layout).table[r.value := EOC], old(layout).chains + {[r.value]}, old(layout).spare)
    {
      r := FindFree();
      if r.None? { return; }
      AddSingle(layout.table, layout.chains, layout.spare, r.value);
      WriteEntry(r.value, EOC);
      data := data[r.value := Repeat(0, spc * SECTOR)];
      layout := Layout(layout.table[r.value := EOC], layout.chains + {[r.value]}, layout.spare);
    }

    /** As many free clusters as asked for, if there are that many; otherwise all of them. */
    method AllocSingles(count: nat) returns (list: seq<nat>)
      requires Valid()
      modifies this
      ensures Valid() && |list| == Min(count, |FreeClusters(old(layout).table)|)
      ensures Marked(old(fats), fats, list, EOC)
      ensures forall i :: 0 <= i < |list| ==> list[i] in FreeClusters(old(layout).table)
      ensures forall i, j :: 0 <= i < j < |list| ==> list[i] != list[j]
      ensures |data| == |old(data)| && forall c :: 0 <= c < |data| && c !in list ==> data[c] == old(data)[c]
    {
      list := [];
      while |list| < count
        invariant Valid() && |list| <= count && Marked(old(fats), fats, list, EOC)
        invariant |FreeClusters(layout.table)| + |list| == |FreeClusters(old(layout).table)|
        invariant forall i :: 0 <= i < |list| ==> list[i] in FreeClusters(old(layout).table)
        invariant forall i, j :: 0 <= i < j < |list| ==> list[i] != list[j]
        invariant |data| == |old(data)| && forall c :: 0 <= c < |data| && c !in list ==> data[c] == old(data)[c]
      {
        ghost var t, before := layout.table, fats;
        MarkedTable(old(fats), fats, list, EOC);
        var c := AllocCluster();
        if c.None? { return; }
        FewerFree(t, c.value, EOC);
        MarkMore(old(fats), before, list, EOC, c.value);
        list := list + [c.value];
      }
    }

    method FreeList(list: seq<nat>)
      requires Shaped() && forall i :: 0 <= i < |list| ==> list[i] < |fats[0]|
      modifies this`fats
      ensures Shaped() && Marked(old(fats), fats, list, FREE)
    {
      var i := 0;
      while i < |list|
        invariant 0 <= i <= |list| && Shaped() && |fats[0]| == |old(fats)[0]| &&
          Marked(old(fats), fats, list[..i], FREE)
      {
        MarkMore(old(fats), fats, list[..i], FREE, list[i]);
        assert list[..i + 1] == list[..i] + [list[i]];
        WriteEntry(list[i], FREE);
        i := i + 1;
      }
      assert list[..i] == list;
    }

    /** Links each cluster of the list to the next. */
    method LinkList(list: seq<nat>)
      requires Shaped() && list != [] && forall i :: 0 <= i < |list| ==> list[i] < |fats[0]| < EOC_MIN
      requires forall i, j :: 0 <= i < j < |list| ==> list[i] != list[j]
      modifies this`fats
      ensures Shaped() && |fats[0]| == |old(fats)[0]|
      ensures var t, t' := TableOf(old(fats)[0]), TableOf(fats[0]);
        (forall i :: 0 <= i < |list| - 1 ==> t'[list[i]] == list[i + 1]) &&
        (forall c :: 0 <= c < |t| && c !in list[..|list| - 1] ==> t'[c] == t[c])
    {
      var i := 0;
      while i + 1 < |list|
        invariant 0 <= i < |list| && Shaped() && |fats[0]| == |old(fats)[0]|
        invariant forall j :: 0 <= j < i ==> TableOf(fats[0])[list[j]] == list[j + 1]
        invariant forall c :: 0 <= c < |fats[0]| && c !in list[..i] ==> TableOf(fats[0])[c] == TableOf(old(fats)[0])[c]
      {
        WriteEntry(list[i], list[i + 1]);
        i := i + 1;
      }
    }

    /** A new chain of free clusters; fails exactly when too few are free, and then every table word is as before. */
    method AllocChain(count: nat) returns (r: Option<seq<nat>>)
      requires Valid() && count > 0
      modifies this
      ensures Valid()
      ensures layout.spare == old(layout).spare
      ensures r.Some? <==> count <= |FreeClusters(old(layout).table)|
      ensures r.None? ==> fats == old(fats) && layout == old(layout)
      ensures r.Some? ==> |r.value| == count && layout.chains == old(layout).chains + {r.value}
      ensures r.Some? ==> forall c :: c in r.value ==> c in FreeClusters(old(layout).table)
      ensures var list := if r.Some? then r.value else [];
        |data| == |old(data)| && forall c ::
          0 <= c < |data| && c !in list && old(layout).table[c] != FREE ==> data[c] == old(data)[c]
    {
      var list := AllocSingles(count);
      ghost var singles := fats;
      MarkedTable(old(fats), fats, list, EOC);
      if |list| < count {
        FreeList(list);
        MarkedBack(old(fats), singles, fats, list);
        layout := old(layout);
        return None;
      }
      LinkList(list);
      NewChain(old(layout), TableOf(fats[0]), list);
      layout := Layout(TableOf(fats[0]), old(layout).chains + {list}, old(layout).spare);
      return Some(list);
    }

    /** The clusters from `start` on, as far as the links lead: `ch` if that chain starts there, none below 2. */
    method ChainClusters(start: nat, ghost ch: Chain) returns (list: seq<nat>)
      requires Valid() && (if start < 2 then ch == [] else ch in layout.chains && ch[0] == start)
      ensures list == ch
    {
      list := [];
      if start < 2 || start >= EOC_MIN { return; }
      ghost var t := layout.table;
      assert IsChain(t, ch);
      var cluster := start;
      var going := true;
      while going
        invariant |list| <= |ch| && list == ch[..|list|]
        invariant if going then |list| < |ch| && cluster == ch[|list|] else list == ch
        decreases |ch| - |list|, going
      {
        NextOf(t, ch, |list|);
        list := list + [cluster];
        var next := fats[0][cluster] % ENTRY_BASE;
        if next >= EOC_MIN || next < 2 {
          going := false;
        } else {
          cluster := next;
        }
      }
    }

    /** Frees every cluster from `start` on. */
    method FreeChain(start: nat, ghost ch: Chain)
      requires Valid() && (if start < 2 then ch == [] else ch in layout.chains && ch[0] == start)
      modifies this`fats, this`layout
      ensures Valid() && layout.chains == old(layout).chains - {ch} && layout.spare == old(layout).spare
      ensures |layout.table| == |old(layout).table|
      ensures forall c :: 0 <= c < |layout.table| ==> layout.table[c] == if c in ch then FREE else old(layout).table[c]
    {
      var list := ChainClusters(start, ch);
      InTable(layout, ch);
      FreeList(list);
      MarkedTable(old(fats), fats, ch, FREE);
      ChainFreed(layout, TableOf(fats[0]), ch);
      layout := Layout(TableOf(fats[0]), layout.chains - {ch}, layout.spare);
    }

    /** One more zeroed cluster at the end of a directory; fails exactly when none is free. */
    method ExtendDir(start: nat, ghost ch: Chain) returns (grown: Option<nat>)
      requires Valid() && ch in layout.chains && ch[0] == start
      modifies this
      ensures Valid() && layout.spare == old(layout).spare
      ensures grown.None? <==> FreeClusters(old(layout).table) == {}
      ensures grown.None? ==> fats == old(fats) && layout == old(layout) && data == old(data)
      ensures grown.Some? ==> grown.value in FreeClusters(old(layout).table)
      ensures grown.Some? ==> layout.chains == old(layout).chains - {ch} + {ch + [grown.value]}
      ensures grown.Some? ==> data == old(data)[grown.value := Repeat(0, spc * SECTOR)]
    {
      InTable(layout, ch);
      assert IsChain(layout.table, ch);
      var list := ChainClusters(start, ch);
      var last := list[|list| - 1];
      grown := AllocCluster();
      if grown.None? { return; }
      var c := grown.value;
      assert c in FreeClusters(old(layout).table);
      NewIsOther(old(layout), ch, c);
      Link(layout.table, layout.chains, layout.spare, ch, [c]);
      WriteEntry(last, c);
      ghost var joined := layout.chains - {ch, [c]} + {ch + [c]};
      assert joined == old(layout).chains - {ch} + {ch + [c]};
      layout := Layout(layout.table[last := c], joined, layout.spare);
    }

    /** The bytes, cluster by cluster, the last one filled up with zeros. */
    method WriteData(chain: seq<nat>, bytes: seq<u8>)
      requires Shaped() && (forall i :: 0 <= i < |chain| ==> chain[i] < |data|)
      requires forall i, j :: 0 <= i < j < |chain| ==> chain[i] != chain[j]
      modifies this`data
      ensures Shaped() && Content(data, chain) == Padded(bytes, spc * SECTOR, |chain|)
      ensures forall c :: 0 <= c < |data| && c !in chain ==> data[c] == old(data)[c]
    {
      var rest := bytes;
      var i := 0;
      assert chain[..0] == [];
      while i < |chain|
        invariant 0 <= i <= |chain| && Shaped() && |data| == |old(data)|
        invariant Content(data, chain[..i]) + Padded(rest, spc * SECTOR, |chain| - i) ==
          Padded(bytes, spc * SECTOR, |chain|)
        invariant forall c :: 0 <= c < |data| && c !in chain[..i] ==> data[c] == old(data)[c]
      {
        var take := Min(spc * SECTOR, |rest|);
        var cluster := rest[..take] + Repeat(0, spc * SECTOR - take);
        ghost var before := data;
        data := data[chain[i] := cluster];
        ContentSame(before, data, chain[..i]);
        ContentSnoc(data, chain[..i], chain[i]);
        assert chain[..i + 1] == chain[..i] + [chain[i]];
        Assoc(Content(data, chain[..i]), cluster, Padded(rest[take..], spc * SECTOR, |chain| - i - 1));
        rest := rest[take..];
        i := i + 1;
      }
      assert chain[..i] == chain;
    }

    /** The first `size` bytes of the chain from `start` on. */
    method ReadClusters(start: nat, size: nat, ghost ch: Chain) returns (bytes: seq<u8>)
      requires Valid() && (if start < 2 then ch == [] else ch in layout.chains && ch[0] == start)
      ensures forall i :: 0 <= i < |ch| ==> ch[i] < |data|
      ensures bytes == Content(data, ch)[..Min(size, |Content(data, ch)|)]
    {
      InTable(layout, ch);
      var list := ChainClusters(start, ch);
      bytes := [];
      var i := 0;
      assert list[..0] == [];
      while i < |list|
        invariant 0 <= i <= |list| && bytes == Content(data, list[..i])
      {
        ContentSnoc(data, list[..i], list[i]);
        assert list[..i + 1] == list[..i] + [list[i]];
        bytes := bytes + data[list[i]];
        i := i + 1;
      }
      assert list[..i] == list;
      bytes := bytes[..Min(size, |bytes|)];
    }

    /** Replaces a file's chain `ch`, which starts at `first` (no chain if `first` is below 2), by one that holds the
        bytes; the result is the new first cluster and size for the directory entry.  Fails exactly when too few
        clusters are free while the old ones are still held, and then the table and every file stay as they were. */
    method WriteFile(first: nat, bytes: seq<u8>, ghost ch: Chain) returns (r: Option<(nat, nat)>, ghost now: Chain)
      requires Valid() && (if first < 2 then ch == [] else ch in layout.chains && ch[0] == first)
      modifies this
      ensures Valid() && layout.spare == old(layout).spare
      ensures r.None? <==> ClustersNeeded(|bytes|, spc) > |FreeClusters(old(layout).table)|
      ensures r.None? ==> fats == old(fats) && layout == old(layout)
      ensures r.Some? ==> layout.chains == With(old(layout).chains - {ch}, now)
      ensures r.Some? ==> if bytes == []
        then r.value == (0, 0) && now == [] else now in layout.chains && r.value == (now[0], |bytes| % 0x1_0000_0000)
      ensures r.Some? ==>
        InData(data, now) && Content(data, now) == Padded(bytes, spc * SECTOR, ClustersNeeded(|bytes|, spc))
      ensures forall a :: a in old(layout).chains && (r.None? || a != ch) ==> SameContent(old(data), data, a)
    {
      NeededFits(|bytes|, spc);
      now := [];
      var start := 0;
      if bytes != [] {
        var chain := AllocChain(ClustersNeeded(|bytes|, spc));
        if chain.None? {
          OthersKept(old(layout), old(data), data, []);
          return None, [];
        }
        now := chain.value;
        InTable(layout, now);
        WriteData(chain.value, bytes);
        start := chain.value[0];
      } else {
        ZeroNeeded(spc);
      }
      OthersKept(old(layout), old(data), data, now);
      StillThere(old(layout), layout, ch, now);
      FreeChain(first, ch);
      WithoutOld(old(layout), ch, now);
      r := Some((start, |bytes| % 0x1_0000_0000));
    }

    /** A chain that holds the bytes, padded, reads as the bytes. */
    method ReadBack(start: nat, size: nat, ghost bytes: seq<u8>, ghost ch: Chain) returns (out: seq<u8>)
      requires Valid() && (if start < 2 then ch == [] else ch in layout.chains && ch[0] == start)
      requires size == |bytes| && InData(data, ch)
      requires Content(data, ch) == Padded(bytes, spc * SECTOR, ClustersNeeded(|bytes|, spc))
      ensures out == bytes
    {
      NeededFits(|bytes|, spc);
      out := ReadClusters(start, size, ch);
      PaddedRead(bytes, spc * SECTOR, ClustersNeeded(|bytes|, spc), Content(data, ch));
    }

    /** A written file reads back byte for byte. */
    method WriteThenRead(first: nat, bytes: seq<u8>, ghost ch: Chain) returns (r: Option<seq<u8>>)
      requires Valid() && (if first < 2 then ch == [] else ch in layout.chains && ch[0] == first)
      requires |bytes| < 0x1_0000_0000
      modifies this
      ensures r.Some? ==> r.value == bytes
      ensures r.None? <==> ClustersNeeded(|bytes|, spc) > |FreeClusters(old(layout).table)|
    {
      var entry;
      ghost var now;
      entry, now := WriteFile(first, bytes, ch);
      if entry.None? { return None; }
      assert entry.value.1 == |bytes|;
      assert now != [] ==> now[0] >= 2 by { if now != [] { assert IsChain(layout.table, now); } }
      var out := ReadBack(entry.value.0, entry.value.1, bytes, now);
      return Some(out);
    }
  }

  ghost predicate InData(data: seq<seq<u8>>, ch: Chain) { forall i :: 0 <= i < |ch| ==> ch[i] < |data| }

  ghost predicate SameContent(before: seq<seq<u8>>, after: seq<seq<u8>>, ch: Chain) {
    InData(before, ch) && InData(after, ch) && Content(after, ch) == Content(before, ch)
  }

  // ---- Lemmas about content -----------------------------------------------------------------

  lemma {:induction false} ContentSame(data: seq<seq<u8>>, data': seq<seq<u8>>, ch: Chain)
    requires forall i :: 0 <= i < |ch| ==> ch[i] < |data| && ch[i] < |data'| && data'[ch[i]] == data[ch[i]]
    ensures Content(data', ch) == Content(data, ch)
  {
    if ch != [] { ContentSame(data, data', ch[1..]); }
  }

  lemma {:induction false} ContentSnoc(data: seq<seq<u8>>, ch: Chain, c: nat)
    requires c < |data| && forall i :: 0 <= i < |ch| ==> ch[i] < |data|
    ensures Content(data, ch + [c]) == Content(data, ch) + data[c]
  {
    if ch == [] {
      assert ch + [c] == [c] && [c][1..] == [];
    } else {
      ContentSnoc(data, ch[1..], c);
      assert (ch + [c])[1..] == ch[1..] + [c];
    }
  }

  lemma NewChain(l: Sound, t': Table, list: Chain)
    requires list != [] && |t'| == |l.table|
    requires forall i :: 0 <= i < |list| ==> list[i] < |t'| && list[i] in FreeClusters(l.table)
    requires forall i, j :: 0 <= i < j < |list| ==> list[i] != list[j]
    requires forall i :: 0 <= i < |list| - 1 ==> t'[list[i]] == list[i + 1]
    requires t'[list[|list| - 1]] == EOC && forall c :: 0 <= c < |t'| && c !in list ==> t'[c] == l.table[c]
    ensures Chained(t', l.chains + {list}, l.spare)
  {
    assert IsChain(t', list);
    forall c: nat ensures !Held({}, c) {}
    assert Replaces(l.table, t', l.chains, {}, list);
    Rechain(l.table, t', l.chains, l.spare, {}, list);
    assert l.chains - {} + {list} == l.chains + {list};
  }

  lemma InTable(l: Sound, ch: Chain)
    requires ch == [] || ch in l.chains
    ensures forall i :: 0 <= i < |ch| ==> ch[i] < |l.table|
    ensures forall i, j :: 0 <= i < j < |ch| ==> ch[i] != ch[j]
  {
    if ch != [] { assert IsChain(l.table, ch); }
  }

  lemma ChainFreed(l: Sound, t': Table, ch: Chain)
    requires (ch == [] || ch in l.chains) && |t'| == |l.table|
    requires forall c :: 0 <= c < |t'| ==> t'[c] == if c in ch then FREE else l.table[c]
    ensures Chained(t', l.chains - {ch}, l.spare)
  {
    if ch == [] {
      assert t' == l.table;
      assert forall a :: a in l.chains ==> IsChain(l.table, a);
      assert l.chains - {ch} == l.chains;
    } else {
      forall c: nat ensures Held({ch}, c) <==> c in ch { HeldOne(ch, c); }
      assert Replaces(l.table, t', l.chains, {ch}, []);
      Rechain(l.table, t', l.chains, l.spare, {ch}, []);
    }
  }

  lemma NewIsOther(l: Sound, ch: Chain, c: nat)
    requires ch in l.chains && c in FreeClusters(l.table)
    ensures [c] !in l.chains && c !in ch && ch + [c] !in l.chains
  {
    forall a | a in l.chains ensures c !in a {
      if c in a { NotFree(l.table, a, c); }
    }
    assert c in [c] && c in ch + [c];
  }

  /** Only free clusters and those of the new chain were written, so every chain keeps its bytes. */
  lemma OthersKept(l: Sound, before: seq<seq<u8>>, after: seq<seq<u8>>, list: Chain)
    requires |before| == |after| == |l.table|
    requires forall c :: c in list ==> c in FreeClusters(l.table)
    requires forall c :: 0 <= c < |after| && c !in list && l.table[c] != FREE ==> after[c] == before[c]
    ensures forall a :: a in l.chains ==> SameContent(before, after, a)
  {
    forall a | a in l.chains ensures SameContent(before, after, a) {
      InTable(l, a);
      forall i | 0 <= i < |a| ensures after[a[i]] == before[a[i]] {
        assert IsChain(l.table, a) && a[i] in a;
        NotFree(l.table, a, a[i]);
      }
      ContentSame(before, after, a);
    }
  }

  lemma StillThere(l: Sound, l': Sound, ch: Chain, list: Chain)
    requires (ch == [] || ch in l.chains) && l'.chains == With(l.chains, list)
    ensures ch == [] || ch in l'.chains
  {
  }

  lemma WithoutOld(l: Sound, ch: Chain, list: Chain)
    requires (ch == [] || ch in l.chains) && forall c :: c in list ==> c in FreeClusters(l.table)
    ensures With(l.chains, list) - {ch} == With(l.chains - {ch}, list)
  {
    if ch != [] && list != [] {
      assert IsChain(l.table, ch);
      NotFree(l.table, ch, ch[0]);
      assert list[0] in list;
    }
  }

  lemma ZeroNeeded(spc: nat)
    requires spc > 0
    ensures ClustersNeeded(0, spc) == 0
  {
    assert (0 + SECTOR - 1) / SECTOR == 0;
    SmallDiv(spc - 1, spc);
  }

  lemma SmallDiv(x: nat, d: nat)
    requires x < d
    ensures x / d == 0
  {
  }

  lemma NextOf(t: Table, ch: Chain, i: nat)
    requires IsChain(t, ch) && |t| < EOC_MIN && i < |ch|
    ensures ch[i] < |t| && if i + 1 < |ch| then 2 <= t[ch[i]] == ch[i + 1] < EOC_MIN else t[ch[i]] >= EOC_MIN
  {
  }
}
