/** The invariant of every reachable CoolFS state, and its preservation by each operation. */
module CoolTreeInv {
  import opened CoolGeometry
  import opened CoolTree

  ghost predicate EntryValid(fs: Fs, e: Entry) {
    ValidName(e.name) && 1 <= e.inode < |fs.nodes| && !fs.nodes[e.inode].Free?
  }

  ghost predicate UniqueNames(entries: seq<Entry>) {
    forall i, j :: 0 <= i < j < |entries| ==> !NamesEqual(entries[i].name, entries[j].name)
  }

  ghost predicate Links(fs: Fs, d: nat, e: Entry) { e in Entries(fs, d) }

  ghost predicate Linked(fs: Fs, i: nat) {
    exists d: nat, e: Entry :: Links(fs, d, e) && e.inode == i
  }

  /** Every directory record names a live inode, and every live inode but the root has exactly one record. */
  ghost predicate TreeOk(fs: Fs) {
    |fs.nodes| == INODE_COUNT && fs.nodes[ROOT_INODE].Dir? &&
    (forall d: nat, e: Entry :: Links(fs, d, e) ==> EntryValid(fs, e)) &&
    (forall d: nat :: UniqueNames(Entries(fs, d))) &&
    (forall d: nat, e: Entry, d': nat, e': Entry ::
      Links(fs, d, e) && Links(fs, d', e') && e.inode == e'.inode ==> d == d' && e == e') &&
    (forall i: nat :: 1 <= i < |fs.nodes| && !fs.nodes[i].Free? ==> Linked(fs, i))
  }

  /** Every block is either free or needed by exactly one node's content. */
  ghost predicate SpaceOk(fs: Fs) {
    fs.free + TotalNeed(fs.nodes) == DATA_BLOCKS &&
    forall i :: 0 <= i < |fs.nodes| ==> Size(fs.nodes[i]) <= MAX_FILE_BYTES
  }

  ghost predicate Reaches(fs: Fs, i: nat) { exists comps: seq<Name> :: Walk(fs, comps) == Ok(i) }

  /** Every live inode has a path from the root, so no directories hang together apart from it. */
  ghost predicate Rooted(fs: Fs) {
    forall i: nat {:trigger Reaches(fs, i)} :: i < |fs.nodes| && !fs.nodes[i].Free? ==> Reaches(fs, i)
  }

  ghost predicate TreeInv(fs: Fs) { TreeOk(fs) && SpaceOk(fs) && Rooted(fs) }

  lemma StoreSpace(fs: Fs, i: nat, node: Node)
    requires SpaceOk(fs) && i < |fs.nodes|
    ensures SpaceOk(Store(fs, i, node).fs)
  {
    TotalNeedUpdate(fs.nodes, i, node);
  }

  lemma ReleaseSpace(fs: Fs, i: nat)
    requires SpaceOk(fs) && i < |fs.nodes|
    ensures SpaceOk(Release(fs, i))
  {
    TotalNeedUpdate(fs.nodes, i, Free);
  }

  /** Changing nodes without touching records or liveness. */
  lemma SameLinks(fs: Fs, fs': Fs)
    requires TreeOk(fs) && |fs'.nodes| == |fs.nodes|
    requires forall i :: 0 <= i < |fs.nodes| ==>
      fs'.nodes[i].Free? == fs.nodes[i].Free? && fs'.nodes[i].Dir? == fs.nodes[i].Dir?
    requires forall d: nat :: Entries(fs', d) == Entries(fs, d)
    ensures TreeOk(fs')
  {
    assert forall d: nat, e: Entry :: Links(fs', d, e) <==> Links(fs, d, e);
    forall i: nat | 1 <= i < |fs'.nodes| && !fs'.nodes[i].Free? ensures Linked(fs', i) {
      assert Linked(fs, i);
      var d: nat, e: Entry :| Links(fs, d, e) && e.inode == i;
      assert Links(fs', d, e);
    }
  }

  /** A record for a fresh inode is added to directory `d`. */
  ghost predicate Added(fs: Fs, fs': Fs, d: nat, e: Entry) {
    |fs'.nodes| == |fs.nodes| && d < |fs.nodes| && 1 <= e.inode < |fs.nodes| && fs.nodes[d].Dir? &&
      fs.nodes[e.inode].Free? &&
    fs'.nodes[d].Dir? && fs'.nodes[d].entries == fs.nodes[d].entries + [e] &&
    !fs'.nodes[e.inode].Free? && Entries(fs', e.inode) == [] &&
    forall i :: 0 <= i < |fs.nodes| && i != d && i != e.inode ==> fs'.nodes[i] == fs.nodes[i]
  }

  lemma AddedLinks(fs: Fs, fs': Fs, d: nat, e: Entry)
    requires Added(fs, fs', d, e)
    ensures forall x: nat, y: Entry :: Links(fs', x, y) <==> Links(fs, x, y) || (x == d && y == e)
  {
    assert Entries(fs, e.inode) == [];
  }

  lemma AddedOk(fs: Fs, fs': Fs, d: nat, e: Entry)
    requires TreeOk(fs) && Added(fs, fs', d, e) && ValidName(e.name)
    requires Find(fs.nodes[d].entries, e.name) == |fs.nodes[d].entries|
    ensures TreeOk(fs')
  {
    AddedLinks(fs, fs', d, e);
    forall x: nat ensures UniqueNames(Entries(fs', x)) { AddedUnique(fs, fs', d, e, x); }
    forall x: nat, y: Entry | Links(fs', x, y) ensures EntryValid(fs', y) && (y.inode == e.inode ==> x == d && y == e) {
      AddedValid(fs, fs', d, e, x, y);
    }
    forall i: nat | 1 <= i < |fs'.nodes| && !fs'.nodes[i].Free? ensures Linked(fs', i) {
      AddedLinked(fs, fs', d, e, i);
    }
  }

  lemma AddedUnique(fs: Fs, fs': Fs, d: nat, e: Entry, x: nat)
    requires TreeOk(fs) && Added(fs, fs', d, e) && Find(fs.nodes[d].entries, e.name) == |fs.nodes[d].entries|
    ensures UniqueNames(Entries(fs', x))
  {
    assert UniqueNames(Entries(fs, x));
  }

  lemma AddedValid(fs: Fs, fs': Fs, d: nat, e: Entry, x: nat, y: Entry)
    requires TreeOk(fs) && Added(fs, fs', d, e) && ValidName(e.name) && Links(fs', x, y)
    ensures EntryValid(fs', y) && (y.inode == e.inode ==> x == d && y == e)
  {
    AddedLinks(fs, fs', d, e);
    if Links(fs, x, y) { assert EntryValid(fs, y); }
  }

  lemma AddedLinked(fs: Fs, fs': Fs, d: nat, e: Entry, i: nat)
    requires TreeOk(fs) && Added(fs, fs', d, e) && 1 <= i < |fs'.nodes| && !fs'.nodes[i].Free?
    ensures Linked(fs', i)
  {
    AddedLinks(fs, fs', d, e);
    if i == e.inode {
      assert Links(fs', d, e);
    } else {
      assert Linked(fs, i);
      var x: nat, y: Entry :| Links(fs, x, y) && y.inode == i;
      assert Links(fs', x, y);
    }
  }

  /** The record `e` of directory `d` is removed together with its inode, which holds no records. */
  ghost predicate Removed(fs: Fs, fs': Fs, d: nat, e: Entry, pos: nat) {
    |fs'.nodes| == |fs.nodes| && d < |fs.nodes| && e.inode < |fs.nodes| && fs.nodes[d].Dir? &&
    pos < |fs.nodes[d].entries| && fs.nodes[d].entries[pos] == e && Entries(fs, e.inode) == [] &&
    fs'.nodes[d].Dir? && fs'.nodes[d].entries == RemoveAt(fs.nodes[d].entries, pos) &&
    fs'.nodes[e.inode] == Free &&
    forall i :: 0 <= i < |fs.nodes| && i != d && i != e.inode ==> fs'.nodes[i] == fs.nodes[i]
  }

  lemma InRemoveAt<T>(s: seq<T>, k: nat, x: T)
    requires k < |s|
    ensures x in RemoveAt(s, k) ==> x in s
    ensures x in s && x != s[k] ==> x in RemoveAt(s, k)
  {
    if x in s && x != s[k] {
      var j :| 0 <= j < |s| && s[j] == x;
      assert RemoveAt(s, k)[if j < k then j else j - 1] == x;
    }
  }

  lemma RemoveAtAt<T>(s: seq<T>, k: nat)
    requires k < |s|
    ensures |RemoveAt(s, k)| == |s| - 1
    ensures forall i :: 0 <= i < |s| - 1 ==> RemoveAt(s, k)[i] == s[if i < k then i else i + 1]
  {
  }

  lemma RemovedLinks(fs: Fs, fs': Fs, d: nat, e: Entry, pos: nat)
    requires Removed(fs, fs', d, e, pos) && UniqueNames(Entries(fs, d))
    ensures forall x: nat, y: Entry :: Links(fs', x, y) <==> Links(fs, x, y) && !(x == d && y == e)
  {
    var entries := fs.nodes[d].entries;
    RemoveAtAt(entries, pos);
    forall y: Entry ensures y in RemoveAt(entries, pos) <==> y in entries && y != e {
      InRemoveAt(entries, pos, y);
    }
  }

  lemma RemovedOk(fs: Fs, fs': Fs, d: nat, e: Entry, pos: nat)
    requires TreeOk(fs) && Removed(fs, fs', d, e, pos)
    ensures TreeOk(fs')
  {
    assert UniqueNames(Entries(fs, d));
    RemovedLinks(fs, fs', d, e, pos);
    assert Links(fs, d, e) && EntryValid(fs, e);
    RemoveAtAt(fs.nodes[d].entries, pos);
    forall x: nat ensures UniqueNames(Entries(fs', x)) {
      assert UniqueNames(Entries(fs, x));
    }
    forall x: nat, y: Entry | Links(fs', x, y) ensures EntryValid(fs', y) {
      assert EntryValid(fs, y);
    }
    forall i: nat | 1 <= i < |fs'.nodes| && !fs'.nodes[i].Free? ensures Linked(fs', i) {
      assert Linked(fs, i);
      var x: nat, y: Entry :| Links(fs, x, y) && y.inode == i;
      assert Links(fs', x, y);
    }
  }

  /** The record at `pos` of directory `d` takes a new name. */
  ghost predicate Renamed(fs: Fs, fs': Fs, d: nat, pos: nat, name: Name) {
    |fs'.nodes| == |fs.nodes| && d < |fs.nodes| && fs.nodes[d].Dir? && pos < |fs.nodes[d].entries| &&
    fs'.nodes[d].Dir? && fs'.nodes[d].entries == fs.nodes[d].entries[pos := fs.nodes[d].entries[pos].(name := name)] &&
    forall i :: 0 <= i < |fs.nodes| && i != d ==> fs'.nodes[i] == fs.nodes[i]
  }

  lemma RenamedLinks(fs: Fs, fs': Fs, d: nat, pos: nat, name: Name)
    requires Renamed(fs, fs', d, pos, name) && UniqueNames(Entries(fs, d))
    ensures var e := fs.nodes[d].entries[pos];
      forall x: nat, y: Entry :: Links(fs', x, y) <==>
        (Links(fs, x, y) && !(x == d && y == e)) || (x == d && y == e.(name := name))
  {
    var entries := fs.nodes[d].entries;
    var after := fs'.nodes[d].entries;
    var e := entries[pos];
    forall y: Entry ensures y in after <==> (y in entries && y != e) || y == e.(name := name) {
      if y in entries && y != e {
        var j :| 0 <= j < |entries| && entries[j] == y;
        assert after[j] == y;
      }
      assert after[pos] == e.(name := name);
    }
  }

  lemma RenamedOk(fs: Fs, fs': Fs, d: nat, pos: nat, name: Name)
    requires TreeOk(fs) && Renamed(fs, fs', d, pos, name) && ValidName(name)
    requires Find(fs.nodes[d].entries, name) == |fs.nodes[d].entries|
    ensures TreeOk(fs')
  {
    assert UniqueNames(Entries(fs, d));
    RenamedLinks(fs, fs', d, pos, name);
    var e := fs.nodes[d].entries[pos];
    assert Links(fs, d, e) && EntryValid(fs, e);
    forall x: nat ensures UniqueNames(Entries(fs', x)) { RenamedUnique(fs, fs', d, pos, name, x); }
    forall x: nat, y: Entry | Links(fs', x, y)
      ensures EntryValid(fs', y) && (y.inode == e.inode ==> x == d && y == e.(name := name))
    {
      if Links(fs, x, y) { assert EntryValid(fs, y); }
    }
    forall i: nat | 1 <= i < |fs'.nodes| && !fs'.nodes[i].Free? ensures Linked(fs', i) {
      RenamedLinked(fs, fs', d, pos, name, i);
    }
  }

  lemma RenamedUnique(fs: Fs, fs': Fs, d: nat, pos: nat, name: Name, x: nat)
    requires TreeOk(fs) && Renamed(fs, fs', d, pos, name)
    requires Find(fs.nodes[d].entries, name) == |fs.nodes[d].entries|
    ensures UniqueNames(Entries(fs', x))
  {
    assert UniqueNames(Entries(fs, x));
  }

  lemma RenamedLinked(fs: Fs, fs': Fs, d: nat, pos: nat, name: Name, i: nat)
    requires TreeOk(fs) && Renamed(fs, fs', d, pos, name) && 1 <= i < |fs'.nodes| && !fs'.nodes[i].Free?
    ensures Linked(fs', i)
  {
    RenamedLinks(fs, fs', d, pos, name);
    var e := fs.nodes[d].entries[pos];
    assert Linked(fs, i);
    var x: nat, y: Entry :| Links(fs, x, y) && y.inode == i;
    if x == d && y == e { assert Links(fs', d, e.(name := name)); } else { assert Links(fs', x, y); }
  }

  // ---- Paths from the root -------------------------------------------------

  lemma FindIs(entries: seq<Entry>, n: Name, k: nat)
    requires UniqueNames(entries) && k < |entries| && NamesEqual(entries[k].name, n)
    ensures Find(entries, n) == k
  {
  }

  lemma StepLink(fs: Fs, d: nat, name: Name) returns (e: Entry)
    requires TreeOk(fs) && Step(fs, d, name).Ok?
    ensures Links(fs, d, e) && NamesEqual(e.name, name) && e.inode == Step(fs, d, name).value && EntryValid(fs, e)
  {
    e := fs.nodes[d].entries[Find(fs.nodes[d].entries, name)];
    assert Links(fs, d, e);
  }

  lemma WalkLast(fs: Fs, pc: seq<Name>, name: Name)
    ensures Walk(fs, pc + [name]) == if Walk(fs, pc).Err? then Walk(fs, pc) else Step(fs, Walk(fs, pc).value, name)
  {
    assert (pc + [name])[..|pc|] == pc;
  }

  lemma LinkReached(fs: Fs, d: nat, e: Entry)
    requires TreeOk(fs) && Reaches(fs, d) && Links(fs, d, e)
    ensures Reaches(fs, e.inode)
  {
    var comps :| Walk(fs, comps) == Ok(d);
    var k :| 0 <= k < |Entries(fs, d)| && Entries(fs, d)[k] == e;
    assert UniqueNames(Entries(fs, d));
    FindIs(Entries(fs, d), e.name, k);
    WalkLast(fs, comps, e.name);
    assert Walk(fs, comps + [e.name]) == Ok(e.inode);
  }

  /** Every record but that of `c`, which holds none itself, is still there, if under another name. */
  ghost predicate Carried(fs: Fs, fs': Fs, c: nat) {
    c != ROOT_INODE && Entries(fs, c) == [] &&
    forall x: nat, e: Entry {:trigger Links(fs, x, e)} ::
      Links(fs, x, e) && e.inode != c ==> StillLinked(fs', x, e.inode)
  }

  ghost predicate StillLinked(fs: Fs, x: nat, i: nat) { exists e: Entry :: Links(fs, x, e) && e.inode == i }

  lemma {:induction false} WalkCarried(fs: Fs, fs': Fs, c: nat, comps: seq<Name>, i: nat)
    requires TreeOk(fs) && TreeOk(fs') && Carried(fs, fs', c) && Walk(fs, comps) == Ok(i) && i != c
    ensures Reaches(fs', i)
    decreases |comps|
  {
    if comps == [] {
      assert Walk(fs', []) == Ok(i);
    } else {
      var n := |comps| - 1;
      var x := Walk(fs, comps[..n]).value;
      var e := StepLink(fs, x, comps[n]);
      WalkCarried(fs, fs', c, comps[..n], x);
      assert StillLinked(fs', x, i);
      var e': Entry :| Links(fs', x, e') && e'.inode == i;
      LinkReached(fs', x, e');
    }
  }

  lemma ReachCarried(fs: Fs, fs': Fs, c: nat, i: nat)
    requires TreeOk(fs) && TreeOk(fs') && Carried(fs, fs', c) && Reaches(fs, i) && i != c
    ensures Reaches(fs', i)
  {
    var comps :| Walk(fs, comps) == Ok(i);
    WalkCarried(fs, fs', c, comps, i);
  }

  lemma AddedRooted(fs: Fs, fs': Fs, d: nat, e: Entry)
    requires TreeOk(fs) && TreeOk(fs') && Rooted(fs) && Added(fs, fs', d, e)
    ensures Rooted(fs')
  {
    AddedLinks(fs, fs', d, e);
    assert Links(fs', d, e) && EntryValid(fs', e);
    forall x: nat, y: Entry | Links(fs, x, y) ensures StillLinked(fs', x, y.inode) { assert Links(fs', x, y); }
    forall i: nat | i < |fs'.nodes| && !fs'.nodes[i].Free? && i != e.inode ensures Reaches(fs', i) {
      assert Reaches(fs, i);
      ReachCarried(fs, fs', e.inode, i);
    }
    assert Reaches(fs', d);
    LinkReached(fs', d, e);
  }

  lemma RemovedRooted(fs: Fs, fs': Fs, d: nat, e: Entry, pos: nat)
    requires TreeOk(fs) && TreeOk(fs') && Rooted(fs) && Removed(fs, fs', d, e, pos)
    ensures Rooted(fs')
  {
    assert UniqueNames(Entries(fs, d));
    RemovedLinks(fs, fs', d, e, pos);
    assert Links(fs, d, e) && EntryValid(fs, e);
    forall x: nat, y: Entry | Links(fs, x, y) && y.inode != e.inode ensures StillLinked(fs', x, y.inode) {
      assert Links(fs', x, y);
    }
    forall i: nat | i < |fs'.nodes| && !fs'.nodes[i].Free? ensures Reaches(fs', i) {
      assert Reaches(fs, i);
      ReachCarried(fs, fs', e.inode, i);
    }
  }

  lemma RenamedRooted(fs: Fs, fs': Fs, d: nat, pos: nat, name: Name)
    requires TreeOk(fs) && TreeOk(fs') && Rooted(fs) && Renamed(fs, fs', d, pos, name)
    ensures Rooted(fs')
  {
    assert UniqueNames(Entries(fs, d));
    RenamedLinks(fs, fs', d, pos, name);
    var e := fs.nodes[d].entries[pos];
    forall x: nat, y: Entry | Links(fs, x, y) ensures StillLinked(fs', x, y.inode) {
      if x == d && y == e { assert Links(fs', d, e.(name := name)); } else { assert Links(fs', x, y); }
    }
    forall i: nat | i < |fs'.nodes| && !fs'.nodes[i].Free? ensures Reaches(fs', i) {
      assert Reaches(fs, i);
      ReachCarried(fs, fs', INODE_COUNT, i);
    }
  }

  lemma SameRooted(fs: Fs, fs': Fs)
    requires TreeOk(fs) && TreeOk(fs') && Rooted(fs)
    requires forall i :: 0 <= i < |fs.nodes| ==> fs'.nodes[i].Free? == fs.nodes[i].Free?
    requires forall d: nat :: Entries(fs', d) == Entries(fs, d)
    ensures Rooted(fs')
  {
    forall x: nat, y: Entry | Links(fs, x, y) ensures StillLinked(fs', x, y.inode) { assert Links(fs', x, y); }
    forall i: nat | i < |fs'.nodes| && !fs'.nodes[i].Free? ensures Reaches(fs', i) {
      assert Reaches(fs, i);
      ReachCarried(fs, fs', INODE_COUNT, i);
    }
  }
}
