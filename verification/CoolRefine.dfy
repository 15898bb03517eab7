/** How the volume-level steps of an operation act on the tree of a mounted image. */
module CoolRefine {
  import opened Bytes
  import opened CoolGeometry
  import opened CoolLayout
  import opened CoolVolume
  import opened CoolImage
  import Tree = CoolTree
  import Inv = CoolTreeInv
  import Ops = CoolTreeOps

  /** The tree of a volume that satisfies every invariant. */
  datatype Mount = Broken | Mount(fs: Tree.Fs)

  ghost function Mounted(v: Vol): Mount {
    if FsOk(v) then Mount(Abs(v)) else Broken
  }

  lemma MountedTree(v: Vol)
    requires Mounted(v).Mount?
    ensures VolInv(v) && DirsCanonical(v) && Abs(v) == Mounted(v).fs && Inv.TreeInv(Mounted(v).fs)
  {
  }

  /** Reading a directory sees the node's records. */
  lemma DirIs(v: Vol, d: nat)
    requires VolInv(v)
    ensures d < INODE_COUNT ==> Shaped(v.inodes[d]) && ListOk(BlockList(v.data, v.inodes[d]))
    ensures |Abs(v).nodes| == INODE_COUNT
    ensures DirOf(v, d) ==
      if d >= INODE_COUNT then Tree.Err(Tree.NotFound)
      else if Abs(v).nodes[d].Dir? then Tree.Ok(Abs(v).nodes[d].entries)
      else Tree.Err(Tree.NotDirectory)
    ensures d < INODE_COUNT ==>
      (Abs(v).nodes[d].Dir? <==> v.inodes[d].kind == KIND_DIR) &&
        (Abs(v).nodes[d].File? <==> v.inodes[d].kind == KIND_FILE)
  {
    if d < INODE_COUNT {
      ListsOk(v, d);
      assert OwnsWell(v, d);
    }
  }

  /** Rewriting a directory's records is the tree's `Store`. */
  lemma StoreDir(v: Vol, v': Vol, d: nat, es: seq<Tree.Entry>, r: Tree.Result<()>)
    requires DirsCanonical(v) && d < INODE_COUNT && v.inodes[d].kind == KIND_DIR && forall e :: e in es ==> Encodable(e)
    requires Written(v, v', d, EncodeDir(es), r)
    ensures DirsCanonical(v')
    ensures |Abs(v).nodes| == INODE_COUNT && Abs(v).nodes[d].Dir?
    ensures Tree.Outcome(r, Abs(v')) == Tree.Store(Abs(v), d, Tree.Dir(es, Abs(v).nodes[d].meta))
  {
    DirRoundTrip(es);
    SizeIs(v, d);
    DirIs(v, d);
    if r.Err? { UndoneInv(v, v'); } else { assert r.value == (); }
  }

  /** Rewriting a file's bytes is the tree's `Store`. */
  lemma StoreFile(v: Vol, v': Vol, i: nat, bytes: seq<u8>, r: Tree.Result<()>)
    requires DirsCanonical(v) && i < INODE_COUNT && v.inodes[i].kind == KIND_FILE && Written(v, v', i, bytes, r)
    ensures DirsCanonical(v')
    ensures |Abs(v).nodes| == INODE_COUNT && Abs(v).nodes[i].File?
    ensures Tree.Outcome(r, Abs(v')) == Tree.Store(Abs(v), i, Tree.File(bytes, Abs(v).nodes[i].meta))
  {
    SizeIs(v, i);
    DirIs(v, i);
    if r.Err? { UndoneInv(v, v'); } else { assert r.value == (); }
  }

  /** Records of a sound tree, and a new one for a valid name, can be written. */
  lemma EntriesEncodable(fs: Tree.Fs, d: nat)
    requires Inv.TreeInv(fs)
    ensures forall e :: e in Tree.Entries(fs, d) ==> Encodable(e)
  {
    forall e | e in Tree.Entries(fs, d) ensures Encodable(e) {
      assert Inv.Links(fs, d, e) && Inv.EntryValid(fs, e);
    }
  }

  lemma RemovedEncodable(es: seq<Tree.Entry>, pos: nat)
    requires pos < |es| && forall e :: e in es ==> Encodable(e)
    ensures forall e :: e in Tree.RemoveAt(es, pos) ==> Encodable(e)
  {
  }

  lemma RenamedEncodable(es: seq<Tree.Entry>, pos: nat, name: Tree.Name)
    requires pos < |es| && Tree.ValidName(name) && forall e :: e in es ==> Encodable(e)
    ensures forall e :: e in es[pos := es[pos].(name := name)] ==> Encodable(e)
  {
    assert es[pos] in es;
  }

  lemma DeleteTree(fs: Tree.Fs, d: nat, name: Tree.Name)
    requires Inv.TreeInv(fs)
    ensures Inv.TreeInv(Tree.DeleteIn(fs, d, name).fs)
  {
    Ops.DeleteInEffect(fs, d, name);
  }

  lemma RenameTree(fs: Tree.Fs, d: nat, oldName: Tree.Name, newName: Tree.Name)
    requires Inv.TreeInv(fs) && Tree.ValidName(newName)
    ensures Inv.TreeInv(Tree.RenameIn(fs, d, oldName, newName).fs)
  {
    Ops.RenameInEffect(fs, d, oldName, newName);
  }

  lemma CreateTree(fs: Tree.Fs, d: nat, name: Tree.Name, kind: Tree.Kind, meta: Tree.Meta)
    requires Inv.TreeInv(fs) && Tree.ValidName(name)
    ensures Inv.TreeInv(Tree.CreateIn(fs, d, name, kind, meta).fs)
  {
    Ops.CreateInEffect(fs, d, name, kind, meta);
  }

  /** Allocation, then the directory write, then on failure the release, make `CreateIn`. */
  lemma CreateSteps(v: Vol, made: Vol, v': Vol, d: nat, i: nat, name: Tree.Name, kind: Tree.Kind, meta: Tree.Meta,
      r: Tree.Result<()>)
    requires Mounted(v).Mount? && d < INODE_COUNT && v.inodes[d].kind == KIND_DIR && Tree.ValidName(name)
    requires FirstFree(v.inodes, i) && i < INODE_COUNT
    requires made == v.(inodes := v.inodes[i := Seen(NewInode(KindByte(kind), meta.uid, meta.gid, meta.mode))])
    requires Tree.Find(Tree.Entries(Abs(v), d), name) == |Tree.Entries(Abs(v), d)|
    requires forall e :: e in Tree.Entries(Abs(v), d) + [Tree.Entry(i, name)] ==> Encodable(e)
    requires Written(made, v', d, EncodeDir(Tree.Entries(Abs(v), d) + [Tree.Entry(i, name)]), r)
    ensures DirsCanonical(made) && DirsCanonical(v')
    ensures r.Ok? ==> Tree.CreateIn(Abs(v), d, name, kind, meta) == Tree.Outcome(r, Abs(v'))
    ensures r.Err? ==> Tree.CreateIn(Abs(v), d, name, kind, meta) == Tree.Outcome(r, Tree.Release(Abs(v'), i))
  {
    MountedTree(v);
    FirstFreeIs(v, i);
    NewInodeAbs(v, made, i, kind, meta);
    DirIs(v, d);
    StoreDir(made, v', d, Tree.Entries(Abs(v), d) + [Tree.Entry(i, name)], r);
  }

  lemma CreateFull(v: Vol, d: nat, name: Tree.Name, kind: Tree.Kind, meta: Tree.Meta)
    requires Mounted(v).Mount? && d < INODE_COUNT && v.inodes[d].kind == KIND_DIR && FirstFree(v.inodes, INODE_COUNT)
    requires Tree.Find(Tree.Entries(Abs(v), d), name) == |Tree.Entries(Abs(v), d)|
    ensures Tree.CreateIn(Abs(v), d, name, kind, meta) == Tree.Outcome(Tree.Err(Tree.NoSpace), Abs(v))
  {
    MountedTree(v);
    FirstFreeIs(v, INODE_COUNT);
    DirIs(v, d);
  }

  lemma Remount(v: Vol, fs: Tree.Fs)
    requires DirsCanonical(v) && Abs(v) == fs && Inv.TreeInv(fs)
    ensures Mounted(v) == Mount(fs)
  {
  }

  lemma DeleteInIs(fs: Tree.Fs, d: nat, name: Tree.Name, es: seq<Tree.Entry>, pos: nat)
    requires d < |fs.nodes| && fs.nodes[d].Dir? && es == fs.nodes[d].entries && pos == Tree.Find(es, name) < |es|
    requires es[pos].inode < |fs.nodes| && Tree.Entries(fs, es[pos].inode) == []
    ensures var out := Tree.Store(fs, d, Tree.Dir(Tree.RemoveAt(es, pos), fs.nodes[d].meta));
      Tree.DeleteIn(fs, d, name) ==
      if out.status.Err? then out else Tree.Outcome(Tree.Ok(()), Tree.Release(out.fs, es[pos].inode))
  {
  }

  /** The directory write, then the release of the target, make `DeleteIn`. */
  lemma DeleteSteps(v: Vol, mid: Vol, d: nat, name: Tree.Name, es: seq<Tree.Entry>, pos: nat, r: Tree.Result<()>)
    requires Mounted(v).Mount? && d < INODE_COUNT && v.inodes[d].kind == KIND_DIR
    requires es == Tree.Entries(Abs(v), d) && pos == Tree.Find(es, name) < |es| && es[pos].inode < INODE_COUNT
    requires v.inodes[es[pos].inode].kind == KIND_DIR ==> Tree.Entries(Abs(v), es[pos].inode) == []
    requires forall e :: e in Tree.RemoveAt(es, pos) ==> Encodable(e)
    requires Written(v, mid, d, EncodeDir(Tree.RemoveAt(es, pos)), r)
    ensures DirsCanonical(mid)
    ensures r.Err? ==> Tree.DeleteIn(Abs(v), d, name) == Tree.Outcome(r, Abs(mid))
    ensures r.Ok? ==>
      Tree.DeleteIn(Abs(v), d, name) == Tree.Outcome(Tree.Ok(()), Tree.Release(Abs(mid), es[pos].inode))
  {
    MountedTree(v);
    DirIs(v, d);
    DirIs(v, es[pos].inode);
    DeleteInIs(Abs(v), d, name, es, pos);
    StoreDir(v, mid, d, Tree.RemoveAt(es, pos), r);
  }

  lemma RenameSteps(v: Vol, v': Vol, d: nat, oldName: Tree.Name, newName: Tree.Name, pos: nat, r: Tree.Result<()>)
    requires Mounted(v).Mount? && d < INODE_COUNT && v.inodes[d].kind == KIND_DIR
    requires var es := Tree.Entries(Abs(v), d);
      pos == Tree.Find(es, oldName) < |es| && Tree.Find(es, newName) == |es| &&
      (forall e :: e in es[pos := es[pos].(name := newName)] ==> Encodable(e)) &&
      Written(v, v', d, EncodeDir(es[pos := es[pos].(name := newName)]), r)
    ensures DirsCanonical(v')
    ensures Tree.RenameIn(Abs(v), d, oldName, newName) == Tree.Outcome(r, Abs(v'))
  {
    MountedTree(v);
    DirIs(v, d);
    var es := Tree.Entries(Abs(v), d);
    StoreDir(v, v', d, es[pos := es[pos].(name := newName)], r);
  }

  /** Changing owner or mode of a live inode changes only that node's metadata. */
  lemma MetaSteps(v: Vol, v': Vol, i: nat, n: Inode)
    requires DirsCanonical(v) && i < INODE_COUNT && v.inodes[i].kind != KIND_FREE
    requires n == v.inodes[i].(uid := n.uid, gid := n.gid, mode := n.mode)
    requires v' == v.(inodes := v.inodes[i := Seen(n)])
    ensures DirsCanonical(v') && |Abs(v).nodes| == INODE_COUNT && !Abs(v).nodes[i].Free?
    ensures Abs(v') == Abs(v).(nodes := Abs(v).nodes[i := Tree.WithMeta(Abs(v).nodes[i], MetaOf(n))])
  {
    forall j: nat | j < INODE_COUNT
      ensures Shaped(v.inodes[j]) && Shaped(v'.inodes[j]) &&
        Owned(v'.data, v'.inodes[j]) == Owned(v.data, v.inodes[j]) && OwnsWell(v', j)
    {
      assert OwnsWell(v, j);
    }
    forall j: nat, b: nat ensures Owns(v', j, b) <==> Owns(v, j, b) {}
    assert VolInv(v') by {
      forall b: nat | InRegion(b) && v'.used[b] ensures exists j: nat :: Owns(v', j, b) {
        var j: nat :| Owns(v, j, b);
        assert Owns(v', j, b);
      }
    }
    MetaNodes(v, v', i, n);
  }

  lemma MetaNodes(v: Vol, v': Vol, i: nat, n: Inode)
    requires DirsCanonical(v) && VolInv(v') && i < INODE_COUNT && v.inodes[i].kind != KIND_FREE
    requires n == v.inodes[i].(uid := n.uid, gid := n.gid, mode := n.mode)
    requires v' == v.(inodes := v.inodes[i := Seen(n)])
    ensures DirsCanonical(v') && |Abs(v).nodes| == INODE_COUNT && !Abs(v).nodes[i].Free?
    ensures Abs(v') == Abs(v).(nodes := Abs(v).nodes[i := Tree.WithMeta(Abs(v).nodes[i], MetaOf(n))])
  {
    forall j: nat | j < INODE_COUNT
      ensures Canonical(v', j) && NodeOf(v', j) == if j == i
        then Tree.WithMeta(NodeOf(v, j), MetaOf(n)) else NodeOf(v, j)
    {
      MetaNode(v, v', i, n, j);
    }
    assert Abs(v').nodes == Abs(v).nodes[i := Tree.WithMeta(NodeOf(v, i), MetaOf(n))];
  }

  lemma MetaNode(v: Vol, v': Vol, i: nat, n: Inode, j: nat)
    requires DirsCanonical(v) && Lengths(v') && i < INODE_COUNT && v.inodes[i].kind != KIND_FREE && j < INODE_COUNT
    requires n == v.inodes[i].(uid := n.uid, gid := n.gid, mode := n.mode)
    requires v' == v.(inodes := v.inodes[i := Seen(n)])
    ensures !NodeOf(v, i).Free?
    ensures Canonical(v', j) && NodeOf(v', j) == if j == i then Tree.WithMeta(NodeOf(v, j), MetaOf(n)) else NodeOf(v, j)
  {
    assert Canonical(v, j);
    assert OwnsWell(v, j) && OwnsWell(v, i);
    assert BytesOf(v', j) == BytesOf(v, j);
  }
}
