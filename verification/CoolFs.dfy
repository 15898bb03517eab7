/**
 The public CoolFS operations on an image.  Each is proved to return the status, and to leave the tree, that the
 function of the same name computes on the tree of nodes.
 */
module CoolFs {
  import opened Bytes
  import opened CoolGeometry
  import opened CoolLayout
  import opened CoolVolume
  import opened CoolImage
  import opened CoolRefine
  import Tree = CoolTree
  import Ops = CoolTreeOps

  /** A mounted image on a device that fails no request. */
  ghost predicate Live(image: Image)
    reads image, image.cache, image.cache.device
  {
    image.Ready() && Mounted(image.vol).Mount?
  }

  ghost function Fs(image: Image): Tree.Fs
    requires Live(image)
    reads image, image.cache, image.cache.device
  {
    Mounted(image.vol).fs
  }

  /** The position of the first record with this name, ignoring case; the length if there is none. */
  method FindEntry(entries: seq<Tree.Entry>, name: Tree.Name) returns (k: nat)
    ensures k == Tree.Find(entries, name)
  {
    k := 0;
    while k < |entries| && !Tree.NamesEqual(entries[k].name, name)
      invariant k <= |entries|
      invariant forall i :: 0 <= i < k ==> !Tree.NamesEqual(entries[i].name, name)
    {
      k := k + 1;
    }
  }

  method ReadDir(image: Image, d: nat) returns (r: Tree.Result<seq<Tree.Entry>>)
    requires Live(image)
    modifies image.cache, image.cache.device
    ensures Live(image)
    ensures |Fs(image).nodes| == INODE_COUNT
    ensures r == if d >= INODE_COUNT then Tree.Err(Tree.NotFound)
                 else if Fs(image).nodes[d].Dir? then Tree.Ok(Fs(image).nodes[d].entries)
                 else Tree.Err(Tree.NotDirectory)
  {
    MountedTree(image.vol);
    DirIs(image.vol, d);
    r := image.ReadDirEntries(d);
  }

  /** One component: the inode its record names. */
  method Lookup(image: Image, d: nat, name: Tree.Name) returns (r: Tree.Result<nat>)
    requires Live(image)
    modifies image.cache, image.cache.device
    ensures Live(image)
    ensures r == Tree.Step(Fs(image), d, name)
  {
    ghost var fs := Fs(image);
    var es := ReadDir(image, d);
    assert Fs(image) == fs && |fs.nodes| == INODE_COUNT;
    if es.Err? { return Tree.Err(es.error); }
    var pos := FindEntry(es.value, name);
    if pos == |es.value| { return Tree.Err(Tree.NotFound); }
    return Tree.Ok(es.value[pos].inode);
  }

  method WalkComponents(image: Image, comps: seq<Tree.Name>) returns (r: Tree.Result<nat>)
    requires Live(image)
    modifies image.cache, image.cache.device
    ensures Live(image)
    ensures r == Tree.Walk(Fs(image), comps)
  {
    ghost var fs := Fs(image);
    r := Tree.Ok(Tree.ROOT_INODE);
    for k := 0 to |comps|
      invariant Live(image)
      invariant r.Ok? && Tree.Walk(fs, comps[..k]) == r
    {
      WalkStep(fs, comps, k, r.value);
      r := Lookup(image, r.value, comps[k]);
      if r.Err? {
        WalkFails(fs, comps, k + 1);
        return;
      }
    }
    assert comps[..|comps|] == comps;
  }

  method ResolvePath(image: Image, p: Tree.Path) returns (r: Tree.Result<nat>)
    requires Live(image)
    modifies image.cache, image.cache.device
    ensures Live(image)
    ensures r == Tree.ResolvePath(Fs(image), p)
  {
    var t := Tree.TrimAbsPath(p);
    if t.Err? { return Tree.Err(t.error); }
    r := WalkComponents(image, Tree.Components(t.value));
  }

  lemma WalkStep(fs: Tree.Fs, comps: seq<Tree.Name>, k: nat, idx: nat)
    requires k < |comps| && Tree.Walk(fs, comps[..k]) == Tree.Ok(idx)
    ensures Tree.Walk(fs, comps[..k + 1]) == Tree.Step(fs, idx, comps[k])
  {
    assert comps[..k + 1][..k] == comps[..k];
  }

  lemma {:induction false} WalkFails(fs: Tree.Fs, comps: seq<Tree.Name>, k: nat)
    requires k <= |comps| && Tree.Walk(fs, comps[..k]).Err?
    ensures Tree.Walk(fs, comps) == Tree.Walk(fs, comps[..k])
    decreases |comps|
  {
    var n := |comps| - 1;
    if k == |comps| {
      assert comps[..k] == comps;
    } else {
      assert comps[..n][..k] == comps[..k];
      WalkFails(fs, comps[..n], k);
    }
  }

  method CreateIn(image: Image, d: nat, name: Tree.Name, kind: Tree.Kind, meta: Tree.Meta) returns (r: Tree.Result<()>)
    requires Live(image) && Tree.ValidName(name)
    modifies image, image.cache, image.cache.device
    ensures Live(image) && image.vol.head == old(image.vol.head)
    ensures Tree.Outcome(r, Fs(image)) == Tree.CreateIn(old(Fs(image)), d, name, kind, meta)
  {
    ghost var v := image.vol;
    MountedTree(v);
    DirIs(v, d);
    var es := ReadDir(image, d);
    if es.Err? { return Tree.Err(es.error); }
    var pos := FindEntry(es.value, name);
    if pos < |es.value| { return Tree.Err(Tree.AlreadyExists); }
    r := AllocAndAppend(image, d, es.value, name, kind, meta);
  }

  method AllocAndAppend(image: Image, d: nat, es: seq<Tree.Entry>, name: Tree.Name, kind: Tree.Kind, meta: Tree.Meta)
    returns (r: Tree.Result<()>)
    requires Live(image) && Tree.ValidName(name) && d < INODE_COUNT && image.vol.inodes[d].kind == KIND_DIR
    requires es == Tree.Entries(Fs(image), d) && Tree.Find(es, name) == |es|
    modifies image, image.cache, image.cache.device
    ensures Live(image) && image.vol.head == old(image.vol.head)
    ensures Tree.Outcome(r, Fs(image)) == Tree.CreateIn(old(Fs(image)), d, name, kind, meta)
  {
    ghost var v := image.vol;
    MountedTree(v);
    var got := image.AllocInode(kind, meta);
    if got.Err? {
      CreateFull(v, d, name, kind, meta);
      return Tree.Err(got.error);
    }
    EntriesEncodable(Abs(v), d);
    r := FinishCreate(image, v, d, es, got.value, name, kind, meta);
  }

  /** Append the record; if that fails, release the inode again. */
  method FinishCreate(image: Image, ghost v: Vol, d: nat, es: seq<Tree.Entry>, i: u32, name: Tree.Name, kind: Tree.Kind,
      meta: Tree.Meta)
    returns (r: Tree.Result<()>)
    requires image.Ready() && Mounted(v).Mount? && d < INODE_COUNT && v.inodes[d].kind == KIND_DIR &&
      Tree.ValidName(name)
    requires FirstFree(v.inodes, i) && i < INODE_COUNT
    requires image.vol == v.(inodes := v.inodes[i := Seen(NewInode(KindByte(kind), meta.uid, meta.gid, meta.mode))])
    requires es == Tree.Entries(Abs(v), d) && Tree.Find(es, name) == |es| && forall e :: e in es ==> Encodable(e)
    modifies image, image.cache, image.cache.device
    ensures Live(image) && image.vol.head == v.head
    ensures Tree.Outcome(r, Fs(image)) == Tree.CreateIn(Mounted(v).fs, d, name, kind, meta)
  {
    ghost var made := image.vol;
    MountedTree(v);
    FirstFreeIs(v, i);
    NewInodeAbs(v, made, i, kind, meta);
    r := image.WriteDirEntries(d, es + [Tree.Entry(i, name)]);
    ghost var mid := image.vol;
    CreateSteps(v, made, mid, d, i, name, kind, meta, r);
    if r.Err? {
      ListsOk(mid, i);
      image.ReleaseInode(i);
      FreedAbs(mid, image.vol, i);
    }
    CreateTree(Abs(v), d, name, kind, meta);
    Remount(image.vol, Tree.CreateIn(Abs(v), d, name, kind, meta).fs);
  }

  method CreateNode(image: Image, p: Tree.Path, kind: Tree.Kind, meta: Tree.Meta) returns (r: Tree.Result<()>)
    requires Live(image)
    modifies image, image.cache, image.cache.device
    ensures Live(image) && image.vol.head == old(image.vol.head)
    ensures Tree.Outcome(r, Fs(image)) == Tree.CreateNode(old(Fs(image)), p, kind, meta)
  {
    var s := Tree.SplitParentAndName(p);
    if s.Err? { return Tree.Err(s.error); }
    var d := ResolvePath(image, s.value.0);
    if d.Err? { return Tree.Err(d.error); }
    r := CreateIn(image, d.value, s.value.1, kind, meta);
  }

  method DeleteIn(image: Image, d: nat, name: Tree.Name) returns (r: Tree.Result<()>)
    requires Live(image)
    modifies image, image.cache, image.cache.device
    ensures Live(image) && image.vol.head == old(image.vol.head)
    ensures Tree.Outcome(r, Fs(image)) == Tree.DeleteIn(old(Fs(image)), d, name)
  {
    ghost var v := image.vol;
    ghost var fs := Fs(image);
    MountedTree(v);
    DirIs(v, d);
    var es := ReadDir(image, d);
    if es.Err? { return Tree.Err(es.error); }
    var pos := FindEntry(es.value, name);
    if pos == |es.value| { return Tree.Err(Tree.NotFound); }
    var t := es.value[pos].inode;
    var found, target := image.ReadInode(t);
    if !found { return Tree.Err(Tree.NotFound); }
    DirIs(v, t);
    if target.kind == KIND_DIR {
      var inside := ReadDir(image, t);
      if inside.value != [] { return Tree.Err(Tree.NotEmpty); }
    }
    EntriesEncodable(fs, d);
    r := FinishDelete(image, d, name, pos, es.value);
  }

  /** Drop the record, then release the inode. */
  method FinishDelete(image: Image, d: nat, name: Tree.Name, pos: nat, es: seq<Tree.Entry>) returns (r: Tree.Result<()>)
    requires Live(image) && d < INODE_COUNT && image.vol.inodes[d].kind == KIND_DIR
    requires es == Tree.Entries(Fs(image), d) && pos == Tree.Find(es, name) < |es| && forall e ::
      e in es ==> Encodable(e)
    requires es[pos].inode < INODE_COUNT
    requires image.vol.inodes[es[pos].inode].kind == KIND_DIR ==> Tree.Entries(Fs(image), es[pos].inode) == []
    modifies image, image.cache, image.cache.device
    ensures Live(image) && image.vol.head == old(image.vol.head)
    ensures Tree.Outcome(r, Fs(image)) == Tree.DeleteIn(old(Fs(image)), d, name)
  {
    ghost var v := image.vol;
    MountedTree(v);
    RemovedEncodable(es, pos);
    r := image.WriteDirEntries(d, Tree.RemoveAt(es, pos));
    ghost var mid := image.vol;
    DeleteSteps(v, mid, d, name, es, pos, r);
    if r.Ok? {
      ListsOk(mid, es[pos].inode);
      image.ReleaseInode(es[pos].inode);
      FreedAbs(mid, image.vol, es[pos].inode);
      assert r.value == ();
    }
    DeleteTree(Abs(v), d, name);
    Remount(image.vol, Tree.DeleteIn(Abs(v), d, name).fs);
  }

  method DeleteFile(image: Image, p: Tree.Path) returns (r: Tree.Result<()>)
    requires Live(image)
    modifies image, image.cache, image.cache.device
    ensures Live(image) && image.vol.head == old(image.vol.head)
    ensures Tree.Outcome(r, Fs(image)) == Tree.DeleteFile(old(Fs(image)), p)
  {
    var s := Tree.SplitParentAndName(p);
    if s.Err? { return Tree.Err(s.error); }
    var d := ResolvePath(image, s.value.0);
    if d.Err? { return Tree.Err(d.error); }
    r := DeleteIn(image, d.value, s.value.1);
  }

  method RenameIn(image: Image, d: nat, oldName: Tree.Name, newName: Tree.Name) returns (r: Tree.Result<()>)
    requires Live(image) && Tree.ValidName(newName)
    modifies image, image.cache, image.cache.device
    ensures Live(image) && image.vol.head == old(image.vol.head)
    ensures Tree.Outcome(r, Fs(image)) == Tree.RenameIn(old(Fs(image)), d, oldName, newName)
  {
    ghost var v := image.vol;
    MountedTree(v);
    DirIs(v, d);
    var es := ReadDir(image, d);
    if es.Err? { return Tree.Err(es.error); }
    var clash := FindEntry(es.value, newName);
    if clash < |es.value| { return Tree.Err(Tree.AlreadyExists); }
    var pos := FindEntry(es.value, oldName);
    if pos == |es.value| { return Tree.Err(Tree.NotFound); }
    EntriesEncodable(Abs(v), d);
    RenamedEncodable(es.value, pos, newName);
    r := image.WriteDirEntries(d, es.value[pos := es.value[pos].(name := newName)]);
    RenameSteps(v, image.vol, d, oldName, newName, pos, r);
    RenameTree(Abs(v), d, oldName, newName);
    Remount(image.vol, Tree.RenameIn(Abs(v), d, oldName, newName).fs);
  }

  method Rename(image: Image, p: Tree.Path, newName: Tree.Name) returns (r: Tree.Result<()>)
    requires Live(image)
    modifies image, image.cache, image.cache.device
    ensures Live(image) && image.vol.head == old(image.vol.head)
    ensures Tree.Outcome(r, Fs(image)) == Tree.Rename(old(Fs(image)), p, newName)
  {
    if !Tree.ValidName(newName) { return Tree.Err(Tree.UnsupportedName); }
    var s := Tree.SplitParentAndName(p);
    if s.Err? { return Tree.Err(s.error); }
    if Tree.NamesEqual(s.value.1, newName) { return Tree.Ok(()); }
    var d := ResolvePath(image, s.value.0);
    if d.Err? { return Tree.Err(d.error); }
    r := RenameIn(image, d.value, s.value.1, newName);
  }

  method WriteFile(image: Image, p: Tree.Path, data: seq<u8>) returns (r: Tree.Result<()>)
    requires Live(image)
    modifies image, image.cache, image.cache.device
    ensures Live(image) && image.vol.head == old(image.vol.head)
    ensures Tree.Outcome(r, Fs(image)) == Tree.WriteFile(old(Fs(image)), p, data)
  {
    var i := ResolvePath(image, p);
    if i.Err? { return Tree.Err(i.error); }
    r := WriteIn(image, i.value, data);
  }

  method WriteIn(image: Image, i: nat, data: seq<u8>) returns (r: Tree.Result<()>)
    requires Live(image)
    modifies image, image.cache, image.cache.device
    ensures Live(image) && image.vol.head == old(image.vol.head)
    ensures Tree.Outcome(r, Fs(image)) == Tree.WriteIn(old(Fs(image)), i, data)
  {
    ghost var v := image.vol;
    MountedTree(v);
    DirIs(v, i);
    var found, n := image.ReadInode(i);
    if !found { return Tree.Err(Tree.NotFound); }
    if n.kind != KIND_FILE { return Tree.Err(Tree.InvalidPath); }
    r := image.WriteInodeBytes(i, data);
    StoreFile(v, image.vol, i, data, r);
    Ops.WriteInEffect(Abs(v), i, data);
    Remount(image.vol, Tree.WriteIn(Abs(v), i, data).fs);
  }

  /** The stored bytes, exactly. */
  method ReadFile(image: Image, p: Tree.Path) returns (r: Tree.Result<seq<u8>>)
    requires Live(image)
    modifies image.cache, image.cache.device
    ensures Live(image)
    ensures r == Tree.ReadFile(Fs(image), p)
  {
    var i := ResolvePath(image, p);
    if i.Err? { return Tree.Err(i.error); }
    MountedTree(image.vol);
    DirIs(image.vol, i.value);
    var found, n := image.ReadInode(i.value);
    if !found || n.kind != KIND_FILE { return Tree.Err(Tree.NotFound); }
    var bytes := image.ReadInodeBytes(n);
    return Tree.Ok(bytes);
  }

  method ChangeMeta(image: Image, p: Tree.Path, change: Tree.Meta -> Tree.Meta) returns (r: Tree.Result<()>)
    requires Live(image)
    modifies image, image.cache, image.cache.device
    ensures Live(image) && image.vol.head == old(image.vol.head)
    ensures Tree.Outcome(r, Fs(image)) == Tree.SetMeta(old(Fs(image)), p, change)
  {
    var i := ResolvePath(image, p);
    if i.Err? { return Tree.Err(i.error); }
    ghost var v := image.vol;
    MountedTree(v);
    DirIs(v, i.value);
    var found, n := image.ReadInode(i.value);
    if !found || n.kind == KIND_FREE { FreeIs(v, i.value); return Tree.Err(Tree.NotFound); }
    var m := change(Tree.Meta(n.uid, n.gid, n.mode));
    image.WriteInode(i.value, n.(uid := m.uid, gid := m.gid, mode := m.mode));
    MetaSteps(v, image.vol, i.value, n.(uid := m.uid, gid := m.gid, mode := m.mode));
    MetaIs(v, i.value);
    Ops.SetMetaInEffect(Abs(v), i.value, change);
    Remount(image.vol, Tree.SetMetaIn(Abs(v), i.value, change).fs);
    return Tree.Ok(());
  }

  method Chmod(image: Image, p: Tree.Path, mode: u16) returns (r: Tree.Result<()>)
    requires Live(image)
    modifies image, image.cache, image.cache.device
    ensures Live(image) && image.vol.head == old(image.vol.head)
    ensures Tree.Outcome(r, Fs(image)) == Tree.Chmod(old(Fs(image)), p, mode)
  {
    r := ChangeMeta(image, p, Tree.NewMode(mode));
  }

  method Chown(image: Image, p: Tree.Path, uid: u32, gid: u32) returns (r: Tree.Result<()>)
    requires Live(image)
    modifies image, image.cache, image.cache.device
    ensures Live(image) && image.vol.head == old(image.vol.head)
    ensures Tree.Outcome(r, Fs(image)) == Tree.Chown(old(Fs(image)), p, uid, gid)
  {
    r := ChangeMeta(image, p, Tree.NewOwner(uid, gid));
  }

  lemma FreeIs(v: Vol, i: nat)
    requires VolInv(v) && (i >= INODE_COUNT || v.inodes[i].kind == KIND_FREE)
    ensures i >= |Abs(v).nodes| || Abs(v).nodes[i].Free?
  {
  }

  lemma MetaIs(v: Vol, i: nat)
    requires VolInv(v) && i < INODE_COUNT && v.inodes[i].kind != KIND_FREE
    ensures |Abs(v).nodes| == INODE_COUNT && !Abs(v).nodes[i].Free? && Abs(v).nodes[i].meta == MetaOf(v.inodes[i])
  {
    assert OwnsWell(v, i);
  }

  /** The replace protocol on the image. */
  method SafeWrite(image: Image, p: Tree.Path, data: seq<u8>, meta: Tree.Meta) returns (r: Tree.Result<()>)
    requires Live(image)
    modifies image, image.cache, image.cache.device
    ensures Live(image) && image.vol.head == old(image.vol.head)
    ensures Tree.Outcome(r, Fs(image)) == Tree.SafeWrite(old(Fs(image)), p, data, meta)
  {
    var s := Tree.SplitParentAndName(p);
    if s.Err? { return Tree.Err(s.error); }
    var tmp := Tree.TmpPath(s.value.0);
    r := DeleteFile(image, tmp);
    if r.Err? && r.error != Tree.NotFound { return r; }
    r := CreateNode(image, tmp, Tree.KindFile, meta);
    if r.Err? { return r; }
    r := WriteFile(image, tmp, data);
    if r.Err? { return r; }
    r := DeleteFile(image, p);
    if r.Err? && r.error != Tree.NotFound {
      var ignored := DeleteFile(image, tmp);
      return r;
    }
    r := Rename(image, tmp, s.value.1);
  }
}
