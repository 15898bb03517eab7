/** What each public operation does to a tree that satisfies the invariant, and the invariant over whole runs. */
module CoolTreeOps {
  import opened Bytes
  import opened CoolGeometry
  import opened CoolTree
  import opened CoolTreeInv

  lemma NewNodeSpace(fs: Fs, i: nat, node: Node)
    requires SpaceOk(fs) && i < |fs.nodes| && Size(fs.nodes[i]) == 0 && Size(node) == 0
    ensures SpaceOk(fs.(nodes := fs.nodes[i := node]))
  {
    TotalNeedUpdate(fs.nodes, i, node);
  }

  /** The new node is taken from the free inodes, then the record is appended. */
  lemma CreateSteps(fs: Fs, d: nat, i: nat, e: Entry, node: Node, meta: Meta)
    requires TreeInv(fs) && ValidName(e.name) && d < |fs.nodes| && fs.nodes[d].Dir? && fs.nodes[d].meta == meta
    requires 1 <= i < |fs.nodes| && fs.nodes[i].Free? && e.inode == i && Size(node) == 0 && !node.Free?
    requires Find(fs.nodes[d].entries, e.name) == |fs.nodes[d].entries|
    ensures var made := fs.(nodes := fs.nodes[i := node]);
      var out := Store(made, d, Dir(fs.nodes[d].entries + [e], meta));
      (out.status.Err? ==> Release(out.fs, i) == fs) &&
      (out.status.Ok? ==>
        TreeInv(out.fs) && Added(fs, out.fs, d, e) && out.fs.nodes[i] == node && out.fs.nodes[d].meta == meta)
  {
    var made := fs.(nodes := fs.nodes[i := node]);
    NewNodeSpace(fs, i, node);
    var grown := Dir(fs.nodes[d].entries + [e], meta);
    StoreSpace(made, d, grown);
    var out := Store(made, d, grown);
    if out.status.Err? {
      assert made.nodes[i := Free] == fs.nodes;
    } else {
      assert Added(fs, out.fs, d, e);
      AddedOk(fs, out.fs, d, e);
      AddedRooted(fs, out.fs, d, e);
    }
  }

  lemma CreateInEffect(fs: Fs, d: nat, name: Name, kind: Kind, meta: Meta)
    requires TreeInv(fs) && ValidName(name)
    ensures var out := CreateIn(fs, d, name, kind, meta);
      TreeInv(out.fs) &&
      (out.status.Err? ==> out.fs == fs) &&
      (out.status.Ok? ==>
        var i := FirstFreeInode(fs.nodes, 1);
        Added(fs, out.fs, d, Entry(i, name)) && out.fs.nodes[i] == NewNode(kind, meta) &&
          out.fs.nodes[d].meta == fs.nodes[d].meta &&
        Find(fs.nodes[d].entries, name) == |fs.nodes[d].entries|)
  {
    if d < |fs.nodes| && fs.nodes[d].Dir? && Find(fs.nodes[d].entries, name) == |fs.nodes[d].entries| {
      var i := FirstFreeInode(fs.nodes, 1);
      if i < |fs.nodes| {
        CreateSteps(fs, d, i, Entry(i, name), NewNode(kind, meta), fs.nodes[d].meta);
      }
    }
  }

  /** What a successful deletion leaves, with the blocks it needed and gave back. */
  ghost predicate Deleted(fs: Fs, fs': Fs, d: nat, pos: nat) {
    d < |fs.nodes| && fs.nodes[d].Dir? && pos < |fs.nodes[d].entries| &&
    var entries := fs.nodes[d].entries;
    Removed(fs, fs', d, entries[pos], pos) && fs'.nodes[d].meta == fs.nodes[d].meta &&
    Need(DIR_ENTRY_SIZE * (|entries| - 1)) <= fs.free &&
    fs'.free >= fs.free - Need(DIR_ENTRY_SIZE * (|entries| - 1)) + Need(DIR_ENTRY_SIZE * |entries|)
  }

  lemma DeleteSpace(fs: Fs, d: nat, pos: nat)
    requires SpaceOk(fs) && d < |fs.nodes| && fs.nodes[d].Dir? && pos < |fs.nodes[d].entries|
    requires fs.nodes[d].entries[pos].inode < |fs.nodes| && fs.nodes[d].entries[pos].inode != d
    ensures var out := Store(fs, d, Dir(RemoveAt(fs.nodes[d].entries, pos), fs.nodes[d].meta));
      var fs' := Release(out.fs, fs.nodes[d].entries[pos].inode);
      var n := |fs.nodes[d].entries|;
      out.status.Ok? ==>
        SpaceOk(fs') && Need(DIR_ENTRY_SIZE * (n - 1)) <= fs.free &&
        fs'.free >= fs.free - Need(DIR_ENTRY_SIZE * (n - 1)) + Need(DIR_ENTRY_SIZE * n)
  {
    var shrunk := Dir(RemoveAt(fs.nodes[d].entries, pos), fs.nodes[d].meta);
    RemoveAtAt(fs.nodes[d].entries, pos);
    StoreSpace(fs, d, shrunk);
    ReleaseSpace(Store(fs, d, shrunk).fs, fs.nodes[d].entries[pos].inode);
  }

  lemma DeleteSteps(fs: Fs, d: nat, pos: nat)
    requires TreeInv(fs) && d < |fs.nodes| && fs.nodes[d].Dir? && pos < |fs.nodes[d].entries|
    requires Entries(fs, fs.nodes[d].entries[pos].inode) == []
    requires fs.nodes[d].entries[pos].inode < |fs.nodes|
    ensures var out := Store(fs, d, Dir(RemoveAt(fs.nodes[d].entries, pos), fs.nodes[d].meta));
      var fs' := Release(out.fs, fs.nodes[d].entries[pos].inode);
      out.status.Ok? ==> TreeInv(fs') && Deleted(fs, fs', d, pos)
  {
    var e := fs.nodes[d].entries[pos];
    assert e.inode != d;
    DeleteSpace(fs, d, pos);
    var out := Store(fs, d, Dir(RemoveAt(fs.nodes[d].entries, pos), fs.nodes[d].meta));
    if out.status.Ok? {
      var fs' := Release(out.fs, e.inode);
      assert Removed(fs, fs', d, e, pos);
      RemovedOk(fs, fs', d, e, pos);
      RemovedRooted(fs, fs', d, e, pos);
    }
  }

  lemma DeleteInEffect(fs: Fs, d: nat, name: Name)
    requires TreeInv(fs)
    ensures var out := DeleteIn(fs, d, name);
      TreeInv(out.fs) &&
      (out.status.Err? ==> out.fs == fs) &&
      (out.status.Ok? ==> d < |fs.nodes| && fs.nodes[d].Dir? && Deleted(fs, out.fs, d, Find(fs.nodes[d].entries, name)))
  {
    if d < |fs.nodes| && fs.nodes[d].Dir? {
      var entries := fs.nodes[d].entries;
      var pos := Find(entries, name);
      if pos < |entries| {
        var t := entries[pos].inode;
        if t < |fs.nodes| && Entries(fs, t) == [] { DeleteSteps(fs, d, pos); }
      }
    }
  }

  lemma RenameInEffect(fs: Fs, d: nat, oldName: Name, newName: Name)
    requires TreeInv(fs) && ValidName(newName)
    ensures var out := RenameIn(fs, d, oldName, newName);
      TreeInv(out.fs) &&
      (out.status.Err? ==> out.fs == fs) &&
      (out.status.Ok? ==>
        d < |fs.nodes| && fs.nodes[d].Dir? &&
        var entries := fs.nodes[d].entries;
        var pos := Find(entries, oldName);
        pos < |entries| && Find(entries, newName) == |entries| &&
        Renamed(fs, out.fs, d, pos, newName) && out.fs.nodes[d].meta == fs.nodes[d].meta)
  {
    var out := RenameIn(fs, d, oldName, newName);
    if out.status.Ok? {
      var entries := fs.nodes[d].entries;
      var pos := Find(entries, oldName);
      StoreSpace(fs, d, Dir(entries[pos := entries[pos].(name := newName)], fs.nodes[d].meta));
      RenamedOk(fs, out.fs, d, pos, newName);
      RenamedRooted(fs, out.fs, d, pos, newName);
    }
  }

  lemma WriteInEffect(fs: Fs, i: nat, data: seq<u8>)
    requires TreeInv(fs)
    ensures var out := WriteIn(fs, i, data);
      TreeInv(out.fs) &&
      (out.status.Err? ==> out.fs == fs) &&
      (out.status.Ok? ==>
        i < |fs.nodes| && fs.nodes[i].File? && out.fs.nodes == fs.nodes[i := File(data, fs.nodes[i].meta)])
  {
    if i < |fs.nodes| && fs.nodes[i].File? {
      var node := File(data, fs.nodes[i].meta);
      StoreSpace(fs, i, node);
      assert WriteIn(fs, i, data) == Store(fs, i, node);
      if Store(fs, i, node).status.Ok? { SameRecordsKeep(fs, Store(fs, i, node).fs, i, node); }
    }
  }

  lemma WriteFileEffect(fs: Fs, p: Path, data: seq<u8>)
    requires TreeInv(fs)
    ensures TreeInv(WriteFile(fs, p, data).fs)
    ensures WriteFile(fs, p, data).status.Err? ==> WriteFile(fs, p, data).fs == fs
  {
    var r := ResolvePath(fs, p);
    if r.Ok? { WriteInEffect(fs, r.value, data); }
  }

  lemma SetMetaInEffect(fs: Fs, i: nat, change: Meta -> Meta)
    requires TreeInv(fs)
    ensures TreeInv(SetMetaIn(fs, i, change).fs)
  {
    if i < |fs.nodes| && !fs.nodes[i].Free? {
      var meta := change(fs.nodes[i].meta);
      RelabelKeeps(fs, i, meta);
      assert SetMetaIn(fs, i, change).fs == fs.(nodes := fs.nodes[i := WithMeta(fs.nodes[i], meta)]);
    }
  }

  lemma RelabelKeeps(fs: Fs, i: nat, meta: Meta)
    requires TreeInv(fs) && i < |fs.nodes| && !fs.nodes[i].Free?
    ensures TreeInv(fs.(nodes := fs.nodes[i := WithMeta(fs.nodes[i], meta)]))
  {
    var node := WithMeta(fs.nodes[i], meta);
    SameRecordsKeep(fs, fs.(nodes := fs.nodes[i := node]), i, node);
    SameSizeKeeps(fs, i, node);
  }

  /** Records are all that the links depend on. */
  lemma SameRecordsKeep(fs: Fs, fs': Fs, i: nat, node: Node)
    requires TreeOk(fs) && Rooted(fs) && i < |fs.nodes| && !fs.nodes[i].Free? && !node.Free? &&
      node.Dir? == fs.nodes[i].Dir?
    requires (node.Dir? ==> node.entries == fs.nodes[i].entries) && fs'.nodes == fs.nodes[i := node]
    ensures TreeOk(fs') && Rooted(fs')
  {
    assert forall d: nat :: Entries(fs', d) == Entries(fs, d);
    SameLinks(fs, fs');
    SameRooted(fs, fs');
  }

  lemma SameSizeKeeps(fs: Fs, i: nat, node: Node)
    requires SpaceOk(fs) && i < |fs.nodes| && Size(node) == Size(fs.nodes[i])
    ensures SpaceOk(fs.(nodes := fs.nodes[i := node]))
  {
    TotalNeedUpdate(fs.nodes, i, node);
  }

  lemma SetMetaEffect(fs: Fs, p: Path, change: Meta -> Meta)
    requires TreeInv(fs)
    ensures TreeInv(SetMeta(fs, p, change).fs)
    ensures SetMeta(fs, p, change).status.Err? ==> SetMeta(fs, p, change).fs == fs
  {
    var r := ResolvePath(fs, p);
    if r.Ok? { SetMetaInEffect(fs, r.value, change); }
  }

  lemma ChmodKeeps(fs: Fs, p: Path, mode: u16)
    requires TreeInv(fs)
    ensures TreeInv(Chmod(fs, p, mode).fs)
    ensures Chmod(fs, p, mode).status.Err? ==> Chmod(fs, p, mode).fs == fs
  {
    SetMetaEffect(fs, p, NewMode(mode));
  }

  lemma ChownKeeps(fs: Fs, p: Path, uid: u32, gid: u32)
    requires TreeInv(fs)
    ensures TreeInv(Chown(fs, p, uid, gid).fs)
    ensures Chown(fs, p, uid, gid).status.Err? ==> Chown(fs, p, uid, gid).fs == fs
  {
    SetMetaEffect(fs, p, NewOwner(uid, gid));
  }

  lemma CreateKeeps(fs: Fs, p: Path, kind: Kind, meta: Meta)
    requires TreeInv(fs)
    ensures TreeInv(CreateNode(fs, p, kind, meta).fs)
    ensures CreateNode(fs, p, kind, meta).status.Err? ==> CreateNode(fs, p, kind, meta).fs == fs
  {
    var s := SplitParentAndName(p);
    if s.Ok? && ResolvePath(fs, s.value.0).Ok? {
      CreateInEffect(fs, ResolvePath(fs, s.value.0).value, s.value.1, kind, meta);
    }
  }

  lemma DeleteKeeps(fs: Fs, p: Path)
    requires TreeInv(fs)
    ensures TreeInv(DeleteFile(fs, p).fs)
    ensures DeleteFile(fs, p).status.Err? ==> DeleteFile(fs, p).fs == fs
  {
    var s := SplitParentAndName(p);
    if s.Ok? && ResolvePath(fs, s.value.0).Ok? {
      DeleteInEffect(fs, ResolvePath(fs, s.value.0).value, s.value.1);
    }
  }

  lemma RenameKeeps(fs: Fs, p: Path, newName: Name)
    requires TreeInv(fs)
    ensures TreeInv(Rename(fs, p, newName).fs)
    ensures Rename(fs, p, newName).status.Err? ==> Rename(fs, p, newName).fs == fs
  {
    var s := SplitParentAndName(p);
    if ValidName(newName) && s.Ok? && ResolvePath(fs, s.value.0).Ok? {
      RenameInEffect(fs, ResolvePath(fs, s.value.0).value, s.value.1, newName);
    }
  }

  lemma SafeFinishKeeps(fs: Fs, p: Path, tmp: Path, name: Name)
    requires TreeInv(fs)
    ensures TreeInv(SafeFinish(fs, p, tmp, name).fs)
  {
    var out := SafeFinish(fs, p, tmp, name);
    var removed := DeleteFile(fs, p);
    DeleteKeeps(fs, p);
    if removed.status.Err? && removed.status.error != NotFound {
      DeleteKeeps(removed.fs, tmp);
      assert out.fs == DeleteFile(removed.fs, tmp).fs;
    } else {
      RenameKeeps(removed.fs, tmp, name);
      assert out == Rename(removed.fs, tmp, name);
    }
  }

  lemma SafeFillKeeps(fs: Fs, p: Path, tmp: Path, name: Name, data: seq<u8>)
    requires TreeInv(fs)
    ensures TreeInv(SafeFill(fs, p, tmp, name, data).fs)
  {
    var out := SafeFill(fs, p, tmp, name, data);
    var filled := WriteFile(fs, tmp, data);
    WriteFileEffect(fs, tmp, data);
    if filled.status.Err? {
      assert out == filled;
    } else {
      SafeFinishKeeps(filled.fs, p, tmp, name);
      assert out == SafeFinish(filled.fs, p, tmp, name);
    }
  }

  lemma SafeViaKeeps(fs: Fs, p: Path, tmp: Path, name: Name, data: seq<u8>, meta: Meta)
    requires TreeInv(fs)
    ensures TreeInv(SafeReplaceVia(fs, p, tmp, name, data, meta).fs)
  {
    var out := SafeReplaceVia(fs, p, tmp, name, data, meta);
    var cleared := DeleteFile(fs, tmp);
    DeleteKeeps(fs, tmp);
    if cleared.status.Err? && cleared.status.error != NotFound {
      assert out == cleared;
    } else {
      var created := CreateNode(cleared.fs, tmp, KindFile, meta);
      CreateKeeps(cleared.fs, tmp, KindFile, meta);
      if created.status.Err? {
        assert out == created;
      } else {
        SafeFillKeeps(created.fs, p, tmp, name, data);
        assert out == SafeFill(created.fs, p, tmp, name, data);
      }
    }
  }

  lemma SafeWriteKeeps(fs: Fs, p: Path, data: seq<u8>, meta: Meta)
    requires TreeInv(fs)
    ensures TreeInv(SafeWrite(fs, p, data, meta).fs)
  {
    var s := SplitParentAndName(p);
    if s.Ok? { SafeViaKeeps(fs, p, TmpPath(s.value.0), s.value.1, data, meta); }
  }

  // ---- Whole runs ----------------------------------------------------------

  datatype Op =
    | OpCreate(path: Path, kind: Kind, meta: Meta)
    | OpWrite(path: Path, data: seq<u8>)
    | OpDelete(path: Path)
    | OpRename(path: Path, newName: Name)
    | OpChmod(path: Path, mode: u16)
    | OpChown(path: Path, uid: u32, gid: u32)
    | OpSafeWrite(path: Path, data: seq<u8>, meta: Meta)

  function Apply(fs: Fs, op: Op): Outcome {
    match op
    case OpCreate(p, kind, meta) => CreateNode(fs, p, kind, meta)
    case OpWrite(p, data) => WriteFile(fs, p, data)
    case OpDelete(p) => DeleteFile(fs, p)
    case OpRename(p, n) => Rename(fs, p, n)
    case OpChmod(p, mode) => Chmod(fs, p, mode)
    case OpChown(p, uid, gid) => Chown(fs, p, uid, gid)
    case OpSafeWrite(p, data, meta) => SafeWrite(fs, p, data, meta)
  }

  function Run(fs: Fs, ops: seq<Op>): Fs
    decreases |ops|
  {
    if ops == [] then fs else Run(Apply(fs, ops[0]).fs, ops[1..])
  }

  /** The image right after formatting: an empty root directory and every data block free. */
  function Formatted(): Fs {
    Fs([Dir([], Meta(0, 0, DEFAULT_DIR_MODE))] + Repeat(Free, INODE_COUNT - 1), DATA_BLOCKS)
  }

  lemma {:induction false} TotalNeedFree(nodes: seq<Node>)
    requires forall i :: 0 <= i < |nodes| ==> Size(nodes[i]) == 0
    ensures TotalNeed(nodes) == 0
  {
    if nodes != [] { TotalNeedFree(nodes[..|nodes| - 1]); }
  }

  lemma FormattedOk()
    ensures TreeInv(Formatted())
  {
    TotalNeedFree(Formatted().nodes);
    assert forall d: nat :: Entries(Formatted(), d) == [];
    assert forall d: nat, e: Entry :: !Links(Formatted(), d, e);
    assert Walk(Formatted(), []) == Ok(ROOT_INODE);
  }

  lemma ApplyKeeps(fs: Fs, op: Op)
    requires TreeInv(fs)
    ensures TreeInv(Apply(fs, op).fs)
    ensures Apply(fs, op).status.Err? && !op.OpSafeWrite? ==> Apply(fs, op).fs == fs
  {
    var out := Apply(fs, op);
    match op {
      case OpCreate(p, kind, meta) => assert out == CreateNode(fs, p, kind, meta); CreateKeeps(fs, p, kind, meta);
      case OpWrite(p, data) => assert out == WriteFile(fs, p, data); WriteFileEffect(fs, p, data);
      case OpDelete(p) => assert out == DeleteFile(fs, p); DeleteKeeps(fs, p);
      case OpRename(p, n) => assert out == Rename(fs, p, n); RenameKeeps(fs, p, n);
      case OpChmod(p, mode) => assert out == Chmod(fs, p, mode); ChmodKeeps(fs, p, mode);
      case OpChown(p, uid, gid) => assert out == Chown(fs, p, uid, gid); ChownKeeps(fs, p, uid, gid);
      case OpSafeWrite(p, data, meta) => assert out == SafeWrite(fs, p, data, meta); SafeWriteKeeps(fs, p, data, meta);
    }
  }

  lemma {:induction false} RunKeeps(fs: Fs, ops: seq<Op>)
    requires TreeInv(fs)
    ensures TreeInv(Run(fs, ops))
    decreases |ops|
  {
    if ops != [] {
      ApplyKeeps(fs, ops[0]);
      RunKeeps(Apply(fs, ops[0]).fs, ops[1..]);
    }
  }

  /** Every state reachable from a formatted image satisfies the invariant. */
  lemma ReachableOk(ops: seq<Op>)
    ensures TreeInv(Run(Formatted(), ops))
  {
    FormattedOk();
    RunKeeps(Formatted(), ops);
  }
}
