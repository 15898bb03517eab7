/** The replace protocol takes the lock anew for each step: which operations of others may come between them. */
module CoolAmong {
  import opened Bytes
  import opened CoolTree
  import opened CoolPaths
  import opened CoolTreeInv
  import opened CoolTreeOps
  import opened CoolReplace
  import opened CoolSafeWrite

  // ---- Operations that leave a path alone ---------------------------------------

  /** The operation is not about this path: no creation, deletion, write or change of metadata at it, no renaming of it
      or of a directory above it, from it or to it, and no replacement of it or through it. */
  ghost predicate Apart(op: Op, comps: seq<Name>) {
    match op
    case OpCreate(q, _, _) => ApartFrom(q, comps)
    case OpDelete(q) => ApartFrom(q, comps)
    case OpWrite(q, _) => ApartFrom(q, comps)
    case OpChmod(q, _) => ApartFrom(q, comps)
    case OpChown(q, _, _) => ApartFrom(q, comps)
    case OpRename(q, n) =>
      SplitParentAndName(q).Ok? ==>
        var (parent, was) := SplitParentAndName(q).value;
        Avoids(comps, Components(parent), {Fold(was), Fold(n)})
    case OpSafeWrite(q, _, _) =>
      SplitParentAndName(q).Ok? ==>
        ApartFrom(q, comps) && !SamePath(comps, Components(SplitParentAndName(q).value.0) + [TMP_NAME])
  }

  ghost predicate ApartFrom(q: Path, comps: seq<Name>) { !SamePath(comps, Components(q)) }

  lemma CreateLeaves(fs: Fs, q: Path, kind: Kind, meta: Meta, comps: seq<Name>)
    requires TreeInv(fs) && ApartFrom(q, comps)
    ensures Observe(CreateNode(fs, q, kind, meta).fs, comps) == Observe(fs, comps)
  {
    if SplitParentAndName(q).Ok? {
      SafeSplits(q);
      var (parent, name) := SplitParentAndName(q).value;
      ResolveIsWalk(fs, parent);
      if Walk(fs, Components(parent)).Ok? { CreateInLeaves(fs, Components(parent), name, kind, meta, comps); }
    }
  }

  lemma CreateInLeaves(fs: Fs, pc: seq<Name>, name: Name, kind: Kind, meta: Meta, comps: seq<Name>)
    requires TreeInv(fs) && ValidName(name) && Walk(fs, pc).Ok? && !SamePath(comps, pc + [name])
    ensures Observe(CreateIn(fs, Walk(fs, pc).value, name, kind, meta).fs, comps) == Observe(fs, comps)
  {
    var d := Walk(fs, pc).value;
    CreateInEffect(fs, d, name, kind, meta);
    var out := CreateIn(fs, d, name, kind, meta);
    if out.status.Ok? {
      var i := FirstFreeInode(fs.nodes, 1);
      AddedEdit(fs, out.fs, d, Entry(i, name));
      OnlyThere(fs, out.fs, pc, d, name, i, comps);
    }
  }

  lemma DeleteLeaves(fs: Fs, q: Path, comps: seq<Name>)
    requires TreeInv(fs) && ApartFrom(q, comps)
    ensures Observe(DeleteFile(fs, q).fs, comps) == Observe(fs, comps)
  {
    if SplitParentAndName(q).Ok? {
      SafeSplits(q);
      var (parent, name) := SplitParentAndName(q).value;
      DeleteSame(fs, q, Components(parent), name);
      DeleteAtVisible(fs, Components(parent), name, comps);
    }
  }

  lemma WriteLeaves(fs: Fs, q: Path, data: seq<u8>, comps: seq<Name>)
    requires TreeInv(fs) && ApartFrom(q, comps)
    ensures Observe(WriteFile(fs, q, data).fs, comps) == Observe(fs, comps)
  {
    if TrimAbsPath(q).Ok? {
      WriteSame(fs, q, Components(q), data);
      WriteAtLeaves(fs, Components(q), data, comps);
    }
  }

  lemma WriteAtLeaves(fs: Fs, qc: seq<Name>, data: seq<u8>, comps: seq<Name>)
    requires TreeInv(fs) && !SamePath(comps, qc)
    ensures Observe(WriteAt(fs, qc, data).fs, comps) == Observe(fs, comps)
  {
    if qc != [] {
      var n := |qc| - 1;
      assert qc[..n] + [qc[n]] == qc;
      WriteAtVisible(fs, qc[..n], qc[n], data, comps);
    }
  }

  lemma RenameLeaves(fs: Fs, q: Path, n: Name, comps: seq<Name>)
    requires TreeInv(fs) && Apart(OpRename(q, n), comps)
    ensures Observe(Rename(fs, q, n).fs, comps) == Observe(fs, comps)
  {
    if SplitParentAndName(q).Ok? && ValidName(n) {
      SafeSplits(q);
      var (parent, was) := SplitParentAndName(q).value;
      RenameSame(fs, q, Components(parent), was, n);
      if !NamesEqual(was, n) { RenameAtLeaves(fs, Components(parent), was, n, comps); }
    }
  }

  lemma RenameAtLeaves(fs: Fs, pc: seq<Name>, was: Name, n: Name, comps: seq<Name>)
    requires TreeInv(fs) && ValidName(n) && !NamesEqual(was, n) && Avoids(comps, pc, {Fold(was), Fold(n)})
    ensures Observe(RenameAt(fs, pc, was, n).fs, comps) == Observe(fs, comps)
  {
    if Walk(fs, pc).Ok? {
      var d := Walk(fs, pc).value;
      RenameInEffect(fs, d, was, n);
      var out := RenameIn(fs, d, was, n);
      if out.status.Ok? {
        var pos := Find(fs.nodes[d].entries, was);
        var e := fs.nodes[d].entries[pos];
        assert Fold(e.name) == Fold(was);
        NotItself(fs, pc, d, was);
        RenamedEdit(fs, out.fs, d, pos, n);
        ObserveAvoids(fs, out.fs, pc, d, {Fold(e.name), Fold(n)}, e.inode, comps);
      }
    }
  }

  /** No directory holds itself. */
  lemma NotItself(fs: Fs, pc: seq<Name>, d: nat, name: Name)
    requires TreeOk(fs) && Walk(fs, pc) == Ok(d)
    ensures Step(fs, d, name) != Ok(d)
  {
    if Step(fs, d, name) == Ok(d) {
      WalkLast(fs, pc, name);
      UniquePath(fs, pc + [name], pc);
    }
  }

  /** Metadata do not matter to where paths lead. */
  lemma {:induction false} WalkSameRecords(fs: Fs, fs': Fs, comps: seq<Name>)
    requires |fs'.nodes| == |fs.nodes|
    requires forall i :: 0 <= i < |fs.nodes| ==>
      fs'.nodes[i].Dir? == fs.nodes[i].Dir? && (fs.nodes[i].Dir? ==> fs'.nodes[i].entries == fs.nodes[i].entries)
    ensures Walk(fs', comps) == Walk(fs, comps)
    decreases |comps|
  {
    if comps != [] { WalkSameRecords(fs, fs', comps[..|comps| - 1]); }
  }

  lemma MetaLeaves(fs: Fs, q: Path, change: Meta -> Meta, comps: seq<Name>)
    requires TreeInv(fs) && ApartFrom(q, comps)
    ensures Observe(SetMeta(fs, q, change).fs, comps) == Observe(fs, comps)
  {
    if TrimAbsPath(q).Ok? {
      ResolveIsWalk(fs, q);
      var w := Walk(fs, Components(q));
      if w.Ok? && w.value < |fs.nodes| && !fs.nodes[w.value].Free? {
        NodeLeaves(fs, Components(q), w.value, WithMeta(fs.nodes[w.value], change(fs.nodes[w.value].meta)), comps);
      }
    }
  }

  lemma NodeLeaves(fs: Fs, qc: seq<Name>, i: nat, node: Node, comps: seq<Name>)
    requires TreeOk(fs) && Walk(fs, qc) == Ok(i) && i < |fs.nodes| && !SamePath(comps, qc)
    requires node.Dir? == fs.nodes[i].Dir? && (node.Dir? ==> node.entries == fs.nodes[i].entries)
    ensures Observe(fs.(nodes := fs.nodes[i := node]), comps) == Observe(fs, comps)
  {
    WalkSameRecords(fs, fs.(nodes := fs.nodes[i := node]), comps);
    if Walk(fs, comps) == Ok(i) { UniquePath(fs, comps, qc); }
  }

  lemma SafeWriteLeaves(fs: Fs, q: Path, data: seq<u8>, meta: Meta, comps: seq<Name>)
    requires TreeInv(fs) && Apart(OpSafeWrite(q, data, meta), comps)
    ensures Observe(SafeWrite(fs, q, data, meta).fs, comps) == Observe(fs, comps)
  {
    if SplitParentAndName(q).Ok? {
      SafeSplits(q);
      SafeSame(fs, q, data, meta);
      var (parent, name) := SplitParentAndName(q).value;
      if NamesEqual(name, TMP_NAME) {
        TmpLeaves(fs, Components(parent), name, data, meta, comps);
      } else {
        SafeAtVisible(fs, Components(parent), name, data, meta, comps);
      }
    }
  }

  /** Replacing a file named like the temporary leaves every other path alone too. */
  lemma TmpLeaves(fs: Fs, pc: seq<Name>, name: Name, data: seq<u8>, meta: Meta, comps: seq<Name>)
    requires TreeInv(fs) && NamesEqual(name, TMP_NAME)
    requires !SamePath(comps, pc + [TMP_NAME]) && !SamePath(comps, pc + [name])
    ensures Observe(SafeAt(fs, pc, name, data, meta).fs, comps) == Observe(fs, comps)
  {
    TmpIsValid();
    DeleteAtVisible(fs, pc, TMP_NAME, comps);
    DeleteAtKeeps(fs, pc, TMP_NAME);
    var s1 := DeleteAt(fs, pc, TMP_NAME).fs;
    CreateAtVisible(s1, pc, TMP_NAME, meta, comps);
    CreateAtKeeps(s1, pc, TMP_NAME, meta);
    var s2 := CreateAt(s1, pc, TMP_NAME, meta).fs;
    WriteAtVisible(s2, pc, TMP_NAME, data, comps);
    WriteAtKeeps(s2, pc + [TMP_NAME], data);
    FinishLeaves(WriteAt(s2, pc + [TMP_NAME], data).fs, pc, name, comps);
  }

  lemma FinishLeaves(fs: Fs, pc: seq<Name>, name: Name, comps: seq<Name>)
    requires TreeInv(fs) && NamesEqual(name, TMP_NAME)
    requires !SamePath(comps, pc + [TMP_NAME]) && !SamePath(comps, pc + [name])
    ensures Observe(FinishAt(fs, pc, name).fs, comps) == Observe(fs, comps)
  {
    DeleteAtVisible(fs, pc, name, comps);
    DeleteAtKeeps(fs, pc, name);
    DeleteAtVisible(DeleteAt(fs, pc, name).fs, pc, TMP_NAME, comps);
  }

  /** An operation changes nothing at a path it is not about. */
  lemma OpLeaves(fs: Fs, op: Op, comps: seq<Name>)
    requires TreeInv(fs) && Apart(op, comps)
    ensures Observe(Apply(fs, op).fs, comps) == Observe(fs, comps)
  {
    match op
    case OpCreate(q, kind, meta) => CreateLeaves(fs, q, kind, meta, comps);
    case OpDelete(q) => DeleteLeaves(fs, q, comps);
    case OpWrite(q, data) => WriteLeaves(fs, q, data, comps);
    case OpRename(q, n) => RenameLeaves(fs, q, n, comps);
    case OpChmod(q, mode) => MetaLeaves(fs, q, NewMode(mode), comps);
    case OpChown(q, uid, gid) => MetaLeaves(fs, q, NewOwner(uid, gid), comps);
    case OpSafeWrite(q, data, meta) => SafeWriteLeaves(fs, q, data, meta, comps);
  }

  lemma {:induction false} RunLeaves(fs: Fs, ops: seq<Op>, comps: seq<Name>)
    requires TreeInv(fs) && forall op :: op in ops ==> Apart(op, comps)
    ensures TreeInv(Run(fs, ops)) && Observe(Run(fs, ops), comps) == Observe(fs, comps)
    decreases |ops|
  {
    if ops != [] {
      OpLeaves(fs, ops[0], comps);
      ApplyKeeps(fs, ops[0]);
      RunLeaves(Apply(fs, ops[0]).fs, ops[1..], comps);
    }
  }

  // ---- The protocol among others --------------------------------------------------

  /** What others do after each step but the last. */
  datatype Others = Others(cleared: seq<Op>, created: seq<Op>, filled: seq<Op>, removed: seq<Op>)

  /** The first three steps: the temporary is deleted, created and filled. */
  function FillAmong(fs: Fs, tmp: Path, data: seq<u8>, meta: Meta, o: Others): Outcome {
    var cleared := DeleteFile(fs, tmp);
    if cleared.status.Err? && cleared.status.error != NotFound then cleared
    else
      var created := CreateNode(Run(cleared.fs, o.cleared), tmp, KindFile, meta);
      if created.status.Err? then created
      else
        var filled := WriteFile(Run(created.fs, o.created), tmp, data);
        if filled.status.Err? then filled else Outcome(Ok(()), Run(filled.fs, o.filled))
  }

  /** The last two: the target is deleted, and the temporary renamed. */
  function EndAmong(fs: Fs, p: Path, tmp: Path, name: Name, others: seq<Op>): Outcome {
    var removed := DeleteFile(fs, p);
    var later := Run(removed.fs, others);
    if removed.status.Err? && removed.status.error != NotFound
    then Outcome(removed.status, DeleteFile(later, tmp).fs)
    else Rename(later, tmp, name)
  }

  function SafeWriteAmong(fs: Fs, p: Path, data: seq<u8>, meta: Meta, o: Others): Outcome {
    match SplitParentAndName(p)
    case Err(e) => Outcome(Err(e), fs)
    case Ok((parent, name)) =>
      var f := FillAmong(fs, TmpPath(parent), data, meta, o);
      if f.status.Err? then f else EndAmong(f.fs, p, TmpPath(parent), name, o.removed)
  }

  /** With nobody else this is the protocol as before. */
  lemma NobodyElse(fs: Fs, p: Path, data: seq<u8>, meta: Meta)
    ensures SafeWriteAmong(fs, p, data, meta, Others([], [], [], [])) == SafeWrite(fs, p, data, meta)
  {
  }

  ghost predicate AllApart(ops: seq<Op>, p: seq<Name>, t: seq<Name>) {
    forall op :: op in ops ==> Apart(op, p) && Apart(op, t)
  }

  ghost predicate OthersApart(o: Others, p: seq<Name>, t: seq<Name>) {
    AllApart(o.cleared, p, t) && AllApart(o.created, p, t) && AllApart(o.filled, p, t) && AllApart(o.removed, p, t)
  }

  /** `tmp` is a path of the temporary in the directory at `pc`. */
  ghost predicate TmpOf(tmp: Path, pc: seq<Name>) {
    SplitsTo(tmp, pc, TMP_NAME) && Components(tmp) == pc + [TMP_NAME] && TrimAbsPath(tmp).Ok?
  }

  lemma BothLeft(fs: Fs, ops: seq<Op>, p: seq<Name>, t: seq<Name>)
    requires TreeInv(fs) && AllApart(ops, p, t)
    ensures TreeInv(Run(fs, ops))
    ensures Observe(Run(fs, ops), p) == Observe(fs, p) && Observe(Run(fs, ops), t) == Observe(fs, t)
  {
    RunLeaves(fs, ops, p);
    RunLeaves(fs, ops, t);
  }

  /** The directory at `pc` needs more blocks, to be written again, than are free. */
  predicate RoomGone(fs: Fs, pc: seq<Name>) {
    Walk(fs, pc).Ok? && Tight(fs, |Entries(fs, Walk(fs, pc).value)|)
  }

  /** A file is renamed to a name that is not taken if and only if the directory fits beside itself. */
  lemma RenameExact(fs: Fs, pc: seq<Name>, a: Name, b: Name)
    requires TreeInv(fs) && ValidName(b) && !NamesEqual(a, b)
    requires Observe(fs, pc + [a]).File? && Observe(fs, pc + [b]) == Free
    ensures RenameAt(fs, pc, a, b).status == if RoomGone(fs, pc) then Err(NoSpace) else Ok(())
  {
    WalkLast(fs, pc, a);
    WalkLast(fs, pc, b);
    var d := Walk(fs, pc).value;
    if Step(fs, d, b).Ok? { var e := StepLink(fs, d, b); }
    assert Size(fs.nodes[d]) <= MAX_FILE_BYTES;
    RenameInExact(fs, d, a, b);
  }

  lemma RenameInExact(fs: Fs, d: nat, a: Name, b: Name)
    requires d < |fs.nodes| && Size(fs.nodes[d]) <= MAX_FILE_BYTES && Step(fs, d, a).Ok? && Step(fs, d, b).Err?
    ensures RenameIn(fs, d, a, b).status == if Tight(fs, |Entries(fs, d)|) then Err(NoSpace) else Ok(())
  {
  }

  lemma FillVisible(fs: Fs, tmp: Path, pc: seq<Name>, name: Name, data: seq<u8>, meta: Meta, o: Others)
    requires TreeInv(fs) && TmpOf(tmp, pc)
    requires !NamesEqual(name, TMP_NAME) && OthersApart(o, pc + [name], pc + [TMP_NAME])
    ensures var f := FillAmong(fs, tmp, data, meta, o);
      TreeInv(f.fs) && Observe(f.fs, pc + [name]) == Observe(fs, pc + [name]) &&
      (f.status.Ok? ==> Observe(f.fs, pc + [TMP_NAME]) == NewFile(data, meta))
  {
    var p, t := pc + [name], pc + [TMP_NAME];
    Different(pc, name);
    TmpIsValid();
    DeleteSame(fs, tmp, pc, TMP_NAME);
    DeleteAtVisible(fs, pc, TMP_NAME, p);
    DeleteAtKeeps(fs, pc, TMP_NAME);
    var cleared := DeleteFile(fs, tmp);
    if !(cleared.status.Err? && cleared.status.error != NotFound) {
      BothLeft(cleared.fs, o.cleared, p, t);
      CreateVisible(Run(cleared.fs, o.cleared), tmp, pc, name, data, meta, o);
    }
  }

  function NewFile(data: seq<u8>, meta: Meta): Node { File(data, meta.(mode := NormMode(KindFile, meta.mode))) }

  lemma Different(pc: seq<Name>, name: Name)
    requires !NamesEqual(name, TMP_NAME)
    ensures !SamePath(pc + [name], pc + [TMP_NAME]) && !SamePath(pc + [TMP_NAME], pc + [name])
  {
    assert (pc + [name])[|pc|] == name && (pc + [TMP_NAME])[|pc|] == TMP_NAME;
  }

  /** The second and third step. */
  lemma CreateVisible(fs: Fs, tmp: Path, pc: seq<Name>, name: Name, data: seq<u8>, meta: Meta, o: Others)
    requires TreeInv(fs) && TmpOf(tmp, pc)
    requires !NamesEqual(name, TMP_NAME) && OthersApart(o, pc + [name], pc + [TMP_NAME])
    ensures var created := CreateNode(fs, tmp, KindFile, meta);
      var filled := WriteFile(Run(created.fs, o.created), tmp, data);
      var f := if created.status.Err? then created
        else if filled.status.Err? then filled else Outcome(Ok(()), Run(filled.fs, o.filled));
      TreeInv(f.fs) && Observe(f.fs, pc + [name]) == Observe(fs, pc + [name]) &&
      (f.status.Ok? ==> Observe(f.fs, pc + [TMP_NAME]) == NewFile(data, meta))
  {
    var p, t := pc + [name], pc + [TMP_NAME];
    Different(pc, name);
    TmpIsValid();
    CreateSame(fs, tmp, pc, TMP_NAME, meta);
    CreateAtVisible(fs, pc, TMP_NAME, meta, p);
    CreateAtKeeps(fs, pc, TMP_NAME, meta);
    var created := CreateNode(fs, tmp, KindFile, meta);
    if created.status.Ok? {
      BothLeft(created.fs, o.created, p, t);
      var next := Run(created.fs, o.created);
      WriteSame(next, tmp, t, data);
      WriteAtVisible(next, pc, TMP_NAME, data, p);
      WriteAtKeeps(next, t, data);
      BothLeft(WriteAt(next, t, data).fs, o.filled, p, t);
    }
  }

  /** The target was there and was deleted, and then others took the room the directory needs. */
  predicate RoomTaken(fs: Fs, p: Path, pc: seq<Name>, others: seq<Op>) {
    DeleteFile(fs, p).status.Ok? && RoomGone(Run(DeleteFile(fs, p).fs, others), pc)
  }

  lemma EndVisible(fs: Fs, p: Path, tmp: Path, pc: seq<Name>, name: Name, others: seq<Op>)
    requires TreeInv(fs) && SplitsTo(p, pc, name) && SplitsTo(tmp, pc, TMP_NAME)
    requires ValidName(name) && !NamesEqual(name, TMP_NAME) && Observe(fs, pc + [TMP_NAME]).File?
    requires AllApart(others, pc + [name], pc + [TMP_NAME])
    ensures var out := EndAmong(fs, p, tmp, name, others);
      (out.status.Ok? ==>
        Observe(out.fs, pc + [name]) == Observe(fs, pc + [TMP_NAME]) && Observe(out.fs, pc + [TMP_NAME]) == Free) &&
      (out.status.Err? && !RoomTaken(fs, p, pc, others) ==>
        Observe(out.fs, pc + [name]) == Observe(fs, pc + [name])) &&
      (RoomTaken(fs, p, pc, others) ==>
        out.status == Err(NoSpace) && Observe(out.fs, pc + [name]) == Free && Observe(fs, pc + [name]) != Free &&
        Observe(out.fs, pc + [TMP_NAME]) == Observe(fs, pc + [TMP_NAME]))
  {
    var pp, t := pc + [name], pc + [TMP_NAME];
    Different(pc, name);
    DeleteSame(fs, p, pc, name);
    DeleteAtVisible(fs, pc, name, t);
    DeleteAtKeeps(fs, pc, name);
    var removed := DeleteAt(fs, pc, name);
    BothLeft(removed.fs, others, pp, t);
    var later := Run(removed.fs, others);
    if removed.status.Err? && removed.status.error != NotFound {
      DeleteSame(later, tmp, pc, TMP_NAME);
      DeleteAtVisible(later, pc, TMP_NAME, pp);
    } else {
      if removed.status.Ok? { WasThere(fs, pc, name); } else { DeleteMissing(fs, pc, name); }
      RenameSame(later, tmp, pc, TMP_NAME, name);
      RenameAtVisible(later, pc, TMP_NAME, name, pp);
      RenameExact(later, pc, TMP_NAME, name);
    }
  }

  lemma WasThere(fs: Fs, pc: seq<Name>, name: Name)
    requires TreeInv(fs) && DeleteAt(fs, pc, name).status.Ok?
    ensures Observe(fs, pc + [name]) != Free
  {
    WalkLast(fs, pc, name);
    var e := StepLink(fs, Walk(fs, pc).value, name);
  }

  /** Success shows the new file and leaves no temporary.  A failure leaves what was at the target, if and only if
      others have not taken the room for the directory between the deletion of the target and the renaming; if they
      have, the target is gone, and the temporary holds the new data. */
  ghost predicate Guaranteed(fs: Fs, p: Path, pc: seq<Name>, name: Name, want: Node, f: Outcome, out: Outcome,
      others: seq<Op>)
  {
    var target, tmp := pc + [name], pc + [TMP_NAME];
    var taken := f.status.Ok? && RoomTaken(f.fs, p, pc, others);
    (out.status.Ok? ==> Observe(out.fs, target) == want && Observe(out.fs, tmp) == Free) &&
    (out.status.Err? ==> (Observe(out.fs, target) == Observe(fs, target) <==> !taken)) &&
    (taken ==> out.status == Err(NoSpace) && Observe(out.fs, target) == Free && Observe(out.fs, tmp) == want)
  }

  lemma GuaranteedAt(fs: Fs, p: Path, tmp: Path, pc: seq<Name>, name: Name, data: seq<u8>, meta: Meta, o: Others)
    requires TreeInv(fs) && SplitsTo(p, pc, name) && TmpOf(tmp, pc) && ValidName(name) && !NamesEqual(name, TMP_NAME)
    requires OthersApart(o, pc + [name], pc + [TMP_NAME])
    ensures var f := FillAmong(fs, tmp, data, meta, o);
      var out := if f.status.Err? then f else EndAmong(f.fs, p, tmp, name, o.removed);
      Guaranteed(fs, p, pc, name, NewFile(data, meta), f, out, o.removed)
  {
    FillVisible(fs, tmp, pc, name, data, meta, o);
    var f := FillAmong(fs, tmp, data, meta, o);
    if f.status.Ok? { EndVisible(f.fs, p, tmp, pc, name, o.removed); }
  }

  /** So it is whatever others do between the steps, as long as it is not about the target or the temporary. */
  lemma SafeReplaceAmong(fs: Fs, p: Path, data: seq<u8>, meta: Meta, o: Others)
    requires TreeInv(fs) && SplitParentAndName(p).Ok? && !NamesEqual(SplitParentAndName(p).value.1, TMP_NAME)
    requires var (parent, name) := SplitParentAndName(p).value;
      OthersApart(o, Components(parent) + [name], Components(parent) + [TMP_NAME])
    ensures var (parent, name) := SplitParentAndName(p).value;
      var f := FillAmong(fs, TmpPath(parent), data, meta, o);
      Components(p) == Components(parent) + [name] &&
      Guaranteed(fs, p, Components(parent), name, NewFile(data, meta), f, SafeWriteAmong(fs, p, data, meta, o),
        o.removed)
  {
    SafeSplits(p);
    var (parent, name) := SplitParentAndName(p).value;
    GuaranteedAt(fs, p, TmpPath(parent), Components(parent), name, data, meta, o);
  }

  const NOBODY: Others := Others([], [], [], [])

  /** The first three steps of a replacement, as others see them. */
  function Filling(tmp: Path, data: seq<u8>, meta: Meta): seq<Op> {
    [OpDelete(tmp), OpCreate(tmp, KindFile, meta), OpWrite(tmp, data)]
  }

  lemma FillingRuns(fs: Fs, tmp: Path, data: seq<u8>, meta: Meta)
    requires TreeInv(fs) && FillAmong(fs, tmp, data, meta, NOBODY).status.Ok?
    ensures Run(fs, Filling(tmp, data, meta)) == FillAmong(fs, tmp, data, meta, NOBODY).fs
  {
    var a, b, c := OpDelete(tmp), OpCreate(tmp, KindFile, meta), OpWrite(tmp, data);
    RunThree(fs, a, b, c);
    var cleared := Apply(fs, a);
    assert cleared == DeleteFile(fs, tmp) && Run(cleared.fs, []) == cleared.fs;
    var created := Apply(cleared.fs, b);
    assert created == CreateNode(cleared.fs, tmp, KindFile, meta) && Run(created.fs, []) == created.fs;
    var filled := Apply(created.fs, c);
    assert filled == WriteFile(created.fs, tmp, data) && Run(filled.fs, []) == filled.fs;
  }

  lemma RunThree(fs: Fs, a: Op, b: Op, c: Op)
    ensures Run(fs, [a, b, c]) == Apply(Apply(Apply(fs, a).fs, b).fs, c).fs
  {
    var ops, s1 := [a, b, c], Apply(fs, a).fs;
    var s2 := Apply(s1, b).fs;
    assert ops[1..] == [b, c] && [b, c][1..] == [c] && [c][1..] == [];
    assert Run(s2, [c]) == Run(Apply(s2, c).fs, []);
    assert Run(s1, [b, c]) == Run(s2, [c]);
  }

  /** Another replacement in the same directory is not apart: it goes through the same temporary.  If its first three
      steps come after the third of this one, this one succeeds with the other's data. */
  lemma SameTemporary(fs: Fs, p: Path, mine: seq<u8>, theirs: seq<u8>, meta: Meta)
    requires TreeInv(fs) && SplitParentAndName(p).Ok? && !NamesEqual(SplitParentAndName(p).value.1, TMP_NAME)
    requires var tmp := TmpPath(SplitParentAndName(p).value.0);
      FillAmong(fs, tmp, mine, meta, NOBODY).status.Ok? &&
      FillAmong(FillAmong(fs, tmp, mine, meta, NOBODY).fs, tmp, theirs, meta, NOBODY).status.Ok?
    ensures var filling := Filling(TmpPath(SplitParentAndName(p).value.0), theirs, meta);
      var out := SafeWriteAmong(fs, p, mine, meta, Others([], [], filling, []));
      out.status.Ok? ==> Observe(out.fs, Components(p)) == NewFile(theirs, meta)
  {
    SafeSplits(p);
    var (parent, name) := SplitParentAndName(p).value;
    SameTemporaryAt(fs, p, TmpPath(parent), Components(parent), name, mine, theirs, meta);
  }

  lemma SameTemporaryAt(fs: Fs, p: Path, tmp: Path, pc: seq<Name>, name: Name, mine: seq<u8>, theirs: seq<u8>,
      meta: Meta)
    requires TreeInv(fs) && SplitsTo(p, pc, name) && TmpOf(tmp, pc) && ValidName(name) && !NamesEqual(name, TMP_NAME)
    requires FillAmong(fs, tmp, mine, meta, NOBODY).status.Ok?
    requires FillAmong(FillAmong(fs, tmp, mine, meta, NOBODY).fs, tmp, theirs, meta, NOBODY).status.Ok?
    ensures var f := FillAmong(fs, tmp, mine, meta, Others([], [], Filling(tmp, theirs, meta), []));
      var out := EndAmong(f.fs, p, tmp, name, []);
      f.status.Ok? && (out.status.Ok? ==> Observe(out.fs, pc + [name]) == NewFile(theirs, meta))
  {
    var mid := FilledShows(fs, tmp, pc, name, mine, meta);
    var last := FilledShows(mid, tmp, pc, name, theirs, meta);
    ThenFilled(fs, mid, last, tmp, mine, theirs, meta);
    EndVisible(last, p, tmp, pc, name, []);
  }

  lemma FilledShows(fs: Fs, tmp: Path, pc: seq<Name>, name: Name, data: seq<u8>, meta: Meta) returns (f: Fs)
    requires TreeInv(fs) && TmpOf(tmp, pc) && !NamesEqual(name, TMP_NAME)
    requires FillAmong(fs, tmp, data, meta, NOBODY).status.Ok?
    ensures FillAmong(fs, tmp, data, meta, NOBODY) == Outcome(Ok(()), f)
    ensures TreeInv(f) && Observe(f, pc + [TMP_NAME]) == NewFile(data, meta)
  {
    FillVisible(fs, tmp, pc, name, data, meta, NOBODY);
    f := FillAmong(fs, tmp, data, meta, NOBODY).fs;
  }

  lemma FillThen(fs: Fs, tmp: Path, data: seq<u8>, meta: Meta, others: seq<Op>)
    requires FillAmong(fs, tmp, data, meta, NOBODY).status.Ok?
    ensures FillAmong(fs, tmp, data, meta, Others([], [], others, [])) ==
      Outcome(Ok(()), Run(FillAmong(fs, tmp, data, meta, NOBODY).fs, others))
  {
  }

  // ---- It does happen --------------------------------------------------------------

  const LETTER: Name := [0x41]

  ghost predicate EmptyRoot(fs: Fs) {
    |fs.nodes| >= 2 && fs.nodes[0].Dir? && fs.nodes[0].entries == [] && fs.nodes[1].Free? && fs.free >= 3
  }

  /** One byte in the temporary, and nothing else. */
  ghost predicate ByteInTmp(fs: Fs) { OnlyTmp(fs) && |fs.nodes[1].bytes| == 1 && fs.free >= 1 }

  lemma FillsEmpty(fs: Fs, b: u8, meta: Meta)
    requires EmptyRoot(fs)
    ensures var one := CreateAt(fs, [], TMP_NAME, meta);
      var two := WriteAt(one.fs, [] + [TMP_NAME], [b]);
      DeleteAt(fs, [], TMP_NAME) == Outcome(Err(NotFound), fs) && one.status.Ok? && two.status.Ok? && ByteInTmp(two.fs)
  {
    var entries := [Entry(1, TMP_NAME)];
    assert [] + entries == entries;
    assert Find(entries, TMP_NAME) == 0;
    var one := CreateAt(fs, [], TMP_NAME, meta);
    WalkLast(one.fs, [], TMP_NAME);
  }

  lemma EmptiesTmp(fs: Fs)
    requires ByteInTmp(fs)
    ensures DeleteAt(fs, [], TMP_NAME).status.Ok? && EmptyRoot(DeleteAt(fs, [], TMP_NAME).fs)
  {
    var entries := [Entry(1, TMP_NAME)];
    assert Find(entries, TMP_NAME) == 0 && RemoveAt(entries, 0) == [];
  }

  lemma RenamesTmp(fs: Fs)
    requires ByteInTmp(fs)
    ensures DeleteAt(fs, [], LETTER) == Outcome(Err(NotFound), fs) && RenameAt(fs, [], TMP_NAME, LETTER).status.Ok?
  {
    var entries := [Entry(1, TMP_NAME)];
    assert Find(entries, TMP_NAME) == 0 && Find(entries, LETTER) == 1;
  }

  /** Two replacements in the root of a formatted disk, of A with the byte 1 and of another file with the byte 2: the
      first succeeds, and A holds 2. */
  lemma TwoReplacements(meta: Meta)
    ensures var filling := Filling([SLASH] + TMP_NAME, [2], meta);
      var out := SafeWriteAmong(Formatted(), [SLASH] + LETTER, [1], meta, Others([], [], filling, []));
      out.status.Ok? && Observe(out.fs, [LETTER]) == NewFile([2], meta)
  {
    FormattedOk();
    TwoIn(Formatted(), meta);
  }

  lemma TwoIn(fs: Fs, meta: Meta)
    requires TreeInv(fs) && EmptyRoot(fs)
    ensures var filling := Filling([SLASH] + TMP_NAME, [2], meta);
      var out := SafeWriteAmong(fs, [SLASH] + LETTER, [1], meta, Others([], [], filling, []));
      out.status.Ok? && Observe(out.fs, [LETTER]) == NewFile([2], meta)
  {
    LetterInRoot();
    var tmp, p := [SLASH] + TMP_NAME, [SLASH] + LETTER;
    assert TmpPath([SLASH]) == tmp;
    var mid, last := FillsTwice(fs, tmp, LETTER, meta);
    SameTemporary(fs, p, [1], [2], meta);
    EndsWell(last, p, tmp);
    TwoEnds(fs, p, tmp, meta, last);
  }

  lemma FillsTwice(fs: Fs, tmp: Path, name: Name, meta: Meta) returns (mid: Fs, last: Fs)
    requires TreeInv(fs) && EmptyRoot(fs) && TmpOf(tmp, []) && !NamesEqual(name, TMP_NAME)
    ensures FillAmong(fs, tmp, [1], meta, NOBODY) == Outcome(Ok(()), mid) && TreeInv(mid)
    ensures FillAmong(mid, tmp, [2], meta, NOBODY) == Outcome(Ok(()), last) && ByteInTmp(last)
    ensures FillAmong(fs, tmp, [1], meta, Others([], [], Filling(tmp, [2], meta), [])) == Outcome(Ok(()), last)
  {
    mid := FillsFrom(fs, tmp, 1, meta);
    StillTree(fs, tmp, name, [1], meta, mid);
    last := FillsAgain(mid, tmp, 2, meta);
    ThenFilled(fs, mid, last, tmp, [1], [2], meta);
  }

  lemma StillTree(fs: Fs, tmp: Path, name: Name, data: seq<u8>, meta: Meta, f: Fs)
    requires TreeInv(fs) && TmpOf(tmp, []) && !NamesEqual(name, TMP_NAME)
    requires FillAmong(fs, tmp, data, meta, NOBODY) == Outcome(Ok(()), f)
    ensures TreeInv(f)
  {
    FillVisible(fs, tmp, [], name, data, meta, NOBODY);
  }

  lemma ThenFilled(fs: Fs, mid: Fs, last: Fs, tmp: Path, mine: seq<u8>, theirs: seq<u8>, meta: Meta)
    requires TreeInv(mid) && FillAmong(fs, tmp, mine, meta, NOBODY) == Outcome(Ok(()), mid)
    requires FillAmong(mid, tmp, theirs, meta, NOBODY) == Outcome(Ok(()), last)
    ensures FillAmong(fs, tmp, mine, meta, Others([], [], Filling(tmp, theirs, meta), [])) == Outcome(Ok(()), last)
  {
    FillThen(fs, tmp, mine, meta, Filling(tmp, theirs, meta));
    FillingRuns(mid, tmp, theirs, meta);
  }

  lemma TwoEnds(fs: Fs, p: Path, tmp: Path, meta: Meta, last: Fs)
    requires SplitParentAndName(p) == Ok(([SLASH], LETTER)) && TmpPath([SLASH]) == tmp
    requires FillAmong(fs, tmp, [1], meta, Others([], [], Filling(tmp, [2], meta), [])) == Outcome(Ok(()), last)
    ensures SafeWriteAmong(fs, p, [1], meta, Others([], [], Filling(tmp, [2], meta), [])) ==
      EndAmong(last, p, tmp, LETTER, [])
  {
  }

  lemma LetterInRoot()
    ensures SplitParentAndName([SLASH] + LETTER) == Ok(([SLASH], LETTER)) && Components([SLASH] + LETTER) == [LETTER]
    ensures ValidName(LETTER) && !NamesEqual(LETTER, TMP_NAME) && SplitsTo([SLASH] + LETTER, [], LETTER)
    ensures TmpOf([SLASH] + TMP_NAME, [])
  {
    TmpInRoot();
    assert [] + [SLASH] + LETTER == [SLASH] + LETTER;
    SplitAt([], LETTER);
    SafeSplits([SLASH] + LETTER);
    SafeSplits([SLASH] + TMP_NAME);
    assert [] + [LETTER] == [LETTER];
  }

  lemma FillsFrom(fs: Fs, tmp: Path, b: u8, meta: Meta) returns (f: Fs)
    requires EmptyRoot(fs) && TmpOf(tmp, [])
    ensures FillAmong(fs, tmp, [b], meta, NOBODY) == Outcome(Ok(()), f) && ByteInTmp(f)
  {
    FillsEmpty(fs, b, meta);
    DeleteSame(fs, tmp, [], TMP_NAME);
    CreateSame(fs, tmp, [], TMP_NAME, meta);
    var one := CreateAt(fs, [], TMP_NAME, meta).fs;
    WriteSame(one, tmp, [] + [TMP_NAME], [b]);
    f := WriteAt(one, [] + [TMP_NAME], [b]).fs;
  }

  lemma FillsAgain(fs: Fs, tmp: Path, b: u8, meta: Meta) returns (f: Fs)
    requires ByteInTmp(fs) && TmpOf(tmp, [])
    ensures FillAmong(fs, tmp, [b], meta, NOBODY) == Outcome(Ok(()), f) && ByteInTmp(f)
  {
    EmptiesTmp(fs);
    DeleteSame(fs, tmp, [], TMP_NAME);
    var empty := DeleteAt(fs, [], TMP_NAME).fs;
    FillsEmpty(empty, b, meta);
    CreateSame(empty, tmp, [], TMP_NAME, meta);
    var one := CreateAt(empty, [], TMP_NAME, meta).fs;
    WriteSame(one, tmp, [] + [TMP_NAME], [b]);
    f := WriteAt(one, [] + [TMP_NAME], [b]).fs;
  }

  lemma EndsWell(fs: Fs, p: Path, tmp: Path)
    requires ByteInTmp(fs) && SplitsTo(p, [], LETTER) && TmpOf(tmp, []) && ValidName(LETTER)
    ensures EndAmong(fs, p, tmp, LETTER, []).status.Ok?
  {
    RenamesTmp(fs);
    DeleteSame(fs, p, [], LETTER);
    RenameSame(fs, tmp, [], TMP_NAME, LETTER);
  }
}
