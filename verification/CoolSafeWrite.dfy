/** The replace protocol never loses the old file. */
module CoolSafeWrite {
  import opened Bytes
  import opened CoolTree
  import opened CoolPaths
  import opened CoolTreeInv
  import opened CoolTreeOps
  import opened CoolReplace

  // ---- The operations on components instead of strings ----------------------

  function DeleteAt(fs: Fs, pc: seq<Name>, name: Name): Outcome {
    var w := Walk(fs, pc);
    if w.Err? then Outcome(Err(w.error), fs) else DeleteIn(fs, w.value, name)
  }

  function CreateAt(fs: Fs, pc: seq<Name>, name: Name, meta: Meta): Outcome {
    var w := Walk(fs, pc);
    if w.Err? then Outcome(Err(w.error), fs) else CreateIn(fs, w.value, name, KindFile, meta)
  }

  function WriteAt(fs: Fs, comps: seq<Name>, data: seq<u8>): Outcome {
    var w := Walk(fs, comps);
    if w.Err? then Outcome(Err(w.error), fs) else WriteIn(fs, w.value, data)
  }

  function RenameAt(fs: Fs, pc: seq<Name>, oldName: Name, newName: Name): Outcome {
    var w := Walk(fs, pc);
    if NamesEqual(oldName, newName) then Outcome(Ok(()), fs)
    else if w.Err? then Outcome(Err(w.error), fs) else RenameIn(fs, w.value, oldName, newName)
  }

  function SafeAt(fs: Fs, pc: seq<Name>, name: Name, data: seq<u8>, meta: Meta): Outcome {
    var cleared := DeleteAt(fs, pc, TMP_NAME);
    if cleared.status.Err? && cleared.status.error != NotFound then cleared
    else
      var created := CreateAt(cleared.fs, pc, TMP_NAME, meta);
      if created.status.Err? then created else FillAt(created.fs, pc, name, data)
  }

  function FillAt(fs: Fs, pc: seq<Name>, name: Name, data: seq<u8>): Outcome {
    var filled := WriteAt(fs, pc + [TMP_NAME], data);
    if filled.status.Err? then filled else FinishAt(filled.fs, pc, name)
  }

  function FinishAt(fs: Fs, pc: seq<Name>, name: Name): Outcome {
    var removed := DeleteAt(fs, pc, name);
    if removed.status.Err? && removed.status.error != NotFound
    then Outcome(removed.status, DeleteAt(removed.fs, pc, TMP_NAME).fs)
    else RenameAt(removed.fs, pc, TMP_NAME, name)
  }

  ghost predicate SplitsTo(p: Path, pc: seq<Name>, name: Name) {
    SplitParentAndName(p).Ok? && SplitParentAndName(p).value.1 == name &&
    Components(SplitParentAndName(p).value.0) == pc && TrimAbsPath(SplitParentAndName(p).value.0).Ok?
  }

  lemma DeleteSame(fs: Fs, p: Path, pc: seq<Name>, name: Name)
    requires SplitsTo(p, pc, name)
    ensures DeleteFile(fs, p) == DeleteAt(fs, pc, name)
  {
    ResolveIsWalk(fs, SplitParentAndName(p).value.0);
  }

  lemma CreateSame(fs: Fs, p: Path, pc: seq<Name>, name: Name, meta: Meta)
    requires SplitsTo(p, pc, name)
    ensures CreateNode(fs, p, KindFile, meta) == CreateAt(fs, pc, name, meta)
  {
    ResolveIsWalk(fs, SplitParentAndName(p).value.0);
  }

  lemma RenameSame(fs: Fs, p: Path, pc: seq<Name>, name: Name, newName: Name)
    requires SplitsTo(p, pc, name) && ValidName(newName)
    ensures Rename(fs, p, newName) == RenameAt(fs, pc, name, newName)
  {
    ResolveIsWalk(fs, SplitParentAndName(p).value.0);
  }

  lemma WriteSame(fs: Fs, p: Path, comps: seq<Name>, data: seq<u8>)
    requires TrimAbsPath(p).Ok? && Components(p) == comps
    ensures WriteFile(fs, p, data) == WriteAt(fs, comps, data)
  {
    ResolveIsWalk(fs, p);
  }

  lemma SafeSplits(p: Path)
    requires SplitParentAndName(p).Ok?
    ensures var (parent, name) := SplitParentAndName(p).value;
      SplitsTo(p, Components(parent), name) && SplitsTo(TmpPath(parent), Components(parent), TMP_NAME) &&
      Components(p) == Components(parent) + [name] && ValidName(name) &&
      Components(TmpPath(parent)) == Components(parent) + [TMP_NAME] && TrimAbsPath(TmpPath(parent)).Ok?
  {
    SplitComponents(p);
    TmpComponents(SplitParentAndName(p).value.0);
  }

  lemma FinishSame(fs: Fs, p: Path, tmp: Path, pc: seq<Name>, name: Name)
    requires SplitsTo(p, pc, name) && SplitsTo(tmp, pc, TMP_NAME) && ValidName(name)
    ensures SafeFinish(fs, p, tmp, name) == FinishAt(fs, pc, name)
  {
    DeleteSame(fs, p, pc, name);
    var s := DeleteAt(fs, pc, name).fs;
    DeleteSame(s, tmp, pc, TMP_NAME);
    RenameSame(s, tmp, pc, TMP_NAME, name);
  }

  lemma ViaSame(fs: Fs, p: Path, tmp: Path, pc: seq<Name>, name: Name, data: seq<u8>, meta: Meta)
    requires SplitsTo(p, pc, name) && SplitsTo(tmp, pc, TMP_NAME) && ValidName(name)
    requires TrimAbsPath(tmp).Ok? && Components(tmp) == pc + [TMP_NAME]
    ensures SafeReplaceVia(fs, p, tmp, name, data, meta) == SafeAt(fs, pc, name, data, meta)
  {
    DeleteSame(fs, tmp, pc, TMP_NAME);
    var s1 := DeleteAt(fs, pc, TMP_NAME).fs;
    CreateSame(s1, tmp, pc, TMP_NAME, meta);
    FillSame(CreateAt(s1, pc, TMP_NAME, meta).fs, p, tmp, pc, name, data);
  }

  lemma FillSame(fs: Fs, p: Path, tmp: Path, pc: seq<Name>, name: Name, data: seq<u8>)
    requires SplitsTo(p, pc, name) && SplitsTo(tmp, pc, TMP_NAME) && ValidName(name)
    requires TrimAbsPath(tmp).Ok? && Components(tmp) == pc + [TMP_NAME]
    ensures SafeFill(fs, p, tmp, name, data) == FillAt(fs, pc, name, data)
  {
    WriteSame(fs, tmp, pc + [TMP_NAME], data);
    FinishSame(WriteAt(fs, pc + [TMP_NAME], data).fs, p, tmp, pc, name);
  }

  lemma SafeSame(fs: Fs, p: Path, data: seq<u8>, meta: Meta)
    requires SplitParentAndName(p).Ok?
    ensures var (parent, name) := SplitParentAndName(p).value;
      SafeWrite(fs, p, data, meta) == SafeAt(fs, Components(parent), name, data, meta)
  {
    SafeSplits(p);
    var (parent, name) := SplitParentAndName(p).value;
    ViaSame(fs, p, TmpPath(parent), Components(parent), name, data, meta);
  }

  // ---- What stays visible ----------------------------------------------------

  lemma DirAtPath(fs: Fs, fs': Fs, pc: seq<Name>, d: nat, name: Name, c: nat)
    requires TreeOk(fs) && Walk(fs, pc) == Ok(d) && EditAt(fs, fs', d, {Fold(name)}, c)
    ensures Walk(fs', pc) == Ok(d)
  {
    WalkAvoids(fs, fs', pc, d, {Fold(name)}, c, pc);
  }

  /** The name the record carries and the name asked for select the same edits. */
  lemma EditSameName(fs: Fs, fs': Fs, d: nat, a: Name, b: Name, c: nat)
    requires NamesEqual(a, b) && EditAt(fs, fs', d, {Fold(a)}, c)
    ensures EditAt(fs, fs', d, {Fold(b)}, c)
    ensures Step(fs, d, a) == Step(fs, d, b) && Step(fs', d, a) == Step(fs', d, b)
  {
    assert Fold(a) == Fold(b);
    FindFold(fs.nodes[d].entries, a, b);
    FindFold(fs'.nodes[d].entries, a, b);
  }

  lemma DeleteAtKeeps(fs: Fs, pc: seq<Name>, name: Name)
    requires TreeInv(fs)
    ensures TreeInv(DeleteAt(fs, pc, name).fs)
  {
    var w := Walk(fs, pc);
    if w.Ok? { DeleteInEffect(fs, w.value, name); }
  }

  lemma CreateAtKeeps(fs: Fs, pc: seq<Name>, name: Name, meta: Meta)
    requires TreeInv(fs) && ValidName(name)
    ensures TreeInv(CreateAt(fs, pc, name, meta).fs)
  {
    var w := Walk(fs, pc);
    if w.Ok? { CreateInEffect(fs, w.value, name, KindFile, meta); }
  }

  lemma WriteAtKeeps(fs: Fs, comps: seq<Name>, data: seq<u8>)
    requires TreeInv(fs)
    ensures TreeInv(WriteAt(fs, comps, data).fs)
  {
    var w := Walk(fs, comps);
    if w.Ok? { WriteInEffect(fs, w.value, data); }
  }

  lemma DeleteAtVisible(fs: Fs, pc: seq<Name>, name: Name, comps: seq<Name>)
    requires TreeInv(fs)
    ensures var out := DeleteAt(fs, pc, name);
      Walk(out.fs, pc) == Walk(fs, pc) &&
      (out.status.Err? ==> out.fs == fs) &&
      (out.status.Ok? ==> Observe(out.fs, pc + [name]) == Free) &&
      (!SamePath(comps, pc + [name]) ==> Observe(out.fs, comps) == Observe(fs, comps))
  {
    var w := Walk(fs, pc);
    if w.Ok? {
      var d := w.value;
      DeleteInEffect(fs, d, name);
      var out := DeleteIn(fs, d, name);
      if out.status.Ok? {
        var pos := Find(fs.nodes[d].entries, name);
        var e := fs.nodes[d].entries[pos];
        RemovedEdit(fs, out.fs, d, pos);
        EditSameName(fs, out.fs, d, e.name, name, e.inode);
        DirAtPath(fs, out.fs, pc, d, name, e.inode);
        WalkLast(out.fs, pc, name);
        if !SamePath(comps, pc + [name]) { OnlyThere(fs, out.fs, pc, d, name, e.inode, comps); }
      }
    }
  }

  lemma CreateAtVisible(fs: Fs, pc: seq<Name>, name: Name, meta: Meta, comps: seq<Name>)
    requires TreeInv(fs) && ValidName(name)
    ensures var out := CreateAt(fs, pc, name, meta);
      Walk(out.fs, pc) == Walk(fs, pc) &&
      (out.status.Err? ==> out.fs == fs) &&
      (out.status.Ok? ==> Observe(out.fs, pc + [name]) == NewNode(KindFile, meta)) &&
      (!SamePath(comps, pc + [name]) ==> Observe(out.fs, comps) == Observe(fs, comps))
  {
    var w := Walk(fs, pc);
    if w.Ok? {
      var d := w.value;
      CreateInEffect(fs, d, name, KindFile, meta);
      var out := CreateIn(fs, d, name, KindFile, meta);
      if out.status.Ok? {
        var i := FirstFreeInode(fs.nodes, 1);
        AddedEdit(fs, out.fs, d, Entry(i, name));
        DirAtPath(fs, out.fs, pc, d, name, i);
        WalkLast(out.fs, pc, name);
        if !SamePath(comps, pc + [name]) { OnlyThere(fs, out.fs, pc, d, name, i, comps); }
      }
    }
  }

  lemma WriteAtVisible(fs: Fs, pc: seq<Name>, name: Name, data: seq<u8>, comps: seq<Name>)
    requires TreeInv(fs)
    ensures var out := WriteAt(fs, pc + [name], data);
      Walk(out.fs, pc) == Walk(fs, pc) &&
      (out.status.Err? ==> out.fs == fs) &&
      (out.status.Ok? ==>
        Observe(fs, pc + [name]).File? && Observe(out.fs, pc + [name]) == File(data, Observe(fs, pc + [name]).meta)) &&
      (!SamePath(comps, pc + [name]) ==> Observe(out.fs, comps) == Observe(fs, comps))
  {
    WalkLast(fs, pc, name);
    var w := Walk(fs, pc + [name]);
    if w.Ok? {
      var d := Walk(fs, pc).value;
      WriteInEffect(fs, w.value, data);
      var out := WriteIn(fs, w.value, data);
      if out.status.Ok? { WrittenVisible(fs, out.fs, pc, d, name, w.value, data, comps); }
    }
  }

  lemma WrittenVisible(fs: Fs, fs': Fs, pc: seq<Name>, d: nat, name: Name, c: nat, data: seq<u8>, comps: seq<Name>)
    requires TreeOk(fs) && Walk(fs, pc) == Ok(d) && Step(fs, d, name) == Ok(c)
    requires c < |fs.nodes| && fs.nodes[c].File? && fs'.nodes == fs.nodes[c := File(data, fs.nodes[c].meta)]
    ensures Walk(fs', pc) == Ok(d) && Observe(fs', pc + [name]) == fs'.nodes[c]
    ensures !SamePath(comps, pc + [name]) ==> Observe(fs', comps) == Observe(fs, comps)
  {
    WrittenEdit(fs, fs', d, name, fs'.nodes[c]);
    DirAtPath(fs, fs', pc, d, name, c);
    WalkLast(fs', pc, name);
    if !SamePath(comps, pc + [name]) { OnlyThere(fs, fs', pc, d, name, c, comps); }
  }

  /** Neither name, nor anything below either. */
  lemma Elsewhere2(comps: seq<Name>, pc: seq<Name>, a: Name, b: Name)
    requires !SamePath(comps, pc + [a]) && !SamePath(comps, pc + [b])
    ensures Avoids(comps, pc, {Fold(a), Fold(b)}) ||
      (|comps| > |pc| + 1 && (SamePath(comps[..|pc| + 1], pc + [a]) || SamePath(comps[..|pc| + 1], pc + [b])))
  {
    Elsewhere(comps, pc, a);
    Elsewhere(comps, pc, b);
  }

  lemma RenameEverywhere(fs: Fs, fs': Fs, pc: seq<Name>, d: nat, a: Name, b: Name, c: nat, comps: seq<Name>)
    requires TreeOk(fs) && Walk(fs, pc) == Ok(d) && EditAt(fs, fs', d, {Fold(a), Fold(b)}, c)
    requires c < |fs.nodes| && fs.nodes[c].File? && fs'.nodes[c] == fs.nodes[c]
    requires Step(fs, d, a) == Ok(c) && Step(fs, d, b).Err? && Step(fs', d, a).Err? && Step(fs', d, b) == Ok(c)
    ensures Walk(fs', pc) == Ok(d)
    ensures Observe(fs', pc + [a]) == Free && Observe(fs', pc + [b]) == Observe(fs, pc + [a])
    ensures !SamePath(comps, pc + [a]) && !SamePath(comps, pc + [b]) ==> Observe(fs', comps) == Observe(fs, comps)
  {
    WalkAvoids(fs, fs', pc, d, {Fold(a), Fold(b)}, c, pc);
    WalkLast(fs, pc, a); WalkLast(fs, pc, b);
    WalkLast(fs', pc, a); WalkLast(fs', pc, b);
    if !SamePath(comps, pc + [a]) && !SamePath(comps, pc + [b]) {
      Elsewhere2(comps, pc, a, b);
      if Avoids(comps, pc, {Fold(a), Fold(b)}) {
        ObserveAvoids(fs, fs', pc, d, {Fold(a), Fold(b)}, c, comps);
      } else if SamePath(comps[..|pc| + 1], pc + [a]) {
        NothingBelow(fs, pc + [a], comps);
        NothingBelow(fs', pc + [a], comps);
      } else {
        NothingBelow(fs, pc + [b], comps);
        NothingBelow(fs', pc + [b], comps);
      }
    }
  }

  lemma RenameAtVisible(fs: Fs, pc: seq<Name>, a: Name, b: Name, comps: seq<Name>)
    requires TreeInv(fs) && ValidName(b) && !NamesEqual(a, b) && Observe(fs, pc + [a]).File?
    ensures var out := RenameAt(fs, pc, a, b);
      (out.status.Err? ==> out.fs == fs) &&
      (out.status.Ok? ==> Observe(out.fs, pc + [a]) == Free && Observe(out.fs, pc + [b]) == Observe(fs, pc + [a])) &&
      (!SamePath(comps, pc + [a]) && !SamePath(comps, pc + [b]) ==> Observe(out.fs, comps) == Observe(fs, comps))
  {
    WalkLast(fs, pc, a);
    var d := Walk(fs, pc).value;
    RenameInEffect(fs, d, a, b);
    var out := RenameIn(fs, d, a, b);
    if out.status.Ok? {
      var pos := Find(fs.nodes[d].entries, a);
      var e := fs.nodes[d].entries[pos];
      RenamedEdit(fs, out.fs, d, pos, b);
      assert Fold(e.name) == Fold(a);
      FindFold(fs.nodes[d].entries, e.name, a);
      FindFold(out.fs.nodes[d].entries, e.name, a);
      RenameEverywhere(fs, out.fs, pc, d, a, b, e.inode, comps);
    }
  }

  // ---- The key step ------------------------------------------------------------

  lemma RenameInSucceeds(fs: Fs, d: nat, a: Name, b: Name)
    requires d < |fs.nodes| && fs.nodes[d].Dir?
    requires Step(fs, d, a).Ok? && Step(fs, d, b).Err?
    requires Size(fs.nodes[d]) <= MAX_FILE_BYTES && Need(Size(fs.nodes[d])) <= fs.free
    ensures RenameIn(fs, d, a, b).status.Ok?
  {
  }

  /** Deleting a record needed the blocks that rewriting the shorter directory needs again, and gave back no fewer. */
  lemma DeletedLeavesRoom(fs: Fs, fs': Fs, d: nat, pos: nat)
    requires TreeInv(fs) && Deleted(fs, fs', d, pos)
    ensures Size(fs'.nodes[d]) <= MAX_FILE_BYTES && Need(Size(fs'.nodes[d])) <= fs'.free
  {
    var n := |fs.nodes[d].entries|;
    RemoveAtAt(fs.nodes[d].entries, pos);
    NeedMonotone(DIR_ENTRY_SIZE * (n - 1), DIR_ENTRY_SIZE * n);
    assert Size(fs.nodes[d]) <= MAX_FILE_BYTES;
  }

  /** Once the target is deleted, renaming the temporary cannot run out of space or collide. */
  lemma RenameCannotFail(fs: Fs, pc: seq<Name>, name: Name)
    requires TreeInv(fs) && !NamesEqual(name, TMP_NAME)
    requires DeleteAt(fs, pc, name).status.Ok? && Observe(fs, pc + [TMP_NAME]).File?
    ensures RenameAt(DeleteAt(fs, pc, name).fs, pc, TMP_NAME, name).status.Ok?
  {
    var d := Walk(fs, pc).value;
    var fs' := DeleteIn(fs, d, name).fs;
    assert Walk(fs', pc) == Ok(d) && Step(fs', d, TMP_NAME).Ok? by {
      DeleteAtVisible(fs, pc, name, pc + [TMP_NAME]);
      assert (pc + [TMP_NAME])[|pc|] == TMP_NAME && (pc + [name])[|pc|] == name;
      WalkLast(fs', pc, TMP_NAME);
    }
    DeleteInEffect(fs, d, name);
    var pos := Find(fs.nodes[d].entries, name);
    DeletedLeavesRoom(fs, fs', d, pos);
    assert UniqueNames(Entries(fs, d));
    FindRemoved(fs.nodes[d].entries, pos, name);
    RenameInSucceeds(fs', d, TMP_NAME, name);
  }

  // ---- The theorem ---------------------------------------------------------------

  lemma FinishVisible(fs: Fs, pc: seq<Name>, name: Name, comps: seq<Name>)
    requires TreeInv(fs) && ValidName(name) && !NamesEqual(name, TMP_NAME)
    requires Observe(fs, pc + [TMP_NAME]).File?
    ensures var out := FinishAt(fs, pc, name);
      (out.status.Ok? ==>
        Observe(out.fs, pc + [name]) == Observe(fs, pc + [TMP_NAME]) && Observe(out.fs, pc + [TMP_NAME]) == Free) &&
      (out.status.Err? ==> Observe(out.fs, pc + [name]) == Observe(fs, pc + [name])) &&
      (!SamePath(comps, pc + [name]) && !SamePath(comps, pc + [TMP_NAME]) ==>
        Observe(out.fs, comps) == Observe(fs, comps))
  {
    var p, t := pc + [name], pc + [TMP_NAME];
    assert p[|pc|] == name && t[|pc|] == TMP_NAME;
    assert !SamePath(p, t) && !SamePath(t, p);
    DeleteAtVisible(fs, pc, name, comps);
    DeleteAtVisible(fs, pc, name, t);
    DeleteAtKeeps(fs, pc, name);
    var removed := DeleteAt(fs, pc, name);
    if removed.status.Err? && removed.status.error != NotFound {
      DeleteAtVisible(fs, pc, TMP_NAME, comps);
      DeleteAtVisible(fs, pc, TMP_NAME, p);
    } else {
      RenameAtVisible(removed.fs, pc, TMP_NAME, name, comps);
      if removed.status.Ok? { RenameCannotFail(fs, pc, name); }
    }
  }

  lemma SafeAtVisible(fs: Fs, pc: seq<Name>, name: Name, data: seq<u8>, meta: Meta, comps: seq<Name>)
    requires TreeInv(fs) && ValidName(name) && !NamesEqual(name, TMP_NAME)
    ensures var out := SafeAt(fs, pc, name, data, meta);
      (out.status.Ok? ==>
        Observe(out.fs, pc + [name]) == File(data, meta.(mode := NormMode(KindFile, meta.mode))) &&
        Observe(out.fs, pc + [TMP_NAME]) == Free) &&
      (out.status.Err? ==> Observe(out.fs, pc + [name]) == Observe(fs, pc + [name])) &&
      (!SamePath(comps, pc + [name]) && !SamePath(comps, pc + [TMP_NAME]) ==>
        Observe(out.fs, comps) == Observe(fs, comps))
  {
    var p, t := pc + [name], pc + [TMP_NAME];
    assert p[|pc|] == name && t[|pc|] == TMP_NAME;
    assert !SamePath(p, t);
    TmpIsValid();
    DeleteAtVisible(fs, pc, TMP_NAME, comps);
    DeleteAtVisible(fs, pc, TMP_NAME, p);
    var cleared := DeleteAt(fs, pc, TMP_NAME);
    DeleteAtKeeps(fs, pc, TMP_NAME);
    CreateAtVisible(cleared.fs, pc, TMP_NAME, meta, comps);
    CreateAtVisible(cleared.fs, pc, TMP_NAME, meta, p);
    var created := CreateAt(cleared.fs, pc, TMP_NAME, meta);
    CreateAtKeeps(cleared.fs, pc, TMP_NAME, meta);
    WriteAtVisible(created.fs, pc, TMP_NAME, data, comps);
    WriteAtVisible(created.fs, pc, TMP_NAME, data, p);
    var filled := WriteAt(created.fs, t, data);
    WriteAtKeeps(created.fs, t, data);
    if !(cleared.status.Err? && cleared.status.error != NotFound) && created.status.Ok? && filled.status.Ok? {
      FinishVisible(filled.fs, pc, name, comps);
    }
  }

  /** On success the path holds exactly the new data; on failure it still shows what it showed before;
      and no path other than the target and the temporary changes.  For every tree, target (absent,
      file or directory), content and path `comps`, as long as the target is not the temporary's name. */
  lemma SafeReplace(fs: Fs, p: Path, data: seq<u8>, meta: Meta, comps: seq<Name>)
    requires TreeInv(fs) && SplitParentAndName(p).Ok?
    requires !NamesEqual(SplitParentAndName(p).value.1, TMP_NAME)
    ensures var out := SafeWrite(fs, p, data, meta);
      var tmp := Components(TmpPath(SplitParentAndName(p).value.0));
      (out.status.Ok? ==>
        Observe(out.fs, Components(p)) == File(data, meta.(mode := NormMode(KindFile, meta.mode))) &&
          Observe(out.fs, tmp) == Free) &&
      (out.status.Err? ==> Observe(out.fs, Components(p)) == Observe(fs, Components(p))) &&
      (!SamePath(comps, Components(p)) && !SamePath(comps, tmp) ==> Observe(out.fs, comps) == Observe(fs, comps))
  {
    var (parent, name) := SplitParentAndName(p).value;
    SafeSame(fs, p, data, meta);
    SafeSplits(p);
    SafeAtVisible(fs, Components(parent), name, data, meta, comps);
  }

  /** With the temporary's own name, in any case, success leaves nothing at the path: the target is the
      temporary, is deleted by the fourth step, and the rename to itself reports success. */
  lemma TmpNameIsLost(fs: Fs, p: Path, data: seq<u8>, meta: Meta)
    requires TreeInv(fs) && SplitParentAndName(p).Ok?
    requires NamesEqual(SplitParentAndName(p).value.1, TMP_NAME)
    requires SafeWrite(fs, p, data, meta).status.Ok?
    ensures Observe(SafeWrite(fs, p, data, meta).fs, Components(p)) == Free
  {
    SafeSame(fs, p, data, meta);
    SafeSplits(p);
    var (parent, name) := SplitParentAndName(p).value;
    TmpLostAt(fs, Components(parent), name, data, meta);
  }

  lemma TmpLostAt(fs: Fs, pc: seq<Name>, name: Name, data: seq<u8>, meta: Meta)
    requires TreeInv(fs) && NamesEqual(name, TMP_NAME) && SafeAt(fs, pc, name, data, meta).status.Ok?
    ensures Observe(SafeAt(fs, pc, name, data, meta).fs, pc + [name]) == Free
  {
    var s1 := DeleteAt(fs, pc, TMP_NAME).fs;
    var s2 := CreateAt(s1, pc, TMP_NAME, meta).fs;
    var s3 := WriteAt(s2, pc + [TMP_NAME], data).fs;
    assert SafeAt(fs, pc, name, data, meta) == FinishAt(s3, pc, name);
    TmpFilledKeeps(fs, pc, data, meta);
    FinishLost(s3, pc, name);
  }

  lemma TmpFilledKeeps(fs: Fs, pc: seq<Name>, data: seq<u8>, meta: Meta)
    requires TreeInv(fs)
    ensures TreeInv(WriteAt(CreateAt(DeleteAt(fs, pc, TMP_NAME).fs, pc, TMP_NAME, meta).fs, pc + [TMP_NAME], data).fs)
  {
    TmpIsValid();
    DeleteAtKeeps(fs, pc, TMP_NAME);
    var s1 := DeleteAt(fs, pc, TMP_NAME).fs;
    CreateAtKeeps(s1, pc, TMP_NAME, meta);
    WriteAtKeeps(CreateAt(s1, pc, TMP_NAME, meta).fs, pc + [TMP_NAME], data);
  }

  lemma FinishLost(fs: Fs, pc: seq<Name>, name: Name)
    requires TreeInv(fs) && NamesEqual(name, TMP_NAME)
    ensures FinishAt(fs, pc, name).status.Ok? ==> Observe(FinishAt(fs, pc, name).fs, pc + [name]) == Free
  {
    DeleteAtVisible(fs, pc, name, pc);
    if DeleteAt(fs, pc, name).status == Err(NotFound) { DeleteMissing(fs, pc, name); }
  }

  lemma StepMissing(fs: Fs, d: nat, name: Name)
    requires TreeOk(fs) && DeleteIn(fs, d, name).status == Err(NotFound)
    ensures Step(fs, d, name).Err?
  {
    if Step(fs, d, name).Ok? { var e := StepLink(fs, d, name); }
  }

  lemma DeleteMissing(fs: Fs, pc: seq<Name>, name: Name)
    requires TreeInv(fs) && DeleteAt(fs, pc, name).status == Err(NotFound)
    ensures Observe(fs, pc + [name]) == Free
  {
    WalkLast(fs, pc, name);
    if Walk(fs, pc).Ok? { StepMissing(fs, Walk(fs, pc).value, name); }
  }

  /** So a successful replacement shows the new file at its path if and only if the name is not the temporary's, in any
      case. */
  lemma SafeExact(fs: Fs, p: Path, data: seq<u8>, meta: Meta)
    requires TreeInv(fs) && SplitParentAndName(p).Ok? && SafeWrite(fs, p, data, meta).status.Ok?
    ensures var want := File(data, meta.(mode := NormMode(KindFile, meta.mode)));
      Observe(SafeWrite(fs, p, data, meta).fs, Components(p)) == want <==>
      !NamesEqual(SplitParentAndName(p).value.1, TMP_NAME)
  {
    if NamesEqual(SplitParentAndName(p).value.1, TMP_NAME) {
      TmpNameIsLost(fs, p, data, meta);
    } else {
      SafeReplace(fs, p, data, meta, []);
    }
  }

  /** It does happen: on a freshly formatted image, replacing /CWTMP.TMP succeeds and leaves nothing there. */
  lemma TmpNameExample(meta: Meta)
    ensures var out := SafeWrite(Formatted(), [SLASH] + TMP_NAME, [], meta);
      out.status.Ok? && Observe(out.fs, Components([SLASH] + TMP_NAME)) == Free
  {
    FormattedOk();
    TmpLostIn(Formatted(), meta);
  }

  lemma TmpLostIn(fs: Fs, meta: Meta)
    requires TreeInv(fs) && fs.nodes[0].Dir? && fs.nodes[0].entries == [] && fs.nodes[1].Free? && fs.free >= 1
    ensures var out := SafeWrite(fs, [SLASH] + TMP_NAME, [], meta);
      out.status.Ok? && Observe(out.fs, Components([SLASH] + TMP_NAME)) == Free
  {
    var p := [SLASH] + TMP_NAME;
    TmpInRoot();
    assert SafeWrite(fs, p, [], meta).status.Ok? by {
      SafeSame(fs, p, [], meta);
      TmpSucceeds(fs, meta);
    }
    TmpNameIsLost(fs, p, [], meta);
  }

  lemma TmpSucceeds(fs: Fs, meta: Meta)
    requires |fs.nodes| >= 2 && fs.nodes[0].Dir? && fs.nodes[0].entries == [] && fs.nodes[1].Free? && fs.free >= 1
    ensures SafeAt(fs, [], TMP_NAME, [], meta).status.Ok?
  {
    var entries := [Entry(1, TMP_NAME)];
    assert [] + entries == entries;
    var created := CreateAt(fs, [], TMP_NAME, meta);
    assert created.status.Ok? && created.fs.nodes[0].Dir? && created.fs.nodes[0].entries == entries;
    assert Find(entries, TMP_NAME) == 0;
    WalkLast(created.fs, [], TMP_NAME);
    var filled := WriteAt(created.fs, [] + [TMP_NAME], []);
    assert filled.status.Ok? && filled.fs.nodes[0] == created.fs.nodes[0] && filled.fs.nodes[1].File?;
    assert RemoveAt(entries, 0) == [];
  }

  /** What the temporary's own name shows after a replacement, by the step that ended it. */
  lemma TmpShows(fs: Fs, pc: seq<Name>, name: Name, data: seq<u8>, meta: Meta)
    requires TreeInv(fs) && NamesEqual(name, TMP_NAME)
    ensures var out := SafeAt(fs, pc, name, data, meta);
      var at := Observe(out.fs, pc + [name]);
      var cleared := DeleteAt(fs, pc, TMP_NAME);
      if cleared.status.Err? && cleared.status.error != NotFound then out == cleared && at == Observe(fs, pc + [name])
      else if CreateAt(cleared.fs, pc, TMP_NAME, meta).status.Err? then at == Free
      else if WriteAt(CreateAt(cleared.fs, pc, TMP_NAME, meta).fs, pc + [TMP_NAME], data).status.Err?
      then at == NewNode(KindFile, meta)
      else if out.status.Err? then at == File(data, NewNode(KindFile, meta).meta) else at == Free
  {
    TmpIsValid();
    SameName(pc, name, TMP_NAME);
    var cleared := DeleteAt(fs, pc, TMP_NAME);
    DeleteAtKeeps(fs, pc, TMP_NAME);
    DeleteAtVisible(fs, pc, TMP_NAME, pc);
    if cleared.status.Ok? || cleared.status.error == NotFound {
      if cleared.status.Err? { DeleteMissing(fs, pc, TMP_NAME); }
      ObserveFold(cleared.fs, pc, name, TMP_NAME);
      var created := CreateAt(cleared.fs, pc, TMP_NAME, meta);
      CreateAtKeeps(cleared.fs, pc, TMP_NAME, meta);
      CreateAtVisible(cleared.fs, pc, TMP_NAME, meta, pc);
      if created.status.Ok? { TmpFillShows(created.fs, pc, name, data); }
    }
  }

  lemma TmpFillShows(fs: Fs, pc: seq<Name>, name: Name, data: seq<u8>)
    requires TreeInv(fs) && NamesEqual(name, TMP_NAME) && Observe(fs, pc + [TMP_NAME]).File?
    ensures var out := FillAt(fs, pc, name, data);
      var at := Observe(out.fs, pc + [name]);
      if WriteAt(fs, pc + [TMP_NAME], data).status.Err? then at == Observe(fs, pc + [TMP_NAME])
      else if out.status.Err? then at == File(data, Observe(fs, pc + [TMP_NAME]).meta) else at == Free
  {
    var filled := WriteAt(fs, pc + [TMP_NAME], data);
    WriteAtKeeps(fs, pc + [TMP_NAME], data);
    WriteAtVisible(fs, pc, TMP_NAME, data, pc);
    ObserveFold(filled.fs, pc, name, TMP_NAME);
    if filled.status.Ok? {
      FinishLost(filled.fs, pc, name);
      DeleteFold(filled.fs, pc, name, TMP_NAME);
      DeleteAtVisible(filled.fs, pc, name, pc);
    }
  }

  lemma SameName(pc: seq<Name>, a: Name, b: Name)
    requires NamesEqual(a, b)
    ensures SamePath(pc + [a], pc + [b])
  {
  }

  lemma ObserveFold(fs: Fs, pc: seq<Name>, a: Name, b: Name)
    requires NamesEqual(a, b)
    ensures Observe(fs, pc + [a]) == Observe(fs, pc + [b])
  {
    SameName(pc, a, b);
    WalkFold(fs, pc + [a], pc + [b]);
  }

  lemma DeleteFold(fs: Fs, pc: seq<Name>, a: Name, b: Name)
    requires NamesEqual(a, b)
    ensures DeleteAt(fs, pc, a) == DeleteAt(fs, pc, b)
  {
    var w := Walk(fs, pc);
    if w.Ok? { FindFold(Entries(fs, w.value), a, b); }
  }

  /** With that name a failure can lose the file too: an old file that is neither empty nor the new data stays if and
      only if the parent directory with one record fewer needs more blocks than are free, so that the very first step,
      which deletes the file, fails. */
  lemma TmpErrExact(fs: Fs, p: Path, data: seq<u8>, meta: Meta)
    requires TreeInv(fs) && SplitParentAndName(p).Ok? && NamesEqual(SplitParentAndName(p).value.1, TMP_NAME)
    requires SafeWrite(fs, p, data, meta).status.Err?
    requires var was := Observe(fs, Components(p)); was.File? && was.bytes != [] && was.bytes != data
    ensures Observe(SafeWrite(fs, p, data, meta).fs, Components(p)) == Observe(fs, Components(p)) <==>
      NoRoom(fs, Components(SplitParentAndName(p).value.0))
  {
    SafeSame(fs, p, data, meta);
    SafeSplits(p);
    var (parent, name) := SplitParentAndName(p).value;
    TmpErrAt(fs, Components(parent), name, data, meta);
  }

  lemma TmpErrAt(fs: Fs, pc: seq<Name>, name: Name, data: seq<u8>, meta: Meta)
    requires TreeInv(fs) && NamesEqual(name, TMP_NAME) && SafeAt(fs, pc, name, data, meta).status.Err?
    requires var was := Observe(fs, pc + [name]); was.File? && was.bytes != [] && was.bytes != data
    ensures Observe(SafeAt(fs, pc, name, data, meta).fs, pc + [name]) == Observe(fs, pc + [name]) <==> NoRoom(fs, pc)
  {
    TmpShows(fs, pc, name, data, meta);
    ObserveFold(fs, pc, name, TMP_NAME);
    DeleteExact(fs, pc, TMP_NAME);
  }

  /** The directory at `pc` with one record fewer needs more blocks than are free. */
  predicate NoRoom(fs: Fs, pc: seq<Name>) {
    Walk(fs, pc).Ok? && Tight(fs, |Entries(fs, Walk(fs, pc).value)| - 1)
  }

  predicate Tight(fs: Fs, records: int) { records >= 0 && Need(DIR_ENTRY_SIZE * records) > fs.free }

  /** A file can be deleted if and only if its directory with one record fewer fits beside what is there. */
  lemma DeleteExact(fs: Fs, pc: seq<Name>, name: Name)
    requires TreeInv(fs) && Observe(fs, pc + [name]).File?
    ensures DeleteAt(fs, pc, name).status == if NoRoom(fs, pc) then Err(NoSpace) else Ok(())
  {
    WalkLast(fs, pc, name);
    var d := Walk(fs, pc).value;
    assert d < |fs.nodes| && Size(fs.nodes[d]) <= MAX_FILE_BYTES;
    DeleteInExact(fs, d, name);
  }

  lemma DeleteInExact(fs: Fs, d: nat, name: Name)
    requires d < |fs.nodes| && Size(fs.nodes[d]) <= MAX_FILE_BYTES && Step(fs, d, name).Ok?
    requires var i := Step(fs, d, name).value; i < |fs.nodes| && fs.nodes[i].File?
    ensures DeleteIn(fs, d, name).status == if Tight(fs, |Entries(fs, d)| - 1) then Err(NoSpace) else Ok(())
  {
    RemoveAtAt(fs.nodes[d].entries, Find(fs.nodes[d].entries, name));
  }

  /** It does happen: data no file can hold, over a one-byte file of that name in an otherwise empty root. */
  lemma TmpErrExample(meta: Meta, data: seq<u8>) returns (fs: Fs)
    requires |data| > MAX_FILE_BYTES
    ensures TreeInv(fs) && OnlyTmp(fs) && fs.nodes[1].bytes == [1]
    ensures var out := SafeWrite(fs, [SLASH] + TMP_NAME, data, meta);
      out.status == Err(NoSpace) && Observe(out.fs, [TMP_NAME]) != Observe(fs, [TMP_NAME]) == fs.nodes[1]
  {
    FormattedOk();
    TmpIsValid();
    var one := CreateAt(Formatted(), [], TMP_NAME, meta).fs;
    CreateAtKeeps(Formatted(), [], TMP_NAME, meta);
    OneFile(Formatted(), meta);
    WriteAtKeeps(one, [TMP_NAME], [1]);
    fs := WriteAt(one, [TMP_NAME], [1]).fs;
    LosesOnly(fs, meta, data);
  }

  lemma LosesOnly(fs: Fs, meta: Meta, data: seq<u8>)
    requires TreeInv(fs) && OnlyTmp(fs) && fs.nodes[1].bytes == [1] && Observe(fs, [TMP_NAME]) == fs.nodes[1] &&
      |data| > MAX_FILE_BYTES
    ensures var out := SafeWrite(fs, [SLASH] + TMP_NAME, data, meta);
      out.status == Err(NoSpace) && Observe(out.fs, [TMP_NAME]) != Observe(fs, [TMP_NAME])
  {
    var p := [SLASH] + TMP_NAME;
    TmpInRoot();
    SafeSame(fs, p, data, meta);
    DeleteOnly(fs, meta, data);
    TmpShows(fs, [], TMP_NAME, data, meta);
    assert [] + [TMP_NAME] == [TMP_NAME];
  }

  lemma TmpInRoot()
    ensures SplitParentAndName([SLASH] + TMP_NAME) == Ok(([SLASH], TMP_NAME)) && Components([SLASH]) == []
  {
    TmpIsValid();
    assert [] + [SLASH] + TMP_NAME == [SLASH] + TMP_NAME;
    SplitAt([], TMP_NAME);
    RootComponents();
  }

  /** A root that holds one file, the temporary. */
  ghost predicate OnlyTmp(fs: Fs) {
    |fs.nodes| >= 2 && fs.nodes[0].Dir? && fs.nodes[0].entries == [Entry(1, TMP_NAME)] && fs.nodes[1].File?
  }

  lemma OneFile(fs: Fs, meta: Meta)
    requires |fs.nodes| >= 2 && fs.nodes[0].Dir? && fs.nodes[0].entries == [] && fs.nodes[1].Free? && fs.free >= 2
    ensures var one := CreateAt(fs, [], TMP_NAME, meta);
      one.status.Ok? && OnlyTmp(one.fs) && one.fs.free >= 1 &&
      var two := WriteAt(one.fs, [TMP_NAME], [1]);
      two.status.Ok? && OnlyTmp(two.fs) && Observe(two.fs, [TMP_NAME]) == two.fs.nodes[1] &&
        two.fs.nodes[1].bytes == [1]
  {
    var entries := [Entry(1, TMP_NAME)];
    assert [] + entries == entries && [] + [TMP_NAME] == [TMP_NAME];
    assert Find(entries, TMP_NAME) == 0;
    var one := CreateAt(fs, [], TMP_NAME, meta);
    WalkLast(one.fs, [], TMP_NAME);
    WalkLast(WriteAt(one.fs, [TMP_NAME], [1]).fs, [], TMP_NAME);
  }

  lemma DeleteOnly(fs: Fs, meta: Meta, data: seq<u8>)
    requires OnlyTmp(fs) && |data| > MAX_FILE_BYTES && Need(Size(fs.nodes[1])) >= 1
    ensures DeleteAt(fs, [], TMP_NAME).status.Ok? && SafeAt(fs, [], TMP_NAME, data, meta).status == Err(NoSpace)
  {
    var entries := [Entry(1, TMP_NAME)];
    assert Find(entries, TMP_NAME) == 0 && RemoveAt(entries, 0) == [];
    var cleared := DeleteAt(fs, [], TMP_NAME);
    assert cleared.status.Ok? && cleared.fs.nodes[0].entries == [] && cleared.fs.nodes[1].Free? && cleared.fs.free >= 1;
    assert [] + entries == entries && [] + [TMP_NAME] == [TMP_NAME];
    var created := CreateAt(cleared.fs, [], TMP_NAME, meta);
    WalkLast(created.fs, [], TMP_NAME);
  }
}
