/**
 CoolFS as its callers see it: a table of nodes, each a file with its bytes or a
 directory with its records, plus the number of free data blocks.  Every public
 operation is a function of this state.
 */
module CoolTree {
  import opened Bytes
  import opened CoolGeometry

  const MAX_FILE_BYTES := (DIRECT_BLOCKS + INDIRECT_ENTRIES) * BLOCK_SIZE
  const DATA_BLOCKS := TOTAL_BLOCKS - DATA_START
  const DIR_ENTRY_SIZE := 32
  const MAX_NAME_LEN := 27
  const ROOT_INODE := 0
  const SLASH: u8 := 0x2F
  const TMP_NAME: Name := [0x43, 0x57, 0x54, 0x4D, 0x50, 0x2E, 0x54, 0x4D, 0x50]

  type Name = seq<u8>
  type Path = seq<u8>

  datatype FsError = AlreadyExists | InvalidPath | Io | NoSpace | NotDirectory | NotEmpty | NotFound | UnsupportedName
  datatype Result<+T> = Ok(value: T) | Err(error: FsError)
  datatype Entry = Entry(inode: nat, name: Name)
  datatype Meta = Meta(uid: u32, gid: u32, mode: u16)
  datatype Kind = KindFile | KindDir
  datatype Node = Free | File(bytes: seq<u8>, meta: Meta) | Dir(entries: seq<Entry>, meta: Meta)
  datatype Fs = Fs(nodes: seq<Node>, free: nat)
  datatype Outcome = Outcome(status: Result<()>, fs: Fs)

  // ---- Space ---------------------------------------------------------------

  /** Data blocks plus the indirect block that `size` bytes occupy. */
  function Need(size: nat): nat {
    var n := DivUp(size, BLOCK_SIZE);
    if n > DIRECT_BLOCKS then n + 1 else n
  }

  function Size(node: Node): nat {
    match node
    case Free => 0
    case File(bytes, _) => |bytes|
    case Dir(entries, _) => DIR_ENTRY_SIZE * |entries|
  }

  function TotalNeed(nodes: seq<Node>): nat {
    if nodes == [] then 0 else TotalNeed(nodes[..|nodes| - 1]) + Need(Size(nodes[|nodes| - 1]))
  }

  lemma TotalNeedUpdate(nodes: seq<Node>, i: nat, node: Node)
    requires i < |nodes|
    ensures TotalNeed(nodes[i := node]) == TotalNeed(nodes) - Need(Size(nodes[i])) + Need(Size(node))
  {
    var last := |nodes| - 1;
    if i == last {
      assert nodes[i := node][..last] == nodes[..last];
    } else {
      assert nodes[i := node][..last] == nodes[..last][i := node];
      TotalNeedUpdate(nodes[..last], i, node);
    }
  }

  lemma NeedMonotone(a: nat, b: nat)
    requires a <= b
    ensures Need(a) <= Need(b)
  {
  }

  /** Replace the content of node `i`: the new blocks are taken while the old ones are still held. */
  function Store(fs: Fs, i: nat, node: Node): Outcome
    requires i < |fs.nodes|
  {
    if Size(node) > MAX_FILE_BYTES || Need(Size(node)) > fs.free then Outcome(Err(NoSpace), fs)
    else Outcome(Ok(()), Fs(fs.nodes[i := node], fs.free - Need(Size(node)) + Need(Size(fs.nodes[i]))))
  }

  function Release(fs: Fs, i: nat): Fs
    requires i < |fs.nodes|
  {
    Fs(fs.nodes[i := Free], fs.free + Need(Size(fs.nodes[i])))
  }

  // ---- Names and paths -----------------------------------------------------

  function FoldByte(b: u8): u8 { if 0x41 <= b <= 0x5A then b + 0x20 else b }

  /** The ASCII case folding under which names are compared. */
  function Fold(name: Name): Name {
    seq(|name|, i requires 0 <= i < |name| => FoldByte(name[i]))
  }

  predicate NamesEqual(a: Name, b: Name) { Fold(a) == Fold(b) }

  predicate ValidName(name: Name) {
    0 < |name| <= MAX_NAME_LEN && name != [0x2E] && name != [0x2E, 0x2E] &&
    forall i :: 0 <= i < |name| ==> 0x20 <= name[i] <= 0x7E && name[i] != SLASH
  }

  function FirstSlash(p: Path): (k: nat)
    ensures k <= |p|
    ensures forall i :: 0 <= i < k ==> p[i] != SLASH
    ensures k < |p| ==> p[k] == SLASH
  {
    if p == [] || p[0] == SLASH then 0 else 1 + FirstSlash(p[1..])
  }

  /** The nonempty parts between slashes. */
  function Components(p: Path): seq<Name>
    decreases |p|
  {
    var k := FirstSlash(p);
    var rest := if k == |p| then [] else Components(p[k + 1..]);
    (if k == 0 then [] else [p[..k]]) + rest
  }

  function TrimSlashes(p: Path): (r: Path)
    ensures r <= p
  {
    if |p| > 1 && p[|p| - 1] == SLASH then TrimSlashes(p[..|p| - 1]) else p
  }

  function TrimAbsPath(p: Path): Result<Path> {
    if p == [] || p[0] != SLASH then Err(InvalidPath) else Ok(TrimSlashes(p))
  }

  function LastSlash(p: Path): (k: nat)
    requires SLASH in p
    ensures k < |p| && p[k] == SLASH
    ensures forall i :: k < i < |p| ==> p[i] != SLASH
  {
    if p[|p| - 1] == SLASH then |p| - 1 else LastSlash(p[..|p| - 1])
  }

  function SplitParentAndName(p: Path): (r: Result<(Path, Name)>)
    ensures r.Ok? ==> ValidName(r.value.1)
  {
    match TrimAbsPath(p)
    case Err(e) => Err(e)
    case Ok(t) =>
      if t == [SLASH] then Err(InvalidPath)
      else if SLASH !in t then Err(InvalidPath)
      else
        var k := LastSlash(t);
        var parent := if k == 0 then [SLASH] else t[..k];
        var name := t[k + 1..];
        if ValidName(name) then Ok((parent, name)) else Err(UnsupportedName)
  }

  // ---- Lookup --------------------------------------------------------------

  function Entries(fs: Fs, d: nat): seq<Entry> {
    if d < |fs.nodes| && fs.nodes[d].Dir? then fs.nodes[d].entries else []
  }

  /** Position of the first record with this name, ignoring case; the length if there is none. */
  function Find(entries: seq<Entry>, name: Name): (k: nat)
    ensures k <= |entries|
    ensures k < |entries| ==> NamesEqual(entries[k].name, name)
    ensures forall i :: 0 <= i < k ==> !NamesEqual(entries[i].name, name)
  {
    if entries == [] then 0
    else if NamesEqual(entries[0].name, name) then 0
    else 1 + Find(entries[1..], name)
  }

  function Step(fs: Fs, i: nat, name: Name): Result<nat> {
    if i >= |fs.nodes| then Err(NotFound)
    else if !fs.nodes[i].Dir? then Err(NotDirectory)
    else
      var k := Find(fs.nodes[i].entries, name);
      if k == |fs.nodes[i].entries| then Err(NotFound) else Ok(fs.nodes[i].entries[k].inode)
  }

  function Walk(fs: Fs, comps: seq<Name>): Result<nat> {
    if comps == [] then Ok(ROOT_INODE)
    else match Walk(fs, comps[..|comps| - 1])
      case Err(e) => Err(e)
      case Ok(i) => Step(fs, i, comps[|comps| - 1])
  }

  function ResolvePath(fs: Fs, p: Path): Result<nat> {
    match TrimAbsPath(p)
    case Err(e) => Err(e)
    case Ok(t) => Walk(fs, Components(t))
  }

  /** What a path shows: a file with its bytes and metadata, a directory with its metadata, or nothing. */
  function Observe(fs: Fs, comps: seq<Name>): Node {
    match Walk(fs, comps)
    case Err(_) => Free
    case Ok(i) => if i < |fs.nodes| then Shape(fs.nodes[i]) else Free
  }

  function Shape(node: Node): Node {
    if node.Dir? then Dir([], node.meta) else node
  }

  // ---- Operations ----------------------------------------------------------

  function NormMode(kind: Kind, mode: nat): u16 {
    if mode % 512 != 0 then mode % 512
    else if kind.KindDir? then DEFAULT_DIR_MODE
    else DEFAULT_FILE_MODE
  }

  function NewNode(kind: Kind, meta: Meta): Node {
    var m := meta.(mode := NormMode(kind, meta.mode));
    if kind.KindDir? then Dir([], m) else File([], m)
  }

  /** The first free inode from 1 on; INODE_COUNT if the table is full. */
  function FirstFreeInode(nodes: seq<Node>, from: nat): (i: nat)
    requires from <= |nodes|
    ensures from <= i <= |nodes|
    ensures i < |nodes| ==> nodes[i].Free?
    ensures forall k :: from <= k < i ==> !nodes[k].Free?
    decreases |nodes| - from
  {
    if from == |nodes| || nodes[from].Free? then from else FirstFreeInode(nodes, from + 1)
  }

  function CreateNode(fs: Fs, p: Path, kind: Kind, meta: Meta): Outcome {
    match SplitParentAndName(p)
    case Err(e) => Outcome(Err(e), fs)
    case Ok((parent, name)) =>
      match ResolvePath(fs, parent)
      case Err(e) => Outcome(Err(e), fs)
      case Ok(d) => CreateIn(fs, d, name, kind, meta)
  }

  function CreateIn(fs: Fs, d: nat, name: Name, kind: Kind, meta: Meta): Outcome {
    if d >= |fs.nodes| then Outcome(Err(NotFound), fs)
    else if !fs.nodes[d].Dir? then Outcome(Err(NotDirectory), fs)
    else
      var entries := fs.nodes[d].entries;
      if Find(entries, name) < |entries| then Outcome(Err(AlreadyExists), fs)
      else
        var i := if |fs.nodes| == 0 then 0 else FirstFreeInode(fs.nodes, 1);
        if i == |fs.nodes| then Outcome(Err(NoSpace), fs)
        else
          var made := fs.(nodes := fs.nodes[i := NewNode(kind, meta)]);
          var out := Store(made, d, Dir(entries + [Entry(i, name)], fs.nodes[d].meta));
          if out.status.Err? then Outcome(out.status, Release(out.fs, i)) else out
  }

  function RemoveAt<T>(s: seq<T>, k: nat): seq<T>
    requires k < |s|
  {
    s[..k] + s[k + 1..]
  }

  function DeleteFile(fs: Fs, p: Path): Outcome {
    match SplitParentAndName(p)
    case Err(e) => Outcome(Err(e), fs)
    case Ok((parent, name)) =>
      match ResolvePath(fs, parent)
      case Err(e) => Outcome(Err(e), fs)
      case Ok(d) => DeleteIn(fs, d, name)
  }

  function DeleteIn(fs: Fs, d: nat, name: Name): Outcome {
    if d >= |fs.nodes| then Outcome(Err(NotFound), fs)
    else if !fs.nodes[d].Dir? then Outcome(Err(NotDirectory), fs)
    else
      var entries := fs.nodes[d].entries;
      var pos := Find(entries, name);
      if pos == |entries| then Outcome(Err(NotFound), fs)
      else
        var t := entries[pos].inode;
        if t >= |fs.nodes| then Outcome(Err(NotFound), fs)
        else if fs.nodes[t].Dir? && fs.nodes[t].entries != [] then Outcome(Err(NotEmpty), fs)
        else
          var out := Store(fs, d, Dir(RemoveAt(entries, pos), fs.nodes[d].meta));
          if out.status.Err? then out else Outcome(Ok(()), Release(out.fs, t))
  }

  function Rename(fs: Fs, p: Path, newName: Name): Outcome {
    if !ValidName(newName) then Outcome(Err(UnsupportedName), fs)
    else match SplitParentAndName(p)
      case Err(e) => Outcome(Err(e), fs)
      case Ok((parent, oldName)) =>
        if NamesEqual(oldName, newName) then Outcome(Ok(()), fs)
        else match ResolvePath(fs, parent)
          case Err(e) => Outcome(Err(e), fs)
          case Ok(d) => RenameIn(fs, d, oldName, newName)
  }

  function RenameIn(fs: Fs, d: nat, oldName: Name, newName: Name): Outcome {
    if d >= |fs.nodes| then Outcome(Err(NotFound), fs)
    else if !fs.nodes[d].Dir? then Outcome(Err(NotDirectory), fs)
    else
      var entries := fs.nodes[d].entries;
      if Find(entries, newName) < |entries| then Outcome(Err(AlreadyExists), fs)
      else
        var pos := Find(entries, oldName);
        if pos == |entries| then Outcome(Err(NotFound), fs)
        else Store(fs, d, Dir(entries[pos := entries[pos].(name := newName)], fs.nodes[d].meta))
  }

  function WriteFile(fs: Fs, p: Path, data: seq<u8>): Outcome {
    match ResolvePath(fs, p)
    case Err(e) => Outcome(Err(e), fs)
    case Ok(i) => WriteIn(fs, i, data)
  }

  function WriteIn(fs: Fs, i: nat, data: seq<u8>): Outcome {
    if i >= |fs.nodes| then Outcome(Err(NotFound), fs)
    else if !fs.nodes[i].File? then Outcome(Err(InvalidPath), fs)
    else Store(fs, i, File(data, fs.nodes[i].meta))
  }

  function ReadFile(fs: Fs, p: Path): Result<seq<u8>> {
    match ResolvePath(fs, p)
    case Err(e) => Err(e)
    case Ok(i) => if i < |fs.nodes| && fs.nodes[i].File? then Ok(fs.nodes[i].bytes) else Err(NotFound)
  }

  function SetMeta(fs: Fs, p: Path, change: Meta -> Meta): Outcome {
    match ResolvePath(fs, p)
    case Err(e) => Outcome(Err(e), fs)
    case Ok(i) => SetMetaIn(fs, i, change)
  }

  function SetMetaIn(fs: Fs, i: nat, change: Meta -> Meta): Outcome {
    if i >= |fs.nodes| || fs.nodes[i].Free? then Outcome(Err(NotFound), fs)
    else Outcome(Ok(()), fs.(nodes := fs.nodes[i := WithMeta(fs.nodes[i], change(fs.nodes[i].meta))]))
  }

  function WithMeta(node: Node, meta: Meta): Node
    requires !node.Free?
  {
    var kind := if node.Dir? then KindDir else KindFile;
    var m := meta.(mode := NormMode(kind, meta.mode));
    if node.Dir? then Dir(node.entries, m) else File(node.bytes, m)
  }

  function NewMode(mode: u16): Meta -> Meta { (m: Meta) => m.(mode := mode) }

  function NewOwner(uid: u32, gid: u32): Meta -> Meta { (m: Meta) => m.(uid := uid, gid := gid) }

  function Chmod(fs: Fs, p: Path, mode: u16): Outcome { SetMeta(fs, p, NewMode(mode)) }

  function Chown(fs: Fs, p: Path, uid: u32, gid: u32): Outcome { SetMeta(fs, p, NewOwner(uid, gid)) }

  function WithSlash(parent: Path): Path {
    if parent != [] && parent[|parent| - 1] == SLASH then parent else parent + [SLASH]
  }

  function TmpPath(parent: Path): Path { WithSlash(parent) + TMP_NAME }

  /** Replace a file through a temporary: delete the temporary, create it, fill it, delete the target, rename. */
  function SafeWrite(fs: Fs, p: Path, data: seq<u8>, meta: Meta): Outcome {
    match SplitParentAndName(p)
    case Err(e) => Outcome(Err(e), fs)
    case Ok((parent, name)) => SafeReplaceVia(fs, p, TmpPath(parent), name, data, meta)
  }

  function SafeReplaceVia(fs: Fs, p: Path, tmp: Path, name: Name, data: seq<u8>, meta: Meta): Outcome {
    var cleared := DeleteFile(fs, tmp);
    if cleared.status.Err? && cleared.status.error != NotFound then cleared
    else
      var created := CreateNode(cleared.fs, tmp, KindFile, meta);
      if created.status.Err? then created else SafeFill(created.fs, p, tmp, name, data)
  }

  function SafeFill(fs: Fs, p: Path, tmp: Path, name: Name, data: seq<u8>): Outcome {
    var filled := WriteFile(fs, tmp, data);
    if filled.status.Err? then filled else SafeFinish(filled.fs, p, tmp, name)
  }

  /** The last two steps, with the temporary filled. */
  function SafeFinish(fs: Fs, p: Path, tmp: Path, name: Name): Outcome {
    var removed := DeleteFile(fs, p);
    if removed.status.Err? && removed.status.error != NotFound
    then Outcome(removed.status, DeleteFile(removed.fs, tmp).fs)
    else Rename(removed.fs, tmp, name)
  }
}
