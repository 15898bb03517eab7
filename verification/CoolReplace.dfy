/** What each operation leaves visible at every path, and the safe replacement of a file. */
module CoolReplace {
  import opened CoolTree
  import opened CoolTreeInv
  import opened CoolTreeOps

  /** Paths that differ only in ASCII case. */
  ghost predicate SamePath(a: seq<Name>, b: seq<Name>) {
    |a| == |b| && forall i :: 0 <= i < |a| ==> NamesEqual(a[i], b[i])
  }

  lemma FindFold(entries: seq<Entry>, a: Name, b: Name)
    requires NamesEqual(a, b)
    ensures Find(entries, a) == Find(entries, b)
  {
  }

  lemma {:induction false} WalkFold(fs: Fs, a: seq<Name>, b: seq<Name>)
    requires SamePath(a, b)
    ensures Walk(fs, a) == Walk(fs, b)
    decreases |a|
  {
    if a != [] {
      var n := |a| - 1;
      WalkFold(fs, a[..n], b[..n]);
      var w := Walk(fs, a[..n]);
      if w.Ok? && w.value < |fs.nodes| && fs.nodes[w.value].Dir? {
        FindFold(fs.nodes[w.value].entries, a[n], b[n]);
      }
    }
  }

  lemma NotRoot(fs: Fs, comps: seq<Name>)
    requires TreeOk(fs) && comps != [] && Walk(fs, comps).Ok?
    ensures Walk(fs, comps).value != ROOT_INODE
  {
    var n := |comps| - 1;
    var e := StepLink(fs, Walk(fs, comps[..n]).value, comps[n]);
  }

  lemma SamePathMore(a: seq<Name>, b: seq<Name>)
    requires a != [] && b != [] && SamePath(a[..|a| - 1], b[..|b| - 1]) && NamesEqual(a[|a| - 1], b[|b| - 1])
    ensures SamePath(a, b)
  {
    var n := |a| - 1;
    assert |a[..n]| == |b[..|b| - 1]|;
    forall i | 0 <= i < |a| ensures NamesEqual(a[i], b[i]) {
      if i < n { assert NamesEqual(a[..n][i], b[..n][i]); }
    }
  }

  /** Two names that lead to the same node are the same, and so is where they start. */
  lemma SameStep(fs: Fs, x: nat, a: Name, y: nat, b: Name)
    requires TreeOk(fs) && Step(fs, x, a).Ok? && Step(fs, x, a) == Step(fs, y, b)
    ensures x == y && NamesEqual(a, b)
  {
    var e := StepLink(fs, x, a);
    var f := StepLink(fs, y, b);
  }

  /** Each node has only one path. */
  lemma {:induction false} UniquePath(fs: Fs, a: seq<Name>, b: seq<Name>)
    requires TreeOk(fs) && Walk(fs, a).Ok? && Walk(fs, a) == Walk(fs, b)
    ensures SamePath(a, b)
    decreases |a|
  {
    var n, m := |a| - 1, |b| - 1;
    if a != [] { NotRoot(fs, a); }
    if b != [] { NotRoot(fs, b); }
    if a != [] && b != [] {
      SameStep(fs, Walk(fs, a[..n]).value, a[n], Walk(fs, b[..m]).value, b[m]);
      UniquePath(fs, a[..n], b[..m]);
      SamePathMore(a, b);
    }
  }

  /** In every reachable state a live inode has a path from the root, and only that one but for case: the directories
      form one tree, without cycles or detached parts. */
  lemma OneTree(ops: seq<Op>, i: nat) returns (comps: seq<Name>)
    requires i < |Run(Formatted(), ops).nodes| && !Run(Formatted(), ops).nodes[i].Free?
    ensures Walk(Run(Formatted(), ops), comps) == Ok(i)
    ensures forall other: seq<Name> :: Walk(Run(Formatted(), ops), other) == Ok(i) ==> SamePath(other, comps)
  {
    var fs := Run(Formatted(), ops);
    ReachableOk(ops);
    assert Reaches(fs, i);
    comps :| Walk(fs, comps) == Ok(i);
    forall other: seq<Name> | Walk(fs, other) == Ok(i) ensures SamePath(other, comps) { UniquePath(fs, other, comps); }
  }

  /** Directory `d` looks up differently only under names in `names` (folded), and the only other node
      that may change is `c`, which is reachable only under those names. */
  ghost predicate EditAt(fs: Fs, fs': Fs, d: nat, names: set<Name>, c: nat) {
    |fs'.nodes| == |fs.nodes| && d < |fs.nodes| && c != ROOT_INODE && c != d &&
    fs.nodes[d].Dir? && fs'.nodes[d].Dir? && fs'.nodes[d].meta == fs.nodes[d].meta &&
    (forall i :: 0 <= i < |fs.nodes| && i != d && i != c ==> fs'.nodes[i] == fs.nodes[i]) &&
    (forall n: Name :: Fold(n) !in names ==> Step(fs', d, n) == Step(fs, d, n)) &&
    (forall x: nat, e: Entry :: Links(fs, x, e) && e.inode == c ==> x == d && Fold(e.name) in names)
  }

  /** The path neither is, nor lies below, an edited name of the directory at `pc`. */
  ghost predicate Avoids(comps: seq<Name>, pc: seq<Name>, names: set<Name>) {
    |comps| > |pc| && SamePath(comps[..|pc|], pc) ==> Fold(comps[|pc|]) !in names
  }

  lemma StepAvoids(fs: Fs, fs': Fs, d: nat, names: set<Name>, c: nat, i: nat, name: Name)
    requires TreeOk(fs) && EditAt(fs, fs', d, names, c) && i < |fs.nodes| && i != c && (i == d ==> Fold(name) !in names)
    ensures Step(fs', i, name) == Step(fs, i, name)
    ensures Step(fs, i, name).Ok? ==> Step(fs, i, name).value < |fs.nodes| && Step(fs, i, name).value != c
  {
    if Step(fs, i, name).Ok? {
      var e := StepLink(fs, i, name);
    }
  }

  lemma AvoidsPrefix(comps: seq<Name>, pc: seq<Name>, names: set<Name>)
    requires comps != [] && Avoids(comps, pc, names)
    ensures Avoids(comps[..|comps| - 1], pc, names)
    ensures SamePath(comps[..|comps| - 1], pc) ==> Fold(comps[|comps| - 1]) !in names
  {
    var q := comps[..|comps| - 1];
    if |q| >= |pc| { assert q[..|pc|] == comps[..|pc|]; }
    if |q| == |pc| { assert q == comps[..|pc|]; }
  }

  lemma {:induction false} WalkAvoids(fs: Fs, fs': Fs, pc: seq<Name>, d: nat, names: set<Name>, c: nat,
      comps: seq<Name>)
    requires TreeOk(fs) && Walk(fs, pc) == Ok(d) && EditAt(fs, fs', d, names, c) && Avoids(comps, pc, names)
    ensures Walk(fs', comps) == Walk(fs, comps)
    ensures Walk(fs, comps).Ok? ==> Walk(fs, comps).value < |fs.nodes| && Walk(fs, comps).value != c
    decreases |comps|
  {
    if comps != [] {
      var q, name := comps[..|comps| - 1], comps[|comps| - 1];
      AvoidsPrefix(comps, pc, names);
      WalkAvoids(fs, fs', pc, d, names, c, q);
      var w := Walk(fs, q);
      if w.Ok? {
        if w.value == d { UniquePath(fs, q, pc); }
        StepAvoids(fs, fs', d, names, c, w.value, name);
      }
    }
  }

  lemma ObserveAvoids(fs: Fs, fs': Fs, pc: seq<Name>, d: nat, names: set<Name>, c: nat, comps: seq<Name>)
    requires TreeOk(fs) && Walk(fs, pc) == Ok(d) && EditAt(fs, fs', d, names, c) && Avoids(comps, pc, names)
    ensures Observe(fs', comps) == Observe(fs, comps)
  {
    WalkAvoids(fs, fs', pc, d, names, c, comps);
  }

  /** Nothing lies below a path that is not a directory with records. */
  lemma {:induction false} NothingBelow(fs: Fs, p: seq<Name>, comps: seq<Name>)
    requires |comps| > |p| && SamePath(comps[..|p|], p)
    requires Walk(fs, p).Err? || Entries(fs, Walk(fs, p).value) == []
    ensures Walk(fs, comps).Err?
    decreases |comps|
  {
    var n := |comps| - 1;
    if n == |p| {
      WalkFold(fs, comps[..n], p);
    } else {
      assert comps[..n][..|p|] == comps[..|p|];
      NothingBelow(fs, p, comps[..n]);
    }
  }

  /** A path other than `pc/name` either avoids that name or lies below it. */
  lemma Elsewhere(comps: seq<Name>, pc: seq<Name>, name: Name)
    requires !SamePath(comps, pc + [name])
    ensures Avoids(comps, pc, {Fold(name)}) || (|comps| > |pc| + 1 && SamePath(comps[..|pc| + 1], pc + [name]))
  {
    assert |comps| == |pc| + 1 ==> comps[..|pc| + 1] == comps;
    if !Avoids(comps, pc, {Fold(name)}) {
      var p := pc + [name];
      var head := comps[..|pc| + 1];
      assert forall i :: 0 <= i < |pc| ==> comps[..|pc|][i] == comps[i] == head[i] && p[i] == pc[i];
      assert SamePath(head, p);
    }
  }

  /** An edit at one name, of a node with nothing below it before and after, changes no other path. */
  lemma OnlyThere(fs: Fs, fs': Fs, pc: seq<Name>, d: nat, name: Name, c: nat, comps: seq<Name>)
    requires TreeOk(fs) && Walk(fs, pc) == Ok(d) && EditAt(fs, fs', d, {Fold(name)}, c)
    requires Step(fs, d, name).Err? || Entries(fs, Step(fs, d, name).value) == []
    requires Step(fs', d, name).Err? || Entries(fs', Step(fs', d, name).value) == []
    requires !SamePath(comps, pc + [name])
    ensures Observe(fs', comps) == Observe(fs, comps)
  {
    Elsewhere(comps, pc, name);
    if Avoids(comps, pc, {Fold(name)}) {
      ObserveAvoids(fs, fs', pc, d, {Fold(name)}, c, comps);
    } else {
      assert Avoids(pc, pc, {Fold(name)});
      WalkAvoids(fs, fs', pc, d, {Fold(name)}, c, pc);
      WalkLast(fs, pc, name);
      WalkLast(fs', pc, name);
      NothingBelow(fs, pc + [name], comps);
      NothingBelow(fs', pc + [name], comps);
    }
  }

  // ---- The edits the operations make ----------------------------------------

  lemma FindAppend(entries: seq<Entry>, e: Entry, n: Name)
    ensures Find(entries + [e], n) ==
      if Find(entries, n) < |entries| then Find(entries, n) else if NamesEqual(e.name, n)
        then |entries| else |entries| + 1
  {
    var k, all := Find(entries + [e], n), entries + [e];
    assert forall i :: 0 <= i < |entries| ==> all[i] == entries[i];
    assert all[|entries|] == e;
  }

  lemma AddedEdit(fs: Fs, fs': Fs, d: nat, e: Entry)
    requires TreeOk(fs) && Added(fs, fs', d, e) && fs'.nodes[d].meta == fs.nodes[d].meta
    ensures EditAt(fs, fs', d, {Fold(e.name)}, e.inode)
    ensures Find(fs.nodes[d].entries, e.name) == |fs.nodes[d].entries| ==>
      Step(fs, d, e.name).Err? && Step(fs', d, e.name) == Ok(e.inode)
  {
    forall n: Name | Fold(n) !in {Fold(e.name)} ensures Step(fs', d, n) == Step(fs, d, n) {
      FindAppend(fs.nodes[d].entries, e, n);
    }
    FindAppend(fs.nodes[d].entries, e, e.name);
    forall x: nat, y: Entry | Links(fs, x, y) ensures y.inode != e.inode {
      assert EntryValid(fs, y);
    }
  }

  lemma FindRemoved(entries: seq<Entry>, pos: nat, n: Name)
    requires UniqueNames(entries) && pos < |entries| && NamesEqual(entries[pos].name, n)
    ensures Find(RemoveAt(entries, pos), n) == |RemoveAt(entries, pos)|
  {
    RemoveAtAt(entries, pos);
    var after := RemoveAt(entries, pos);
    forall k | 0 <= k < |after| ensures !NamesEqual(after[k].name, n) {
      assert after[k] == entries[if k < pos then k else k + 1];
    }
  }

  lemma FindKept(entries: seq<Entry>, pos: nat, n: Name)
    requires UniqueNames(entries) && pos < |entries| && !NamesEqual(entries[pos].name, n)
    ensures var after := RemoveAt(entries, pos);
      if Find(entries, n) == |entries| then Find(after, n) == |after|
      else Find(after, n) < |after| && after[Find(after, n)] == entries[Find(entries, n)]
  {
    RemoveAtAt(entries, pos);
    var after := RemoveAt(entries, pos);
    var f := Find(entries, n);
    if f < |entries| {
      var k := if f < pos then f else f - 1;
      assert after[k] == entries[f];
      assert UniqueNames(after);
      FindIs(after, n, k);
    } else {
      forall k | 0 <= k < |after| ensures !NamesEqual(after[k].name, n) {
        assert after[k] == entries[if k < pos then k else k + 1];
      }
    }
  }

  lemma RemovedEdit(fs: Fs, fs': Fs, d: nat, pos: nat)
    requires TreeOk(fs) && d < |fs.nodes| && fs.nodes[d].Dir? && pos < |fs.nodes[d].entries|
    requires Removed(fs, fs', d, fs.nodes[d].entries[pos], pos) && fs'.nodes[d].meta == fs.nodes[d].meta
    ensures var e := fs.nodes[d].entries[pos];
      EditAt(fs, fs', d, {Fold(e.name)}, e.inode) &&
      Step(fs, d, e.name) == Ok(e.inode) && Step(fs', d, e.name) == Err(NotFound)
  {
    var entries := fs.nodes[d].entries;
    var e := entries[pos];
    assert UniqueNames(Entries(fs, d));
    assert Links(fs, d, e) && EntryValid(fs, e);
    FindIs(entries, e.name, pos);
    FindRemoved(entries, pos, e.name);
    forall n: Name | Fold(n) !in {Fold(e.name)} ensures Step(fs', d, n) == Step(fs, d, n) {
      FindKept(entries, pos, n);
    }
  }

  lemma RenamedEdit(fs: Fs, fs': Fs, d: nat, pos: nat, name: Name)
    requires TreeOk(fs) && TreeOk(fs') && Renamed(fs, fs', d, pos, name) && fs'.nodes[d].meta == fs.nodes[d].meta
    requires fs.nodes[d].entries[pos].inode != d && !NamesEqual(fs.nodes[d].entries[pos].name, name)
    ensures var e := fs.nodes[d].entries[pos];
      EditAt(fs, fs', d, {Fold(e.name), Fold(name)}, e.inode) &&
      Step(fs, d, e.name) == Ok(e.inode) && Step(fs', d, name) == Ok(e.inode) && Step(fs', d, e.name) == Err(NotFound)
  {
    var entries, after := fs.nodes[d].entries, fs'.nodes[d].entries;
    var e := entries[pos];
    assert UniqueNames(Entries(fs, d)) && UniqueNames(Entries(fs', d));
    assert Links(fs, d, e) && EntryValid(fs, e);
    FindIs(entries, e.name, pos);
    FindIs(after, name, pos);
    assert forall i :: 0 <= i < |entries| && i != pos ==>
      after[i] == entries[i] && !NamesEqual(entries[i].name, e.name);
    forall n: Name | Fold(n) !in {Fold(e.name), Fold(name)} ensures Step(fs', d, n) == Step(fs, d, n) {
      FindElsewhere(entries, after, pos, n);
    }
  }

  lemma FindElsewhere(entries: seq<Entry>, after: seq<Entry>, pos: nat, n: Name)
    requires UniqueNames(entries) && UniqueNames(after) && pos < |entries| == |after|
    requires after == entries[pos := after[pos]]
    requires !NamesEqual(entries[pos].name, n) && !NamesEqual(after[pos].name, n)
    ensures Find(after, n) == Find(entries, n)
  {
    var k, k' := Find(entries, n), Find(after, n);
    if k < |entries| { FindIs(after, n, k); }
    if k' < |after| { FindIs(entries, n, k'); }
  }

  lemma WrittenEdit(fs: Fs, fs': Fs, d: nat, name: Name, node: Node)
    requires TreeOk(fs) && Step(fs, d, name).Ok?
    requires var i := Step(fs, d, name).value; i < |fs.nodes| && fs.nodes[i].File? && fs'.nodes == fs.nodes[i := node]
    requires node.File?
    ensures EditAt(fs, fs', d, {Fold(name)}, Step(fs, d, name).value)
    ensures Step(fs', d, name) == Step(fs, d, name)
  {
    var e := StepLink(fs, d, name);
  }
}
