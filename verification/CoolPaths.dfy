/** How the string operations on paths act on their components. */
module CoolPaths {
  import opened Bytes
  import opened CoolTree

  lemma FirstSlashConcat(a: Path, b: Path)
    ensures FirstSlash(a + [SLASH] + b) == FirstSlash(a)
  {
    var whole := a + [SLASH] + b;
    var k := FirstSlash(a);
    assert whole[k] == SLASH;
    assert forall i :: 0 <= i < k ==> whole[i] == a[i];
  }

  lemma ComponentsSingle(a: Path, b: Path)
    requires FirstSlash(a) == |a|
    ensures Components(a + [SLASH] + b) == Components(a) + Components(b)
  {
    var whole := a + [SLASH] + b;
    FirstSlashConcat(a, b);
    assert whole[..|a|] == a && whole[|a| + 1..] == b;
    assert a[..|a|] == a;
  }

  lemma ComponentsCons(a: Path, b: Path, k: nat)
    requires FirstSlash(a) == k < |a|
    ensures Components(a + [SLASH] + b) == (if k == 0 then [] else [a[..k]]) + Components(a[k + 1..] + [SLASH] + b)
  {
    var whole := a + [SLASH] + b;
    FirstSlashConcat(a, b);
    ConcatSlices(a, b, k);
    ComponentsFirst(whole, k);
  }

  lemma {:induction false} ComponentsFirst(p: Path, k: nat)
    requires FirstSlash(p) == k < |p|
    ensures Components(p) == (if k == 0 then [] else [p[..k]]) + Components(p[k + 1..])
  {
  }

  lemma ConcatSlices(a: Path, b: Path, k: nat)
    requires k < |a|
    ensures (a + [SLASH] + b)[..k] == a[..k]
    ensures (a + [SLASH] + b)[k + 1..] == a[k + 1..] + [SLASH] + b
  {
  }

  lemma {:induction false} ComponentsConcat(a: Path, b: Path)
    ensures Components(a + [SLASH] + b) == Components(a) + Components(b)
    decreases |a|
  {
    var k := FirstSlash(a);
    if k == |a| {
      ComponentsSingle(a, b);
    } else {
      var head := if k == 0 then [] else [a[..k]];
      ComponentsCons(a, b, k);
      ComponentsConcat(a[k + 1..], b);
      Assoc(head, Components(a[k + 1..]), Components(b));
    }
  }

  lemma ComponentsOfName(name: Name)
    requires ValidName(name)
    ensures Components(name) == [name]
  {
    assert SLASH !in name;
    assert FirstSlash(name) == |name|;
    assert name[..|name|] == name;
  }

  lemma {:induction false} ComponentsTrim(p: Path)
    ensures Components(TrimSlashes(p)) == Components(p)
    decreases |p|
  {
    if |p| > 1 && p[|p| - 1] == SLASH {
      ComponentsWithoutSlash(p);
      ComponentsTrim(WithoutSlash(p));
    }
  }

  lemma RootComponents()
    ensures Components([SLASH]) == [] && Components([]) == []
  {
    assert FirstSlash([SLASH]) == 0;
    assert [SLASH][1..] == [];
  }

  lemma ComponentsAt(t: Path, k: nat)
    requires k < |t| && t[k] == SLASH && ValidName(t[k + 1..])
    ensures Components(t) == Components(t[..k]) + [t[k + 1..]]
  {
    var name := t[k + 1..];
    assert t == t[..k] + [SLASH] + name;
    ComponentsConcat(t[..k], name);
    ComponentsOfName(name);
  }

  /** Splitting a path splits its components, so parent and name determine the same place. */
  lemma SplitComponents(p: Path)
    requires SplitParentAndName(p).Ok?
    ensures var (parent, name) := SplitParentAndName(p).value;
            Components(p) == Components(parent) + [name] && TrimAbsPath(parent).Ok?
  {
    var t := TrimSlashes(p);
    assert t[0] == p[0];
    var k := LastSlash(t);
    var parent, name := if k == 0 then [SLASH] else t[..k], t[k + 1..];
    assert SplitParentAndName(p) == Ok((parent, name));
    assert parent[0] == SLASH;
    SplitAtSlash(p, t, k, parent);
  }

  lemma SplitAtSlash(p: Path, t: Path, k: nat, parent: Path)
    requires t == TrimSlashes(p) && k < |t| && t[k] == SLASH && ValidName(t[k + 1..])
    requires parent == if k == 0 then [SLASH] else t[..k]
    ensures Components(p) == Components(parent) + [t[k + 1..]]
  {
    ComponentsTrim(p);
    ComponentsAt(t, k);
    RootComponents();
    if k == 0 { assert t[..k] == []; }
  }

  /** A path made of a base, a slash and a valid name splits there. */
  lemma SplitAt(base: Path, name: Name)
    requires ValidName(name) && (base + [SLASH] + name)[0] == SLASH
    ensures var r := SplitParentAndName(base + [SLASH] + name);
            r.Ok? && r.value.1 == name && r.value.0 == if base == [] then [SLASH] else base
  {
    var t := base + [SLASH] + name;
    assert t[|t| - 1] == name[|name| - 1] != SLASH;
    assert TrimSlashes(t) == t && |t| > 1;
    assert t[|base|] == SLASH;
    var k := LastSlash(t);
    assert k == |base| by {
      forall i | |base| < i < |t| ensures t[i] != SLASH {
        assert t[i] == name[i - |base| - 1];
      }
    }
    assert t[k + 1..] == name && t[..k] == base;
  }

  /** The temporary sits beside the target. */
  lemma TmpComponents(parent: Path)
    requires parent != [] && parent[0] == SLASH
    ensures Components(TmpPath(parent)) == Components(parent) + [TMP_NAME]
    ensures SplitParentAndName(TmpPath(parent)).Ok?
    ensures var (pp, name) := SplitParentAndName(TmpPath(parent)).value;
            name == TMP_NAME && Components(pp) == Components(parent) && TrimAbsPath(pp).Ok?
  {
    TmpIsValid();
    Beside(parent, TMP_NAME);
  }

  lemma Beside(parent: Path, name: Name)
    requires parent != [] && parent[0] == SLASH && ValidName(name)
    ensures var p := WithSlash(parent) + name;
            Components(p) == Components(parent) + [name] && SplitParentAndName(p).Ok? &&
            var (pp, n) := SplitParentAndName(p).value;
            n == name && Components(pp) == Components(parent) && TrimAbsPath(pp).Ok?
  {
    var base := WithoutSlash(parent);
    ComponentsWithoutSlash(parent);
    assert WithSlash(parent) == base + [SLASH];
    TmpOfBase(base, name);
  }

  function WithoutSlash(parent: Path): Path
    requires parent != []
  {
    if parent[|parent| - 1] == SLASH then parent[..|parent| - 1] else parent
  }

  lemma ComponentsWithoutSlash(parent: Path)
    requires parent != []
    ensures Components(parent) == Components(WithoutSlash(parent))
  {
    if parent[|parent| - 1] == SLASH {
      assert parent == WithoutSlash(parent) + [SLASH] + [];
      ComponentsConcat(WithoutSlash(parent), []);
    }
  }

  lemma TmpIsValid()
    ensures ValidName(TMP_NAME)
  {
  }

  lemma TmpOfBase(base: Path, name: Name)
    requires ValidName(name) && (base == [] || base[0] == SLASH)
    ensures Components(base + [SLASH] + name) == Components(base) + [name]
    ensures SplitParentAndName(base + [SLASH] + name).Ok?
    ensures var (pp, n) := SplitParentAndName(base + [SLASH] + name).value;
            n == name && Components(pp) == Components(base) && TrimAbsPath(pp).Ok?
  {
    SplitAt(base, name);
    ComponentsConcat(base, name);
    ComponentsOfName(name);
    RootComponents();
  }

  /** Resolving a path walks its components. */
  lemma ResolveIsWalk(fs: Fs, p: Path)
    requires TrimAbsPath(p).Ok?
    ensures ResolvePath(fs, p) == Walk(fs, Components(p))
  {
    ComponentsTrim(p);
  }
}
