/** The file allocation table as a set of chains: what allocating, linking and freeing clusters does to it. */
module FatTable {

  const ENTRY_BASE: nat := 0x1000_0000
  const FREE: nat := 0
  const EOC: nat := 0x0FFF_FFFF
  const EOC_MIN: nat := 0x0FFF_FFF8

  /** The low 28 bits of every entry. */
  type Table = seq<nat>

  type Chain = seq<nat>

  predicate IsCluster(t: Table, c: nat) { 2 <= c < |t| }

  /** Distinct clusters, each linked to the next, the last one marked as the end. */
  ghost predicate IsChain(t: Table, ch: Chain) {
    ch != [] && (forall i :: 0 <= i < |ch| ==> IsCluster(t, ch[i])) &&
    (forall i, j :: 0 <= i < j < |ch| ==> ch[i] != ch[j]) &&
    (forall i {:trigger t[ch[i]]} :: 0 <= i < |ch| - 1 ==> t[ch[i]] == ch[i + 1]) && t[ch[|ch| - 1]] >= EOC_MIN
  }

  ghost predicate Disjoint(a: Chain, b: Chain) { forall c :: c in a ==> c !in b }

  ghost predicate Held(chains: set<Chain>, c: nat) { exists ch :: ch in chains && c in ch }

  /** The entries in use form exactly these chains, which share no cluster, apart from the clusters `spare`: bad ones
      and remains of chains that no directory knows. */
  ghost predicate Chained(t: Table, chains: set<Chain>, spare: set<nat>) {
    |t| < EOC_MIN &&
    (forall ch :: ch in chains ==> IsChain(t, ch)) &&
    (forall a, b :: a in chains && b in chains && a != b ==> Disjoint(a, b)) &&
    (forall c: nat {:trigger Held(chains, c)} ::
      IsCluster(t, c) ==> (t[c] != FREE <==> Held(chains, c) || c in spare)) &&
    (forall c: nat {:trigger Held(chains, c)} :: c in spare ==> !Held(chains, c))
  }

  ghost function FreeClusters(t: Table): set<nat> { set c: nat | c < |t| && 2 <= c && t[c] == FREE }

  // ---- Steps -------------------------------------------------------------------------

  lemma NotFree(t: Table, ch: Chain, c: nat)
    requires IsChain(t, ch) && c in ch
    ensures IsCluster(t, c) && t[c] != FREE
  {
    var i :| 0 <= i < |ch| && ch[i] == c;
    if i < |ch| - 1 { assert t[ch[i]] == ch[i + 1]; }
  }

  /** Some chains make way for one chain, or for none, on their own clusters and free ones; the other chains stay. */
  ghost predicate Replaces(t: Table, t': Table, chains: set<Chain>, gone: set<Chain>, ch: Chain) {
    gone <= chains && |t'| == |t| && (ch == [] || IsChain(t', ch)) &&
    (forall c: nat :: IsCluster(t, c) && !Held(gone, c) && c !in ch ==> t'[c] == t[c]) &&
    (forall c: nat :: IsCluster(t, c) && Held(gone, c) && c !in ch ==> t'[c] == FREE) &&
    (forall c: nat :: c in ch ==> IsCluster(t, c) && (Held(gone, c) || t[c] == FREE))
  }

  ghost function With(chains: set<Chain>, ch: Chain): set<Chain> { if ch == [] then chains else chains + {ch} }

  lemma Rechain(t: Table, t': Table, chains: set<Chain>, spare: set<nat>, gone: set<Chain>, ch: Chain)
    requires Chained(t, chains, spare) && Replaces(t, t', chains, gone, ch)
    ensures Chained(t', With(chains - gone, ch), spare)
  {
    var all := With(chains - gone, ch);
    forall a | a in all ensures IsChain(t', a) { AllChains(t, t', chains, spare, gone, ch, a); }
    forall a, b | a in all && b in all && a != b ensures Disjoint(a, b) {
      AllDisjoint(t, t', chains, spare, gone, ch, a, b);
    }
    forall c: nat | IsCluster(t', c) ensures t'[c] != FREE <==> Held(With(chains - gone, ch), c) || c in spare {
      RechainHeld(t, t', chains, spare, gone, ch, c);
    }
    forall c: nat | c in spare ensures !Held(With(chains - gone, ch), c) {
      SpareApart(t, t', chains, spare, gone, ch, c);
    }
  }

  lemma AllChains(t: Table, t': Table, chains: set<Chain>, spare: set<nat>, gone: set<Chain>, ch: Chain, a: Chain)
    requires Chained(t, chains, spare) && Replaces(t, t', chains, gone, ch) && a in With(chains - gone, ch)
    ensures IsChain(t', a)
  {
    if a in chains - gone { KeptIsChain(t, t', chains, spare, gone, ch, a); }
  }

  lemma AllDisjoint(t: Table, t': Table, chains: set<Chain>, spare: set<nat>, gone: set<Chain>, ch: Chain, a: Chain,
      b: Chain)
    requires Chained(t, chains, spare) && Replaces(t, t', chains, gone, ch)
    requires a in With(chains - gone, ch) && b in With(chains - gone, ch) && a != b
    ensures Disjoint(a, b)
  {
    if a in chains - gone { KeptIsChain(t, t', chains, spare, gone, ch, a); }
    if b in chains - gone { KeptIsChain(t, t', chains, spare, gone, ch, b); }
  }

  lemma KeptIsChain(t: Table, t': Table, chains: set<Chain>, spare: set<nat>, gone: set<Chain>, ch: Chain, a: Chain)
    requires Chained(t, chains, spare) && Replaces(t, t', chains, gone, ch) && a in chains - gone
    ensures IsChain(t', a) && Disjoint(a, ch) && Disjoint(ch, a)
  {
    assert IsChain(t, a);
    forall c | c in a ensures c !in ch && t'[c] == t[c] { KeptApart(t, t', chains, spare, gone, ch, a, c); }
    forall i | 0 <= i < |a| ensures t'[a[i]] == t[a[i]] { assert a[i] in a; }
  }

  lemma KeptApart(t: Table, t': Table, chains: set<Chain>, spare: set<nat>, gone: set<Chain>, ch: Chain, a: Chain,
      c: nat)
    requires Chained(t, chains, spare) && Replaces(t, t', chains, gone, ch) && a in chains - gone && c in a
    ensures IsCluster(t, c) && !Held(gone, c) && c !in ch && t'[c] == t[c] && t[c] != FREE
  {
    NotFree(t, a, c);
    forall g | g in gone ensures c !in g { assert Disjoint(a, g); }
  }

  lemma RechainHeld(t: Table, t': Table, chains: set<Chain>, spare: set<nat>, gone: set<Chain>, ch: Chain, c: nat)
    requires Chained(t, chains, spare) && Replaces(t, t', chains, gone, ch) && IsCluster(t, c)
    ensures t'[c] != FREE <==> Held(With(chains - gone, ch), c) || c in spare
  {
    var all := With(chains - gone, ch);
    if c in ch {
      NotFree(t', ch, c);
      assert ch in all;
    } else {
      if Held(all, c) {
        var a :| a in all && c in a;
        KeptApart(t, t', chains, spare, gone, ch, a, c);
      }
      if t'[c] != FREE && c !in spare {
        assert Held(chains, c);
        var a :| a in chains && c in a;
        assert a in gone ==> Held(gone, c);
        assert a in all;
      }
      if c in spare { SpareNotGone(chains, gone, spare, c); }
    }
  }

  lemma SpareNotGone(chains: set<Chain>, gone: set<Chain>, spare: set<nat>, c: nat)
    requires gone <= chains && c in spare && !Held(chains, c)
    ensures !Held(gone, c)
  {
    assert forall g :: g in gone ==> g in chains;
  }

  lemma SpareApart(t: Table, t': Table, chains: set<Chain>, spare: set<nat>, gone: set<Chain>, ch: Chain, c: nat)
    requires Chained(t, chains, spare) && Replaces(t, t', chains, gone, ch) && c in spare
    ensures !Held(With(chains - gone, ch), c)
  {
    assert !Held(chains, c);
    SpareNotGone(chains, gone, spare, c);
    assert forall a :: a in With(chains - gone, ch) ==> a in chains || a == ch;
  }

  /** A free cluster becomes a chain of its own. */
  lemma AddSingle(t: Table, chains: set<Chain>, spare: set<nat>, c: nat)
    requires Chained(t, chains, spare) && IsCluster(t, c) && t[c] == FREE
    ensures Chained(t[c := EOC], chains + {[c]}, spare)
  {
    assert Replaces(t, t[c := EOC], chains, {}, [c]);
    Rechain(t, t[c := EOC], chains, spare, {}, [c]);
    assert chains - {} + {[c]} == chains + {[c]};
  }

  lemma HeldOne(ch: Chain, c: nat)
    ensures Held({ch}, c) <==> c in ch
  {
    if c in ch { assert ch in {ch}; }
  }

  lemma HeldTwo(a: Chain, b: Chain, c: nat)
    ensures Held({a, b}, c) <==> c in a || c in b
  {
    if c in a { assert a in {a, b}; }
    if c in b { assert b in {a, b}; }
  }

  /** Linking the end of one chain to the head of another joins them. */
  lemma Link(t: Table, chains: set<Chain>, spare: set<nat>, a: Chain, b: Chain)
    requires Chained(t, chains, spare) && a in chains && b in chains && a != b
    ensures IsCluster(t, a[|a| - 1]) && Chained(t[a[|a| - 1] := b[0]], chains - {a, b} + {a + b}, spare)
  {
    var t', both := t[a[|a| - 1] := b[0]], a + b;
    assert IsChain(t, a) && IsChain(t, b) && Disjoint(a, b);
    LinkReplaces(t, chains, a, b);
    Rechain(t, t', chains, spare, {a, b}, both);
  }

  lemma LinkReplaces(t: Table, chains: set<Chain>, a: Chain, b: Chain)
    requires IsChain(t, a) && IsChain(t, b) && Disjoint(a, b) && a in chains && b in chains
    ensures Replaces(t, t[a[|a| - 1] := b[0]], chains, {a, b}, a + b)
  {
    var both := a + b;
    JoinIsChain(t, a, b);
    forall c: nat ensures Held({a, b}, c) <==> c in both { HeldTwo(a, b, c); }
    forall c: nat | c in both ensures IsCluster(t, c) {
      if c in a { NotFree(t, a, c); } else { NotFree(t, b, c); }
    }
    assert a[|a| - 1] in a;
  }

  lemma JoinIsChain(t: Table, a: Chain, b: Chain)
    requires IsChain(t, a) && IsChain(t, b) && Disjoint(a, b)
    ensures IsChain(t[a[|a| - 1] := b[0]], a + b)
  {
    var t', ch := t[a[|a| - 1] := b[0]], a + b;
    forall i, j | 0 <= i < j < |ch| ensures ch[i] != ch[j] {
      if i < |a| <= j { assert a[i] in a && b[j - |a|] in b; }
    }
    forall i | 0 <= i < |ch| - 1 ensures t'[ch[i]] == ch[i + 1] {
      if i >= |a| { assert b[i - |a|] in b && a[|a| - 1] in a; }
    }
    assert b[|b| - 1] in b && a[|a| - 1] in a;
  }
}
