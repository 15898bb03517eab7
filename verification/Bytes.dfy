/** Machine integers, little-endian words and in-place overwriting, shared by every module. */
module Bytes {
  type u8 = x: int | 0 <= x < 0x100
  type u16 = x: int | 0 <= x < 0x1_0000
  type u32 = x: int | 0 <= x < 0x1_0000_0000
  type u64 = x: int | 0 <= x < 0x1_0000_0000_0000_0000

  datatype Option<+T> = None | Some(value: T)

  const MAX_U32: int := 0xFFFF_FFFF

  /** The little-endian word stored at `off`. */
  function Le32(b: seq<u8>, off: nat): u32
    requires off + 4 <= |b|
  {
    b[off] as int + 0x100 * (b[off + 1] as int) + 0x1_0000 * (b[off + 2] as int) + 0x100_0000 * (b[off + 3] as int)
  }

  function ToLe32(v: u32): (r: seq<u8>)
    ensures |r| == 4
  {
    [v % 0x100, v / 0x100 % 0x100, v / 0x1_0000 % 0x100, v / 0x100_0000]
  }

  lemma Le32RoundTrip(v: u32)
    ensures Le32(ToLe32(v), 0) == v
  {
    var a := v / 0x100;
    var b := a / 0x100;
    assert v / 0x1_0000 == b;
    assert v / 0x100_0000 == b / 0x100;
  }

  /** Equal words come from equal bytes. */
  lemma Le32Slice(b: seq<u8>, off: nat, v: u32)
    requires off + 4 <= |b| && b[off..off + 4] == ToLe32(v)
    ensures Le32(b, off) == v
  {
    Le32RoundTrip(v);
    var w := b[off..off + 4];
    assert b[off] == w[0] && b[off + 1] == w[1] && b[off + 2] == w[2] && b[off + 3] == w[3];
  }

  /** `s` with the elements from `off` on overwritten by `t`. */
  function Splice<T>(s: seq<T>, off: nat, t: seq<T>): (r: seq<T>)
    requires off + |t| <= |s|
    ensures |r| == |s|
    ensures forall k :: 0 <= k < |s| ==> r[k] == if off <= k < off + |t| then t[k - off] else s[k]
  {
    s[..off] + t + s[off + |t|..]
  }

  /** The `n` low bytes of `v`, lowest first. */
  function LeBytes(v: nat, n: nat): (r: seq<u8>)
    ensures |r| == n
  {
    if n == 0 then [] else [v % 0x100] + LeBytes(v / 0x100, n - 1)
  }

  function FromLe(b: seq<u8>): nat {
    if b == [] then 0 else b[0] as int + 0x100 * FromLe(b[1..])
  }

  function Pow2(n: nat): nat { if n == 0 then 1 else 2 * Pow2(n - 1) }

  function Pow256(n: nat): nat { if n == 0 then 1 else 0x100 * Pow256(n - 1) }

  lemma {:induction false} LeRoundTrip(v: nat, n: nat)
    requires v < Pow256(n)
    ensures FromLe(LeBytes(v, n)) == v
  {
    if n > 0 {
      LeRoundTrip(v / 0x100, n - 1);
      assert LeBytes(v, n)[1..] == LeBytes(v / 0x100, n - 1);
    }
  }

  function ToLe64(v: u64): (r: seq<u8>)
    ensures |r| == 8
  {
    LeBytes(v, 8)
  }

  lemma SliceOfSlice<T>(s: seq<T>, off: nat, n: nat, a: nat, b: nat)
    requires a <= b <= n && off + n <= |s|
    ensures s[off..off + n][a..b] == s[off + a..off + b]
  {
    var whole := s[off..off + n];
    forall k | 0 <= k < b - a ensures whole[a..b][k] == s[off + a + k] {}
  }

  /** The eight bytes at `off` are the little-endian word `v`. */
  predicate WordIs(b: seq<u8>, off: int, v: u64) { 0 <= off && off + 8 <= |b| && b[off..off + 8] == ToLe64(v) }

  /** Then the word reads back as `v`. */
  lemma WordReads(b: seq<u8>, off: nat, v: u64)
    requires WordIs(b, off, v)
    ensures FromLe(b[off..off + 8]) == v
  {
    assert Pow256(8) == 0x1_0000_0000_0000_0000;
    LeRoundTrip(v, 8);
  }

  /** What an overwrite does not touch stays. */
  lemma SliceKept<T>(s: seq<T>, off: nat, t: seq<T>, o: nat, n: nat)
    requires off + |t| <= |s| && o + n <= |s| && (o + n <= off || off + |t| <= o)
    ensures Splice(s, off, t)[o..o + n] == s[o..o + n]
  {
  }

  lemma SliceWritten<T>(s: seq<T>, off: nat, t: seq<T>)
    requires off + |t| <= |s|
    ensures Splice(s, off, t)[off..off + |t|] == t
  {
  }

  /** Two adjacent overwrites are one. */
  lemma SpliceAdjacent<T>(s: seq<T>, off: nat, a: seq<T>, b: seq<T>)
    requires off + |a| + |b| <= |s|
    ensures Splice(Splice(s, off, a), off + |a|, b) == Splice(s, off, a + b)
  {
  }

  /** The same, the upper part written first. */
  lemma SpliceBelow<T>(s: seq<T>, off: nat, a: seq<T>, b: seq<T>)
    requires off + |a| + |b| <= |s|
    ensures Splice(Splice(s, off + |a|, b), off, a) == Splice(s, off, a + b)
  {
  }

  lemma Assoc<T>(a: seq<T>, b: seq<T>, c: seq<T>)
    ensures a + (b + c) == (a + b) + c
  {
  }

  lemma SliceConcat<T>(s: seq<T>, a: nat, b: nat, c: nat)
    requires a <= b <= c <= |s|
    ensures s[a..b] + s[b..c] == s[a..c]
  {
  }

  function Repeat<T>(x: T, n: nat): (r: seq<T>)
    ensures |r| == n && forall k :: 0 <= k < n ==> r[k] == x
  {
    seq(n, _ => x)
  }

  function Min(a: int, b: int): int { if a <= b then a else b }

  function Max(a: int, b: int): int { if a >= b then a else b }

  function DivUp(a: nat, b: nat): nat
    requires b > 0
  {
    (a + b - 1) / b
  }
}
