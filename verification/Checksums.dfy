/** The two checksums of the installer and what damage they are sure to notice. */
module Checksums {
  import opened Bytes

  // ---- Bits ------------------------------------------------------------------------------

  type Bits = seq<bool>

  /** The `n` low bits of `v`, lowest first. */
  function BitsOf(v: nat, n: nat): (r: Bits)
    ensures |r| == n
  {
    if n == 0 then [] else [v % 2 == 1] + BitsOf(v / 2, n - 1)
  }

  function ValueOf(bits: Bits): nat {
    if bits == [] then 0 else (if bits[0] then 1 else 0) + 2 * ValueOf(bits[1..])
  }

  lemma {:induction false} ValueOfBits(v: nat, n: nat)
    requires v < Pow2(n)
    ensures ValueOf(BitsOf(v, n)) == v
  {
    if n > 0 {
      ValueOfBits(v / 2, n - 1);
      assert BitsOf(v, n)[1..] == BitsOf(v / 2, n - 1);
    }
  }

  lemma {:induction false} BitsOfValue(bits: Bits)
    ensures ValueOf(bits) < Pow2(|bits|) && BitsOf(ValueOf(bits), |bits|) == bits
  {
    if bits != [] {
      BitsOfValue(bits[1..]);
      assert ValueOf(bits) / 2 == ValueOf(bits[1..]);
      assert bits == [bits[0]] + bits[1..];
    }
  }

  function Xor(a: Bits, b: Bits): (r: Bits)
    requires |a| == |b|
    ensures |r| == |a| && forall i :: 0 <= i < |r| ==> r[i] == (a[i] != b[i])
  {
    seq(|a|, i requires 0 <= i < |a| => a[i] != b[i])
  }

  function Zeros(n: nat): (r: Bits)
    ensures |r| == n && forall i :: 0 <= i < n ==> !r[i]
  {
    seq(n, i => false)
  }

  lemma XorCancel(a: Bits, b: Bits, c: Bits)
    requires |a| == |b| == |c| && Xor(a, c) == Xor(b, c)
    ensures a == b
  {
    forall i | 0 <= i < |a| ensures a[i] == b[i] { assert Xor(a, c)[i] == Xor(b, c)[i]; }
  }

  // ---- FNV-1a over a sector --------------------------------------------------------------

  const WORD: nat := 0x1_0000_0000
  const FNV_START: u32 := 0x811C_9DC5
  const FNV_PRIME: nat := 0x0100_0193
  const FNV_INVERSE: nat := 0x359C_449B

  function Xor8(a: u8, b: u8): u8 {
    var r := Xor(BitsOf(a, 8), BitsOf(b, 8));
    BitsOfValue(r);
    assert Pow2(8) == 0x100;
    ValueOf(r)
  }

  lemma Xor8Injective(a: u8, b: u8, x: u8, y: u8)
    requires Xor8(a, x) == Xor8(b, y)
    ensures Xor(BitsOf(a, 8), BitsOf(x, 8)) == Xor(BitsOf(b, 8), BitsOf(y, 8))
  {
    BitsOfValue(Xor(BitsOf(a, 8), BitsOf(x, 8)));
    BitsOfValue(Xor(BitsOf(b, 8), BitsOf(y, 8)));
  }

  lemma SameBits(a: u8, b: u8)
    requires BitsOf(a, 8) == BitsOf(b, 8)
    ensures a == b
  {
    assert Pow2(8) == 0x100;
    ValueOfBits(a, 8);
    ValueOfBits(b, 8);
  }

  /** Mixes a byte into the low eight bits. */
  function MixByte(hash: u32, b: u8): u32 { hash - hash % 0x100 + Xor8(hash % 0x100, b) }

  function Multiply(x: u32): u32 { x * FNV_PRIME % WORD }

  function FnvRound(hash: u32, b: u8): u32 { Multiply(MixByte(hash, b)) }

  function Fnv(hash: u32, bytes: seq<u8>): u32
    decreases bytes
  {
    if bytes == [] then hash else Fnv(FnvRound(hash, bytes[0]), bytes[1..])
  }

  function SectorChecksum(sector: seq<u8>): u32 { Fnv(FNV_START, sector) }

  method ComputeSectorChecksum(sector: seq<u8>) returns (hash: u32)
    ensures hash == SectorChecksum(sector)
  {
    hash := FNV_START;
    var i := 0;
    assert sector[0..] == sector;
    while i < |sector|
      invariant 0 <= i <= |sector| && Fnv(hash, sector[i..]) == SectorChecksum(sector)
    {
      assert sector[i..][0] == sector[i] && sector[i..][1..] == sector[i + 1..];
      hash := MixByte(hash, sector[i]);
      hash := Multiply(hash);
      i := i + 1;
    }
  }

  /** The prime is odd, so multiplying by it modulo 2^32 can be undone. */
  lemma MultiplyUndone(x: u32)
    ensures Multiply(x) * FNV_INVERSE % WORD == x
  {
    var k := x * FNV_PRIME / WORD;
    var c := 3513497;
    assert FNV_PRIME * FNV_INVERSE == 1 + WORD * c;
    assert Multiply(x) == x * FNV_PRIME - WORD * k;
    Remainder(Multiply(x) * FNV_INVERSE, x, c * x - k * FNV_INVERSE);
  }

  lemma Remainder(v: int, x: u32, z: int)
    requires v == x + WORD * z
    ensures v % WORD == x
  {
  }

  lemma MixInjective(a: u32, b: u32, x: u8, y: u8)
    requires FnvRound(a, x) == FnvRound(b, y)
    ensures a / 0x100 == b / 0x100 && Xor8(a % 0x100, x) == Xor8(b % 0x100, y)
  {
    MultiplyUndone(MixByte(a, x));
    MultiplyUndone(MixByte(b, y));
  }

  lemma SameState(a: u32, b: u32, x: u8)
    requires FnvRound(a, x) == FnvRound(b, x)
    ensures a == b
  {
    MixInjective(a, b, x, x);
    Xor8Injective(a % 0x100, b % 0x100, x, x);
    XorCancel(BitsOf(a % 0x100, 8), BitsOf(b % 0x100, 8), BitsOf(x, 8));
    SameBits(a % 0x100, b % 0x100);
  }

  lemma SameByte(h: u32, x: u8, y: u8)
    requires FnvRound(h, x) == FnvRound(h, y)
    ensures x == y
  {
    MixInjective(h, h, x, y);
    var l := h % 0x100;
    Xor8Injective(l, l, x, y);
    assert Xor(BitsOf(x, 8), BitsOf(l, 8)) == Xor(BitsOf(l, 8), BitsOf(x, 8));
    assert Xor(BitsOf(y, 8), BitsOf(l, 8)) == Xor(BitsOf(l, 8), BitsOf(y, 8));
    XorCancel(BitsOf(x, 8), BitsOf(y, 8), BitsOf(l, 8));
    SameBits(x, y);
  }

  /** States that meet over the same bytes were the same to begin with. */
  lemma {:induction false} FnvKeepsApart(a: u32, b: u32, bytes: seq<u8>)
    requires Fnv(a, bytes) == Fnv(b, bytes)
    ensures a == b
    decreases bytes
  {
    if bytes != [] {
      FnvKeepsApart(FnvRound(a, bytes[0]), FnvRound(b, bytes[0]), bytes[1..]);
      SameState(a, b, bytes[0]);
    }
  }

  lemma {:induction false} FnvConcat(hash: u32, a: seq<u8>, b: seq<u8>)
    ensures Fnv(hash, a + b) == Fnv(Fnv(hash, a), b)
    decreases a
  {
    if a == [] {
      assert a + b == b;
    } else {
      assert (a + b)[1..] == a[1..] + b;
      FnvConcat(FnvRound(hash, a[0]), a[1..], b);
    }
  }

  /** Two sectors that differ in exactly one byte have different checksums. */
  lemma OneByteNoticed(before: seq<u8>, x: u8, y: u8, after: seq<u8>)
    ensures SectorChecksum(before + [x] + after) == SectorChecksum(before + [y] + after) ==> x == y
  {
    var h := Fnv(FNV_START, before);
    FnvConcat(FNV_START, before + [x], after);
    FnvConcat(FNV_START, before, [x]);
    FnvConcat(FNV_START, before + [y], after);
    FnvConcat(FNV_START, before, [y]);
    FnvOne(h, x);
    FnvOne(h, y);
    if SectorChecksum(before + [x] + after) == SectorChecksum(before + [y] + after) {
      FnvKeepsApart(FnvRound(h, x), FnvRound(h, y), after);
      SameByte(h, x, y);
    }
  }

  lemma FnvOne(h: u32, x: u8)
    ensures Fnv(h, [x]) == FnvRound(h, x)
  {
    assert [x][1..] == [];
  }

  // ---- CRC-32 ----------------------------------------------------------------------------

  type Register = s: Bits | |s| == 32 witness Zeros(32)

  /** 0xEDB88320, lowest bit first. */
  function Poly(): Register {
    [false, false, false, false, false, true, false, false,
     true, true, false, false, false, false, false, true,
     false, false, false, true, true, true, false, true,
     true, false, true, true, false, true, true, true]
  }

  function CrcStep(p: Register, s: Register): Register {
    if s[0] then Xor(s[1..] + [false], p) else s[1..] + [false]
  }

  function CrcSteps(p: Register, s: Register, n: nat): Register
    decreases n
  {
    if n == 0 then s else CrcSteps(p, CrcStep(p, s), n - 1)
  }

  function CrcRound(p: Register, s: Register, b: u8): Register { CrcSteps(p, Xor(s, BitsOf(b, 8) + Zeros(24)), 8) }

  function CrcOver(p: Register, s: Register, bytes: seq<u8>): Register
    decreases bytes
  {
    if bytes == [] then s else CrcOver(p, CrcRound(p, s, bytes[0]), bytes[1..])
  }

  function Ones(): Register { seq(32, i => true) }

  function Crc32(bytes: seq<u8>): Register { Xor(CrcOver(Poly(), Ones(), bytes), Ones()) }

  method ComputeCrc32(bytes: seq<u8>) returns (crc: Register)
    ensures crc == Crc32(bytes)
  {
    crc := Ones();
    var i := 0;
    assert bytes[0..] == bytes;
    while i < |bytes|
      invariant 0 <= i <= |bytes| && CrcOver(Poly(), crc, bytes[i..]) == CrcOver(Poly(), Ones(), bytes)
    {
      assert bytes[i..][0] == bytes[i] && bytes[i..][1..] == bytes[i + 1..];
      crc := ComputeRound(Poly(), crc, bytes[i]);
      i := i + 1;
    }
    crc := Xor(crc, Ones());
  }

  method ComputeRound(p: Register, s: Register, b: u8) returns (crc: Register)
    ensures crc == CrcRound(p, s, b)
  {
    crc := Xor(s, BitsOf(b, 8) + Zeros(24));
    var bit := 0;
    while bit < 8
      invariant 0 <= bit <= 8 && CrcSteps(p, crc, 8 - bit) == CrcRound(p, s, b)
    {
      crc := CrcStep(p, crc);
      bit := bit + 1;
    }
  }

  lemma PolyTop()
    ensures Poly()[31]
  {
  }

  /** The top bit after a step tells the low bit before it, so a step can be undone. */
  lemma StepInjective(p: Register, a: Register, b: Register)
    requires p[31] && CrcStep(p, a) == CrcStep(p, b)
    ensures a == b
  {
    assert CrcStep(p, a)[31] == a[0] && CrcStep(p, b)[31] == b[0];
    if a[0] { XorCancel(a[1..] + [false], b[1..] + [false], p); }
    assert (a[1..] + [false])[..31] == (b[1..] + [false])[..31];
    assert a == [a[0]] + a[1..] && b == [b[0]] + b[1..];
  }

  lemma {:induction false} StepsInjective(p: Register, a: Register, b: Register, n: nat)
    requires p[31] && CrcSteps(p, a, n) == CrcSteps(p, b, n)
    ensures a == b
    decreases n
  {
    if n > 0 {
      StepsInjective(p, CrcStep(p, a), CrcStep(p, b), n - 1);
      StepInjective(p, a, b);
    }
  }

  lemma StepLinear(p: Register, a: Register, b: Register)
    ensures CrcStep(p, Xor(a, b)) == Xor(CrcStep(p, a), CrcStep(p, b))
  {
    forall i | 0 <= i < 32 ensures CrcStep(p, Xor(a, b))[i] == Xor(CrcStep(p, a), CrcStep(p, b))[i] {}
  }

  lemma {:induction false} StepsLinear(p: Register, a: Register, b: Register, n: nat)
    ensures CrcSteps(p, Xor(a, b), n) == Xor(CrcSteps(p, a, n), CrcSteps(p, b, n))
    decreases n
  {
    if n > 0 {
      StepLinear(p, a, b);
      StepsLinear(p, CrcStep(p, a), CrcStep(p, b), n - 1);
    }
  }

  lemma {:induction false} StepsAdd(p: Register, s: Register, m: nat, n: nat)
    ensures CrcSteps(p, s, m + n) == CrcSteps(p, CrcSteps(p, s, m), n)
    decreases m
  {
    if m > 0 { StepsAdd(p, CrcStep(p, s), m - 1, n); }
  }

  /** Steps over clear low bits only shift. */
  lemma {:induction false} StepsShift(p: Register, s: Register, n: nat)
    requires n <= 32 && forall i :: 0 <= i < n ==> !s[i]
    ensures CrcSteps(p, s, n) == s[n..] + Zeros(n)
    decreases n
  {
    if n == 0 {
      assert s[0..] + Zeros(0) == s;
    } else {
      var t := CrcStep(p, s);
      assert t == s[1..] + [false];
      StepsShift(p, t, n - 1);
      assert t[n - 1..] + Zeros(n - 1) == s[n..] + Zeros(n);
    }
  }

  function Flat(bytes: seq<u8>): (r: Bits)
    ensures |r| == 8 * |bytes|
    decreases bytes
  {
    if bytes == [] then [] else BitsOf(bytes[0], 8) + Flat(bytes[1..])
  }

  /** Up to four bytes as one word. */
  function Word(bytes: seq<u8>): Register
    requires |bytes| <= 4
  {
    Flat(bytes) + Zeros(32 - 8 * |bytes|)
  }

  lemma {:induction false} FlatInjective(a: seq<u8>, b: seq<u8>)
    requires |a| == |b| && Flat(a) == Flat(b)
    ensures a == b
    decreases a
  {
    if a != [] {
      assert Flat(a)[..8] == BitsOf(a[0], 8) && Flat(b)[..8] == BitsOf(b[0], 8);
      assert Flat(a)[8..] == Flat(a[1..]) && Flat(b)[8..] == Flat(b[1..]);
      SameBits(a[0], b[0]);
      FlatInjective(a[1..], b[1..]);
      assert a == [a[0]] + a[1..] && b == [b[0]] + b[1..];
    }
  }

  /** Reading up to four bytes is mixing in their word and stepping once for each bit. */
  lemma {:induction false} WindowState(p: Register, s: Register, bytes: seq<u8>)
    requires |bytes| <= 4
    ensures CrcOver(p, s, bytes) == CrcSteps(p, Xor(s, Word(bytes)), 8 * |bytes|)
    decreases bytes
  {
    if bytes == [] {
      assert Xor(s, Word(bytes)) == s;
    } else {
      var rest := bytes[1..];
      FirstByte(p, s, bytes);
      WindowState(p, CrcRound(p, s, bytes[0]), rest);
      StepsAdd(p, Xor(s, Word(bytes)), 8, 8 * |rest|);
    }
  }

  /** Eight steps use up the first byte of the word. */
  lemma FirstByte(p: Register, s: Register, bytes: seq<u8>)
    requires 1 <= |bytes| <= 4
    ensures CrcSteps(p, Xor(s, Word(bytes)), 8) == Xor(CrcRound(p, s, bytes[0]), Word(bytes[1..]))
  {
    var low: Register := BitsOf(bytes[0], 8) + Zeros(24);
    var high: Register := Zeros(8) + Word(bytes[1..])[..24];
    WordSplits(s, bytes, low, high);
    StepsLinear(p, Xor(s, low), high, 8);
    StepsShift(p, high, 8);
    assert high[8..] + Zeros(8) == Word(bytes[1..]);
  }

  lemma WordSplits(s: Register, bytes: seq<u8>, low: Register, high: Register)
    requires 1 <= |bytes| <= 4 && low == BitsOf(bytes[0], 8) + Zeros(24) && high == Zeros(8) + Word(bytes[1..])[..24]
    ensures Xor(s, Word(bytes)) == Xor(Xor(s, low), high)
  {
    var w := Word(bytes);
    assert w == BitsOf(bytes[0], 8) + (Flat(bytes[1..]) + Zeros(32 - 8 * |bytes|));
    assert Word(bytes[1..])[..24] == Flat(bytes[1..]) + Zeros(32 - 8 * |bytes|);
  }

  lemma {:induction false} CrcConcat(p: Register, s: Register, a: seq<u8>, b: seq<u8>)
    ensures CrcOver(p, s, a + b) == CrcOver(p, CrcOver(p, s, a), b)
    decreases a
  {
    if a == [] {
      assert a + b == b;
    } else {
      assert (a + b)[1..] == a[1..] + b;
      CrcConcat(p, CrcRound(p, s, a[0]), a[1..], b);
    }
  }

  lemma {:induction false} CrcKeepsApart(p: Register, a: Register, b: Register, bytes: seq<u8>)
    requires p[31] && CrcOver(p, a, bytes) == CrcOver(p, b, bytes)
    ensures a == b
    decreases bytes
  {
    if bytes != [] {
      var low: Register := BitsOf(bytes[0], 8) + Zeros(24);
      CrcKeepsApart(p, CrcRound(p, a, bytes[0]), CrcRound(p, b, bytes[0]), bytes[1..]);
      StepsInjective(p, Xor(a, low), Xor(b, low), 8);
      XorCancel(a, b, low);
    }
  }

  /** Two inputs of equal length that differ only inside one window of four bytes have different CRCs. */
  lemma WindowNoticed(before: seq<u8>, a: seq<u8>, b: seq<u8>, after: seq<u8>)
    requires |a| == |b| <= 4
    ensures Crc32(before + a + after) == Crc32(before + b + after) ==> a == b
  {
    var p := Poly();
    PolyTop();
    var s := CrcOver(p, Ones(), before);
    CrcConcat(p, Ones(), before + a, after);
    CrcConcat(p, Ones(), before, a);
    CrcConcat(p, Ones(), before + b, after);
    CrcConcat(p, Ones(), before, b);
    if Crc32(before + a + after) == Crc32(before + b + after) {
      XorCancel(CrcOver(p, CrcOver(p, s, a), after), CrcOver(p, CrcOver(p, s, b), after), Ones());
      CrcKeepsApart(p, CrcOver(p, s, a), CrcOver(p, s, b), after);
      SameWindow(p, s, a, b);
    }
  }

  lemma {:induction false} WordTells(a: seq<u8>, b: seq<u8>)
    requires |a| == |b| <= 4 && Word(a) == Word(b)
    ensures a == b
  {
    assert Word(a)[..8 * |a|] == Flat(a) && Word(b)[..8 * |b|] == Flat(b);
    FlatInjective(a, b);
  }

  lemma {:induction false} SameWindow(p: Register, s: Register, a: seq<u8>, b: seq<u8>)
    requires p[31] && |a| == |b| <= 4 && CrcOver(p, s, a) == CrcOver(p, s, b)
    ensures a == b
  {
    WindowState(p, s, a);
    WindowState(p, s, b);
    StepsInjective(p, Xor(s, Word(a)), Xor(s, Word(b)), 8 * |a|);
    assert Xor(Word(a), s) == Xor(s, Word(a)) && Xor(Word(b), s) == Xor(s, Word(b));
    XorCancel(Word(a), Word(b), s);
    WordTells(a, b);
  }
}
