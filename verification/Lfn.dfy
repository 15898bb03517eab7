/** Long file names: UTF-16 in directory entries of thirteen units each, and the way back. */
module Lfn {
  import opened Bytes

  const UNITS: nat := 13
  const ENTRY_SIZE: nat := 32
  const ATTR_LFN: u8 := 0x0F
  const PAD: u16 := 0xFFFF

  /** A name as the Unicode scalar values of its characters. */
  type Name = seq<nat>

  predicate IsScalar(c: nat) { c < 0xD800 || 0xE000 <= c < 0x11_0000 }

  predicate IsName(name: Name) { forall i :: 0 <= i < |name| ==> IsScalar(name[i]) }

  // ---- UTF-16 --------------------------------------------------------------------------

  function Units(c: nat): seq<u16>
    requires IsScalar(c)
  {
    if c < 0x1_0000 then [c] else [0xD800 + (c - 0x1_0000) / 0x400, 0xDC00 + (c - 0x1_0000) % 0x400]
  }

  function EncodeUtf16(name: Name): seq<u16>
    requires IsName(name)
  {
    if name == [] then [] else Units(name[0]) + EncodeUtf16(name[1..])
  }

  predicate IsHigh(u: u16) { 0xD800 <= u < 0xDC00 }
  predicate IsLow(u: u16) { 0xDC00 <= u < 0xE000 }

  function DecodeUtf16(units: seq<u16>): Option<Name> {
    if units == [] then Some([])
    else if IsHigh(units[0]) then
      if |units| == 1 || !IsLow(units[1]) then None
      else
        var rest := DecodeUtf16(units[2..]);
        if rest.None? then None
        else Some([0x1_0000 + (units[0] - 0xD800) * 0x400 + (units[1] - 0xDC00)] + rest.value)
    else if IsLow(units[0]) then None
    else
      var rest := DecodeUtf16(units[1..]);
      if rest.None? then None else Some([units[0] as int] + rest.value)
  }

  lemma {:induction false} Utf16RoundTrip(name: Name)
    requires IsName(name)
    ensures DecodeUtf16(EncodeUtf16(name)) == Some(name)
  {
    if name != [] {
      Utf16RoundTrip(name[1..]);
      var c, rest := name[0], EncodeUtf16(name[1..]);
      var units := Units(c) + rest;
      if c < 0x1_0000 {
        assert units[1..] == rest;
      } else {
        assert units[2..] == rest;
        assert c - 0x1_0000 == (c - 0x1_0000) / 0x400 * 0x400 + (c - 0x1_0000) % 0x400;
      }
      assert name == [c] + name[1..];
    }
  }

  // ---- Names the encoder accepts ---------------------------------------------------------

  datatype NameError = InvalidPath | UnsupportedName

  predicate Forbidden(c: nat) {
    c < 0x20 || c == 0x22 || c == 0x2A || c == 0x2F || c == 0x3A || c == 0x3C || c == 0x3E || c == 0x3F || c == 0x5C ||
      c == 0x7C
  }

  function Validate(name: Name): Option<NameError>
    requires IsName(name)
  {
    if name == [] || name == [0x2E] || name == [0x2E, 0x2E] then Some(InvalidPath)
    else if name[|name| - 1] == 0x2E || name[|name| - 1] == 0x20 then Some(UnsupportedName)
    else if exists i :: 0 <= i < |name| && Forbidden(name[i]) then Some(UnsupportedName)
    else if |EncodeUtf16(name)| > 255 then Some(UnsupportedName)
    else None
  }

  // ---- The entries -----------------------------------------------------------------------

  function Rotate(sum: u8, b: u8): u8 { (sum / 2 + sum % 2 * 128 + b) % 0x100 }

  /** The checksum of a short name's bytes. */
  function Checksum(short: seq<u8>): u8 {
    if short == [] then 0 else Rotate(Checksum(short[..|short| - 1]), short[|short| - 1])
  }

  method ComputeChecksum(short: seq<u8>) returns (sum: u8)
    ensures sum == Checksum(short)
  {
    sum := 0;
    for i := 0 to |short|
      invariant sum == Checksum(short[..i])
    {
      sum := (sum / 2 + sum % 2 * 128 + short[i]) % 0x100;
      assert short[..i + 1][..i] == short[..i];
    }
    assert short[..|short|] == short;
  }

  lemma ChecksumEnd(s: seq<u8>, x: u8)
    ensures Checksum(s + [x]) == Rotate(Checksum(s), x)
  {
    assert (s + [x])[..|s|] == s;
  }

  lemma {:induction false} ChecksumSnoc(a: seq<u8>, b: seq<u8>, after: seq<u8>)
    requires Checksum(a + after) == Checksum(b + after)
    ensures Checksum(a) == Checksum(b)
    decreases |after|
  {
    if after == [] {
      assert a + after == a && b + after == b;
    } else {
      var n := |after| - 1;
      var rest, x := after[..n], after[n];
      assert a + after == a + rest + [x] && b + after == b + rest + [x];
      ChecksumEnd(a + rest, x);
      ChecksumEnd(b + rest, x);
      RotateBack(Checksum(a + rest), Checksum(b + rest), x, x);
      ChecksumSnoc(a, b, rest);
    }
  }

  lemma RotateBack(a: u8, b: u8, x: u8, y: u8)
    requires Rotate(a, x) == Rotate(b, y)
    ensures a == b <==> x == y
  {
    var p, q := a / 2 + a % 2 * 128, b / 2 + b % 2 * 128;
    assert p == q ==> a == b;
    SumBack(p, q, x, y);
  }

  lemma SumBack(p: u8, q: u8, x: u8, y: u8)
    requires (p + x) % 0x100 == (q + y) % 0x100
    ensures p == q <==> x == y
  {
    var d := p + x - (q + y);
    assert d == 0 || d == 0x100 || d == -0x100;
  }

  /** Short names of the same length that differ in one byte have different checksums. */
  lemma OneByteTells(before: seq<u8>, x: u8, y: u8, after: seq<u8>)
    requires Checksum(before + [x] + after) == Checksum(before + [y] + after)
    ensures x == y
  {
    ChecksumSnoc(before + [x], before + [y], after);
    ChecksumEnd(before, x);
    ChecksumEnd(before, y);
    RotateBack(Checksum(before), Checksum(before), x, y);
  }

  /** Unit `k` of the padded name: the name, a terminator if there is room, then padding. */
  function UnitAt(units: seq<u16>, k: nat): u16 {
    if k < |units| then units[k] else if k == |units| then 0 else PAD
  }

  function EntryCount(units: seq<u16>): nat { (|units| + UNITS - 1) / UNITS }

  /** Which unit of an entry byte `p` belongs to, and whether it is the low half. */
  function SlotOf(p: nat): Option<(nat, bool)> {
    if 1 <= p <= 10 then Some(((p - 1) / 2, (p - 1) % 2 == 0))
    else if 14 <= p <= 25 then Some((5 + (p - 14) / 2, p % 2 == 0))
    else if 28 <= p <= 31 then Some((11 + (p - 28) / 2, p % 2 == 0))
    else None
  }

  function OffsetOf(i: nat): nat
    requires i < UNITS
  {
    if i < 5 then 1 + 2 * i else if i < 11 then 14 + 2 * (i - 5) else 28 + 2 * (i - 11)
  }

  function EntryByte(units: seq<u16>, seqNo: nat, sum: u8, p: nat): u8
    requires 1 <= seqNo <= EntryCount(units) < 0x40 && p < ENTRY_SIZE
  {
    if p == 0 then seqNo + (if seqNo == EntryCount(units) then 0x40 else 0)
    else if p == 11 then ATTR_LFN
    else if p == 13 then sum
    else if SlotOf(p).Some? then
      var (i, low) := SlotOf(p).value;
      var u := UnitAt(units, (seqNo - 1) * UNITS + i);
      if low then u % 0x100 else u / 0x100
    else 0
  }

  function Entry(units: seq<u16>, seqNo: nat, sum: u8): (r: seq<u8>)
    requires 1 <= seqNo <= EntryCount(units) < 0x40
    ensures |r| == ENTRY_SIZE && forall p :: 0 <= p < ENTRY_SIZE ==> r[p] == EntryByte(units, seqNo, sum, p)
  {
    seq<u8>(ENTRY_SIZE, p requires 0 <= p < ENTRY_SIZE => EntryByte(units, seqNo, sum, p))
  }

  datatype Fragment = Fragment(seqNo: nat, isLast: bool, checksum: u8, chars: seq<u16>)

  function Char(b: seq<u8>, off: nat): u16
    requires off + 1 < |b|
  {
    b[off] as int + 0x100 * b[off + 1] as int
  }

  function Chars(b: seq<u8>): (r: seq<u16>)
    requires |b| == ENTRY_SIZE
    ensures |r| == UNITS && forall i :: 0 <= i < UNITS ==> r[i] == Char(b, OffsetOf(i))
  {
    seq<u16>(UNITS, i requires 0 <= i < UNITS => Char(b, OffsetOf(i)))
  }

  function ReadFragment(b: seq<u8>): Option<Fragment> {
    if |b| != ENTRY_SIZE || b[11] != ATTR_LFN then None
    else if b[0] % 0x40 == 0 || b[12] != 0 || b[26] != 0 || b[27] != 0 then None
    else Some(Fragment(b[0] % 0x40, b[0] / 0x40 % 2 == 1, b[13], Chars(b)))
  }

  function FragmentOf(units: seq<u16>, seqNo: nat, sum: u8): Fragment
    requires 1 <= seqNo <= EntryCount(units)
  {
    Fragment(seqNo, seqNo == EntryCount(units), sum,
             seq<u16>(UNITS, i requires 0 <= i < UNITS => UnitAt(units, (seqNo - 1) * UNITS + i)))
  }

  lemma CountBound(units: seq<u16>)
    requires 1 <= |units| <= 255
    ensures 1 <= EntryCount(units) <= 20 && (EntryCount(units) - 1) * UNITS < |units| <= EntryCount(units) * UNITS
  {
  }

  /** An entry reads back as its fragment, and is neither free nor deleted. */
  lemma EntryReads(units: seq<u16>, seqNo: nat, sum: u8)
    requires 1 <= |units| <= 255 && 1 <= seqNo <= EntryCount(units)
    ensures EntryCount(units) < 0x40 && ReadFragment(Entry(units, seqNo, sum)) == Some(FragmentOf(units, seqNo, sum))
    ensures Entry(units, seqNo, sum)[0] != 0x00 && Entry(units, seqNo, sum)[0] != 0xE5
  {
    CountBound(units);
    var b := Entry(units, seqNo, sum);
    forall i: nat | i < UNITS ensures Chars(b)[i] == UnitAt(units, (seqNo - 1) * UNITS + i) {
      UnitReads(units, seqNo, sum, i);
    }
    assert Chars(b) == FragmentOf(units, seqNo, sum).chars;
  }

  lemma UnitReads(units: seq<u16>, seqNo: nat, sum: u8, i: nat)
    requires 1 <= seqNo <= EntryCount(units) < 0x40 && i < UNITS
    ensures Char(Entry(units, seqNo, sum), OffsetOf(i)) == UnitAt(units, (seqNo - 1) * UNITS + i)
  {
    var off := OffsetOf(i);
    assert SlotOf(off) == Some((i, true)) && SlotOf(off + 1) == Some((i, false));
    var u := UnitAt(units, (seqNo - 1) * UNITS + i);
    assert u == u % 0x100 + 0x100 * (u / 0x100);
  }

  // ---- Assembling ------------------------------------------------------------------------

  function Insert(f: Fragment, sorted: seq<Fragment>): seq<Fragment> {
    if sorted == [] then [f]
    else if f.seqNo < sorted[0].seqNo then [f] + sorted
    else [sorted[0]] + Insert(f, sorted[1..])
  }

  /** Sorted by number, equal numbers in the order they came. */
  function SortBySeq(fs: seq<Fragment>): seq<Fragment> {
    if fs == [] then [] else Insert(fs[|fs| - 1], SortBySeq(fs[..|fs| - 1]))
  }

  function AllUnits(fs: seq<Fragment>): seq<u16> {
    if fs == [] then [] else fs[0].chars + AllUnits(fs[1..])
  }

  /** The units before the terminator, without padding. */
  function Collect(units: seq<u16>): seq<u16> {
    if units == [] || units[0] == 0 then []
    else (if units[0] == PAD then [] else [units[0]]) + Collect(units[1..])
  }

  function Assemble(fs: seq<Fragment>): Option<Name> {
    var sorted := SortBySeq(fs);
    if fs == [] || exists i :: 0 <= i < |sorted| && sorted[i].seqNo != i + 1 then None
    else DecodeUtf16(Collect(AllUnits(sorted)))
  }

  function LastCount(fs: seq<Fragment>): nat {
    if fs == [] then 0 else (if fs[0].isLast then 1 else 0) + LastCount(fs[1..])
  }

  /** The first fragment marked as the last one. */
  function FirstLast(fs: seq<Fragment>): Option<Fragment> {
    if fs == [] then None else if fs[0].isLast then Some(fs[0]) else FirstLast(fs[1..])
  }

  function AssembleForEntry(short: seq<u8>, fs: seq<Fragment>): Option<Name> {
    if fs == [] then None
    else if exists i :: 0 <= i < |fs| && fs[i].checksum != Checksum(short) then None
    else if FirstLast(fs).None? || LastCount(fs) != 1 || FirstLast(fs).value.seqNo != |fs| then None
    else Assemble(fs)
  }

  // ---- The round trip ----------------------------------------------------------------------

  /** The fragments from number `n` down to 1, as they lie in the directory. */
  function Down(units: seq<u16>, n: nat, sum: u8): (r: seq<Fragment>)
    requires n <= EntryCount(units)
    ensures |r| == n && forall i :: 0 <= i < n ==> r[i] == FragmentOf(units, n - i, sum)
  {
    if n == 0 then [] else [FragmentOf(units, n, sum)] + Down(units, n - 1, sum)
  }

  function Up(units: seq<u16>, from: nat, sum: u8): (r: seq<Fragment>)
    requires from <= EntryCount(units)
    ensures |r| == EntryCount(units) - from && forall i :: 0 <= i < |r| ==> r[i] == FragmentOf(units, from + i + 1, sum)
    decreases EntryCount(units) - from
  {
    if from == EntryCount(units) then [] else [FragmentOf(units, from + 1, sum)] + Up(units, from + 1, sum)
  }

  /** Sorting the descending fragments turns them round. */
  lemma {:induction false} SortDown(units: seq<u16>, k: nat, sum: u8)
    requires k <= EntryCount(units)
    ensures SortBySeq(Down(units, EntryCount(units), sum)[..k]) == Up(units, EntryCount(units) - k, sum)
  {
    var all := Down(units, EntryCount(units), sum);
    if k > 0 {
      SortDown(units, k - 1, sum);
      assert all[..k][..k - 1] == all[..k - 1];
      assert all[k - 1] == FragmentOf(units, EntryCount(units) - k + 1, sum);
    }
  }

  lemma {:induction false} UnitsOfUp(units: seq<u16>, from: nat, sum: u8)
    requires from <= EntryCount(units)
    ensures |AllUnits(Up(units, from, sum))| == (EntryCount(units) - from) * UNITS
    ensures forall k :: 0 <= k < (EntryCount(units) - from) * UNITS ==>
      AllUnits(Up(units, from, sum))[k] == UnitAt(units, from * UNITS + k)
    decreases EntryCount(units) - from
  {
    if from < EntryCount(units) {
      UnitsOfUp(units, from + 1, sum);
      var first, rest := FragmentOf(units, from + 1, sum).chars, AllUnits(Up(units, from + 1, sum));
      assert Up(units, from, sum)[1..] == Up(units, from + 1, sum);
      assert AllUnits(Up(units, from, sum)) == first + rest;
      forall k | 0 <= k < (EntryCount(units) - from) * UNITS
        ensures (first + rest)[k] == UnitAt(units, from * UNITS + k)
      {
        if k >= UNITS { assert rest[k - UNITS] == UnitAt(units, (from + 1) * UNITS + (k - UNITS)); }
      }
    }
  }

  function DropPad(units: seq<u16>): seq<u16> {
    if units == [] then [] else (if units[0] == PAD then [] else [units[0]]) + DropPad(units[1..])
  }

  /** Collecting the padded units gives back the units, but for those equal to the padding. */
  lemma {:induction false} CollectPadded(units: seq<u16>, padded: seq<u16>)
    requires |units| <= |padded| && (forall k :: 0 <= k < |padded| ==> padded[k] == UnitAt(units, k))
    requires forall k :: 0 <= k < |units| ==> units[k] != 0
    ensures Collect(padded) == DropPad(units)
  {
    if units != [] {
      forall k | 0 <= k < |padded| - 1 ensures padded[1..][k] == UnitAt(units[1..], k) {
        assert padded[1..][k] == padded[k + 1];
      }
      CollectPadded(units[1..], padded[1..]);
    }
  }

  /** The name without the one character the padding stands for. */
  function DropPadChar(name: Name): (r: Name)
    requires IsName(name)
    ensures IsName(r)
  {
    if name == [] then [] else (if name[0] == 0xFFFF then [] else [name[0]]) + DropPadChar(name[1..])
  }

  lemma {:induction false} DropPadConcat(a: seq<u16>, b: seq<u16>)
    ensures DropPad(a + b) == DropPad(a) + DropPad(b)
  {
    if a == [] {
      assert a + b == b;
    } else {
      DropPadConcat(a[1..], b);
      assert (a + b)[1..] == a[1..] + b;
      Assoc(if a[0] == PAD then [] else [a[0]], DropPad(a[1..]), DropPad(b));
    }
  }

  lemma DropPadUnits(c: nat)
    requires IsScalar(c)
    ensures DropPad(Units(c)) == if c == 0xFFFF then [] else Units(c)
  {
    var units := Units(c);
    if c >= 0x1_0000 {
      assert units[1..] == [units[1]] && [units[1]][1..] == [];
      assert DropPad([units[1]]) == [units[1]];
    } else {
      assert units[1..] == [];
    }
  }

  lemma {:induction false} DropPadEncoded(name: Name)
    requires IsName(name)
    ensures DropPad(EncodeUtf16(name)) == EncodeUtf16(DropPadChar(name))
  {
    if name != [] {
      var c, rest := name[0], name[1..];
      DropPadEncoded(rest);
      DropPadConcat(Units(c), EncodeUtf16(rest));
      DropPadUnits(c);
      if c == 0xFFFF {
        assert [] + DropPadChar(rest) == DropPadChar(rest);
        assert [] + DropPad(EncodeUtf16(rest)) == DropPad(EncodeUtf16(rest));
      } else {
        assert ([c] + DropPadChar(rest))[1..] == DropPadChar(rest);
      }
    }
  }

  lemma {:induction false} NoZeroUnits(name: Name)
    requires IsName(name) && forall i :: 0 <= i < |name| ==> name[i] != 0
    ensures forall k :: 0 <= k < |EncodeUtf16(name)| ==> EncodeUtf16(name)[k] != 0
  {
    if name != [] { NoZeroUnits(name[1..]); }
  }

  lemma {:induction false} DownLast(units: seq<u16>, n: nat, sum: u8)
    requires n <= EntryCount(units)
    ensures LastCount(Down(units, n, sum)) == if 0 < n == EntryCount(units) then 1 else 0
  {
    if n > 0 {
      DownLast(units, n - 1, sum);
      assert Down(units, n, sum)[1..] == Down(units, n - 1, sum);
    }
  }

  predicate Encodable(name: Name)
    requires IsName(name)
  {
    1 <= |EncodeUtf16(name)| <= 255
  }

  /** The entries from number `n` down to 1. */
  function EntriesDown(units: seq<u16>, n: nat, sum: u8): (r: seq<seq<u8>>)
    requires n <= EntryCount(units) < 0x40
    ensures |r| == n && forall i :: 0 <= i < n ==> r[i] == Entry(units, n - i, sum)
  {
    if n == 0 then [] else [Entry(units, n, sum)] + EntriesDown(units, n - 1, sum)
  }

  /** The entries as the encoder writes them, highest number first. */
  function EncodeEntries(name: Name, short: seq<u8>): seq<seq<u8>>
    requires IsName(name) && Encodable(name)
  {
    CountBound(EncodeUtf16(name));
    EntriesDown(EncodeUtf16(name), EntryCount(EncodeUtf16(name)), Checksum(short))
  }

  /** An accepted name has between one and 255 units. */
  lemma AcceptedEncodes(name: Name)
    requires IsName(name) && Validate(name) == None
    ensures Encodable(name)
  {
    assert Units(name[0]) != [];
  }

  /** The fragments a reader collects from the entries before a short entry. */
  ghost predicate ReadsAs(entries: seq<seq<u8>>, fs: seq<Fragment>) {
    |fs| == |entries| && forall i :: 0 <= i < |entries| ==>
      ReadFragment(entries[i]) == Some(fs[i]) && |entries[i]| > 0 && entries[i][0] != 0x00 && entries[i][0] != 0xE5
  }

  lemma EntriesRead(name: Name, short: seq<u8>)
    requires IsName(name) && Encodable(name)
    ensures var units := EncodeUtf16(name);
      ReadsAs(EncodeEntries(name, short), Down(units, EntryCount(units), Checksum(short)))
  {
    var units := EncodeUtf16(name);
    CountBound(units);
    var n, entries := EntryCount(units), EncodeEntries(name, short);
    forall i | 0 <= i < n ensures ReadFragment(entries[i]) == Some(FragmentOf(units, n - i, Checksum(short))) &&
      |entries[i]| > 0 && entries[i][0] != 0x00 && entries[i][0] != 0xE5
    {
      EntryReads(units, n - i, Checksum(short));
    }
  }

  lemma AssembleDown(name: Name, short: seq<u8>)
    requires IsName(name) && Validate(name) == None
    ensures var units := EncodeUtf16(name);
      AssembleForEntry(short, Down(units, EntryCount(units), Checksum(short))) == Some(DropPadChar(name))
  {
    var units, sum := EncodeUtf16(name), Checksum(short);
    AcceptedEncodes(name);
    CountBound(units);
    DownPasses(units, short);
    SortedDown(units, sum);
    CollectsName(name, sum);
    Utf16RoundTrip(DropPadChar(name));
  }

  lemma DownPasses(units: seq<u16>, short: seq<u8>)
    requires EntryCount(units) > 0
    ensures var fs := Down(units, EntryCount(units), Checksum(short)); AssembleForEntry(short, fs) == Assemble(fs)
  {
    var fs := Down(units, EntryCount(units), Checksum(short));
    DownLast(units, EntryCount(units), Checksum(short));
    assert fs[0].isLast && fs[0].seqNo == |fs|;
  }

  lemma SortedDown(units: seq<u16>, sum: u8)
    requires EntryCount(units) > 0
    ensures Assemble(Down(units, EntryCount(units), sum)) == DecodeUtf16(Collect(AllUnits(Up(units, 0, sum))))
  {
    var n := EntryCount(units);
    var fs := Down(units, n, sum);
    SortDown(units, n, sum);
    assert fs[..n] == fs;
    assert SortBySeq(fs) == Up(units, 0, sum);
  }

  lemma CollectsName(name: Name, sum: u8)
    requires IsName(name) && Validate(name) == None
    ensures Collect(AllUnits(Up(EncodeUtf16(name), 0, sum))) == EncodeUtf16(DropPadChar(name))
  {
    var units := EncodeUtf16(name);
    AcceptedEncodes(name);
    CountBound(units);
    UnitsOfUp(units, 0, sum);
    forall i | 0 <= i < |name| ensures name[i] != 0 { assert !Forbidden(name[i]); }
    NoZeroUnits(name);
    CollectPadded(units, AllUnits(Up(units, 0, sum)));
    DropPadEncoded(name);
  }

  /** Whatever a reader collects from the entries of an accepted name gives the name back, without U+FFFF. */
  lemma LongNameRoundTrip(name: Name, short: seq<u8>, fs: seq<Fragment>)
    requires IsName(name) && Validate(name) == None && ReadsAs(EncodeEntries(name, short), fs)
    ensures AssembleForEntry(short, fs) == Some(DropPadChar(name))
  {
    AcceptedEncodes(name);
    EntriesRead(name, short);
    AssembleDown(name, short);
    var units := EncodeUtf16(name);
    assert fs == Down(units, EntryCount(units), Checksum(short));
  }

  /** Entries left behind by a short name that differs in one byte are not taken for this one's. */
  lemma OrphansRefused(name: Name, before: seq<u8>, x: u8, y: u8, after: seq<u8>, fs: seq<Fragment>)
    requires IsName(name) && Validate(name) == None && x != y
    requires ReadsAs(EncodeEntries(name, before + [y] + after), fs)
    ensures AssembleForEntry(before + [x] + after, fs) == None
  {
    AcceptedEncodes(name);
    var units, short := EncodeUtf16(name), before + [y] + after;
    EntriesRead(name, short);
    assert fs == Down(units, EntryCount(units), Checksum(short));
    if fs != [] && fs[0].checksum == Checksum(before + [x] + after) { OneByteTells(before, x, y, after); }
  }

  /** So the name comes back exactly if and only if it holds no U+FFFF. */
  lemma ExactWithoutPad(name: Name, short: seq<u8>, fs: seq<Fragment>)
    requires IsName(name) && Validate(name) == None && ReadsAs(EncodeEntries(name, short), fs)
    ensures AssembleForEntry(short, fs) == Some(name) <==> 0xFFFF !in name
  {
    LongNameRoundTrip(name, short, fs);
    DropsOnlyPad(name);
  }

  lemma {:induction false} DropsOnlyPad(name: Name)
    requires IsName(name)
    ensures |DropPadChar(name)| <= |name|
    ensures DropPadChar(name) == name <==> 0xFFFF !in name
  {
    if name != [] {
      DropsOnlyPad(name[1..]);
      assert name == [name[0]] + name[1..];
      if name[0] != 0xFFFF { assert DropPadChar(name)[1..] == DropPadChar(name[1..]); }
    }
  }

  /** An accepted name that comes back without its last character. */
  lemma PadCharLost(short: seq<u8>) returns (fs: seq<Fragment>)
    ensures IsName([0x41, 0xFFFF]) && Validate([0x41, 0xFFFF]) == None
    ensures ReadsAs(EncodeEntries([0x41, 0xFFFF], short), fs) && AssembleForEntry(short, fs) == Some([0x41])
  {
    var name := PadCharDropped();
    AcceptedEncodes(name);
    EntriesRead(name, short);
    var units := EncodeUtf16(name);
    fs := Down(units, EntryCount(units), Checksum(short));
    LongNameRoundTrip(name, short, fs);
  }

  lemma PadCharDropped() returns (name: Name)
    ensures name == [0x41, 0xFFFF] && IsName(name) && Validate(name) == None && DropPadChar(name) == [0x41]
  {
    name := [0x41, 0xFFFF];
    assert name[1..] == [0xFFFF] && name[1..][1..] == [];
    assert |EncodeUtf16(name)| <= 4;
    assert DropPadChar(name[1..]) == [];
  }

  // ---- The loops -----------------------------------------------------------------------------

  method FillEntry(units: seq<u16>, seqNo: nat, sum: u8) returns (bytes: seq<u8>)
    requires 1 <= seqNo <= EntryCount(units) < 0x40
    ensures bytes == Entry(units, seqNo, sum)
  {
    var start := (seqNo - 1) * UNITS;
    var entry := new u8[ENTRY_SIZE](i => 0);
    entry[0] := if seqNo == EntryCount(units) then seqNo + 0x40 else seqNo;
    entry[11] := ATTR_LFN;
    entry[13] := sum;
    var i := 0;
    while i < UNITS
      invariant 0 <= i <= UNITS
      invariant forall p :: 0 <= p < ENTRY_SIZE ==> entry[p] == PartByte(units, seqNo, sum, i, p)
    {
      var value: u16 := if start + i < |units| then units[start + i] else if start + i == |units| then 0 else PAD;
      SlotsOf(units, seqNo, sum, i, value);
      var off := OffsetOf(i);
      entry[off] := value % 0x100;
      entry[off + 1] := value / 0x100;
      i := i + 1;
    }
    bytes := entry[..];
  }

  /** An entry byte while the units from `i` on are still missing. */
  ghost function PartByte(units: seq<u16>, seqNo: nat, sum: u8, i: nat, p: nat): u8
    requires 1 <= seqNo <= EntryCount(units) < 0x40 && p < ENTRY_SIZE
  {
    if SlotOf(p).Some? && SlotOf(p).value.0 >= i then 0 else EntryByte(units, seqNo, sum, p)
  }

  /** Byte `p` once unit `i` is there too. */
  ghost predicate Placed(units: seq<u16>, seqNo: nat, sum: u8, i: nat, value: u16, p: nat)
    requires 1 <= seqNo <= EntryCount(units) < 0x40 && i < UNITS && p < ENTRY_SIZE
  {
    PartByte(units, seqNo, sum, i + 1, p) ==
      if p == OffsetOf(i) then value % 0x100 else if p == OffsetOf(i) + 1
        then value / 0x100 else PartByte(units, seqNo, sum, i, p)
  }

  lemma SlotsOf(units: seq<u16>, seqNo: nat, sum: u8, i: nat, value: u16)
    requires 1 <= seqNo <= EntryCount(units) < 0x40 && i < UNITS && value == UnitAt(units, (seqNo - 1) * UNITS + i)
    ensures forall p: nat {:trigger PartByte(units, seqNo, sum, i + 1, p)} ::
      p < ENTRY_SIZE ==> Placed(units, seqNo, sum, i, value, p)
  {
    forall p: nat | p < ENTRY_SIZE ensures Placed(units, seqNo, sum, i, value, p) { SlotIs(p, i); }
  }

  lemma SlotIs(p: nat, i: nat)
    requires p < ENTRY_SIZE && i < UNITS
    ensures SlotOf(p) == Some((i, true)) <==> p == OffsetOf(i)
    ensures SlotOf(p) == Some((i, false)) <==> p == OffsetOf(i) + 1
    ensures SlotOf(p).Some? ==> p != 0 && p != 11 && p != 13
  {
  }

  /** Fails exactly on names of no unit or more than 255. */
  method EncodeLfnEntries(name: Name, short: seq<u8>) returns (r: Option<seq<seq<u8>>>)
    requires IsName(name)
    ensures r.Some? <==> Encodable(name)
    ensures r.Some? ==> r.value == EncodeEntries(name, short)
  {
    var units := EncodeUtf16(name);
    if |units| == 0 || |units| > 255 { return None; }
    CountBound(units);
    var sum := Checksum(short);
    var entries: seq<seq<u8>> := [];
    var seqNo := EntryCount(units);
    while seqNo > 0
      invariant 0 <= seqNo <= EntryCount(units)
      invariant entries + EntriesDown(units, seqNo, sum) == EntriesDown(units, EntryCount(units), sum)
    {
      var entry := FillEntry(units, seqNo, sum);
      Assoc(entries, [entry], EntriesDown(units, seqNo - 1, sum));
      entries := entries + [entry];
      seqNo := seqNo - 1;
    }
    return Some(entries);
  }

  function Prepend(s: Name, rest: Option<Name>): Option<Name> { if rest.None? then None else Some(s + rest.value) }

  method Utf16ToString(units: seq<u16>) returns (r: Option<Name>)
    ensures r == DecodeUtf16(units)
  {
    var s: Name := [];
    var i := 0;
    assert units[0..] == units;
    PrependNone(DecodeUtf16(units));
    while i < |units|
      invariant 0 <= i <= |units| && Prepend(s, DecodeUtf16(units[i..])) == DecodeUtf16(units)
    {
      var ch := units[i];
      if IsHigh(ch) {
        if i + 1 >= |units| { return None; }
        var low := units[i + 1];
        if !IsLow(low) { return None; }
        var c: nat := 0x1_0000 + (ch as int - 0xD800) * 0x400 + (low as int - 0xDC00);
        assert units[i..][2..] == units[i + 2..];
        PrependMore(s, c, DecodeUtf16(units[i + 2..]));
        s := s + [c];
        i := i + 2;
      } else if IsLow(ch) {
        return None;
      } else {
        assert units[i..][1..] == units[i + 1..];
        PrependMore(s, ch, DecodeUtf16(units[i + 1..]));
        s := s + [ch as int];
        i := i + 1;
      }
    }
    assert units[i..] == [] && s + [] == s;
    return Some(s);
  }

  lemma PrependNone(rest: Option<Name>)
    ensures Prepend([], rest) == rest
  {
    if rest.Some? { assert [] + rest.value == rest.value; }
  }

  lemma PrependMore(s: Name, c: nat, rest: Option<Name>)
    ensures Prepend(s, Prepend([c], rest)) == Prepend(s + [c], rest)
  {
    if rest.Some? { Assoc(s, [c], rest.value); }
  }

  method AssembleLfn(fs: seq<Fragment>) returns (r: Option<Name>)
    ensures r == Assemble(fs)
  {
    if fs == [] { return None; }
    var sorted := SortBySeq(fs);
    var i := 0;
    while i < |sorted|
      invariant 0 <= i <= |sorted| && forall j :: 0 <= j < i ==> sorted[j].seqNo == j + 1
    {
      if sorted[i].seqNo != i + 1 { return None; }
      i := i + 1;
    }
    var units := CollectUnits(sorted);
    r := Utf16ToString(units);
  }

  method CollectUnits(sorted: seq<Fragment>) returns (units: seq<u16>)
    ensures units == Collect(AllUnits(sorted))
  {
    units := [];
    var i := 0;
    assert sorted[0..] == sorted;
    while i < |sorted|
      invariant 0 <= i <= |sorted| && units + Collect(AllUnits(sorted[i..])) == Collect(AllUnits(sorted))
    {
      ghost var after := AllUnits(sorted[i + 1..]);
      assert sorted[i..][1..] == sorted[i + 1..];
      var ended;
      units, ended := CollectChars(sorted[i].chars, units, after, Collect(AllUnits(sorted)));
      if ended { return; }
      i := i + 1;
    }
    assert AllUnits(sorted[i..]) == [] && units + [] == units;
  }

  /** The units of one fragment; `ended` at the terminator. */
  method CollectChars(chars: seq<u16>, before: seq<u16>, ghost after: seq<u16>, ghost goal: seq<u16>)
    returns (units: seq<u16>, ended: bool)
    requires before + Collect(chars + after) == goal
    ensures if ended then units == goal else units + Collect(after) == goal
  {
    units := before;
    var k := 0;
    assert chars[0..] == chars;
    while k < |chars|
      invariant 0 <= k <= |chars| && units + Collect(chars[k..] + after) == goal
    {
      assert (chars[k..] + after)[1..] == chars[k + 1..] + after;
      if chars[k] == 0 {
        assert units + [] == units;
        return units, true;
      }
      if chars[k] == PAD {
        assert [] + Collect(chars[k + 1..] + after) == Collect(chars[k + 1..] + after);
      } else {
        Assoc(units, [chars[k]], Collect(chars[k + 1..] + after));
        units := units + [chars[k]];
      }
      k := k + 1;
    }
    assert chars[k..] + after == after;
    return units, false;
  }
}
