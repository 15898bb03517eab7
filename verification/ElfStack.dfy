/**
 The initial user stack: argc, the argv pointers, two null words and the argument strings, built downwards from the top
 of the stack through a window on its top page.

 The builder checks strings plus pointer words against the page but not the alignment padding, so it can write below
 the page.  The window therefore also shows the page below.
 */
module ElfStack {
  import opened Bytes

  const PAGE_SIZE: nat := 4096
  const USER_STACK_TOP: nat := 0x7fff_0010_0000
  const PAGE_BASE: nat := USER_STACK_TOP - PAGE_SIZE
  const WINDOW_BASE: nat := USER_STACK_TOP - 2 * PAGE_SIZE
  const MAX_ARGV: nat := 8

  datatype StackError = ArgvTooLarge | TooManyArgs
  datatype StackResult = Ok(rsp: nat) | Err(error: StackError)

  type Argv = seq<seq<u8>>

  /** The strings as they lie in memory, each with its NUL. */
  function Strings(argv: Argv): seq<u8> {
    if argv == [] then [] else argv[0] + [0] + Strings(argv[1..])
  }

  function PointerBytes(argc: nat): nat { (argc + 3) * 8 }

  predicate Accepted(argv: Argv) {
    |Strings(argv)| + PointerBytes(|argv|) <= PAGE_SIZE && 1 <= |argv| <= MAX_ARGV
  }

  /** Where the string of argument `i` starts. */
  function StringAt(argv: Argv, i: nat): int
    requires i <= |argv|
  {
    USER_STACK_TOP - |Strings(argv[i..])|
  }

  function Floor16(x: int): int { x - x % 16 }

  /** The padding word that keeps the stack pointer aligned. */
  function Pad(argc: nat): nat { if argc % 2 == 0 then 8 else 0 }

  function FinalRsp(argv: Argv): int {
    Floor16(USER_STACK_TOP - |Strings(argv)|) - Pad(|argv|) - PointerBytes(|argv|)
  }

  predicate FitsPage(argv: Argv) { |argv| % 2 == 1 || |Strings(argv)| + PointerBytes(|argv|) <= PAGE_SIZE - 8 }

  /** All writes stay in the top page exactly if argc is odd or strings and pointer words leave eight bytes. */
  lemma StaysInPage(argv: Argv)
    requires Accepted(argv)
    ensures FinalRsp(argv) >= PAGE_BASE <==> FitsPage(argv)
  {
    var s, p := |Strings(argv)|, PointerBytes(|argv|);
    var low := USER_STACK_TOP - s;
    assert PAGE_BASE % 16 == 0;
    if |argv| % 2 == 1 {
      assert p % 16 == 0;
      FloorAbove(low, PAGE_BASE + p);
    } else {
      assert (p + 8) % 16 == 0;
      FloorAbove(low, PAGE_BASE + p + 8);
    }
  }

  /** It can happen: two arguments that fill the page exactly push the stack pointer below it. */
  lemma LeavesPage()
    ensures var argv := [Repeat(0x61, 4054), []]; Accepted(argv) && FinalRsp(argv) < PAGE_BASE
  {
    var argv: Argv := [Repeat(0x61, 4054), []];
    assert argv[1..] == [[]] && argv[1..][1..] == [];
    assert |Strings(argv[1..])| == 1;
    assert |Strings(argv)| == 4056;
    StaysInPage(argv);
  }

  lemma FloorAbove(x: int, m: int)
    requires m % 16 == 0
    ensures Floor16(x) >= m <==> x >= m
  {
  }

  lemma FinalRspBounds(argv: Argv)
    requires Accepted(argv)
    ensures FinalRsp(argv) % 16 == 0 && PAGE_BASE - 16 <= FinalRsp(argv)
    ensures FinalRsp(argv) + PointerBytes(|argv|) + Pad(|argv|) <= USER_STACK_TOP - |Strings(argv)|
  {
    var low := USER_STACK_TOP - |Strings(argv)|;
    assert (Pad(|argv|) + PointerBytes(|argv|)) % 16 == 0;
    assert Floor16(low) % 16 == 0;
    FloorAbove(low, PAGE_BASE + PointerBytes(|argv|) - PointerBytes(|argv|) % 16);
  }

  lemma {:induction false} StringsFrom(argv: Argv, i: nat)
    requires i <= |argv|
    ensures |Strings(argv[i..])| <= |Strings(argv)|
    ensures i < |argv| ==> Strings(argv[i..]) == argv[i] + [0] + Strings(argv[i + 1..])
    ensures Strings(argv)[|Strings(argv)| - |Strings(argv[i..])|..] == Strings(argv[i..])
  {
    if i < |argv| { assert argv[i..][1..] == argv[i + 1..] && argv[i..][0] == argv[i]; }
    if i == 0 {
      assert argv[0..] == argv;
    } else {
      StringsFrom(argv, i - 1);
      assert argv[i - 1..][1..] == argv[i..] && argv[i - 1..][0] == argv[i - 1];
      var before, here := Strings(argv[i - 1..]), Strings(argv[i..]);
      assert before == argv[i - 1] + [0] + here;
      var all := Strings(argv);
      assert all[|all| - |before|..][|before| - |here|..] == all[|all| - |here|..];
      assert before[|before| - |here|..] == here;
    }
  }

  type Word8 = w: seq<u8> | |w| == 8 witness Repeat(0, 8)

  function Flat(words: seq<Word8>): (r: seq<u8>)
    ensures |r| == 8 * |words|
  {
    if words == [] then [] else words[0] + Flat(words[1..])
  }

  lemma {:induction false} WordAt(words: seq<Word8>, k: nat)
    requires k < |words|
    ensures Flat(words)[8 * k..8 * k + 8] == words[k]
  {
    var first: seq<u8>, rest: seq<u8> := words[0], Flat(words[1..]);
    if k == 0 {
      assert (first + rest)[..8] == first;
    } else {
      WordAt(words[1..], k - 1);
      assert (first + rest)[8 * k..8 * k + 8] == rest[8 * (k - 1)..8 * k];
    }
  }

  function WordBytes(vals: seq<u64>): (r: seq<u8>)
    ensures |r| == 8 * |vals|
  {
    Flat(seq(|vals|, k requires 0 <= k < |vals| => ToLe64(vals[k])))
  }

  function Pointers(argv: Argv): (r: seq<u64>)
    requires Accepted(argv)
    ensures |r| == |argv| && forall i :: 0 <= i < |r| ==> r[i] == StringAt(argv, i)
  {
    seq(|argv|, i requires 0 <= i < |argv| => PointerOf(argv, i))
  }

  function PointerOf(argv: Argv, i: nat): u64
    requires Accepted(argv) && i < |argv|
  {
    StringsFrom(argv, i);
    StringAt(argv, i)
  }

  /** The words from the final stack pointer on: argc, the pointers, two nulls and the padding. */
  function Block(argv: Argv): (r: seq<u64>)
    requires Accepted(argv)
    ensures 8 * |r| == PointerBytes(|argv|) + Pad(|argv|)
  {
    WordList(Pointers(argv))
  }

  function WordList(ptrs: seq<u64>): (r: seq<u64>)
    requires |ptrs| <= MAX_ARGV
    ensures 8 * |r| == PointerBytes(|ptrs|) + Pad(|ptrs|)
  {
    [|ptrs|] + ptrs + [0, 0] + (if |ptrs| % 2 == 0 then [0] else [])
  }

  /** The window after the stack is built. */
  function Built(w: seq<u8>, argv: Argv): (r: seq<u8>)
    requires |w| == 2 * PAGE_SIZE && Accepted(argv)
    ensures |r| == |w|
  {
    FinalRspBounds(argv);
    var strings := USER_STACK_TOP - |Strings(argv)| - WINDOW_BASE;
    Splice(Splice(w, strings, Strings(argv)), FinalRsp(argv) - WINDOW_BASE, WordBytes(Block(argv)))
  }

  lemma {:induction false} StoredWord(w: seq<u8>, off: nat, words: seq<Word8>, k: nat)
    requires off + 8 * |words| <= |w| && w[off..off + 8 * |words|] == Flat(words) && k < |words|
    ensures w[off + 8 * k..off + 8 * k + 8] == words[k]
  {
    WordAt(words, k);
    SliceOfSlice(w, off, 8 * |words|, 8 * k, 8 * k + 8);
  }

  /** In the builder's window argc, the pointers, the two null words and the padding lie at an aligned stack pointer,
      and nothing below that changes. */
  lemma {:induction false} WordsInPlace(w: seq<u8>, argv: Argv, k: nat)
    requires |w| == 2 * PAGE_SIZE && Accepted(argv) && k < |Block(argv)|
    ensures var m, rsp := Built(w, argv), FinalRsp(argv) - WINDOW_BASE;
      FinalRsp(argv) % 16 == 0 && 0 <= rsp && WordIs(m, rsp + 8 * k, Block(argv)[k]) && m[..rsp] == w[..rsp]
  {
    FinalRspBounds(argv);
    var m, rsp := Built(w, argv), FinalRsp(argv) - WINDOW_BASE;
    var vals := Block(argv);
    assert m[rsp..rsp + 8 * |vals|] == WordBytes(vals);
    StoredWord(m, rsp, seq(|vals|, i requires 0 <= i < |vals| => ToLe64(vals[i])), k);
  }

  /** In the window each pointer leads to its argument's bytes and a NUL, above all words. */
  lemma {:induction false} StringInPlace(w: seq<u8>, argv: Argv, i: nat)
    requires |w| == 2 * PAGE_SIZE && Accepted(argv) && i < |argv|
    ensures var m, str, text := Built(w, argv), StringAt(argv, i) - WINDOW_BASE, argv[i] + [0];
      FinalRsp(argv) - WINDOW_BASE + 8 * |Block(argv)| <= str && 0 <= str && str + |text| <= |m| &&
      m[str..str + |text|] == text
  {
    FinalRspBounds(argv);
    StringsFrom(argv, i);
    var all := Strings(argv);
    var rsp, words := FinalRsp(argv) - WINDOW_BASE, WordBytes(Block(argv));
    assert Built(w, argv) == Splice(Splice(w, |w| - |all|, all), rsp, words);
    AboveWords(w, all, rsp, words, argv[i], Strings(argv[i + 1..]));
  }

  lemma AboveWords(w: seq<u8>, all: seq<u8>, rsp: nat, words: seq<u8>, arg: seq<u8>, rest: seq<u8>)
    requires |all| <= |w| && rsp + |words| <= |w| - |all|
    requires |arg| + 1 + |rest| <= |all| && all[|all| - (|arg| + 1 + |rest|)..] == arg + [0] + rest
    ensures var m, str, text := Splice(Splice(w, |w| - |all|, all), rsp, words), |w| - (|arg| + 1 + |rest|), arg + [0];
      m[str..str + |text|] == text
  {
    var n, text := |arg| + 1 + |rest|, arg + [0];
    var low := Splice(w, |w| - |all|, all);
    SliceWritten(w, |w| - |all|, all);
    SliceKept(low, rsp, words, |w| - n, |text|);
    SliceOfSlice(low, |w| - |all|, |all|, |all| - n, |all| - |rest|);
    assert all[|all| - n..|all| - |rest|] == all[|all| - n..][..|text|] == text;
  }

  lemma {:induction false} StringPlace(argv: Argv, i: nat)
    requires Accepted(argv) && i < |argv|
    ensures Block(argv)[1 + i] == StringAt(argv, i) && PAGE_BASE <= StringAt(argv, i)
  {
    StringsFrom(argv, i);
    assert Block(argv)[1 + i] == Pointers(argv)[i];
  }

  // ---- The builder ---------------------------------------------------------------------

  method WriteBytes(window: array<u8>, addr: nat, bytes: seq<u8>)
    requires window.Length == 2 * PAGE_SIZE && WINDOW_BASE <= addr && addr + |bytes| <= USER_STACK_TOP
    modifies window
    ensures window[..] == Splice(old(window[..]), addr - WINDOW_BASE, bytes)
  {
    var off := addr - WINDOW_BASE;
    var k := 0;
    while k < |bytes|
      invariant 0 <= k <= |bytes|
      invariant window[..] == Splice(old(window[..]), off, bytes[..k])
    {
      window[off + k] := bytes[k];
      k := k + 1;
    }
    assert bytes[..k] == bytes;
  }

  lemma WordBytesCons(v: u64, vals: seq<u64>)
    ensures WordBytes([v] + vals) == ToLe64(v) + WordBytes(vals)
  {
    var all := [v] + vals;
    var words: seq<Word8> := seq(|all|, k requires 0 <= k < |all| => ToLe64(all[k]));
    assert words[1..] == seq(|vals|, k requires 0 <= k < |vals| => ToLe64(vals[k]));
  }

  /** Moves the stack pointer down a word and stores `v` there, below the words `vals`. */
  method PushWord(window: array<u8>, rsp: nat, v: u64, ghost w: seq<u8>, ghost vals: seq<u64>) returns (down: nat)
    requires window.Length == 2 * PAGE_SIZE == |w| && WINDOW_BASE + 8 <= rsp && rsp + 8 * |vals| <= USER_STACK_TOP
    requires window[..] == Splice(w, rsp - WINDOW_BASE, WordBytes(vals))
    modifies window
    ensures down == rsp - 8 && window[..] == Splice(w, down - WINDOW_BASE, WordBytes([v] + vals))
  {
    down := rsp - 8;
    WriteBytes(window, down, ToLe64(v));
    WordBytesCons(v, vals);
    SpliceBelow(w, down - WINDOW_BASE, ToLe64(v), WordBytes(vals));
  }

  /** The strings, the last one first; `ptrs` holds where each one starts. */
  method PushStrings(window: array<u8>, argv: Argv) returns (rsp: nat, ptrs: seq<u64>)
    requires window.Length == 2 * PAGE_SIZE && Accepted(argv)
    modifies window
    ensures rsp == USER_STACK_TOP - |Strings(argv)| && ptrs == Pointers(argv)
    ensures window[..] == Splice(old(window[..]), rsp - WINDOW_BASE, Strings(argv))
  {
    rsp := USER_STACK_TOP;
    ptrs := Repeat(0, |argv|);
    var i := |argv|;
    assert argv[i..] == [];
    while i > 0
      invariant 0 <= i <= |argv| == |ptrs|
      invariant rsp == StringAt(argv, i) && |Strings(argv[i..])| <= |Strings(argv)|
      invariant window[..] == Splice(old(window[..]), rsp - WINDOW_BASE, Strings(argv[i..]))
      invariant forall j :: i <= j < |argv| ==> ptrs[j] == StringAt(argv, j)
    {
      i := i - 1;
      StringsFrom(argv, i);
      rsp := PushString(window, rsp, argv[i], old(window[..]), Strings(argv[i + 1..]));
      ptrs := ptrs[i := rsp];
    }
    assert argv[0..] == argv;
  }

  /** One string and its NUL, below the text `above`. */
  method PushString(window: array<u8>, rsp: nat, arg: seq<u8>, ghost w: seq<u8>,
      ghost above: seq<u8>) returns (down: nat)
    requires window.Length == 2 * PAGE_SIZE == |w| && WINDOW_BASE + |arg| + 1 <= rsp && rsp + |above| <= USER_STACK_TOP
    requires window[..] == Splice(w, rsp - WINDOW_BASE, above)
    modifies window
    ensures down == rsp - (|arg| + 1) && window[..] == Splice(w, down - WINDOW_BASE, arg + [0] + above)
  {
    down := rsp - (|arg| + 1);
    ghost var off, before := down - WINDOW_BASE, window[..];
    assert before == Splice(w, off + |arg| + 1, above);
    WriteBytes(window, down, arg);
    ghost var text := window[..];
    assert text == Splice(before, off, arg);
    WriteBytes(window, down + |arg|, [0]);
    assert window[..] == Splice(text, off + |arg|, [0]);
    TwoWrites(w, off, arg, above);
  }

  lemma TwoWrites(w: seq<u8>, off: nat, arg: seq<u8>, above: seq<u8>)
    requires off + |arg| + 1 + |above| <= |w|
    ensures Splice(Splice(Splice(w, off + |arg| + 1, above), off, arg), off + |arg|, [0]) ==
      Splice(w, off, arg + [0] + above)
  {
    SpliceAdjacent(Splice(w, off + |arg| + 1, above), off, arg, [0]);
    SpliceBelow(w, off, arg + [0], above);
  }

  /** Exactly the accepted arguments are laid out, and otherwise nothing is written. */
  method BuildInitialStack(window: array<u8>, argv: Argv) returns (r: StackResult)
    requires window.Length == 2 * PAGE_SIZE && argv != []
    modifies window
    ensures r.Ok? <==> Accepted(argv)
    ensures r.Err? ==> window[..] == old(window[..])
    ensures r.Err? ==> r.error == if |Strings(argv)| + PointerBytes(|argv|) > PAGE_SIZE
      then ArgvTooLarge else TooManyArgs
    ensures r.Ok? ==> r.rsp == FinalRsp(argv) && window[..] == Built(old(window[..]), argv)
  {
    if |Strings(argv)| + PointerBytes(|argv|) > PAGE_SIZE { return Err(ArgvTooLarge); }
    if |argv| > MAX_ARGV { return Err(TooManyArgs); }
    var rsp := LayOut(window, argv);
    return Ok(rsp);
  }

  lemma BuiltIs(w: seq<u8>, mid: seq<u8>, m: seq<u8>, argv: Argv)
    requires |w| == 2 * PAGE_SIZE && Accepted(argv) && FinalRsp(argv) >= WINDOW_BASE
    requires mid == Splice(w, USER_STACK_TOP - |Strings(argv)| - WINDOW_BASE, Strings(argv))
    requires FinalRsp(argv) - WINDOW_BASE + |WordBytes(Block(argv))| <= |mid|
    requires m == Splice(mid, FinalRsp(argv) - WINDOW_BASE, WordBytes(Block(argv)))
    ensures m == Built(w, argv)
  {
  }

  method LayOut(window: array<u8>, argv: Argv) returns (rsp: nat)
    requires window.Length == 2 * PAGE_SIZE && Accepted(argv)
    modifies window
    ensures rsp == FinalRsp(argv) && window[..] == Built(old(window[..]), argv)
  {
    ghost var w := window[..];
    var low, ptrs := PushStrings(window, argv);
    ghost var mid := window[..];
    rsp := PushBlock(window, low, ptrs, argv);
    BuiltIs(w, mid, window[..], argv);
  }

  /** The padding and the two null words. */
  method PushNulls(window: array<u8>, rsp: nat, argc: nat, ghost w: seq<u8>) returns (down: nat)
    requires window.Length == 2 * PAGE_SIZE && WINDOW_BASE + 24 <= rsp <= USER_STACK_TOP && window[..] == w
    modifies window
    ensures var vals := [0, 0] + (if argc % 2 == 0 then [0] else []);
      down == rsp - 8 * |vals| && window[..] == Splice(w, down - WINDOW_BASE, WordBytes(vals))
  {
    ghost var vals: seq<u64> := if argc % 2 == 0 then [0] else [];
    down := PushPad(window, rsp, argc, w);
    down := PushPair(window, down, w, vals);
  }

  method PushPad(window: array<u8>, rsp: nat, argc: nat, ghost w: seq<u8>) returns (down: nat)
    requires window.Length == 2 * PAGE_SIZE && WINDOW_BASE + 8 <= rsp <= USER_STACK_TOP && window[..] == w
    modifies window
    ensures var vals := if argc % 2 == 0 then [0] else [];
      down == rsp - 8 * |vals| && window[..] == Splice(w, down - WINDOW_BASE, WordBytes(vals))
  {
    assert Splice(w, rsp - WINDOW_BASE, WordBytes([])) == w;
    down := rsp;
    if (argc + 3) % 2 != 0 {
      down := PushWord(window, down, 0, w, []);
      assert [0] + [] == [0];
    }
  }

  method PushPair(window: array<u8>, rsp: nat, ghost w: seq<u8>, ghost vals: seq<u64>) returns (down: nat)
    requires window.Length == 2 * PAGE_SIZE == |w| && WINDOW_BASE + 16 <= rsp && rsp + 8 * |vals| <= USER_STACK_TOP
    requires window[..] == Splice(w, rsp - WINDOW_BASE, WordBytes(vals))
    modifies window
    ensures down == rsp - 16 && window[..] == Splice(w, down - WINDOW_BASE, WordBytes([0, 0] + vals))
  {
    down := PushWord(window, rsp, 0, w, vals);
    down := PushWord(window, down, 0, w, [0] + vals);
    assert [0] + ([0] + vals) == [0, 0] + vals;
  }

  /** The words, below the strings. */
  method PushBlock(window: array<u8>, low: nat, ptrs: seq<u64>, ghost argv: Argv) returns (down: nat)
    requires window.Length == 2 * PAGE_SIZE && Accepted(argv) && ptrs == Pointers(argv) &&
      low == USER_STACK_TOP - |Strings(argv)|
    modifies window
    ensures down == FinalRsp(argv) && down >= WINDOW_BASE
    ensures window[..] == Splice(old(window[..]), FinalRsp(argv) - WINDOW_BASE, WordBytes(Block(argv)))
  {
    FinalRspBounds(argv);
    down := PushWords(window, low - low % 16, ptrs, window[..]);
  }

  method PushWords(window: array<u8>, rsp: nat, ptrs: seq<u64>, ghost w: seq<u8>) returns (down: nat)
    requires window.Length == 2 * PAGE_SIZE && window[..] == w && |ptrs| <= MAX_ARGV
    requires WINDOW_BASE + PointerBytes(|ptrs|) + 8 <= rsp <= USER_STACK_TOP
    modifies window
    ensures down == rsp - Pad(|ptrs|) - PointerBytes(|ptrs|)
    ensures window[..] == Splice(w, down - WINDOW_BASE, WordBytes(WordList(ptrs)))
  {
    ghost var vals: seq<u64> := [0, 0] + (if |ptrs| % 2 == 0 then [0] else []);
    down := PushNulls(window, rsp, |ptrs|, w);
    down := PushPointers(window, down, ptrs, w, vals);
    down := PushWord(window, down, |ptrs|, w, ptrs + vals);
    WordListIs(ptrs, vals);
  }

  lemma WordListIs(ptrs: seq<u64>, vals: seq<u64>)
    requires |ptrs| <= MAX_ARGV && vals == [0, 0] + (if |ptrs| % 2 == 0 then [0] else [])
    ensures [|ptrs|] + (ptrs + vals) == WordList(ptrs)
  {
  }

  method PushPointers(window: array<u8>, rsp: nat, ptrs: seq<u64>, ghost w: seq<u8>,
      ghost vals: seq<u64>) returns (down: nat)
    requires window.Length == 2 * PAGE_SIZE == |w| && WINDOW_BASE + 8 * |ptrs| <= rsp &&
      rsp + 8 * |vals| <= USER_STACK_TOP
    requires window[..] == Splice(w, rsp - WINDOW_BASE, WordBytes(vals))
    modifies window
    ensures down == rsp - 8 * |ptrs| && window[..] == Splice(w, down - WINDOW_BASE, WordBytes(ptrs + vals))
  {
    down := rsp;
    var i := |ptrs|;
    assert ptrs[i..] + vals == vals;
    while i > 0
      invariant 0 <= i <= |ptrs| && down == rsp - 8 * (|ptrs| - i)
      invariant window[..] == Splice(w, down - WINDOW_BASE, WordBytes(ptrs[i..] + vals))
    {
      i := i - 1;
      down := PushWord(window, down, ptrs[i], w, ptrs[i + 1..] + vals);
      assert [ptrs[i]] + (ptrs[i + 1..] + vals) == ptrs[i..] + vals;
    }
    assert ptrs[0..] == ptrs;
  }
}
