/** Loading an ELF image: header checks, segment checks and the pages each PT_LOAD segment is mapped with. */
module ElfLoad {
  import opened Bytes
  import opened FrameAlloc
  import Stack = ElfStack

  const PAGE_SIZE: nat := 4096
  const USER_LIMIT: nat := 0x8000_0000_0000
  const STACK_TOP: nat := Stack.USER_STACK_TOP
  const STACK_BOTTOM: nat := STACK_TOP - 64 * 1024
  const HEADER_SIZE: nat := 64
  const PH_SIZE: nat := 56
  const PT_LOAD: nat := 1
  const U64_LIMIT: nat := 0x1_0000_0000_0000_0000

  datatype ElfError =
    | TruncatedHeader | BadMagic | NotElf64 | NotLittleEndian | NotExec | NotX86 | BadVersion | BadPhSize | KernelEntry
    | TableOverflow | TruncatedTable | TruncatedProgramHeader
    | FileszExceedsMemsz | AlignNotPowerOfTwo | Misaligned | AddressOutside | FileOverflow | FileTruncated
    | MemOverflow | MemOutside | EmptyRange | OverlappingSegments | OverlapsStack | NoSegments
    | OutOfMemory | MapFailed | BadArgs

  datatype Result<+T> = Ok(value: T) | Err(error: ElfError)

  predicate ResourceError(e: ElfError) { e == OutOfMemory || e == MapFailed }

  // ---- Headers ---------------------------------------------------------------------

  datatype Header = Header(entry: nat, phoff: nat, phnum: nat)
  datatype Segment = Segment(kind: nat, flags: nat, offset: nat, vaddr: nat, filesz: nat, memsz: nat, align: nat)

  function Field(image: seq<u8>, off: nat, n: nat): nat
    requires off + n <= |image|
  {
    FromLe(image[off..off + n])
  }

  function ParseHeader(image: seq<u8>): (r: Result<Header>)
    ensures r.Ok? ==> r.value.entry < USER_LIMIT && r.value.phoff + PH_SIZE * r.value.phnum <= |image|
  {
    if |image| < HEADER_SIZE then Err(TruncatedHeader)
    else if image[..4] != [0x7f, 0x45, 0x4c, 0x46] then Err(BadMagic)
    else if image[4] != 2 then Err(NotElf64)
    else if image[5] != 1 then Err(NotLittleEndian)
    else if Field(image, 16, 2) != 2 then Err(NotExec)
    else if Field(image, 18, 2) != 62 then Err(NotX86)
    else if Field(image, 20, 4) != 1 then Err(BadVersion)
    else if Field(image, 54, 2) != PH_SIZE then Err(BadPhSize)
    else
      var h := Header(Field(image, 24, 8), Field(image, 32, 8), Field(image, 56, 2));
      if h.entry >= USER_LIMIT then Err(KernelEntry)
      else if h.phoff + PH_SIZE * h.phnum >= U64_LIMIT then Err(TableOverflow)
      else if h.phoff + PH_SIZE * h.phnum > |image| then Err(TruncatedTable)
      else Ok(h)
  }

  function SegmentAt(image: seq<u8>, off: nat): Segment
    requires off + PH_SIZE <= |image|
  {
    Segment(Field(image, off, 4), Field(image, off + 4, 4), Field(image, off + 8, 8), Field(image, off + 16, 8),
            Field(image, off + 32, 8), Field(image, off + 40, 8), Field(image, off + 48, 8))
  }

  /** Program header `i`; a header that parses leaves room for all of them. */
  function ProgramHeader(image: seq<u8>, h: Header, i: nat): Segment
    requires h.phoff + PH_SIZE * h.phnum <= |image| && i < h.phnum
  {
    SegmentAt(image, h.phoff + PH_SIZE * i)
  }

  // ---- Segments ---------------------------------------------------------------------

  predicate IsPowerOfTwo(n: nat) {
    n == 1 || (n > 1 && n % 2 == 0 && IsPowerOfTwo(n / 2))
  }

  function AlignDown(x: nat): nat { x - x % PAGE_SIZE }

  function AlignUp(x: nat): nat { AlignDown(x + PAGE_SIZE - 1) }

  function Start(ph: Segment): nat { AlignDown(ph.vaddr) }

  function End(ph: Segment): nat { AlignUp(ph.vaddr + ph.memsz) }

  predicate Overlap(aStart: nat, aEnd: nat, bStart: nat, bEnd: nat) { aStart < bEnd && bStart < aEnd }

  predicate IsLoad(ph: Segment) { ph.kind == PT_LOAD && ph.memsz != 0 }

  function Validate(ph: Segment, len: nat): Option<ElfError> {
    if ph.filesz > ph.memsz then Some(FileszExceedsMemsz)
    else if ph.align > 1 && !IsPowerOfTwo(ph.align) then Some(AlignNotPowerOfTwo)
    else if ph.align >= PAGE_SIZE && ph.vaddr % PAGE_SIZE != ph.offset % PAGE_SIZE then Some(Misaligned)
    else if ph.vaddr >= USER_LIMIT then Some(AddressOutside)
    else if ph.offset + ph.filesz >= U64_LIMIT then Some(FileOverflow)
    else if ph.offset + ph.filesz > len then Some(FileTruncated)
    else if ph.vaddr + ph.memsz >= U64_LIMIT then Some(MemOverflow)
    else if ph.vaddr + ph.memsz >= USER_LIMIT then Some(MemOutside)
    else if ph.vaddr + ph.memsz <= ph.vaddr then Some(EmptyRange)
    else None
  }

  /** A segment that passes the checks lies, with all its pages, below the user limit, and its bytes in the file. */
  lemma ValidSegment(ph: Segment, len: nat)
    requires Validate(ph, len) == None
    ensures Start(ph) <= ph.vaddr < ph.vaddr + ph.memsz <= End(ph) <= USER_LIMIT && ph.offset + ph.filesz <= len
    ensures Start(ph) % PAGE_SIZE == 0 && End(ph) % PAGE_SIZE == 0
    ensures ph.vaddr < Start(ph) + PAGE_SIZE && End(ph) < ph.vaddr + ph.memsz + PAGE_SIZE
  {
    Aligned(ph.vaddr);
    Aligned(ph.vaddr + ph.memsz + PAGE_SIZE - 1);
  }

  lemma Aligned(x: nat)
    ensures AlignDown(x) <= x < AlignDown(x) + PAGE_SIZE && AlignDown(x) % PAGE_SIZE == 0
  {
  }

  ghost predicate ClearOfStack(ph: Segment) { !Overlap(Start(ph), End(ph), STACK_BOTTOM - PAGE_SIZE, STACK_TOP) }

  ghost predicate Apart(a: Segment, b: Segment) { !Overlap(Start(a), End(a), Start(b), End(b)) }

  /** Every loadable segment passes the checks, clear of the stack and of each other, and there is one. */
  ghost predicate Loadable(len: nat, phs: seq<Segment>) {
    HasLoad(phs) && LoadableParts(len, phs)
  }

  ghost predicate HasLoad(phs: seq<Segment>) { exists i :: 0 <= i < |phs| && IsLoad(phs[i]) }

  ghost predicate LoadableParts(len: nat, phs: seq<Segment>) {
    (forall i :: 0 <= i < |phs| && IsLoad(phs[i]) ==> Validate(phs[i], len) == None && ClearOfStack(phs[i])) &&
    (forall i, j :: 0 <= i < j < |phs| && IsLoad(phs[i]) && IsLoad(phs[j]) ==> Apart(phs[i], phs[j]))
  }

  // ---- Pages --------------------------------------------------------------------------

  datatype Page = Page(bytes: seq<u8>, user: bool, writable: bool, exec: bool)

  /** What the program must find at address `a` of a segment's pages. */
  function Want(image: seq<u8>, ph: Segment, a: nat): u8
    requires ph.offset + ph.filesz <= |image|
  {
    if ph.vaddr <= a < ph.vaddr + ph.filesz then image[ph.offset + (a - ph.vaddr)] else 0
  }

  function PageBytes(image: seq<u8>, ph: Segment, page: nat): (r: seq<u8>)
    requires ph.offset + ph.filesz <= |image|
    ensures |r| == PAGE_SIZE && forall k :: 0 <= k < PAGE_SIZE ==> r[k] == Want(image, ph, page + k)
  {
    seq<u8>(PAGE_SIZE, k requires 0 <= k < PAGE_SIZE => Want(image, ph, page + k))
  }

  function SegmentPage(image: seq<u8>, ph: Segment, page: nat): Page
    requires ph.offset + ph.filesz <= |image|
  {
    Page(PageBytes(image, ph, page), true, ph.flags / 2 % 2 == 1, ph.flags % 2 == 1)
  }

  ghost predicate InSegment(ph: Segment, page: nat) { Start(ph) <= page < End(ph) && page % PAGE_SIZE == 0 }

  ghost predicate Mapped(pages: map<nat, Page>, image: seq<u8>, ph: Segment)
    requires ph.offset + ph.filesz <= |image|
  {
    forall p: nat :: InSegment(ph, p) ==> p in pages && pages[p] == SegmentPage(image, ph, p)
  }

  /** The byte at address `a`, if its page is mapped. */
  ghost function ByteAt(pages: map<nat, Page>, a: nat): Option<u8> {
    var p := AlignDown(a);
    if p in pages && a - p < |pages[p].bytes| then Some(pages[p].bytes[a - p]) else None
  }

  /** Memory at each byte of a mapped segment's pages equals the file byte below filesz and 0 everywhere else. */
  lemma SegmentBytes(pages: map<nat, Page>, image: seq<u8>, ph: Segment, a: nat)
    requires Validate(ph, |image|) == None && Mapped(pages, image, ph) && Start(ph) <= a < End(ph)
    ensures ByteAt(pages, a) ==
      Some(if ph.vaddr <= a < ph.vaddr + ph.filesz then image[ph.offset + (a - ph.vaddr)] else 0)
    ensures a < USER_LIMIT
  {
    ValidSegment(ph, |image|);
    Aligned(a);
    InPages(Start(ph), End(ph), a);
    assert InSegment(ph, AlignDown(a));
  }

  lemma InPages(start: nat, end: nat, a: nat)
    requires start % PAGE_SIZE == 0 && end % PAGE_SIZE == 0 && start <= a < end
    ensures start <= AlignDown(a) < end
  {
  }

  /** What a page table covers. */
  const TABLE_SPAN: nat := 512 * PAGE_SIZE

  ghost predicate SharesTable(pages: map<nat, Page>, page: nat) {
    exists p :: p in pages && p / TABLE_SPAN == page / TABLE_SPAN
  }

  ghost predicate Extends(before: map<nat, nat>, after: map<nat, nat>) {
    forall p :: p in before ==> p in after && after[p] == before[p]
  }

  class AddressSpace {
    var pages: map<nat, Page>
    var memory: SoundMemory

    constructor (alloc: Allocator)
      requires Sound(alloc, {})
      ensures pages == map[] && memory.alloc == alloc && Valid()
    {
      pages := map[];
      memory := Memory(map[], {}, alloc);
    }

    ghost predicate Valid()
      reads this
    {
      memory.frames.Keys == pages.Keys
    }

    /** The stack's pages are mapped, with nothing on them, and no others are. */
    ghost predicate Blank()
      reads this
    {
      Valid() && pages == BlankPages(STACK_TOP)[GUARD_PAGE := BlankStackPage(GUARD_PAGE)]
    }

    /** Maps the page with the next free frame.  Fails when the page is mapped already, when no frame is left, and
        when the address space is at its limit. */
    method MapPage(page: nat, content: Page) returns (r: Result<()>)
      requires Valid()
      modifies this
      ensures Valid()
      ensures r.Ok? ==> page !in old(pages) && pages == old(pages)[page := content]
      ensures r.Ok? ==>
        Head(old(memory).alloc).Some? && memory.frames == old(memory).frames[page := Head(old(memory).alloc).value]
      ensures r.Ok? && SharesTable(old(pages), page) ==> memory.alloc == Tail(old(memory).alloc)
      ensures r.Ok? ==> Continues(old(memory).alloc, memory.alloc)
      ensures r.Err? ==> ResourceError(r.error) && pages == old(pages) && memory.frames == old(memory).frames
    {
      var frame, m := TakeFrame(memory);
      if frame.None? {
        memory := m;
        return Err(OutOfMemory);
      }
      var covered := exists p :: p in pages && p / TABLE_SPAN == page / TABLE_SPAN;
      var made;
      made, m := MakeTables(m, frame.value, covered);
      var limit: bool := *;
      if limit || !made || page in pages {
        Return(m, frame.value);
        memory := m.(alloc := GiveBack(m.alloc, frame.value));
        return Err(MapFailed);
      }
      Place(m, frame.value, page);
      pages, memory := pages[page := content], m.(frames := m.frames[page := frame.value]);
      return Ok(());
    }

    /** The file bytes that fall into one page; `frame` is zeroed. */
    method CopyPageData(image: seq<u8>, ph: Segment, page: nat, frame: array<u8>)
      requires frame.Length == PAGE_SIZE && ph.offset + ph.filesz <= |image| && frame[..] == Repeat(0, PAGE_SIZE)
      modifies frame
      ensures frame[..] == PageBytes(image, ph, page)
    {
      if ph.filesz == 0 { return; }
      var from := Max(page, ph.vaddr);
      var to := Min(page + PAGE_SIZE, ph.vaddr + ph.filesz);
      if from >= to { return; }
      var src, dst, len := ph.offset + (from - ph.vaddr), from - page, to - from;
      var k := 0;
      while k < len
        invariant 0 <= k <= len
        invariant forall j :: 0 <= j < PAGE_SIZE ==> frame[j] == if dst <= j < dst + k
          then image[src + (j - dst)] else 0
      {
        frame[dst + k] := image[src + k];
        k := k + 1;
      }
    }

    method MapSegmentPage(image: seq<u8>, ph: Segment, page: nat) returns (r: Result<()>)
      requires Valid() && ph.offset + ph.filesz <= |image|
      modifies this
      ensures Valid() && Extends(old(memory).frames, memory.frames)
      ensures r.Ok? ==> pages == old(pages)[page := SegmentPage(image, ph, page)]
      ensures r.Err? ==> ResourceError(r.error) && pages == old(pages)
    {
      var frame := new u8[PAGE_SIZE](i => 0);
      assert frame[..] == Repeat(0, PAGE_SIZE);
      CopyPageData(image, ph, page, frame);
      r := MapPage(page, Page(frame[..], true, ph.flags / 2 % 2 == 1, ph.flags % 2 == 1));
    }

    method MapLoadSegment(image: seq<u8>, ph: Segment) returns (r: Result<()>)
      requires Valid() && Validate(ph, |image|) == None
      modifies this
      ensures Valid() && Extends(old(memory).frames, memory.frames)
      ensures r.Ok? ==> Mapped(pages, image, ph)
      ensures forall p: nat :: !InSegment(ph, p) ==> SamePage(pages, old(pages), p)
      ensures r.Err? ==> ResourceError(r.error)
    {
      ValidSegment(ph, |image|);
      var page := Start(ph);
      while page < End(ph)
        invariant Start(ph) <= page <= End(ph) && page % PAGE_SIZE == 0
        invariant Valid() && Extends(old(memory).frames, memory.frames)
        invariant forall p: nat :: InSegment(ph, p) && p < page ==> p in pages && pages[p] == SegmentPage(image, ph, p)
        invariant forall p: nat :: !InSegment(ph, p) ==> SamePage(pages, old(pages), p)
      {
        r := MapSegmentPage(image, ph, page);
        if r.Err? { return; }
        NextPage(page, End(ph));
        page := page + PAGE_SIZE;
      }
      return Ok(());
    }

    /** Checks a loadable header against those before it and maps it. */
    method LoadOne(image: seq<u8>, ph: Segment, ranges: seq<(nat, nat)>, ghost start: map<nat, Page>,
        ghost done: seq<Segment>)
      returns (r: Result<()>)
      requires IsLoad(ph) && LoadableParts(|image|, done) && LoadedAll(pages, start, image, done) &&
        ranges == Ranges(done)
      requires Valid()
      modifies this
      ensures Valid() && Extends(old(memory).frames, memory.frames)
      ensures r.Ok? ==> LoadableParts(|image|, done + [ph]) && LoadedAll(pages, start, image, done + [ph])
      ensures r.Err? && !ResourceError(r.error) ==> !LoadableParts(|image|, done + [ph])
    {
      ghost var all := done + [ph];
      assert all[|done|] == ph;
      var err := Validate(ph, |image|);
      if err.Some? { return Err(err.value); }
      RangesOf(done, Start(ph), End(ph));
      if AnyOverlap(ranges, Start(ph), End(ph)) {
        OverlapFound(|image|, done, ph);
        return Err(OverlappingSegments);
      }
      if Overlap(Start(ph), End(ph), STACK_BOTTOM - PAGE_SIZE, STACK_TOP) { return Err(OverlapsStack); }
      ghost var before := pages;
      r := MapLoadSegment(image, ph);
      if r.Ok? { LoadedMore(start, before, pages, image, done, ph); }
    }

    /** A header that is not loadable is passed over. */
    method LoadNext(image: seq<u8>, ph: Segment, ranges: seq<(nat, nat)>, ghost start: map<nat, Page>,
        ghost done: seq<Segment>)
      returns (r: Result<()>)
      requires Valid() && LoadableParts(|image|, done) && LoadedAll(pages, start, image, done) && ranges == Ranges(done)
      modifies this
      ensures Valid() && Extends(old(memory).frames, memory.frames)
      ensures r.Ok? ==> LoadableParts(|image|, done + [ph]) && LoadedAll(pages, start, image, done + [ph])
      ensures r.Err? && !ResourceError(r.error) ==> !LoadableParts(|image|, done + [ph])
    {
      if !IsLoad(ph) {
        LoadedSame(start, pages, image, done, ph);
        return Ok(());
      }
      r := LoadOne(image, ph, ranges, start, done);
    }

    /** Loading succeeds only on loadable headers, and then every segment is mapped and no other page is touched; a
        failure other than for lack of resources means the headers are not loadable. */
    method LoadSegments(image: seq<u8>, h: Header) returns (r: Result<()>)
      requires Valid() && h.phoff + PH_SIZE * h.phnum <= |image|
      modifies this
      ensures Valid() && Extends(old(memory).frames, memory.frames)
      ensures r.Ok? ==> Loadable(|image|, Headers(image, h)) && LoadedAll(pages, old(pages), image, Headers(image, h))
      ensures r.Err? && !ResourceError(r.error) ==> !Loadable(|image|, Headers(image, h))
    {
      ghost var phs, done: seq<Segment> := Headers(image, h), [];
      var sawLoad := false;
      var ranges: seq<(nat, nat)> := [];
      var i := 0;
      while i < h.phnum
        invariant 0 <= i <= h.phnum == |phs| && done == phs[..i]
        invariant Valid() && Extends(old(memory).frames, memory.frames)
        invariant LoadableParts(|image|, done) && LoadedAll(pages, old(pages), image, done)
        invariant ranges == Ranges(done) && sawLoad == HasLoad(done)
      {
        var ph := ProgramHeader(image, h, i);
        HeadersMore(image, h, i);
        OneMore(done, ph);
        r := LoadNext(image, ph, ranges, old(pages), done);
        if r.Err? { return; }
        if IsLoad(ph) { ranges := ranges + [(Start(ph), End(ph))]; }
        sawLoad := sawLoad || IsLoad(ph);
        done := done + [ph];
        i := i + 1;
      }
      assert done == phs;
      if !sawLoad { return Err(NoSegments); }
      return Ok(());
    }

    /** The stack's pages, all zero, and the guard page below them, which user code cannot reach.  The last two pages
        and the guard page get the next three memory.frames of the allocator `last`. */
    method MapStackPages() returns (r: Result<()>, ghost last: Allocator)
      requires Valid() && pages == map[]
      modifies this
      ensures Valid() && (r.Ok? ==> Blank())
      ensures r.Ok? ==> LastFrames(memory.frames, last) && Continues(old(memory).alloc, last)
      ensures r.Err? ==> ResourceError(r.error)
    {
      ghost var first, prev := memory.alloc, memory.alloc;
      last := memory.alloc;
      var page := STACK_BOTTOM;
      NoPages();
      while page < STACK_TOP
        invariant STACK_BOTTOM <= page <= STACK_TOP && page % PAGE_SIZE == 0 && Valid() && pages == BlankPages(page)
        invariant Trail(memory, first, prev, last, page)
      {
        ghost var a, b := memory.alloc, prev;
        r := MapStackPage(page, first, prev, last);
        if r.Err? { return; }
        last, prev := b, a;
        page := page + PAGE_SIZE;
      }
      r := MapGuard(first, prev, last);
    }

    method MapStackPage(page: nat, ghost first: Allocator, ghost prev: Allocator, ghost last: Allocator)
      returns (r: Result<()>)
      requires STACK_BOTTOM <= page < STACK_TOP && page % PAGE_SIZE == 0 && Valid() && pages == BlankPages(page)
      requires Trail(memory, first, prev, last, page)
      modifies this
      ensures Valid() && page + PAGE_SIZE <= STACK_TOP && (page + PAGE_SIZE) % PAGE_SIZE == 0
      ensures r.Ok? ==>
        pages == BlankPages(page + PAGE_SIZE) && Trail(memory, first, old(memory).alloc, prev, page + PAGE_SIZE)
      ensures r.Err? ==> ResourceError(r.error)
    {
      if page > STACK_BOTTOM { OneTable(page, STACK_BOTTOM); }
      BlankMore(page);
      NextPage(page, STACK_TOP);
      ghost var m := memory;
      r := MapPage(page, BlankStackPage(page));
      if r.Ok? { TrailMore(m, memory, first, prev, last, page); }
    }

    method MapGuard(ghost first: Allocator, ghost prev: Allocator, ghost last: Allocator) returns (r: Result<()>)
      requires Valid() && pages == BlankPages(STACK_TOP) && Trail(memory, first, prev, last, STACK_TOP)
      modifies this
      ensures Valid() && (r.Ok? ==> Blank() && LastFrames(memory.frames, last))
      ensures Continues(first, last)
      ensures r.Err? ==> ResourceError(r.error)
    {
      OneTable(GUARD_PAGE, STACK_BOTTOM);
      r := MapPage(GUARD_PAGE, BlankStackPage(GUARD_PAGE));
    }

    lemma OneTable(page: nat, p: nat)
      requires InStack(page) && InStack(p) && p in pages
      ensures SharesTable(pages, page)
    {
      assert p / TABLE_SPAN == page / TABLE_SPAN;
    }

    /** The builder writes through the kernel's window on physical memory, on the top page's frame and the one below
        it.  That one may be behind another page of this stack; if not, it holds `foreign`, and then `after`. */
    method MapUserStack(argv: Stack.Argv, foreign: seq<u8>)
      returns (r: Result<nat>, after: seq<u8>, ghost below: seq<u8>, ghost last: Allocator)
      requires Valid() && pages == map[] && argv != [] && |foreign| == PAGE_SIZE
      modifies this
      ensures Valid()
      ensures r.Ok? ==> Stack.Accepted(argv) && r.value == Stack.FinalRsp(argv)
      ensures r.Ok? ==> |below| == PAGE_SIZE && StackReady(pages, memory.frames, argv, below)
      ensures r.Ok? ==> LastFrames(memory.frames, last)
      ensures r.Ok? ==> Continues(old(memory).alloc, last)
      ensures r.Ok? && !OwnsBelow(memory.frames) ==> below == foreign
      ensures after == if r.Ok? && !OwnsBelow(memory.frames) then Built(below, argv)[..PAGE_SIZE] else foreign
      ensures r.Err? ==> ResourceError(r.error) || (r.error == BadArgs && !Stack.Accepted(argv))
    {
      var mapped;
      mapped, last := MapStackPages();
      below, after := foreign, foreign;
      if mapped.Err? { r := Err(mapped.error); return; }
      r, after, below := WriteWindow(argv, foreign);
    }

    method WriteWindow(argv: Stack.Argv, foreign: seq<u8>)
      returns (r: Result<nat>, after: seq<u8>, ghost below: seq<u8>)
      requires Blank() && argv != [] && |foreign| == PAGE_SIZE
      modifies this`pages
      ensures Valid() && (r.Ok? <==> Stack.Accepted(argv)) && (r.Err? ==> r.error == BadArgs)
      ensures r.Ok? ==> |below| == PAGE_SIZE && StackReady(pages, memory.frames, argv, below)
      ensures r.Ok? ==> r.value == Stack.FinalRsp(argv) && (!OwnsBelow(memory.frames) ==> below == foreign)
      ensures after == if r.Ok? && !OwnsBelow(memory.frames) then Built(below, argv)[..PAGE_SIZE] else foreign
    {
      BlankAll(pages, Stack.PAGE_BASE);
      below, after := foreign, foreign;
      if p :| p in memory.frames && memory.frames[p] + 1 == memory.frames[Stack.PAGE_BASE] {
        BlankAll(pages, p);
        r := WriteStackOver(argv, p);
        below := Repeat(0, PAGE_SIZE);
        assert Under(memory.frames, p);
      } else {
        r, after := WriteStackApart(argv, foreign);
      }
    }

    /** Builds the stack over `low` and the top page. */
    method WriteStack(argv: Stack.Argv, below: seq<u8>) returns (r: Result<nat>, low: seq<u8>)
      requires Blank() && argv != [] && |below| == PAGE_SIZE
      modifies this`pages
      ensures pages.Keys == old(pages).Keys
      ensures r.Ok? <==> Stack.Accepted(argv)
      ensures r.Err? ==> r.error == BadArgs && pages == old(pages)
      ensures r.Ok? ==> r.value == Stack.FinalRsp(argv) && low == Built(below, argv)[..PAGE_SIZE]
      ensures r.Ok? ==> pages == old(pages)[Stack.PAGE_BASE :=
        BlankStackPage(Stack.PAGE_BASE).(bytes := Built(below, argv)[PAGE_SIZE..])]
    {
      assert InStack(Stack.PAGE_BASE);
      var start := below + Repeat(0, PAGE_SIZE);
      var window := new u8[2 * PAGE_SIZE](i requires 0 <= i < |start| => start[i]);
      assert window[..] == start;
      var built := Stack.BuildInitialStack(window, argv);
      if built.Err? { return Err(BadArgs), below; }
      pages := pages[Stack.PAGE_BASE := pages[Stack.PAGE_BASE].(bytes := window[PAGE_SIZE..])];
      return Ok(built.rsp), window[..PAGE_SIZE];
    }

    /** Builds the stack over the top page and a frame that is behind no page. */
    method WriteStackApart(argv: Stack.Argv, foreign: seq<u8>) returns (r: Result<nat>, after: seq<u8>)
      requires Blank() && argv != [] && |foreign| == PAGE_SIZE && !OwnsBelow(memory.frames)
      modifies this`pages
      ensures pages.Keys == old(pages).Keys
      ensures r.Ok? <==> Stack.Accepted(argv)
      ensures r.Err? ==> r.error == BadArgs
      ensures r.Ok? ==> r.value == Stack.FinalRsp(argv) && StackReady(pages, memory.frames, argv, foreign)
      ensures after == if r.Ok? then Built(foreign, argv)[..PAGE_SIZE] else foreign
    {
      ghost var blank := pages;
      r, after := WriteStack(argv, foreign);
      if r.Err? { return r, foreign; }
      forall p: nat | InStack(p) ensures p in pages && pages[p] == StackPage(memory.frames, p, argv, foreign) {
        BlankAll(blank, p);
        assert !Under(memory.frames, p);
      }
    }

    /** Builds the stack over the pages `p` and the top one, whose frames are neighbours. */
    method WriteStackOver(argv: Stack.Argv, p: nat) returns (r: Result<nat>)
      requires Blank() && argv != [] && p in memory.frames && memory.frames[p] + 1 == memory.frames[Stack.PAGE_BASE]
      modifies this`pages
      ensures pages.Keys == old(pages).Keys
      ensures r.Ok? <==> Stack.Accepted(argv)
      ensures r.Err? ==> r.error == BadArgs
      ensures r.Ok? ==> r.value == Stack.FinalRsp(argv)
      ensures r.Ok? ==> StackReady(pages, memory.frames, argv, Repeat(0, PAGE_SIZE))
    {
      ghost var blank, zeros := pages, Repeat(0, PAGE_SIZE);
      var low;
      r, low := WriteStack(argv, pages[p].bytes);
      if r.Err? { return; }
      pages := pages[p := pages[p].(bytes := low)];
      forall x: nat | InStack(x) ensures x in pages && pages[x] == StackPage(memory.frames, x, argv, zeros) {
        BlankAll(blank, x);
        if x != p { FramesDiffer(memory, x, p); }
      }
    }

    /** A loaded program: its segments, its stack and the guard page, none of them disturbing another but for what the
        builder writes below the top page. */
    method LoadImage(image: seq<u8>, argv: Stack.Argv, foreign: seq<u8>)
      returns (r: Result<(nat, nat)>, ghost below: seq<u8>, ghost last: Allocator)
      requires Valid() && pages == map[] && argv != [] && |foreign| == PAGE_SIZE
      modifies this
      ensures Valid()
      ensures r.Ok? ==> ParseHeader(image).Ok? && Stack.Accepted(argv)
      ensures r.Ok? ==>
        var h := ParseHeader(image).value;
        r.value == (h.entry, Stack.FinalRsp(argv)) && Loadable(|image|, Headers(image, h)) &&
        (forall i :: 0 <= i < h.phnum && IsLoad(Headers(image, h)[i]) ==> Mapped(pages, image, Headers(image, h)[i]))
      ensures r.Ok? ==> |below| == PAGE_SIZE && StackReady(pages, memory.frames, argv, below)
      ensures r.Ok? ==> LastFrames(memory.frames, last)
      ensures r.Ok? ==> Continues(old(memory).alloc, last)
      ensures r.Err? && !ResourceError(r.error) ==>
        ParseHeader(image).Err? || !Stack.Accepted(argv) || !Loadable(|image|, Headers(image, ParseHeader(image).value))
    {
      below, last := foreign, memory.alloc;
      var h := ParseHeader(image);
      if h.Err? { r := Err(h.error); return; }
      var rsp, after;
      rsp, after, below, last := MapUserStack(argv, foreign);
      if rsp.Err? { r := Err(rsp.error); return; }
      ghost var stacked, placed := pages, memory.frames;
      var loaded := LoadSegments(image, h.value);
      if loaded.Err? { r := Err(loaded.error); return; }
      StackKept(stacked, pages, placed, memory.frames, image, Headers(image, h.value), argv, below);
      r := Ok((h.value.entry, rsp.value));
    }
  }

  // ---- The stack ------------------------------------------------------------------------

  const GUARD_PAGE: nat := STACK_BOTTOM - PAGE_SIZE

  ghost predicate InStack(p: nat) { GUARD_PAGE <= p < STACK_TOP && p % PAGE_SIZE == 0 }

  function BlankStackPage(p: nat): Page { Page(Repeat(0, PAGE_SIZE), p >= STACK_BOTTOM, p >= STACK_BOTTOM, false) }

  /** The stack's pages below `page`, with nothing on them. */
  function BlankPages(page: nat): map<nat, Page> {
    map p: nat | STACK_BOTTOM <= p < page && p % PAGE_SIZE == 0 :: BlankStackPage(p)
  }

  lemma NoPages()
    ensures BlankPages(STACK_BOTTOM) == map[]
  {
  }

  lemma BlankMore(page: nat)
    requires STACK_BOTTOM <= page < STACK_TOP && page % PAGE_SIZE == 0
    ensures BlankPages(page)[page := BlankStackPage(page)] == BlankPages(page + PAGE_SIZE)
  {
    NextPage(page, STACK_TOP);
  }

  lemma BlankAll(pages: map<nat, Page>, p: nat)
    requires pages == BlankPages(STACK_TOP)[GUARD_PAGE := BlankStackPage(GUARD_PAGE)]
    ensures p in pages <==> InStack(p)
    ensures p in pages ==> pages[p] == BlankStackPage(p)
  {
  }

  /** The builder's two pages, of which the upper one was zero. */
  function Built(below: seq<u8>, argv: Stack.Argv): (r: seq<u8>)
    requires |below| == PAGE_SIZE && Stack.Accepted(argv)
    ensures |r| == 2 * PAGE_SIZE
  {
    Stack.Built(below + Repeat(0, PAGE_SIZE), argv)
  }

  /** The frame of page `p` lies just below that of the top page. */
  ghost predicate Under(frames: map<nat, nat>, p: nat) {
    p in frames && Stack.PAGE_BASE in frames && frames[p] + 1 == frames[Stack.PAGE_BASE]
  }

  ghost predicate OwnsBelow(frames: map<nat, nat>) { exists p: nat :: InStack(p) && Under(frames, p) }

  /** Zero pages but for the top one and the one whose frame lies below it, which show what the builder wrote. */
  ghost predicate StackReady(pages: map<nat, Page>, frames: map<nat, nat>, argv: Stack.Argv, below: seq<u8>)
    requires |below| == PAGE_SIZE && Stack.Accepted(argv)
  {
    (OwnsBelow(frames) ==> below == Repeat(0, PAGE_SIZE)) &&
    forall p: nat :: InStack(p) ==> p in frames && p in pages && pages[p] == StackPage(frames, p, argv, below)
  }

  ghost function StackPage(frames: map<nat, nat>, p: nat, argv: Stack.Argv, below: seq<u8>): Page
    requires |below| == PAGE_SIZE && Stack.Accepted(argv)
  {
    if p == Stack.PAGE_BASE then BlankStackPage(p).(bytes := Built(below, argv)[PAGE_SIZE..])
    else if Under(frames, p) then BlankStackPage(p).(bytes := Built(below, argv)[..PAGE_SIZE])
    else BlankStackPage(p)
  }

  /** The upper two pages and the guard page have three frames handed out one after another. */
  ghost predicate LastFrames(frames: map<nat, nat>, last: Allocator) {
    Stack.WINDOW_BASE in frames && Stack.PAGE_BASE in frames && GUARD_PAGE in frames &&
    Head(last) == Some(frames[Stack.WINDOW_BASE]) && Head(Tail(last)) == Some(frames[Stack.PAGE_BASE]) &&
    Head(Tail(Tail(last))) == Some(frames[GUARD_PAGE])
  }

  /** The two pages below `page` have the frames that `last` and `prev` gave, one after the other. */
  ghost predicate Trail(m: Memory, first: Allocator, prev: Allocator, last: Allocator, page: nat) {
    Continues(first, m.alloc) && Continues(first, prev) && Continues(first, last) &&
    (page > STACK_BOTTOM + PAGE_SIZE ==>
      page - PAGE_SIZE in m.frames && Some(m.frames[page - PAGE_SIZE]) == Head(prev) && m.alloc == Tail(prev)) &&
    (page > STACK_BOTTOM + 2 * PAGE_SIZE ==>
      page - 2 * PAGE_SIZE in m.frames && Some(m.frames[page - 2 * PAGE_SIZE]) == Head(last) && prev == Tail(last))
  }

  lemma TrailMore(m: Memory, m': Memory, first: Allocator, prev: Allocator, last: Allocator, page: nat)
    requires Trail(m, first, prev, last, page) && page >= STACK_BOTTOM && Continues(m.alloc, m'.alloc)
    requires Head(m.alloc).Some? && m'.frames == m.frames[page := Head(m.alloc).value]
    requires page > STACK_BOTTOM ==> m'.alloc == Tail(m.alloc)
    ensures Trail(m', first, m.alloc, prev, page + PAGE_SIZE)
  {
  }

  lemma StackKept(before: map<nat, Page>, after: map<nat, Page>, placed: map<nat, nat>, frames: map<nat, nat>,
      image: seq<u8>, phs: seq<Segment>, argv: Stack.Argv, below: seq<u8>)
    requires |below| == PAGE_SIZE && Stack.Accepted(argv) && StackReady(before, placed, argv, below)
    requires Extends(placed, frames) && LoadableParts(|image|, phs) && LoadedAll(after, before, image, phs)
    ensures StackReady(after, frames, argv, below)
  {
    assert InStack(Stack.PAGE_BASE);
    forall p: nat | InStack(p) ensures SamePage(after, before, p) && (Under(frames, p) <==> Under(placed, p)) {
      forall i | 0 <= i < |phs| && IsLoad(phs[i]) ensures !InSegment(phs[i], p) { assert ClearOfStack(phs[i]); }
    }
  }

  // ---- What the program finds on its stack ----------------------------------------------

  /** The byte `j` places after address `a`. */
  ghost function Fetch(pages: map<nat, Page>, a: nat, j: nat): Option<u8> { ByteAt(pages, a + j) }

  ghost predicate BytesAt(pages: map<nat, Page>, a: nat, bytes: seq<u8>) {
    forall j: nat :: j < |bytes| ==> Fetch(pages, a, j) == Some(bytes[j])
  }

  /** The little-endian word at address `a`, if its eight bytes are mapped. */
  ghost function WordAt(pages: map<nat, Page>, a: nat): Option<nat> {
    if forall j: nat :: j < 8 ==> Fetch(pages, a, j).Some? then Some(FromLe(EightAt(pages, a))) else None
  }

  ghost predicate FindsWords(pages: map<nat, Page>, rsp: nat, words: seq<u64>) {
    forall k: nat :: k < |words| ==> WordAt(pages, rsp + 8 * k) == Some(words[k])
  }

  ghost function EightAt(pages: map<nat, Page>, a: nat): (r: seq<u8>)
    requires forall j: nat :: j < 8 ==> Fetch(pages, a, j).Some?
    ensures |r| == 8 && forall j: nat :: j < 8 ==> Some(r[j]) == Fetch(pages, a, j)
  {
    seq<u8>(8, j requires 0 <= j < 8 && Fetch(pages, a, j).Some? => Fetch(pages, a, j).value)
  }

  lemma WordOf(pages: map<nat, Page>, a: nat, bytes: seq<u8>)
    requires |bytes| == 8 && BytesAt(pages, a, bytes)
    ensures WordAt(pages, a) == Some(FromLe(bytes))
  {
    var got := EightAt(pages, a);
    forall j: nat | j < 8 ensures got[j] == bytes[j] { assert Fetch(pages, a, j) == Some(bytes[j]); }
    assert got == bytes;
  }

  lemma InOnePage(p: nat, a: nat)
    requires p % PAGE_SIZE == 0 && p <= a < p + PAGE_SIZE
    ensures AlignDown(a) == p
  {
  }

  lemma PageHolds(pages: map<nat, Page>, p: nat, a: nat, bytes: seq<u8>)
    requires p % PAGE_SIZE == 0 && p in pages && |pages[p].bytes| == PAGE_SIZE && p <= a && a + |bytes| <= p + PAGE_SIZE
    requires pages[p].bytes[a - p..a - p + |bytes|] == bytes
    ensures BytesAt(pages, a, bytes)
  {
    var content := pages[p].bytes;
    forall j: nat | j < |bytes| ensures Fetch(pages, a, j) == Some(bytes[j]) {
      InOnePage(p, a + j);
      assert content[a - p..a - p + |bytes|][j] == content[a - p + j];
    }
  }

  /** What lies in the upper half of the builder's window is what the program reads. */
  lemma TopHolds(pages: map<nat, Page>, m: seq<u8>, a: nat, bytes: seq<u8>)
    requires |m| == 2 * PAGE_SIZE && Stack.PAGE_BASE in pages && pages[Stack.PAGE_BASE].bytes == m[PAGE_SIZE..]
    requires Stack.PAGE_BASE <= a && a + |bytes| <= STACK_TOP
    requires var off := a - Stack.WINDOW_BASE; m[off..off + |bytes|] == bytes
    ensures BytesAt(pages, a, bytes)
  {
    var top := Stack.PAGE_BASE;
    UpperSlice(m, pages[top].bytes, a - top, |bytes|);
    PageHolds(pages, top, a, bytes);
  }

  /** The top page shows the upper half of the window, and the page below the lower half if that is its frame. */
  ghost predicate Shows(pages: map<nat, Page>, m: seq<u8>, adjacent: bool) {
    |m| == 2 * PAGE_SIZE &&
    Stack.PAGE_BASE in pages && pages[Stack.PAGE_BASE].bytes == m[PAGE_SIZE..] &&
    (adjacent ==> Stack.WINDOW_BASE in pages && pages[Stack.WINDOW_BASE].bytes == m[..PAGE_SIZE])
  }

  lemma ReadyShows(pages: map<nat, Page>, frames: map<nat, nat>, argv: Stack.Argv, below: seq<u8>)
    requires |below| == PAGE_SIZE && Stack.Accepted(argv) && StackReady(pages, frames, argv, below)
    ensures Shows(pages, Built(below, argv), Under(frames, Stack.WINDOW_BASE))
  {
    assert InStack(Stack.PAGE_BASE) && InStack(Stack.WINDOW_BASE);
  }

  lemma UpperSlice(m: seq<u8>, upper: seq<u8>, off: nat, n: nat)
    requires |m| == 2 * PAGE_SIZE && upper == m[PAGE_SIZE..] && off + n <= PAGE_SIZE
    ensures upper[off..off + n] == m[PAGE_SIZE + off..PAGE_SIZE + off + n]
  {
  }

  /** The page whose frame lies below shows what the builder wrote there. */
  lemma LowHolds(pages: map<nat, Page>, m: seq<u8>, a: nat, n: nat)
    requires |m| == 2 * PAGE_SIZE && Stack.WINDOW_BASE in pages && pages[Stack.WINDOW_BASE].bytes == m[..PAGE_SIZE]
    requires Stack.WINDOW_BASE <= a && a + n <= Stack.PAGE_BASE
    ensures var off := a - Stack.WINDOW_BASE; BytesAt(pages, a, m[off..off + n])
  {
    var p, off := Stack.WINDOW_BASE, a - Stack.WINDOW_BASE;
    assert m[..PAGE_SIZE][off..off + n] == m[off..off + n];
    PageHolds(pages, p, a, m[off..off + n]);
  }

  lemma BuiltWord(pages: map<nat, Page>, frames: map<nat, nat>, argv: Stack.Argv, below: seq<u8>, k: nat)
    requires |below| == PAGE_SIZE && Stack.Accepted(argv) && StackReady(pages, frames, argv, below)
    requires k < |Stack.Block(argv)|
    requires Stack.FinalRsp(argv) >= Stack.PAGE_BASE || Under(frames, Stack.WINDOW_BASE)
    ensures Stack.FinalRsp(argv) >= 0
    ensures WordAt(pages, Stack.FinalRsp(argv) + 8 * k) == Some(Stack.Block(argv)[k])
  {
    var m := WindowWith(pages, frames, argv, below, k);
    WordFound(pages, m, Under(frames, Stack.WINDOW_BASE), Stack.FinalRsp(argv), k, Stack.Block(argv)[k]);
  }

  lemma {:induction false} WindowWith(pages: map<nat, Page>, frames: map<nat, nat>, argv: Stack.Argv, below: seq<u8>,
      k: nat) returns (m: seq<u8>)
    requires |below| == PAGE_SIZE && Stack.Accepted(argv) && StackReady(pages, frames, argv, below)
    requires k < |Stack.Block(argv)|
    ensures Shows(pages, m, Under(frames, Stack.WINDOW_BASE))
    ensures Stack.FinalRsp(argv) % 16 == 0 && Stack.FinalRsp(argv) >= Stack.WINDOW_BASE
    ensures WordIs(m, Stack.FinalRsp(argv) - Stack.WINDOW_BASE + 8 * k, Stack.Block(argv)[k])
  {
    m := Built(below, argv);
    ReadyShows(pages, frames, argv, below);
    Stack.WordsInPlace(below + Repeat(0, PAGE_SIZE), argv, k);
  }

  lemma WordFound(pages: map<nat, Page>, m: seq<u8>, adjacent: bool, rsp: nat, k: nat, v: u64)
    requires Shows(pages, m, adjacent) && rsp % 16 == 0 && Stack.WINDOW_BASE <= rsp
    requires rsp >= Stack.PAGE_BASE || adjacent
    requires WordIs(m, rsp - Stack.WINDOW_BASE + 8 * k, v)
    ensures WordAt(pages, rsp + 8 * k) == Some(v)
  {
    WindowBytes(pages, m, adjacent, rsp + 8 * k);
    WindowWord(pages, m, rsp + 8 * k, v);
  }

  lemma WindowWord(pages: map<nat, Page>, m: seq<u8>, a: nat, v: u64)
    requires Stack.WINDOW_BASE <= a && WordIs(m, a - Stack.WINDOW_BASE, v)
    requires var off := a - Stack.WINDOW_BASE; BytesAt(pages, a, m[off..off + 8])
    ensures WordAt(pages, a) == Some(v)
  {
    var off := a - Stack.WINDOW_BASE;
    WordReads(m, off, v);
    WordOf(pages, a, m[off..off + 8]);
  }

  lemma WindowBytes(pages: map<nat, Page>, m: seq<u8>, adjacent: bool, a: nat)
    requires Shows(pages, m, adjacent) && a % 8 == 0 && Stack.WINDOW_BASE <= a && a + 8 <= STACK_TOP
    requires a >= Stack.PAGE_BASE || adjacent
    ensures var off := a - Stack.WINDOW_BASE; BytesAt(pages, a, m[off..off + 8])
  {
    var off := a - Stack.WINDOW_BASE;
    if a >= Stack.PAGE_BASE {
      TopHolds(pages, m, a, m[off..off + 8]);
    } else {
      Whole(a);
      LowHolds(pages, m, a, 8);
    }
  }

  /** No word straddles two pages. */
  lemma Whole(a: nat)
    requires a % 8 == 0 && a < Stack.PAGE_BASE
    ensures a + 8 <= Stack.PAGE_BASE
  {
  }

  lemma {:induction false} ZeroWord(n: nat)
    ensures FromLe(Repeat<u8>(0, n)) == 0
  {
    if n > 0 {
      ZeroWord(n - 1);
      var zeros: seq<u8>, fewer: seq<u8> := Repeat(0, n), Repeat(0, n - 1);
      assert zeros[1..] == fewer;
    }
  }

  /** If the frame below is not behind it, the page below the top one shows zeros, whatever the builder wrote. */
  lemma LowerWord(pages: map<nat, Page>, frames: map<nat, nat>, argv: Stack.Argv, below: seq<u8>, a: nat)
    requires |below| == PAGE_SIZE && Stack.Accepted(argv) && StackReady(pages, frames, argv, below)
    requires !Under(frames, Stack.WINDOW_BASE) && Stack.WINDOW_BASE <= a && a + 8 <= Stack.PAGE_BASE
    ensures WordAt(pages, a) == Some(0)
  {
    var p, zeros: seq<u8> := Stack.WINDOW_BASE, Repeat(0, 8);
    assert InStack(p);
    assert pages[p].bytes[a - p..a - p + 8] == zeros;
    PageHolds(pages, p, a, zeros);
    WordOf(pages, a, zeros);
    ZeroWord(8);
  }

  /** The program finds argc, the argv pointers, the two null words and the padding from its stack pointer on if and
      only if the builder stayed in the top page or the frame below is behind the program's next page; otherwise it
      finds 0 for argc. */
  lemma {:induction false} ProgramFinds(pages: map<nat, Page>, frames: map<nat, nat>, argv: Stack.Argv, below: seq<u8>)
    requires |below| == PAGE_SIZE && Stack.Accepted(argv) && StackReady(pages, frames, argv, below)
    ensures Stack.FinalRsp(argv) >= 0
    ensures FindsWords(pages, Stack.FinalRsp(argv), Stack.Block(argv)) <==>
      Stack.FitsPage(argv) || Under(frames, Stack.WINDOW_BASE)
    ensures !Stack.FitsPage(argv) && !Under(frames, Stack.WINDOW_BASE) ==>
      WordAt(pages, Stack.FinalRsp(argv)) == Some(0)
  {
    Stack.StaysInPage(argv);
    Stack.FinalRspBounds(argv);
    if Stack.FitsPage(argv) || Under(frames, Stack.WINDOW_BASE) {
      forall k: nat | k < |Stack.Block(argv)|
        ensures WordAt(pages, Stack.FinalRsp(argv) + 8 * k) == Some(Stack.Block(argv)[k])
      {
        BuiltWord(pages, frames, argv, below, k);
      }
    } else {
      var a := Stack.FinalRsp(argv);
      AlignedBelow(a);
      LowerWord(pages, frames, argv, below, a);
      assert Stack.Block(argv)[0] == |argv|;
      assert WordAt(pages, a + 8 * 0) != Some(Stack.Block(argv)[0]);
    }
  }

  lemma AlignedBelow(a: int)
    requires a % 16 == 0 && Stack.PAGE_BASE - 16 <= a < Stack.PAGE_BASE
    ensures a == Stack.PAGE_BASE - 16
  {
  }

  lemma {:induction false} WindowWithString(pages: map<nat, Page>, frames: map<nat, nat>, argv: Stack.Argv,
      below: seq<u8>, i: nat) returns (m: seq<u8>)
    requires |below| == PAGE_SIZE && Stack.Accepted(argv) && StackReady(pages, frames, argv, below) && i < |argv|
    ensures Shows(pages, m, Under(frames, Stack.WINDOW_BASE)) && Stack.StringAt(argv, i) >= Stack.WINDOW_BASE
    ensures var off, text := Stack.StringAt(argv, i) - Stack.WINDOW_BASE, argv[i] + [0];
      off + |text| <= |m| && m[off..off + |text|] == text
  {
    m := Built(below, argv);
    ReadyShows(pages, frames, argv, below);
    Stack.StringInPlace(below + Repeat(0, PAGE_SIZE), argv, i);
  }

  /** Each string is always found, where its pointer says, with its NUL. */
  lemma {:induction false} ProgramFindsString(pages: map<nat, Page>, frames: map<nat, nat>, argv: Stack.Argv,
      below: seq<u8>, i: nat)
    requires |below| == PAGE_SIZE && Stack.Accepted(argv) && StackReady(pages, frames, argv, below) && i < |argv|
    ensures Stack.Block(argv)[1 + i] == Stack.StringAt(argv, i) &&
      BytesAt(pages, Stack.Block(argv)[1 + i], argv[i] + [0])
  {
    Stack.StringPlace(argv, i);
    var m := WindowWithString(pages, frames, argv, below, i);
    TopHolds(pages, m, Stack.StringAt(argv, i), argv[i] + [0]);
  }

  /** A page of the stack below the top one, the guard page included, stays zero if and only if the builder stayed in
      the top page or the frame below is not behind it. */
  lemma PageDisturbed(pages: map<nat, Page>, frames: map<nat, nat>, argv: Stack.Argv, below: seq<u8>, p: nat)
    requires |below| == PAGE_SIZE && Stack.Accepted(argv) && StackReady(pages, frames, argv, below)
    requires InStack(p) && p != Stack.PAGE_BASE
    ensures pages[p] == BlankStackPage(p) <==> Stack.FitsPage(argv) || !Under(frames, p)
  {
    if Under(frames, p) {
      var low := UnderPage(pages, frames, argv, below, p);
      assert pages[p] == BlankStackPage(p) <==> low == Repeat(0, PAGE_SIZE);
    }
  }

  lemma UnderPage(pages: map<nat, Page>, frames: map<nat, nat>, argv: Stack.Argv, below: seq<u8>, p: nat)
    returns (low: seq<u8>)
    requires |below| == PAGE_SIZE && Stack.Accepted(argv) && StackReady(pages, frames, argv, below)
    requires InStack(p) && p != Stack.PAGE_BASE && Under(frames, p)
    ensures p in pages && pages[p] == BlankStackPage(p).(bytes := low)
    ensures low == Repeat(0, PAGE_SIZE) <==> Stack.FitsPage(argv)
  {
    assert OwnsBelow(frames);
    low := Built(below, argv)[..PAGE_SIZE];
    Stack.StaysInPage(argv);
    LowHalf(argv);
  }

  /** The lower half of the window stays zero if and only if the builder stayed in the top page. */
  lemma {:induction false} LowHalf(argv: Stack.Argv)
    requires Stack.Accepted(argv)
    ensures Built(Repeat(0, PAGE_SIZE), argv)[..PAGE_SIZE] == Repeat(0, PAGE_SIZE) <==>
      Stack.FinalRsp(argv) >= Stack.PAGE_BASE
  {
    var zeros: seq<u8> := Repeat(0, PAGE_SIZE);
    var w, rsp, m := zeros + zeros, Stack.FinalRsp(argv), Built(zeros, argv);
    Stack.FinalRspBounds(argv);
    Stack.WordsInPlace(w, argv, 0);
    if rsp >= Stack.PAGE_BASE {
      Prefix(m, w, rsp - Stack.WINDOW_BASE);
    } else {
      AlignedBelow(rsp);
      WordReads(m, PAGE_SIZE - 16, |argv|);
      NotZero(m, PAGE_SIZE - 16, |argv|);
    }
  }

  lemma Prefix(m: seq<u8>, w: seq<u8>, n: nat)
    requires PAGE_SIZE <= n <= |m| == |w| && m[..n] == w[..n]
    ensures m[..PAGE_SIZE] == w[..PAGE_SIZE]
  {
    assert m[..n][..PAGE_SIZE] == m[..PAGE_SIZE] && w[..n][..PAGE_SIZE] == w[..PAGE_SIZE];
  }

  lemma NotZero(m: seq<u8>, off: nat, v: nat)
    requires off + 8 <= PAGE_SIZE <= |m| && FromLe(m[off..off + 8]) == v != 0
    ensures m[..PAGE_SIZE] != Repeat(0, PAGE_SIZE)
  {
    var zeros: seq<u8> := Repeat(0, PAGE_SIZE);
    if m[..PAGE_SIZE] == zeros {
      assert m[off..off + 8] == m[..PAGE_SIZE][off..off + 8] == zeros[off..off + 8];
      var eight: seq<u8> := Repeat(0, 8);
      assert zeros[off..off + 8] == eight;
      ZeroWord(8);
    }
  }

  // ---- Which frame lies below ---------------------------------------------------------

  /** Frames that come from one run of the memory map ascend, so the frame below is behind the program's next page. */
  lemma AscendingFrames(frames: map<nat, nat>, first: Allocator, last: Allocator, base: nat)
    requires LastFrames(frames, last) && Continues(first, last) && first.recycled == []
    requires forall i: nat :: i < |first.usable| ==> first.usable[i] == base + i
    ensures Under(frames, Stack.WINDOW_BASE)
  {
  }

  /** Frames that a program of such a kind gave back descend, so the frame below is behind the guard page. */
  lemma DescendingFrames(frames: map<nat, nat>, first: Allocator, last: Allocator, base: nat)
    requires LastFrames(frames, last) && Continues(first, last) && first.usable == []
    requires forall i: nat :: i < |first.recycled| ==> first.recycled[i] == base + i
    ensures Under(frames, GUARD_PAGE) && !Under(frames, Stack.WINDOW_BASE)
  {
    var r := last.recycled;
    assert last.next >= |last.usable| && |r| >= 3;
    assert forall i: nat :: i < |r| ==> r[i] == first.recycled[i];
  }

  /** On frames of one run of the memory map, never used before, every program finds its words. */
  lemma FreshFinds(pages: map<nat, Page>, frames: map<nat, nat>, argv: Stack.Argv, below: seq<u8>, first: Allocator,
      last: Allocator, base: nat)
    requires |below| == PAGE_SIZE && Stack.Accepted(argv) && StackReady(pages, frames, argv, below)
    requires LastFrames(frames, last) && Continues(first, last) && first.recycled == []
    requires forall i: nat :: i < |first.usable| ==> first.usable[i] == base + i
    ensures Stack.FinalRsp(argv) >= 0 && FindsWords(pages, Stack.FinalRsp(argv), Stack.Block(argv))
  {
    AscendingFrames(frames, first, last, base);
    ProgramFinds(pages, frames, argv, below);
  }

  /** On such frames given back, in the order they were taken, a program whose arguments leave the page reads 0 for
      argc, and its guard page is no longer zero. */
  lemma RecycledMisses(pages: map<nat, Page>, frames: map<nat, nat>, argv: Stack.Argv, below: seq<u8>,
      first: Allocator, last: Allocator, base: nat)
    requires |below| == PAGE_SIZE && Stack.Accepted(argv) && StackReady(pages, frames, argv, below)
    requires LastFrames(frames, last) && Continues(first, last) && first.usable == [] && !Stack.FitsPage(argv)
    requires forall i: nat :: i < |first.recycled| ==> first.recycled[i] == base + i
    ensures Stack.FinalRsp(argv) >= 0 && WordAt(pages, Stack.FinalRsp(argv)) == Some(0)
    ensures GUARD_PAGE in pages && pages[GUARD_PAGE] != BlankStackPage(GUARD_PAGE)
  {
    DescendingFrames(frames, first, last, base);
    assert Stack.FinalRsp(argv) >= 0 && WordAt(pages, Stack.FinalRsp(argv)) == Some(0) by {
      ProgramFinds(pages, frames, argv, below);
    }
    assert InStack(GUARD_PAGE);
    PageDisturbed(pages, frames, argv, below, GUARD_PAGE);
  }

  // ---- All segments -------------------------------------------------------------------

  ghost function Headers(image: seq<u8>, h: Header): (r: seq<Segment>)
    requires h.phoff + PH_SIZE * h.phnum <= |image|
    ensures |r| == h.phnum && forall i :: 0 <= i < h.phnum ==> r[i] == ProgramHeader(image, h, i)
  {
    seq(h.phnum, i requires 0 <= i < h.phnum => ProgramHeader(image, h, i))
  }

  ghost function Ranges(phs: seq<Segment>): seq<(nat, nat)> {
    if phs == [] then []
    else
      var ph := phs[|phs| - 1];
      Ranges(phs[..|phs| - 1]) + (if IsLoad(ph) then [(Start(ph), End(ph))] else [])
  }

  predicate AnyOverlap(ranges: seq<(nat, nat)>, start: nat, end: nat) {
    exists k :: 0 <= k < |ranges| && Overlap(start, end, ranges[k].0, ranges[k].1)
  }

  lemma {:induction false} RangesOf(phs: seq<Segment>, start: nat, end: nat)
    ensures AnyOverlap(Ranges(phs), start, end) <==>
      exists k :: 0 <= k < |phs| && IsLoad(phs[k]) && Overlap(start, end, Start(phs[k]), End(phs[k]))
  {
    if phs != [] {
      var n := |phs| - 1;
      RangesOf(phs[..n], start, end);
      var ph, few, all := phs[n], Ranges(phs[..n]), Ranges(phs);
      if AnyOverlap(few, start, end) {
        var k :| 0 <= k < |few| && Overlap(start, end, few[k].0, few[k].1);
        assert all[k] == few[k];
      }
      if AnyOverlap(all, start, end) && !AnyOverlap(few, start, end) {
        var k :| 0 <= k < |all| && Overlap(start, end, all[k].0, all[k].1);
        assert k == |few|;
      }
      if IsLoad(ph) { assert all[|few|] == (Start(ph), End(ph)); }
    }
  }

  ghost predicate LoadedAll(pages: map<nat, Page>, before: map<nat, Page>, image: seq<u8>, phs: seq<Segment>)
    requires LoadableParts(|image|, phs)
  {
    (forall i :: 0 <= i < |phs| && IsLoad(phs[i]) ==> Mapped(pages, image, phs[i])) &&
    (forall p: nat :: (forall i :: 0 <= i < |phs| && IsLoad(phs[i]) ==> !InSegment(phs[i], p)) ==>
      SamePage(pages, before, p))
  }

  lemma HeadersMore(image: seq<u8>, h: Header, i: nat)
    requires h.phoff + PH_SIZE * h.phnum <= |image| && i < h.phnum
    ensures var phs := Headers(image, h); phs[..i] + [ProgramHeader(image, h, i)] == phs[..i + 1]
    ensures var phs := Headers(image, h); LoadableParts(|image|, phs) ==> LoadableParts(|image|, phs[..i + 1])
  {
    var phs := Headers(image, h);
    assert phs[..i] + [ProgramHeader(image, h, i)] == phs[..i + 1];
  }

  lemma OneMore(done: seq<Segment>, ph: Segment)
    ensures HasLoad(done + [ph]) <==> HasLoad(done) || IsLoad(ph)
    ensures Ranges(done + [ph]) == Ranges(done) + (if IsLoad(ph) then [(Start(ph), End(ph))] else [])
  {
    var all := done + [ph];
    assert all[..|done|] == done && all[|done|] == ph;
    if HasLoad(done) {
      var k :| 0 <= k < |done| && IsLoad(done[k]);
      assert all[k] == done[k];
    }
  }

  lemma OverlapFound(len: nat, done: seq<Segment>, ph: Segment)
    requires IsLoad(ph) && exists k ::
      0 <= k < |done| && IsLoad(done[k]) && Overlap(Start(ph), End(ph), Start(done[k]), End(done[k]))
    ensures !LoadableParts(len, done + [ph])
  {
    var k :| 0 <= k < |done| && IsLoad(done[k]) && Overlap(Start(ph), End(ph), Start(done[k]), End(done[k]));
    var all := done + [ph];
    assert all[k] == done[k] && all[|done|] == ph && !Apart(all[k], all[|done|]);
  }

  /** One more segment, apart from those before it. */
  lemma LoadedMore(start: map<nat, Page>, before: map<nat, Page>, after: map<nat, Page>, image: seq<u8>,
      phs: seq<Segment>, ph: Segment)
    requires LoadableParts(|image|, phs) && LoadedAll(before, start, image, phs)
    requires IsLoad(ph) && Validate(ph, |image|) == None && ClearOfStack(ph)
    requires forall k :: 0 <= k < |phs| && IsLoad(phs[k]) ==> !Overlap(Start(ph), End(ph), Start(phs[k]), End(phs[k]))
    requires Mapped(after, image, ph) && forall p: nat :: !InSegment(ph, p) ==> SamePage(after, before, p)
    ensures LoadableParts(|image|, phs + [ph]) && LoadedAll(after, start, image, phs + [ph])
  {
    var all := phs + [ph];
    forall i | 0 <= i < |all| && IsLoad(all[i]) ensures Mapped(after, image, all[i]) {
      if i < |phs| {
        forall p: nat | InSegment(phs[i], p) ensures p in after && after[p] == SegmentPage(image, phs[i], p) {
          assert !InSegment(ph, p);
          assert SamePage(after, before, p);
        }
      }
    }
    forall p: nat | forall i :: 0 <= i < |all| && IsLoad(all[i]) ==> !InSegment(all[i], p)
      ensures SamePage(after, start, p)
    {
      assert all[|phs|] == ph;
      forall i | 0 <= i < |phs| && IsLoad(phs[i]) ensures !InSegment(phs[i], p) { assert all[i] == phs[i]; }
      assert SamePage(before, start, p) && SamePage(after, before, p);
    }
  }

  lemma LoadedSame(start: map<nat, Page>, pages: map<nat, Page>, image: seq<u8>, phs: seq<Segment>, ph: Segment)
    requires LoadableParts(|image|, phs) && LoadedAll(pages, start, image, phs) && !IsLoad(ph)
    ensures LoadableParts(|image|, phs + [ph]) && LoadedAll(pages, start, image, phs + [ph])
  {
    var all := phs + [ph];
    forall p: nat | forall i :: 0 <= i < |all| && IsLoad(all[i]) ==> !InSegment(all[i], p)
      ensures SamePage(pages, start, p)
    {
      forall i | 0 <= i < |phs| && IsLoad(phs[i]) ensures !InSegment(phs[i], p) { assert all[i] == phs[i]; }
    }
  }

  predicate SamePage(a: map<nat, Page>, b: map<nat, Page>, p: nat) {
    (p in a <==> p in b) && (p in a ==> a[p] == b[p])
  }

  lemma NextPage(page: nat, end: nat)
    requires page % PAGE_SIZE == 0 && end % PAGE_SIZE == 0 && page < end
    ensures page + PAGE_SIZE <= end && (page + PAGE_SIZE) % PAGE_SIZE == 0
    ensures forall p: nat :: p % PAGE_SIZE == 0 && page <= p < page + PAGE_SIZE ==> p == page
  {
  }
}
