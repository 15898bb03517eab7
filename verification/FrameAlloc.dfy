/** The physical frame allocator: frames given back are handed out first, the last one first; then the usable frames in
    ascending order of the memory map. */
module FrameAlloc {
  import opened Bytes

  datatype Allocator = Allocator(usable: seq<nat>, next: nat, recycled: seq<nat>)

  function Head(a: Allocator): Option<nat> {
    if a.recycled != [] then Some(a.recycled[|a.recycled| - 1])
    else if a.next < |a.usable| then Some(a.usable[a.next]) else None
  }

  /** The allocator after a request, met or not. */
  function Tail(a: Allocator): Allocator {
    if a.recycled != [] then a.(recycled := a.recycled[..|a.recycled| - 1]) else a.(next := a.next + 1)
  }

  function GiveBack(a: Allocator, frame: nat): Allocator { a.(recycled := a.recycled + [frame]) }

  /** What can still be handed out. */
  ghost predicate Free(a: Allocator, frame: nat) {
    frame in a.recycled || exists i: nat :: a.next <= i < |a.usable| && a.usable[i] == frame
  }

  predicate Distinct(s: seq<nat>) { forall i, j :: 0 <= i < j < |s| ==> s[i] != s[j] }

  /** No frame is free twice, and none that is in use is free. */
  ghost predicate Sound(a: Allocator, used: set<nat>) {
    Distinct(a.recycled) && Distinct(a.usable) &&
    (forall i: nat :: a.next <= i < |a.usable| ==> a.usable[i] !in a.recycled) &&
    (forall f: nat :: f in used ==> !Free(a, f))
  }

  lemma TakeSound(a: Allocator, used: set<nat>)
    requires Sound(a, used)
    ensures Sound(Tail(a), used)
    ensures Head(a).Some? ==> Head(a).value !in used && Sound(Tail(a), used + {Head(a).value})
  {
    var b := Tail(a);
    forall f: nat | Free(b, f) ensures Free(a, f) && Head(a) != Some(f) {
      if f in b.recycled {
        var n := |a.recycled| - 1;
        var k :| 0 <= k < |b.recycled| && b.recycled[k] == f;
        assert a.recycled[k] == f && a.recycled[n] != f;
      }
    }
    if Head(a).Some? { assert Free(a, Head(a).value); }
  }

  lemma GiveBackSound(a: Allocator, used: set<nat>, frame: nat)
    requires Sound(a, used + {frame}) && frame !in used
    ensures Sound(GiveBack(a, frame), used)
  {
    var b := GiveBack(a, frame);
    assert !Free(a, frame);
    forall f: nat | f in used ensures !Free(b, f) { assert !Free(a, f); }
  }

  // ---- The frames of one address space -----------------------------------------------------

  /** The frame behind each page, the frames that hold page tables, and the allocator. */
  datatype Memory = Memory(frames: map<nat, nat>, tables: set<nat>, alloc: Allocator)

  ghost predicate Injective(frames: map<nat, nat>) {
    forall p, q :: p in frames && q in frames && frames[p] == frames[q] ==> p == q
  }

  /** Every page has a frame of its own, and the allocator hands out no frame of this address space. */
  ghost predicate MemoryOk(m: Memory) { Injective(m.frames) && Sound(m.alloc, m.frames.Values + m.tables) }

  type SoundMemory = m: Memory | MemoryOk(m) ghost witness Memory(map[], {}, Allocator([], 0, []))

  lemma FramesDiffer(m: SoundMemory, p: nat, q: nat)
    requires p in m.frames && q in m.frames && p != q
    ensures m.frames[p] != m.frames[q]
  {
  }

  /** The frame has been handed out, and is behind no page yet. */
  ghost predicate Pending(m: Memory, frame: nat) {
    Injective(m.frames) && frame !in m.frames.Values + m.tables && Sound(m.alloc, m.frames.Values + m.tables + {frame})
  }

  /** Only requests lie between the two. */
  ghost predicate Continues(before: Allocator, after: Allocator) {
    after.usable == before.usable && after.recycled <= before.recycled
  }

  method TakeFrame(m: SoundMemory) returns (frame: Option<nat>, m': Memory)
    ensures frame == Head(m.alloc) && m' == m.(alloc := Tail(m.alloc))
    ensures if frame.Some? then Pending(m', frame.value) else MemoryOk(m')
  {
    TakeSound(m.alloc, m.frames.Values + m.tables);
    return Head(m.alloc), m.(alloc := Tail(m.alloc));
  }

  method MakeTable(m: Memory, ghost frame: nat) returns (ok: bool, m': Memory)
    requires Pending(m, frame)
    ensures Pending(m', frame) && m'.frames == m.frames
    ensures Continues(m.alloc, m'.alloc)
  {
    var table := Head(m.alloc);
    ghost var used := m.frames.Values + m.tables + {frame};
    TakeSound(m.alloc, used);
    m' := m.(alloc := Tail(m.alloc));
    if table.None? { return false, m'; }
    assert m.frames.Values + (m.tables + {table.value}) + {frame} == used + {table.value};
    return true, m'.(tables := m.tables + {table.value});
  }

  /** Up to three page tables are made for a page that none covers. */
  method MakeTables(m: Memory, ghost frame: nat, covered: bool) returns (ok: bool, m': Memory)
    requires Pending(m, frame)
    ensures Pending(m', frame) && m'.frames == m.frames
    ensures covered ==> ok && m' == m
    ensures Continues(m.alloc, m'.alloc)
  {
    ok, m' := true, m;
    var more: bool, made := !covered, 0;
    while more && ok && made < 3
      invariant 0 <= made <= 3 && Pending(m', frame) && m'.frames == m.frames
      invariant covered ==> ok && m' == m && !more
      invariant Continues(m.alloc, m'.alloc)
      decreases 3 - made
    {
      ok, m' := MakeTable(m', frame);
      more, made := *, made + 1;
    }
  }

  lemma Return(m: Memory, frame: nat)
    requires Pending(m, frame)
    ensures MemoryOk(m.(alloc := GiveBack(m.alloc, frame)))
  {
    GiveBackSound(m.alloc, m.frames.Values + m.tables, frame);
  }

  lemma Place(m: Memory, frame: nat, page: nat)
    requires Pending(m, frame) && page !in m.frames
    ensures MemoryOk(m.(frames := m.frames[page := frame]))
  {
    var after := m.frames[page := frame];
    forall p, q | p in after && q in after && after[p] == after[q] ensures p == q {
      if p != page { assert m.frames[p] in m.frames.Values; }
      if q != page { assert m.frames[q] in m.frames.Values; }
    }
    forall f | f in after.Values ensures f in m.frames.Values + {frame} {
      var p :| p in after && after[p] == f;
      if p != page { assert m.frames[p] in m.frames.Values; }
    }
  }
}
