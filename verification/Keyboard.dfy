/**
 The keyboard ring: one producer (interrupt context) and one consumer (main loop) that share sixty-four slots and two
 indices without a lock.  Every load and store of either side is a step of its own, and a run is any interleaving.
 */
module Keyboard {
  import opened Bytes

  const QUEUE_SIZE: nat := 64
  const MODIFIER_BITS: bv8 := 0x07
  const PAYLOAD_MASK: bv32 := 0x001F_FFFF

  datatype Key =
    | Character(code: bv32)
    | ArrowUp | ArrowDown | ArrowLeft | ArrowRight | Home | End | PageUp | PageDown
    | Delete | Backspace | Enter | Escape | Tab | Space | F2 | F4 | F5

  datatype KeyInput = KeyInput(key: Key, modifiers: bv8)

  // ---- The 32-bit form of an event -------------------------------------------------

  /** A Unicode scalar value. */
  predicate IsChar(code: bv32) { code < 0xD800 || 0xE000 <= code < 0x11_0000 }

  predicate ValidInput(x: KeyInput) { x.key.Character? ==> IsChar(x.key.code) }

  function KeyId(key: Key): bv8 {
    match key
    case Character(_) => 0
    case ArrowUp => 1
    case ArrowDown => 2
    case ArrowLeft => 3
    case ArrowRight => 4
    case Home => 5
    case End => 6
    case PageUp => 7
    case PageDown => 8
    case Delete => 9
    case Backspace => 10
    case Enter => 11
    case Escape => 12
    case Tab => 13
    case Space => 14
    case F4 => 15
    case F5 => 16
    case F2 => 17
  }

  function KeyFromId(id: bv8): Option<Key> {
    if id == 1 then Some(ArrowUp) else if id == 2 then Some(ArrowDown) else if id == 3 then Some(ArrowLeft)
    else if id == 4 then Some(ArrowRight) else if id == 5 then Some(Home) else if id == 6 then Some(End)
    else if id == 7 then Some(PageUp) else if id == 8 then Some(PageDown) else if id == 9 then Some(Delete)
    else if id == 10 then Some(Backspace) else if id == 11 then Some(Enter) else if id == 12 then Some(Escape)
    else if id == 13 then Some(Tab) else if id == 14 then Some(Space) else if id == 15 then Some(F4)
    else if id == 16 then Some(F5) else if id == 17 then Some(F2) else None
  }

  function Pack(kind: bv32, modifiers: bv8, payload: bv32): bv32 {
    (kind << 24) | (((modifiers & MODIFIER_BITS) as bv32) << 21) | (payload & PAYLOAD_MASK)
  }

  function Encode(x: KeyInput): bv32 {
    if x.key.Character? then Pack(1, x.modifiers, x.key.code) else Pack(2, x.modifiers, KeyId(x.key) as bv32)
  }

  function Low8(v: bv32): bv8 { (v & 0xFF) as bv8 }

  function Decode(v: bv32): Option<KeyInput> {
    var kind := v >> 24;
    var modifiers := Low8(v >> 21) & MODIFIER_BITS;
    var payload := v & PAYLOAD_MASK;
    if kind == 1 then (if IsChar(payload) then Some(KeyInput(Character(payload), modifiers)) else None)
    else if kind == 2 then
      var key := KeyFromId(Low8(payload));
      if key.Some? then Some(KeyInput(key.value, modifiers)) else None
    else None
  }

  function Masked(x: KeyInput): KeyInput { x.(modifiers := x.modifiers & MODIFIER_BITS) }

  lemma PackFields(kind: bv32, modifiers: bv8, payload: bv32)
    requires kind < 0x100 && payload <= PAYLOAD_MASK
    ensures var v := Pack(kind, modifiers, payload);
      v >> 24 == kind && v & PAYLOAD_MASK == payload && Low8(v >> 21) & MODIFIER_BITS == modifiers & MODIFIER_BITS
  {
    var m: bv8 := modifiers & MODIFIER_BITS;
    var v := Pack(kind, modifiers, payload);
    var wide := m as bv32;
    assert wide <= 7;
    assert (v >> 21) & 7 == wide;
    assert Low8(v >> 21) & MODIFIER_BITS == ((v >> 21) & 7) as bv8;
  }

  /** Every event decodes to the one pushed, with its modifiers masked to three bits. */
  lemma DecodeEncode(x: KeyInput)
    requires ValidInput(x)
    ensures Decode(Encode(x)) == Some(Masked(x))
  {
    if x.key.Character? {
      PackFields(1, x.modifiers, x.key.code);
    } else {
      var id := KeyId(x.key);
      assert (id as bv32) <= PAYLOAD_MASK;
      PackFields(2, x.modifiers, id as bv32);
      assert Low8(id as bv32) == id;
    }
  }

  // ---- The protocol ----------------------------------------------------------------

  /** Where a push stands: the values it has loaded so far. */
  datatype Producer =
    | NoPush
    | HeadLoaded(input: KeyInput, head: nat)
    | RoomSeen(input: KeyInput, head: nat)
    | SlotStored(input: KeyInput, head: nat)

  datatype Consumer =
    | NoPop
    | TailLoaded(tail: nat)
    | EventSeen(tail: nat)
    | SlotLoaded(tail: nat, value: bv32)

  /** `accepted`, `dropped` and `popped` record every push and pop that has taken effect. */
  datatype Ring = Ring(
    slots: seq<bv32>, head: nat, tail: nat, producer: Producer, consumer: Consumer,
    accepted: seq<KeyInput>, dropped: seq<KeyInput>, popped: seq<Option<KeyInput>>)

  datatype Turn = Push(input: KeyInput) | Pop

  function Empty(): Ring { Ring(Repeat(0, QUEUE_SIZE), 0, 0, NoPush, NoPop, [], [], []) }

  /** The producer's next load or store.  `input` starts a push when none is under way. */
  function ProducerStep(r: Ring, input: KeyInput): Ring {
    match r.producer
    case NoPush => r.(producer := HeadLoaded(input, r.head))
    case HeadLoaded(x, h) =>
      if (h + 1) % QUEUE_SIZE == r.tail
        then r.(producer := NoPush, dropped := r.dropped + [x]) else r.(producer := RoomSeen(x, h))
    case RoomSeen(x, h) =>
      if h < |r.slots| then r.(slots := r.slots[h := Encode(x)], producer := SlotStored(x, h)) else r
    case SlotStored(x, h) => r.(head := (h + 1) % QUEUE_SIZE, producer := NoPush, accepted := r.accepted + [x])
  }

  function ConsumerStep(r: Ring): Ring {
    match r.consumer
    case NoPop => r.(consumer := TailLoaded(r.tail))
    case TailLoaded(t) => if t == r.head then r.(consumer := NoPop) else r.(consumer := EventSeen(t))
    case EventSeen(t) => if t < |r.slots| then r.(consumer := SlotLoaded(t, r.slots[t])) else r
    case SlotLoaded(t, v) => r.(tail := (t + 1) % QUEUE_SIZE, consumer := NoPop, popped := r.popped + [Decode(v)])
  }

  function Step(r: Ring, turn: Turn): Ring {
    if turn.Push? then ProducerStep(r, turn.input) else ConsumerStep(r)
  }

  function Run(r: Ring, turns: seq<Turn>): Ring {
    if turns == [] then r else Step(Run(r, turns[..|turns| - 1]), turns[|turns| - 1])
  }

  // ---- What every interleaving keeps -------------------------------------------------

  /** The number of events pushed and not yet popped. */
  ghost function Held(r: Ring): int { |r.accepted| - |r.popped| }

  ghost predicate IndicesOk(r: Ring) {
    |r.slots| == QUEUE_SIZE && 0 <= Held(r) <= QUEUE_SIZE - 1 &&
    r.head == |r.accepted| % QUEUE_SIZE && r.tail == |r.popped| % QUEUE_SIZE
  }

  ghost predicate SlotsOk(r: Ring)
    requires |r.slots| == QUEUE_SIZE
  {
    (forall k :: 0 <= k < |r.accepted| ==> ValidInput(r.accepted[k])) &&
    (forall k: nat :: |r.popped| <= k < |r.accepted| ==> r.slots[k % QUEUE_SIZE] == Encode(r.accepted[k]))
  }

  ghost predicate ProducerOk(r: Ring)
    requires |r.slots| == QUEUE_SIZE
  {
    match r.producer
    case NoPush => true
    case HeadLoaded(x, h) => ValidInput(x) && h == r.head
    case RoomSeen(x, h) => ValidInput(x) && h == r.head && Held(r) < QUEUE_SIZE - 1
    case SlotStored(x, h) =>
      ValidInput(x) && h == r.head && Held(r) < QUEUE_SIZE - 1 && h < QUEUE_SIZE && r.slots[h] == Encode(x)
  }

  ghost predicate ConsumerOk(r: Ring) {
    match r.consumer
    case NoPop => true
    case TailLoaded(t) => t == r.tail
    case EventSeen(t) => t == r.tail && Held(r) > 0
    case SlotLoaded(t, v) => t == r.tail && Held(r) > 0 && v == Encode(r.accepted[|r.popped|])
  }

  ghost predicate PoppedOk(r: Ring) {
    |r.popped| <= |r.accepted| && forall k :: 0 <= k < |r.popped| ==> r.popped[k] == Some(Masked(r.accepted[k]))
  }

  ghost predicate RingOk(r: Ring) {
    IndicesOk(r) && SlotsOk(r) && ProducerOk(r) && ConsumerOk(r) && PoppedOk(r)
  }

  lemma SameSlot(a: nat, b: nat)
    requires a <= b < a + QUEUE_SIZE && a % QUEUE_SIZE == b % QUEUE_SIZE
    ensures a == b
  {
  }

  lemma WholeLap(a: nat)
    ensures (a + QUEUE_SIZE) % QUEUE_SIZE == a % QUEUE_SIZE
  {
  }

  lemma NextIndex(a: nat)
    ensures (a % QUEUE_SIZE + 1) % QUEUE_SIZE == (a + 1) % QUEUE_SIZE
  {
  }

  /** A push sees a full ring exactly when sixty-three events are held. */
  lemma FullIs63(r: Ring)
    requires IndicesOk(r)
    ensures (r.head + 1) % QUEUE_SIZE == r.tail <==> Held(r) == QUEUE_SIZE - 1
  {
    var a, p := |r.accepted|, |r.popped|;
    NextIndex(a);
    assert (r.head + 1) % QUEUE_SIZE == (a + 1) % QUEUE_SIZE;
    if a + 1 < p + QUEUE_SIZE {
      if (a + 1) % QUEUE_SIZE == p % QUEUE_SIZE { SameSlot(p, a + 1); }
    } else {
      WholeLap(p);
    }
  }

  /** A pop sees an empty ring exactly when nothing is held. */
  lemma EmptyIsNone(r: Ring)
    requires IndicesOk(r)
    ensures r.tail == r.head <==> Held(r) == 0
  {
    if r.tail == r.head { SameSlot(|r.popped|, |r.accepted|); }
  }

  lemma StoreKeeps(r: Ring)
    requires RingOk(r) && r.producer.RoomSeen?
    ensures RingOk(ProducerStep(r, r.producer.input))
  {
    var r' := ProducerStep(r, r.producer.input);
    forall k: nat | |r.popped| <= k < |r.accepted| ensures r'.slots[k % QUEUE_SIZE] == Encode(r.accepted[k]) {
      if k % QUEUE_SIZE == r.head { SameSlot(k, |r.accepted|); }
    }
  }

  lemma PublishKeeps(r: Ring)
    requires RingOk(r) && r.producer.SlotStored?
    ensures RingOk(ProducerStep(r, r.producer.input))
  {
    NextIndex(|r.accepted|);
    var r' := ProducerStep(r, r.producer.input);
    forall k: nat | |r'.popped| <= k < |r'.accepted| ensures r'.slots[k % QUEUE_SIZE] == Encode(r'.accepted[k]) {
      if k < |r.accepted| { assert r'.accepted[k] == r.accepted[k]; }
    }
  }

  lemma ProducerKeeps(r: Ring, input: KeyInput)
    requires RingOk(r) && ValidInput(input)
    ensures RingOk(ProducerStep(r, input))
  {
    match r.producer
    case NoPush =>
    case HeadLoaded(_, _) => FullIs63(r);
    case RoomSeen(_, _) => StoreKeeps(r);
    case SlotStored(_, _) => PublishKeeps(r);
  }

  lemma ConsumerKeeps(r: Ring)
    requires RingOk(r)
    ensures RingOk(ConsumerStep(r))
  {
    match r.consumer
    case NoPop =>
    case TailLoaded(_) => EmptyIsNone(r);
    case EventSeen(_) => assert r.tail == |r.popped| % QUEUE_SIZE;
    case SlotLoaded(_, _) =>
      NextIndex(|r.popped|);
      DecodeEncode(r.accepted[|r.popped|]);
  }

  lemma {:induction false} RunKeeps(r: Ring, turns: seq<Turn>)
    requires RingOk(r) && forall k :: 0 <= k < |turns| ==> turns[k].Push? ==> ValidInput(turns[k].input)
    ensures RingOk(Run(r, turns))
  {
    if turns != [] {
      var n := |turns| - 1;
      RunKeeps(r, turns[..n]);
      var before := Run(r, turns[..n]);
      if turns[n].Push? { ProducerKeeps(before, turns[n].input); } else { ConsumerKeeps(before); }
    }
  }

  /** Under every interleaving the events popped are, in order, the first events accepted, with masked modifiers;
      a push under way that has loaded the tail drops its event exactly if sixty-three were held at that load. */
  lemma EveryInterleaving(turns: seq<Turn>, next: KeyInput)
    requires forall k :: 0 <= k < |turns| ==> turns[k].Push? ==> ValidInput(turns[k].input)
    ensures var r := Run(Empty(), turns);
      |r.popped| <= |r.accepted| <= |r.popped| + QUEUE_SIZE - 1 &&
      (forall k :: 0 <= k < |r.popped| ==> r.popped[k] == Some(Masked(r.accepted[k]))) &&
      (r.producer.HeadLoaded? ==>
        (ProducerStep(r, next).dropped == r.dropped + [r.producer.input] <==>
          |r.accepted| == |r.popped| + QUEUE_SIZE - 1))
  {
    RunKeeps(Empty(), turns);
    var r := Run(Empty(), turns);
    FullIs63(r);
  }

  /** The events whose push has begun, in order. */
  ghost function Offered(r: Ring, turns: seq<Turn>): seq<KeyInput> {
    if turns == [] then []
    else
      var n := |turns| - 1;
      var before := Run(r, turns[..n]);
      Offered(r, turns[..n]) + (if turns[n].Push? && before.producer.NoPush? then [turns[n].input] else [])
  }

  /** `all` merges the two sequences, keeping the order of each. */
  ghost predicate Merges(all: seq<KeyInput>, a: seq<KeyInput>, b: seq<KeyInput>)
    decreases |all|
  {
    if all == [] then a == [] && b == []
    else
      var n, x := |all| - 1, all[|all| - 1];
      (a != [] && a[|a| - 1] == x && Merges(all[..n], a[..|a| - 1], b)) ||
      (b != [] && b[|b| - 1] == x && Merges(all[..n], a, b[..|b| - 1]))
  }

  lemma MergesMore(all: seq<KeyInput>, a: seq<KeyInput>, b: seq<KeyInput>, x: KeyInput)
    requires Merges(all, a, b)
    ensures Merges(all + [x], a + [x], b) && Merges(all + [x], a, b + [x])
  {
    assert (all + [x])[..|all|] == all && (a + [x])[..|a|] == a && (b + [x])[..|b|] == b;
  }

  /** The offered events but for the one whose push is still under way. */
  ghost function Decided(r: Ring, offered: seq<KeyInput>): seq<KeyInput> {
    if r.producer.NoPush? || offered == [] then offered else offered[..|offered| - 1]
  }

  ghost predicate Accounted(r: Ring, offered: seq<KeyInput>) {
    Merges(Decided(r, offered), r.accepted, r.dropped) &&
    (r.producer.NoPush? || (offered != [] && offered[|offered| - 1] == r.producer.input))
  }

  /** What a turn does to the push under way: it begins, is dropped, goes on, or is accepted. */
  ghost predicate Fate(r: Ring, r': Ring, turn: Turn) {
    if turn.Push? && r.producer.NoPush? then
      !r'.producer.NoPush? && r'.producer.input == turn.input && r'.accepted == r.accepted && r'.dropped == r.dropped
    else if r.producer.NoPush? then
      r'.producer.NoPush? && r'.accepted == r.accepted && r'.dropped == r.dropped
    else if r'.producer.NoPush? then
      (r'.accepted == r.accepted + [r.producer.input] && r'.dropped == r.dropped) ||
      (r'.accepted == r.accepted && r'.dropped == r.dropped + [r.producer.input])
    else
      r'.producer.input == r.producer.input && r'.accepted == r.accepted && r'.dropped == r.dropped
  }

  lemma StepFate(r: Ring, turn: Turn)
    ensures Fate(r, Step(r, turn), turn)
  {
  }

  lemma FateAccounts(r: Ring, r': Ring, offered: seq<KeyInput>, turn: Turn)
    requires Accounted(r, offered) && Fate(r, r', turn)
    ensures Accounted(r', offered + (if turn.Push? && r.producer.NoPush? then [turn.input] else []))
  {
    assert offered + [] == offered;
    if turn.Push? && r.producer.NoPush? {
      assert (offered + [turn.input])[..|offered|] == offered;
    } else if !r.producer.NoPush? && r'.producer.NoPush? {
      MergesMore(Decided(r, offered), r.accepted, r.dropped, r.producer.input);
      assert Decided(r, offered) + [r.producer.input] == offered;
    }
  }

  /** The events offered are those accepted and those dropped, each once and in order, and at most one still under
      way. */
  lemma {:induction false} NothingLost(turns: seq<Turn>)
    ensures Accounted(Run(Empty(), turns), Offered(Empty(), turns))
  {
    if turns != [] {
      var n := |turns| - 1;
      NothingLost(turns[..n]);
      var before := Run(Empty(), turns[..n]);
      StepFate(before, turns[n]);
      FateAccounts(before, Step(before, turns[n]), Offered(Empty(), turns[..n]), turns[n]);
    }
  }

  // ---- The ring in memory --------------------------------------------------------------

  /** All the steps of one push, with none of the consumer's between them. */
  ghost function PushAlone(r: Ring, input: KeyInput): Ring {
    var checked := ProducerStep(ProducerStep(r, input), input);
    if checked.producer.NoPush? then checked else ProducerStep(ProducerStep(checked, input), input)
  }

  lemma PushAloneKeeps(r: Ring, input: KeyInput)
    requires RingOk(r) && ValidInput(input)
    ensures RingOk(PushAlone(r, input))
  {
    var r1 := ProducerStep(r, input);
    ProducerKeeps(r, input);
    var r2 := ProducerStep(r1, input);
    ProducerKeeps(r1, input);
    ProducerKeeps(r2, input);
    ProducerKeeps(ProducerStep(r2, input), input);
  }

  ghost function PopAlone(r: Ring): Ring {
    var checked := ConsumerStep(ConsumerStep(r));
    if checked.consumer.NoPop? then checked else ConsumerStep(ConsumerStep(checked))
  }

  lemma PopAloneKeeps(r: Ring)
    requires RingOk(r)
    ensures RingOk(PopAlone(r))
  {
    var r1 := ConsumerStep(r);
    ConsumerKeeps(r);
    var r2 := ConsumerStep(r1);
    ConsumerKeeps(r1);
    ConsumerKeeps(r2);
    ConsumerKeeps(ConsumerStep(r2));
  }

  /** Without interruption between its loads and stores, a push or a pop is a run of the steps above. */
  class KeyQueue {
    const slots: array<bv32>
    var head: nat
    var tail: nat
    ghost var accepted: seq<KeyInput>
    ghost var dropped: seq<KeyInput>
    ghost var popped: seq<Option<KeyInput>>

    ghost function Now(): Ring
      reads this, slots
    {
      Ring(slots[..], head, tail, NoPush, NoPop, accepted, dropped, popped)
    }

    ghost predicate Valid()
      reads this, slots
    {
      slots.Length == QUEUE_SIZE && RingOk(Now())
    }

    constructor ()
      ensures Valid() && Now() == Empty()
    {
      slots := new bv32[QUEUE_SIZE](i => 0);
      head, tail := 0, 0;
      accepted, dropped, popped := [], [], [];
      new;
      assert slots[..] == Repeat(0, QUEUE_SIZE);
    }

    method PushInput(input: KeyInput)
      requires Valid() && ValidInput(input)
      modifies this, slots
      ensures Valid()
      ensures Now() == PushAlone(old(Now()), input)
    {
      PushAloneKeeps(Now(), input);
      var next := (head + 1) % QUEUE_SIZE;
      if next == tail {
        dropped := dropped + [input];
        return;
      }
      slots[head] := Encode(input);
      head := next;
      accepted := accepted + [input];
    }

    method PopInput() returns (event: Option<KeyInput>)
      requires Valid()
      modifies this
      ensures Valid()
      ensures Now() == PopAlone(old(Now()))
      ensures popped == if event.None? then old(popped) else old(popped) + [event]
      ensures event.None? <==> |old(popped)| == |old(accepted)|
    {
      ghost var r := Now();
      PopAloneKeeps(r);
      EmptyIsNone(r);
      if tail == head { return None; }
      var v := slots[tail];
      tail := (tail + 1) % QUEUE_SIZE;
      event := Decode(v);
      popped := popped + [event];
    }
  }

}
