/**
 One NVMe queue pair: the driver's submission and polling, a controller that completes commands in order at any speed
 and with any status, and 512-byte sectors read and written through whole blocks.
 */
module Nvme {
  import opened Bytes

  const ENTRIES: nat := 16
  const NVME_TIMEOUT: nat := 10_000_000
  const PAGE: nat := 4096
  const SECTOR: nat := 512

  datatype Opcode = Flush | Write | Read
  datatype Command = Command(op: Opcode, cid: u16, lba: nat)

  /** What the data side of the controller holds: the namespace's blocks, `spb` sectors each, and the driver's page. */
  datatype Data = Data(spb: nat, blocks: seq<seq<u8>>, buffer: seq<u8>)

  /** A block is 512 to 4096 bytes. */
  predicate BlockSize(spb: nat) { spb == 1 || spb == 2 || spb == 4 || spb == 8 }

  predicate DataOk(d: Data) {
    BlockSize(d.spb) && |d.buffer| == PAGE && forall i :: 0 <= i < |d.blocks| ==> |d.blocks[i]| == d.spb * SECTOR
  }

  type Store = d: Data | DataOk(d) witness Data(1, [], Repeat(0, PAGE))

  // ---- Completion words ------------------------------------------------------------

  /** The last word of a completion entry: command id, phase bit and status code. */
  function Word(cid: u16, phase: bool, code: nat): nat { cid + (if phase then 0x1_0000 else 0) + 0x2_0000 * code }

  function CidOf(w: nat): u16 { w % 0x1_0000 }
  predicate PhaseBit(w: nat) { w / 0x1_0000 % 2 == 1 }
  function CodeOf(w: nat): nat { w / 0x2_0000 }

  lemma WordFields(cid: u16, phase: bool, code: nat)
    ensures var w := Word(cid, phase, code); CidOf(w) == cid && PhaseBit(w) == phase && CodeOf(w) == code
  {
    var w := Word(cid, phase, code);
    assert w / 0x1_0000 == (if phase then 1 else 0) + 2 * code;
  }

  /** The phase the controller writes with its n-th completion: it flips on every lap. */
  predicate PhaseOf(n: nat) { n / ENTRIES % 2 == 0 }

  function CidAt(n: nat): u16 { (1 + n) % 0x1_0000 }

  lemma NextLap(n: nat)
    ensures (n + ENTRIES) % ENTRIES == n % ENTRIES && PhaseOf(n + ENTRIES) == !PhaseOf(n)
  {
    assert (n + ENTRIES) / ENTRIES == n / ENTRIES + 1;
  }

  lemma NextEntry(n: nat)
    ensures n % ENTRIES + 1 < ENTRIES ==> (n + 1) % ENTRIES == n % ENTRIES + 1 && PhaseOf(n + 1) == PhaseOf(n)
    ensures n % ENTRIES + 1 == ENTRIES ==> (n + 1) % ENTRIES == 0 && PhaseOf(n + 1) == !PhaseOf(n)
    ensures (n % ENTRIES + 1) % ENTRIES == (n + 1) % ENTRIES
  {
  }

  lemma DistinctSlots(a: nat, b: nat)
    requires a < b < a + ENTRIES
    ensures a % ENTRIES != b % ENTRIES
  {
  }

  // ---- What a command does -----------------------------------------------------------

  predicate InRange(d: Store, c: Command) { c.op == Flush || c.lba < |d.blocks| }

  function Execute(d: Store, c: Command): (r: Store)
    requires InRange(d, c)
  {
    match c.op
    case Flush => d
    case Read => d.(buffer := d.blocks[c.lba] + d.buffer[d.spb * SECTOR..])
    case Write => d.(blocks := d.blocks[c.lba := d.buffer[..d.spb * SECTOR]])
  }

  /** A command that fails leaves its target holding anything. */
  function Spoil(d: Store, c: Command, junk: seq<u8>): (r: Store)
    requires |junk| == PAGE
  {
    match c.op
    case Flush => d
    case Read => d.(buffer := junk)
    case Write => if c.lba < |d.blocks| then d.(blocks := d.blocks[c.lba := junk[..d.spb * SECTOR]]) else d
  }

  // ---- The queue pair ----------------------------------------------------------------

  /** A completion: which command it answers, and the status. */
  datatype Done = Done(index: nat, code: nat)

  /** The memory both sides share, the driver's cursors, whether a call is waiting, and the history: what was submitted,
      the number of the command the controller takes next, what it completed and how much of that was consumed. */
  datatype Queue = Queue(
    sq: seq<Command>, cq: seq<nat>, tail: nat, head: nat, phase: bool, nextCid: u16, busy: bool,
    submitted: seq<Command>, next: nat, done: seq<Done>, consumed: nat)

  /** The controller sees fewer than sixteen commands, because a tail that has come round to its head reads as empty;
      and it never overfills the completion queue. */
  ghost predicate CursorsOk(q: Queue) {
    |q.sq| == ENTRIES && |q.cq| == ENTRIES &&
    q.next <= |q.submitted| < q.next + ENTRIES && q.consumed <= |q.done| < q.consumed + ENTRIES &&
    q.next % ENTRIES == |q.done| % ENTRIES &&
    q.head == q.consumed % ENTRIES && q.phase == PhaseOf(q.consumed) &&
    q.tail == |q.submitted| % ENTRIES && q.nextCid == CidAt(|q.submitted|)
  }

  ghost predicate SubmissionsOk(q: Queue)
    requires |q.sq| == ENTRIES
  {
    (forall n: nat :: n < |q.submitted| ==> q.submitted[n].cid == CidAt(n)) &&
    (forall n: nat :: q.next <= n < |q.submitted| ==> q.sq[n % ENTRIES] == q.submitted[n])
  }

  /** Unconsumed completions carry the phase the driver will look for; every other slot carries the opposite. */
  ghost predicate CompletionsOk(q: Queue)
    requires |q.cq| == ENTRIES
  {
    (forall n: nat :: q.consumed <= n < |q.done| ==>
      q.cq[n % ENTRIES] == Word(CidAt(q.done[n].index), PhaseOf(n), q.done[n].code)) &&
    (forall n: nat :: |q.done| <= n < q.consumed + ENTRIES ==> PhaseBit(q.cq[n % ENTRIES]) != PhaseOf(n))
  }

  /** Completions answer commands before the one the controller takes next.  Unconsumed ones are in order, and none of
      them is old, since every call takes one. */
  ghost predicate OrderOk(q: Queue) {
    (forall n: nat :: n < |q.done| ==> q.done[n].index < q.next) &&
    (forall n: nat :: q.consumed <= n < |q.done| ==>
      |q.submitted| - q.done[n].index + (n - q.consumed) <= if q.busy then 2 * ENTRIES else 2 * ENTRIES - 1) &&
    (forall i: nat, j: nat :: q.consumed <= i < j < |q.done| ==> q.done[i].index < q.done[j].index)
  }

  ghost predicate QueueOk(q: Queue) { CursorsOk(q) && SubmissionsOk(q) && CompletionsOk(q) && OrderOk(q) }

  type LiveQueue = q: Queue | QueueOk(q) ghost witness (FreshOk(Command(Flush, 0, 0)); Fresh(Command(Flush, 0, 0)))

  function Fresh(zero: Command): Queue {
    Queue(Repeat(zero, ENTRIES), Repeat(0, ENTRIES), 0, 0, true, 1, false, [], 0, [], 0)
  }

  lemma FreshOk(zero: Command)
    ensures QueueOk(Fresh(zero))
  {
  }

  /** The driver writes the command behind the tail and rings the doorbell.  If that brings the tail round to the
      controller's head, the sixteen commands between them are lost. */
  function Submit(q: Queue, op: Opcode, lba: nat): Queue
    requires |q.sq| == ENTRIES && q.tail < ENTRIES
  {
    var c := Command(op, q.nextCid, lba);
    q.(sq := q.sq[q.tail := c], tail := (q.tail + 1) % ENTRIES, nextCid := (q.nextCid + 1) % 0x1_0000, busy := true,
      submitted := q.submitted + [c], next := if Wraps(q) then q.next + ENTRIES else q.next)
  }

  predicate Wraps(q: Queue) { |q.submitted| + 1 == q.next + ENTRIES }

  /** What the controller goes by: its head and the tail it was told. */
  lemma ControllerSees(q: LiveQueue)
    ensures q.next % ENTRIES == q.tail <==> q.next == |q.submitted|
  {
    if q.next < |q.submitted| { DistinctSlots(q.next, |q.submitted|); }
  }

  /** The controller takes the next command and posts its status. */
  function Post(q: Queue, code: nat): Queue
    requires |q.sq| == ENTRIES && |q.cq| == ENTRIES
  {
    var n := |q.done|;
    q.(cq := q.cq[n % ENTRIES := Word(q.sq[q.next % ENTRIES].cid, PhaseOf(n), code)],
      done := q.done + [Done(q.next, code)], next := q.next + 1)
  }

  /** The driver takes the entry at its head. */
  function Consume(q: Queue): Queue {
    if q.head + 1 == ENTRIES then q.(head := 0, phase := !q.phase, consumed := q.consumed + 1, busy := false)
    else q.(head := q.head + 1, consumed := q.consumed + 1, busy := false)
  }

  lemma SubmitKeeps(q: Queue, op: Opcode, lba: nat)
    requires QueueOk(q) && !q.busy
    ensures QueueOk(Submit(q, op, lba))
  {
    SubmitCursors(q, op, lba);
    SubmitCommands(q, op, lba);
  }

  lemma SubmitCursors(q: Queue, op: Opcode, lba: nat)
    requires CursorsOk(q)
    ensures CursorsOk(Submit(q, op, lba))
  {
    NextEntry(|q.submitted|);
    NextLap(q.next);
  }

  lemma SubmitCommands(q: Queue, op: Opcode, lba: nat)
    requires CursorsOk(q) && SubmissionsOk(q)
    ensures SubmissionsOk(Submit(q, op, lba))
  {
    var q' := Submit(q, op, lba);
    forall n: nat | q'.next <= n < |q'.submitted| ensures q'.sq[n % ENTRIES] == q'.submitted[n] {
      if n < |q.submitted| { DistinctSlots(n, |q.submitted|); }
    }
  }

  /** There is a command, and room for its answer. */
  predicate CanPost(q: Queue) { q.next < |q.submitted| && |q.done| + 1 < q.consumed + ENTRIES }

  lemma PostKeeps(q: Queue, code: nat)
    requires QueueOk(q) && CanPost(q)
    ensures QueueOk(Post(q, code))
  {
    NextEntry(q.next);
    NextEntry(|q.done|);
    PostCompletions(q, code);
    PostOrder(q, code);
    PostCommands(q, code);
  }

  lemma PostCommands(q: Queue, code: nat)
    requires CursorsOk(q) && SubmissionsOk(q)
    ensures SubmissionsOk(Post(q, code))
  {
    var q' := Post(q, code);
    forall n: nat | q'.next <= n < |q'.submitted| ensures q'.sq[n % ENTRIES] == q'.submitted[n] {
      assert q.sq[n % ENTRIES] == q.submitted[n];
    }
  }

  lemma PostOrder(q: Queue, code: nat)
    requires CursorsOk(q) && OrderOk(q) && CanPost(q)
    ensures OrderOk(Post(q, code))
  {
  }

  lemma PostCompletions(q: Queue, code: nat)
    requires QueueOk(q) && CanPost(q)
    ensures CompletionsOk(Post(q, code))
  {
    var q', m := Post(q, code), |q.done|;
    assert q.sq[q.next % ENTRIES] == q.submitted[q.next];
    forall n: nat | q'.consumed <= n < |q'.done|
      ensures q'.cq[n % ENTRIES] == Word(CidAt(q'.done[n].index), PhaseOf(n), q'.done[n].code)
    {
      if n < m { DistinctSlots(n, m); }
    }
    forall n: nat | |q'.done| <= n < q'.consumed + ENTRIES ensures PhaseBit(q'.cq[n % ENTRIES]) != PhaseOf(n) {
      DistinctSlots(m, n);
    }
  }

  lemma ConsumeKeeps(q: Queue)
    requires QueueOk(q) && q.consumed < |q.done|
    ensures QueueOk(Consume(q))
  {
    var k := q.consumed;
    NextEntry(k);
    NextLap(k);
    WordFields(CidAt(q.done[k].index), PhaseOf(k), q.done[k].code);
  }

  /** The driver sees its phase at the head exactly when a completion it has not consumed is there: entries of an
      earlier lap are never taken.  What it then reads is that completion's id and status. */
  lemma HeadEntry(q: Queue)
    requires QueueOk(q)
    ensures PhaseBit(q.cq[q.head]) == q.phase <==> q.consumed < |q.done|
    ensures q.consumed < |q.done| ==>
      CidOf(q.cq[q.head]) == CidAt(q.done[q.consumed].index) && CodeOf(q.cq[q.head]) == q.done[q.consumed].code
  {
    var k := q.consumed;
    if k < |q.done| { WordFields(CidAt(q.done[k].index), PhaseOf(k), q.done[k].code); }
  }

  /** Within a lap of the sixteen-bit ids, the id tells which command was answered. */
  lemma CidTells(k: nat, m: nat)
    requires k <= m < k + 0x1_0000
    ensures CidAt(k) == CidAt(m) <==> k == m
  {
  }

  /** The last answer taken is that of the last command, with success. */
  predicate Acknowledged(q: Queue) {
    0 < q.consumed <= |q.done| && q.done[q.consumed - 1].index + 1 == |q.submitted| &&
    q.done[q.consumed - 1].code == 0
  }

  // ---- Runs ------------------------------------------------------------------------------

  /** How many calls have taken no answer. */
  function Lag(q: Queue): int { |q.submitted| - q.consumed }

  /** How many commands the controller sees and how many answers the driver has not taken. */
  function Waiting(q: Queue): int { |q.submitted| - q.next + |q.done| - q.consumed }

  /** Modulo the length of the ring these agree: a full ring of commands is lost at a time. */
  lemma WaitingIsLag(q: LiveQueue)
    ensures Waiting(q) % ENTRIES == Lag(q) % ENTRIES && 0 <= Waiting(q) <= 2 * (ENTRIES - 1)
  {
    SameRest(|q.submitted|, q.next, |q.done|, q.consumed);
  }

  lemma SameRest(s: int, n: int, d: int, c: int)
    requires n % ENTRIES == d % ENTRIES
    ensures (s - n + d - c) % ENTRIES == (s - c) % ENTRIES
  {
    var k := (n - d) / ENTRIES;
    assert n == d + ENTRIES * k;
    Rest(s - c, k);
  }

  lemma Rest(x: int, k: int)
    ensures (x - ENTRIES * k) % ENTRIES == x % ENTRIES
  {
  }

  /** What one call does on a queue where that holds.  It takes at most one answer, the oldest; one if there was one to
      start with.  If nothing was waiting, that is its own.  It succeeds if and only if it takes its own answer, with
      status 0. */
  ghost predicate Issued(q: Queue, q': Queue, ok: bool) {
    |q'.submitted| == |q.submitted| + 1 && q.consumed <= q'.consumed <= q.consumed + 1 && !q.busy && !q'.busy &&
    Waiting(q) % ENTRIES == Lag(q) % ENTRIES &&
    Waiting(q') == Waiting(q) + 1 - (q'.consumed - q.consumed) - (if Wraps(q) then ENTRIES else 0) &&
    (q.consumed < |q.done| ==> q'.consumed == q.consumed + 1) &&
    (q'.consumed == q.consumed + 1 ==>
      q'.consumed <= |q'.done| && (q'.done[q.consumed].index == |q.submitted| <==> Waiting(q) == 0)) &&
    (ok <==> q'.consumed == q.consumed + 1 && Acknowledged(q'))
  }

  /** Commands issued one after another, with their outcomes and the queue before, between and after them. */
  ghost predicate History(qs: seq<Queue>, oks: seq<bool>) {
    |qs| == |oks| + 1 && forall i: nat {:trigger oks[i]} :: i < |oks| ==> Issued(qs[i], qs[i + 1], oks[i])
  }

  lemma HistoryMore(qs: seq<Queue>, oks: seq<bool>, q: Queue, ok: bool)
    requires History(qs, oks) && Issued(qs[|oks|], q, ok)
    ensures History(qs + [q], oks + [ok])
  {
    var more, all := qs + [q], oks + [ok];
    forall i: nat | i < |all| ensures Issued(more[i], more[i + 1], all[i]) {
      if i < |oks| { assert Issued(qs[i], qs[i + 1], oks[i]); }
    }
  }

  /** A command succeeds if and only if nothing is waiting before it, and the answer taken in its call has status 0. */
  lemma SucceedsExactly(qs: seq<Queue>, oks: seq<bool>, j: nat)
    requires History(qs, oks) && j < |oks|
    ensures var q, q' := qs[j], qs[j + 1];
      oks[j] <==> Waiting(q) == 0 && q'.consumed == q.consumed + 1 <= |q'.done| && q'.done[q.consumed].code == 0
  {
    assert Issued(qs[j], qs[j + 1], oks[j]);
  }

  /** Unless the calls left unanswered so far fill the ring a whole number of times, no command succeeds. */
  lemma TimeoutIsFinal(qs: seq<Queue>, oks: seq<bool>, j: nat)
    requires History(qs, oks) && j < |oks| && Lag(qs[j]) % ENTRIES != 0
    ensures !oks[j]
  {
    SucceedsExactly(qs, oks, j);
    assert Issued(qs[j], qs[j + 1], oks[j]);
  }

  lemma LagStep(q: Queue, q': Queue, ok: bool)
    requires Issued(q, q', ok)
    ensures Lag(q) <= Lag(q') <= Lag(q) + 1
  {
  }

  lemma {:induction false} LagGrows(qs: seq<Queue>, oks: seq<bool>, i: nat, j: nat)
    requires History(qs, oks) && i <= j < |qs|
    ensures Lag(qs[i]) <= Lag(qs[j]) <= Lag(qs[i]) + (j - i)
    decreases j
  {
    if i < j {
      LagGrows(qs, oks, i, j - 1);
      LagStep(qs[j - 1], qs[j], oks[j - 1]);
    }
  }

  lemma SmallRest(x: int)
    requires 0 < x < ENTRIES
    ensures x % ENTRIES != 0
  {
  }

  /** So after a timeout on a queue that had none, at least the next fifteen commands fail. */
  lemma {:induction false} NextFifteenFail(qs: seq<Queue>, oks: seq<bool>, i: nat, j: nat)
    requires History(qs, oks) && i < j < |oks| && Lag(qs[i]) == 0 && Lag(qs[i + 1]) == 1 && j - i < ENTRIES
    ensures !oks[j]
  {
    LagGrows(qs, oks, i + 1, j);
    SmallRest(Lag(qs[j]));
    TimeoutIsFinal(qs, oks, j);
  }

  /** A call on a controller that does nothing. */
  function Silent(q: Queue, op: Opcode, lba: nat): Queue
    requires |q.sq| == ENTRIES && q.tail < ENTRIES
  {
    Submit(q, op, lba).(busy := false)
  }

  lemma SilentIssued(q: LiveQueue, op: Opcode, lba: nat)
    requires !q.busy && q.consumed == |q.done|
    ensures QueueOk(Silent(q, op, lba)) && Issued(q, Silent(q, op, lba), false)
  {
    SubmitKeeps(q, op, lba);
    WaitingIsLag(q);
  }

  lemma SilentMore(qs: seq<Queue>, oks: seq<bool>, op: Opcode, lba: nat) returns (q': LiveQueue)
    requires History(qs, oks) && var q := qs[|oks|]; QueueOk(q) && !q.busy && q.consumed == |q.done|
    ensures History(qs + [q'], oks + [false]) && !q'.busy && q'.consumed == |q'.done|
    ensures var q := qs[|oks|];
      Lag(q') == Lag(q) + 1 && Waiting(q') == if Waiting(q) == ENTRIES - 1 then 0 else Waiting(q) + 1
  {
    var q := qs[|oks|];
    SilentIssued(q, op, lba);
    q' := Silent(q, op, lba);
    HistoryMore(qs, oks, q', false);
  }

  /** A run of `n` such calls. */
  lemma {:induction false} SilentRun(q: LiveQueue, op: Opcode, lba: nat, n: nat) returns (qs: seq<Queue>)
    requires !q.busy && q.consumed == |q.done| && Waiting(q) == 0 && n <= ENTRIES
    ensures |qs| == n + 1 && qs[0] == q && History(qs, Repeat(false, n))
    ensures var last := qs[n]; QueueOk(last) && !last.busy && last.consumed == |last.done| && Lag(last) == Lag(q) + n
    ensures Waiting(qs[n]) == if n == ENTRIES then 0 else n
  {
    if n == 0 {
      qs := [q];
    } else {
      var few := SilentRun(q, op, lba, n - 1);
      var q' := SilentMore(few, Repeat(false, n - 1), op, lba);
      assert Repeat(false, n - 1) + [false] == Repeat(false, n);
      qs := few + [q'];
    }
  }

  /** After sixteen such calls the controller sees an empty queue, and the next command can succeed. */
  lemma RingComesRound(q: LiveQueue, op: Opcode, lba: nat) returns (qs: seq<Queue>)
    requires !q.busy && Waiting(q) == 0
    ensures |qs| == ENTRIES + 2 && qs[0] == q && History(qs, Repeat(false, ENTRIES) + [true])
  {
    assert CursorsOk(q);
    qs := SilentRun(q, op, lba, ENTRIES);
    var q' := Answered(qs[ENTRIES], op, lba);
    HistoryMore(qs, Repeat(false, ENTRIES), q', true);
    qs := qs + [q'];
  }

  /** A call that is answered at once, with success. */
  lemma Answered(q: LiveQueue, op: Opcode, lba: nat) returns (q': LiveQueue)
    requires !q.busy && q.consumed == |q.done| && Waiting(q) == 0
    ensures Issued(q, q', true)
  {
    assert CursorsOk(q);
    SubmitKeeps(q, op, lba);
    var sent := Submit(q, op, lba);
    PostKeeps(sent, 0);
    var posted := Post(sent, 0);
    ConsumeKeeps(posted);
    q' := Consume(posted);
    AnswerTaken(sent, posted, q');
    IssuedBy(q, sent, q', true);
  }

  function LastOf(q: Queue): Command
    requires q.submitted != []
  {
    q.submitted[|q.submitted| - 1]
  }

  /** The command was executed, and nothing else. */
  predicate Happened(before: Store, c: Command, after: Store) { InRange(before, c) && after == Execute(before, c) }

  /** If the last command is the next to be answered, it has not happened yet, or it alone has. */
  ghost predicate Awaits(q: Queue, d: Store, before: Store)
    requires q.submitted != []
  {
    var m := |q.submitted| - 1;
    (q.consumed == |q.done| && q.next == m ==> d == before) &&
    (q.consumed < |q.done| && q.done[q.consumed] == Done(m, 0) ==> Happened(before, LastOf(q), d))
  }

  /** What the driver learns from an entry with its phase. */
  lemma TakeHead(q: LiveQueue, d: Store, before: Store)
    requires q.submitted != [] && PhaseBit(q.cq[q.head]) == q.phase && Awaits(q, d, before)
    ensures QueueOk(Consume(q)) && q.consumed < |q.done| && Consume(q).consumed == q.consumed + 1
    ensures var w := q.cq[q.head];
      CidOf(w) == CidAt(|q.submitted| - 1) && CodeOf(w) == 0 <==> Acknowledged(Consume(q))
    ensures Acknowledged(Consume(q)) ==> Happened(before, LastOf(q), d)
  {
    HeadEntry(q);
    CidTells(q.done[q.consumed].index, |q.submitted| - 1);
    ConsumeKeeps(q);
  }

  // ---- The device ----------------------------------------------------------------------

  class Disk {
    var q: LiveQueue
    var data: Store

    constructor (data: Store, zero: Command)
      ensures this.data == data && q == Fresh(zero) && Valid()
    {
      this.data := data;
      FreshOk(zero);
      q := Fresh(zero);
    }

    /** No call is under way. */
    predicate Valid()
      reads this
    {
      !q.busy
    }

    /** The controller executes and completes one command. */
    method CompleteOne() returns (code: nat)
      requires CanPost(q)
      modifies this
      ensures q == Post(old(q), code) && |data.blocks| == |old(data).blocks| && data.spb == old(data).spb
      ensures code == 0 ==> Happened(old(data), old(q).submitted[old(q).next], data)
    {
      var c := q.sq[q.next % ENTRIES];
      assert c == q.submitted[q.next];
      code := *;
      if !InRange(data, c) && code == 0 { code := 0x80; }
      PostKeeps(q, code);
      if code == 0 {
        data := Execute(data, c);
      } else {
        var junk: seq<u8> :| |junk| == PAGE;
        data := Spoil(data, c, junk);
      }
      q := Post(q, code);
    }

    /** Between two looks of the driver the controller completes any number of commands. */
    method Look(ghost before: Store)
      requires q.submitted != [] && Awaits(q, data, before)
      modifies this
      ensures Polled(old(q), q) && |data.blocks| == |old(data).blocks| && data.spb == old(data).spb
      ensures Awaits(q, data, before)
    {
      var more: bool := *;
      while more && CanPost(q)
        invariant Polled(old(q), q) && |data.blocks| == |old(data).blocks| && data.spb == old(data).spb
        invariant Awaits(q, data, before)
        decreases |q.submitted| - q.next
      {
        LookMore(before, old(q));
        more := *;
      }
    }

    method LookMore(ghost before: Store, ghost start: Queue)
      requires q.submitted != [] && Awaits(q, data, before) && CanPost(q) && Polled(start, q)
      modifies this
      ensures Polled(start, q) && |data.blocks| == |old(data).blocks| && data.spb == old(data).spb
      ensures Awaits(q, data, before) && q.next == old(q).next + 1
    {
      var code := CompleteOne();
    }

    /** Submits a command and polls.  The answer is true exactly if a completion came in time and it was this very
        command's, with status 0; then nothing was waiting before, and the command's effect is all that happened. */
    method IssueCommand(op: Opcode, lba: nat) returns (ok: bool)
      requires Valid()
      modifies this
      ensures Valid() && |data.blocks| == |old(data).blocks| && data.spb == old(data).spb
      ensures q.submitted == old(q).submitted + [Command(op, CidAt(|old(q).submitted|), lba)]
      ensures Issued(old(q), q, ok) && (ok <==> Acknowledged(q))
      ensures ok ==> Happened(old(data), Command(op, CidAt(|old(q).submitted|), lba), data)
    {
      var cid := q.nextCid;
      SubmitKeeps(q, op, lba);
      q := Submit(q, op, lba);
      ghost var sent := q;
      ok := Poll(cid, old(data));
      IssuedBy(old(q), sent, q, ok);
    }

    /** Waits for the last command, whose id is `cid`. */
    method Poll(cid: u16, ghost before: Store) returns (ok: bool)
      requires q.submitted != [] && Awaits(q, data, before) && cid == CidAt(|q.submitted| - 1)
      modifies this
      ensures |data.blocks| == |old(data).blocks| && data.spb == old(data).spb && Returned(old(q), q)
      ensures ok <==> q.consumed == old(q).consumed + 1 && Acknowledged(q)
      ensures ok ==> Happened(before, LastOf(old(q)), data)
    {
      ghost var start := q;
      for i := 0 to NVME_TIMEOUT
        invariant Polled(start, q) && |data.blocks| == |old(data).blocks| && data.spb == old(data).spb
        invariant Awaits(q, data, before) && (i > 0 ==> q.consumed == |q.done|)
      {
        var here := LookOnce(before, start);
        if here {
          ok := Take(cid, before, start);
          return;
        }
        var fatal: bool := *;
        if fatal { break; }
      }
      GiveUp(start);
      return false;
    }

    /** Looks at the head entry, some time after the last look. */
    method LookOnce(ghost before: Store, ghost start: Queue) returns (here: bool)
      requires q.submitted != [] && Awaits(q, data, before) && Polled(start, q)
      modifies this
      ensures Polled(start, q) && |data.blocks| == |old(data).blocks| && data.spb == old(data).spb
      ensures Awaits(q, data, before)
      ensures here <==> PhaseBit(q.cq[q.head]) == q.phase
      ensures here <==> q.consumed < |q.done|
    {
      ghost var at := q;
      Look(before);
      PolledMore(start, at, q);
      HeadEntry(q);
      here := PhaseBit(q.cq[q.head]) == q.phase;
    }

    /** Returns without an answer. */
    method GiveUp(ghost start: Queue)
      requires q.consumed == |q.done| && Polled(start, q)
      modifies this`q
      ensures Returned(start, q) && q.consumed == start.consumed
    {
      NoAnswer(start, q, q.(busy := false));
      q := q.(busy := false);
    }

    /** Consumes the head entry, whose phase matches. */
    method Take(cid: u16, ghost before: Store, ghost start: Queue) returns (ok: bool)
      requires q.submitted != [] && Awaits(q, data, before) && cid == CidAt(|q.submitted| - 1)
      requires PhaseBit(q.cq[q.head]) == q.phase && Polled(start, q)
      modifies this`q
      ensures Returned(start, q) && q.consumed == start.consumed + 1
      ensures ok <==> Acknowledged(q)
      ensures ok ==> Happened(before, LastOf(start), data)
    {
      var w := q.cq[q.head];
      TakeHead(q, data, before);
      AnswerTaken(start, q, Consume(q));
      q := Consume(q);
      ok := CidOf(w) == cid && CodeOf(w) == 0;
    }

    /** Several commands in a row. */
    method IssueAll(cmds: seq<(Opcode, nat)>) returns (oks: seq<bool>, ghost qs: seq<Queue>)
      requires Valid()
      modifies this
      ensures Valid() && |oks| == |cmds| && History(qs, oks) && qs[0] == old(q) && qs[|oks|] == q
    {
      oks, qs := [], [q];
      for k := 0 to |cmds|
        invariant Valid() && |oks| == k && History(qs, oks) && qs[0] == old(q) && qs[k] == q
      {
        var ok := IssueCommand(cmds[k].0, cmds[k].1);
        HistoryMore(qs, oks, q, ok);
        oks, qs := oks + [ok], qs + [q];
      }
    }

    /** Reads one block into the buffer. */
    method FetchBlock(b: nat) returns (ok: bool)
      requires Valid() && b < |data.blocks|
      modifies this
      ensures Valid() && |data.blocks| == |old(data).blocks| && data.spb == old(data).spb && (ok <==> Acknowledged(q))
      ensures ok ==> data.blocks == old(data).blocks && data.buffer[..data.spb * SECTOR] == data.blocks[b]
    {
      ok := IssueCommand(Read, b);
    }

    /** A read that succeeds returns the sector and changes none. */
    method ReadSector(lba: nat) returns (ok: bool, bytes: seq<u8>)
      requires Valid()
      modifies this
      ensures Valid()
      ensures ok ==> Sectors(data) == old(Sectors(data))
      ensures ok ==> lba < |Sectors(data)| && bytes == Sectors(data)[lba]
      ensures if lba < |old(Sectors(data))| then ok <==> Acknowledged(q) else !ok && q == old(q) && data == old(data)
    {
      if lba >= |data.blocks| * data.spb { return false, []; }
      Locate(lba, |data.blocks|, data.spb);
      var off := lba % data.spb * SECTOR;
      ok := FetchBlock(lba / data.spb);
      if !ok { return false, []; }
      bytes := data.buffer[off..off + SECTOR];
      FetchedSector(old(data), data, lba);
    }

    /** A write that succeeds changes exactly that sector of the sector array. */
    method WriteSector(lba: nat, bytes: seq<u8>) returns (ok: bool)
      requires Valid() && |bytes| == SECTOR
      modifies this
      ensures Valid()
      ensures ok ==> lba < |old(Sectors(data))| && Sectors(data) == old(Sectors(data))[lba := bytes]
      ensures if lba < |old(Sectors(data))| then ok <==> Acknowledged(q) else !ok && q == old(q) && data == old(data)
    {
      if lba >= |data.blocks| * data.spb { return false; }
      Locate(lba, |data.blocks|, data.spb);
      if data.spb > 1 {
        ok := FetchBlock(lba / data.spb);
        if !ok { return false; }
        SameSectors(old(data), data);
      }
      ok := WriteFetched(lba, bytes);
    }

    /** The second half of a write: the buffer holds the block, or is one sector long. */
    method WriteFetched(lba: nat, bytes: seq<u8>) returns (ok: bool)
      requires Valid() && |bytes| == SECTOR && lba < |data.blocks| * data.spb
      requires lba / data.spb < |data.blocks| && lba % data.spb * SECTOR + SECTOR <= data.spb * SECTOR
      requires data.spb == 1 || data.buffer[..data.spb * SECTOR] == data.blocks[lba / data.spb]
      modifies this
      ensures Valid()
      ensures ok ==> lba < |old(Sectors(data))| && Sectors(data) == old(Sectors(data))[lba := bytes]
      ensures ok <==> Acknowledged(q)
    {
      var b, off := lba / data.spb, lba % data.spb * SECTOR;
      WriteBack(data, b, off, bytes);
      data := data.(buffer := Splice(data.buffer, off, bytes));
      ok := IssueCommand(Write, b);
      if ok { OneSector(old(data), lba, bytes); }
    }
  }

  // ---- Sectors ---------------------------------------------------------------------------

  lemma Locate(lba: nat, blocks: nat, spb: nat)
    requires BlockSize(spb) && lba < blocks * spb
    ensures lba / spb < blocks && lba % spb * SECTOR + SECTOR <= spb * SECTOR
  {
    if spb == 1 {
    } else if spb == 2 {
    } else if spb == 4 {
    } else {
      assert spb == 8;
    }
  }

  function SectorAt(d: Store, lba: nat): seq<u8>
    requires lba < |d.blocks| * d.spb
  {
    Locate(lba, |d.blocks|, d.spb);
    d.blocks[lba / d.spb][lba % d.spb * SECTOR..lba % d.spb * SECTOR + SECTOR]
  }

  /** The array of 512-byte sectors that the namespace's blocks stand for. */
  function Sectors(d: Store): (r: seq<seq<u8>>)
    ensures |r| == |d.blocks| * d.spb && forall lba :: 0 <= lba < |r| ==> r[lba] == SectorAt(d, lba)
  {
    seq(|d.blocks| * d.spb, lba requires 0 <= lba < |d.blocks| * d.spb => SectorAt(d, lba))
  }

  /** A block read into the buffer shows the sector. */
  lemma FetchedSector(before: Store, d: Store, lba: nat)
    requires d.blocks == before.blocks && d.spb == before.spb && lba < |d.blocks| * d.spb && lba / d.spb < |d.blocks|
    requires d.buffer[..d.spb * SECTOR] == d.blocks[lba / d.spb]
    requires lba % d.spb * SECTOR + SECTOR <= d.spb * SECTOR
    ensures Sectors(d) == Sectors(before)
    ensures |Sectors(d)| > lba && d.buffer[lba % d.spb * SECTOR..lba % d.spb * SECTOR + SECTOR] == Sectors(d)[lba]
  {
    var off := lba % d.spb * SECTOR;
    SameSectors(before, d);
    assert d.buffer[..d.spb * SECTOR][off..off + SECTOR] == d.buffer[off..off + SECTOR];
  }

  lemma SameSectors(before: Store, d: Store)
    requires d.blocks == before.blocks && d.spb == before.spb
    ensures Sectors(d) == Sectors(before)
  {
    forall lba | 0 <= lba < |Sectors(d)| ensures Sectors(d)[lba] == Sectors(before)[lba] {
      assert SectorAt(d, lba) == SectorAt(before, lba);
    }
  }

  lemma SamePlace(a: nat, b: nat, spb: nat)
    requires BlockSize(spb) && a / spb == b / spb && a % spb == b % spb
    ensures a == b
  {
    if spb == 1 {
    } else if spb == 2 {
    } else if spb == 4 {
    } else {
      assert spb == 8;
    }
  }

  /** Overwriting one sector's bytes inside its block overwrites that sector of the array and no other. */
  lemma OneSector(d: Store, lba: nat, bytes: seq<u8>)
    requires lba < |d.blocks| * d.spb && |bytes| == SECTOR
    requires lba / d.spb < |d.blocks| && lba % d.spb * SECTOR + SECTOR <= d.spb * SECTOR
    ensures forall d': Store ::
      d'.spb == d.spb && d'.blocks ==
        d.blocks[lba / d.spb := Splice(d.blocks[lba / d.spb], lba % d.spb * SECTOR, bytes)] ==>
        Sectors(d') == Sectors(d)[lba := bytes]
  {
    forall d': Store |
      d'.spb == d.spb && d'.blocks ==
        d.blocks[lba / d.spb := Splice(d.blocks[lba / d.spb], lba % d.spb * SECTOR, bytes)]
      ensures Sectors(d') == Sectors(d)[lba := bytes]
    {
      forall i: nat | i < |d.blocks| * d.spb ensures SectorAt(d', i) == Sectors(d)[lba := bytes][i] {
        OtherSector(d, d', lba, bytes, i);
      }
    }
  }

  lemma OtherSector(d: Store, d': Store, lba: nat, bytes: seq<u8>, i: nat)
    requires lba < |d.blocks| * d.spb && i < |d.blocks| * d.spb && |bytes| == SECTOR && d'.spb == d.spb
    requires lba / d.spb < |d.blocks| && lba % d.spb * SECTOR + SECTOR <= d.spb * SECTOR
    requires d'.blocks == d.blocks[lba / d.spb := Splice(d.blocks[lba / d.spb], lba % d.spb * SECTOR, bytes)]
    ensures SectorAt(d', i) == if i == lba then bytes else SectorAt(d, i)
  {
    Locate(i, |d.blocks|, d.spb);
    if i / d.spb == lba / d.spb {
      if i % d.spb == lba % d.spb {
        SamePlace(i, lba, d.spb);
      } else {
        SliceKept(d.blocks[lba / d.spb], lba % d.spb * SECTOR, bytes, i % d.spb * SECTOR, SECTOR);
      }
    }
  }

  lemma WriteBack(d: Store, b: nat, off: nat, bytes: seq<u8>)
    requires b < |d.blocks| && |bytes| == SECTOR && off + SECTOR <= d.spb * SECTOR
    requires d.spb == 1 || d.buffer[..d.spb * SECTOR] == d.blocks[b]
    ensures Splice(d.buffer, off, bytes)[..d.spb * SECTOR] == Splice(d.blocks[b], off, bytes)
  {
  }

  /** The part of the queue that only the driver changes. */
  function Driver(q: Queue): (nat, nat, bool, u16, bool, seq<Command>, nat) {
    (q.tail, q.head, q.phase, q.nextCid, q.busy, q.submitted, q.consumed)
  }

  /** What the controller's work leaves as it is: the driver's part, the answers there were, and how many wait. */
  ghost predicate Polled(q: Queue, q': Queue) {
    Driver(q') == Driver(q) && q.done <= q'.done && Waiting(q') == Waiting(q) &&
    (|q'.done| > |q.done| ==> q'.done[|q.done|].index == q.next < |q.submitted|)
  }

  /** A call has ended: one answer was taken, or there was none to take. */
  ghost predicate Returned(q: Queue, q': Queue) {
    q'.submitted == q.submitted && q.done <= q'.done && !q'.busy &&
    (|q'.done| > |q.done| ==> q'.done[|q.done|].index == q.next < |q.submitted|) &&
    (q'.consumed == q.consumed + 1 <= |q'.done| || q'.consumed == q.consumed == |q'.done|) &&
    Waiting(q') == Waiting(q) - (q'.consumed - q.consumed)
  }

  lemma PolledMore(a: Queue, b: Queue, c: Queue)
    requires Polled(a, b) && Polled(b, c)
    ensures Polled(a, c)
  {
    if |b.done| > |a.done| { assert c.done[|a.done|] == b.done[|a.done|]; }
  }

  lemma AnswerTaken(q: Queue, at: Queue, q': Queue)
    requires Polled(q, at) && q' == Consume(at) && at.consumed < |at.done|
    ensures Returned(q, q') && q'.consumed == q.consumed + 1
  {
  }

  lemma NoAnswer(q: Queue, at: Queue, q': Queue)
    requires Polled(q, at) && q' == at.(busy := false) && at.consumed == |at.done|
    ensures Returned(q, q') && q'.consumed == q.consumed
  {
  }

  lemma IssuedBy(q: LiveQueue, sent: LiveQueue, q': LiveQueue, ok: bool)
    requires !q.busy && |sent.submitted| == |q.submitted| + 1 && sent.consumed == q.consumed && sent.done == q.done
    requires sent.next == if Wraps(q) then q.next + ENTRIES else q.next
    requires Returned(sent, q') && (ok <==> q'.consumed == q.consumed + 1 && Acknowledged(q'))
    ensures Issued(q, q', ok) && (ok <==> Acknowledged(q'))
  {
    var k := q.consumed;
    WaitingIsLag(q);
    assert k <= |q.done| && q.next <= |q.submitted|;
    if q'.consumed == k {
      if k > 0 { assert q.done[k - 1].index < q.next && q'.done[k - 1] == q.done[k - 1]; }
    } else if k < |q.done| {
      assert q'.done[k] == q.done[k] && q.done[k].index < q.next;
    } else {
      assert q'.done[k].index == sent.next < |sent.submitted|;
    }
  }
}
