/**
 The task table of the kernel: every public operation as one atomic step on a value.  A kill takes the lock twice, so
 its second half is also a step of its own.

 Two logs record what the operations do to the outside world: kernel stacks started, saved, resumed and released,
 and address spaces made and freed.
 */
module Sched {
  import opened Bytes

  const STACK_SIZE: nat := 64 * 1024
  const CONTEXT_BYTES: nat := 160
  const MAX_ACTIVE_TASKS: nat := 64

  /** The physical frame of a top-level page table. */
  type Frame = nat

  datatype Status = Ready | Running | Blocked | Stopped | Exited | Reaped
  datatype Signal = Term | Int | User1 | Stop | Continue
  datatype Credentials = Credentials(uid: nat, admin: bool)
  datatype Result<+T, +E> = Ok(value: T) | Err(error: E)
  datatype KillError =
    | CannotKillIdle | CannotKillCurrent | InvalidTask | AlreadyExited | AlreadyReaped | PermissionDenied
  datatype WaitError = NoSuchTask | NotChild | NotExited | WasReaped

  datatype Task = Task(
    stack: Option<nat>, syscallTop: nat, stackPtr: nat, status: Status, exitCode: Option<nat>, parent: Option<nat>,
    group: nat, pending: Option<Signal>, wakeTick: Option<nat>, cred: Credentials, threadGroup: nat,
      pml4: Option<Frame>)

  datatype StackEvent =
    | Started(task: nat, ptr: nat)
    | Saved(task: nat, ptr: nat)
    | Resumed(task: nat, ptr: nat)
    | Released(task: nat)

  datatype FrameEvent = Made(frame: Frame) | Freed(frame: Frame)

  /** `loaded` is the address space in the page-table register; `None` is the boot one. */
  datatype State = State(tasks: seq<Task>, current: nat, loaded: Option<Frame>, stacks: seq<StackEvent>,
    frames: seq<FrameEvent>)

  /** Whether a kernel stack could be allocated, and where its buffer lies. */
  datatype Memory = Memory(ok: bool, base: nat)

  predicate Halted(t: Task) { t.status == Exited || t.status == Reaped }

  function Idle(cred: Credentials): Task {
    Task(None, 0, 0, Running, None, None, 0, None, None, cred, 0, None)
  }

  function Boot(cred: Credentials): State { State([Idle(cred)], 0, None, [], []) }

  // ---- Spawning ----------------------------------------------------------------

  function StackTop(base: nat): nat { base + STACK_SIZE - (base + STACK_SIZE) % 16 }

  function FirstFrame(base: nat): nat { StackTop(base) - CONTEXT_BYTES }

  /** The first saved context lies inside the new buffer, on a 16-byte boundary. */
  lemma FrameInBuffer(base: nat)
    ensures base <= FirstFrame(base) && FirstFrame(base) + CONTEXT_BYTES <= base + STACK_SIZE
    ensures FirstFrame(base) % 16 == 0
  {
    var top := base + STACK_SIZE;
    assert FirstFrame(base) == 16 * (top / 16 - 10);
  }

  function NewTask(s: State, base: nat, pml4: Option<Frame>): Task
    requires s.current < |s.tasks|
  {
    var parent := s.tasks[s.current];
    Task(Some(base), StackTop(base), FirstFrame(base), Ready, None, Some(s.current),
         parent.group, None, None, parent.cred, |s.tasks|, pml4)
  }

  /** The tasks other than idle that have not been reaped. */
  function ActiveFrom(tasks: seq<Task>, i: nat): nat
    decreases |tasks| - i
  {
    if i >= |tasks| then 0 else (if tasks[i].status != Reaped then 1 else 0) + ActiveFrom(tasks, i + 1)
  }

  function Active(tasks: seq<Task>): nat { ActiveFrom(tasks, 1) }

  function Push(s: State, t: Task): State {
    s.(tasks := s.tasks + [t], stacks := s.stacks + [Started(|s.tasks|, t.stackPtr)])
  }

  function SpawnKernel(s: State, mem: Memory): State
    requires s.current < |s.tasks|
  {
    if mem.ok then Push(s, NewTask(s, mem.base, None)) else s
  }

  /** The caller has just made the address space `p`; a failed spawn frees it at once. */
  function SpawnUser(s: State, p: Frame, mem: Memory, fds: bool, cred: Option<Credentials>): (State, bool)
    requires s.current < |s.tasks|
  {
    var made := s.(frames := s.frames + [Made(p)]);
    if Active(s.tasks) >= MAX_ACTIVE_TASKS || !mem.ok || !fds then (made.(frames := made.frames + [Freed(p)]), false)
    else
      var t := NewTask(s, mem.base, Some(p));
      (Push(made, if cred.Some? then t.(cred := cred.value) else t), true)
  }

  /** A program's task starts Blocked, so that it does not run before its start is recorded. */
  function SpawnBlocked(s: State, p: Frame, mem: Memory, fds: bool, cred: Option<Credentials>): (State, Option<nat>)
    requires s.current < |s.tasks|
  {
    var (s', ok) := SpawnUser(s, p, mem, fds, cred);
    var n := |s.tasks|;
    if ok && n < |s'.tasks| then (s'.(tasks := s'.tasks[n := s'.tasks[n].(status := Blocked)]), Some(n)) else (s', None)
  }

  /** A thread shares the address space of the running task. */
  function SpawnThread(s: State, mem: Memory, fds: bool): (State, Option<nat>)
    requires s.current < |s.tasks|
  {
    var parent := s.tasks[s.current];
    if Active(s.tasks) >= MAX_ACTIVE_TASKS || parent.pml4.None? || !mem.ok || !fds then (s, None)
    else (Push(s, NewTask(s, mem.base, parent.pml4).(threadGroup := parent.threadGroup)), Some(|s.tasks|))
  }

  /** Replaces the running task's address space and frees the old one. */
  function Exec(s: State, p: Frame): State
    requires s.current < |s.tasks|
  {
    var t := s.tasks[s.current];
    State(s.tasks[s.current := t.(pml4 := Some(p))], s.current, Some(p), s.stacks,
          s.frames + [Made(p)] + (if t.pml4.Some? then [Freed(t.pml4.value)] else []))
  }

  // ---- Scheduling --------------------------------------------------------------

  function Save(t: Task, rsp: nat): Task {
    t.(stackPtr := rsp, status := if t.status == Running then Ready else t.status)
  }

  function Deliver(i: nat, t: Task, sig: Signal): Task {
    match sig
    case User1 => t.(wakeTick := None, status := if t.status == Blocked then Ready else t.status)
    case Stop => if i != 0 && !Halted(t) then t.(status := Stopped, wakeTick := None) else t
    case Continue => if t.status == Stopped then t.(status := Ready) else t
    case _ => t
  }

  /** A timed-out sleeper becomes Ready, then a pending signal takes effect. */
  function WakeOne(i: nat, t: Task, now: nat): Task {
    var t1 := if t.status == Blocked && t.wakeTick.Some? && now >= t.wakeTick.value
              then t.(wakeTick := None, status := Ready) else t;
    if t1.pending.None? then t1 else Deliver(i, t1.(pending := None), t1.pending.value)
  }

  function Wake(tasks: seq<Task>, now: nat): (r: seq<Task>)
    ensures |r| == |tasks| && forall i :: 0 <= i < |r| ==> r[i] == WakeOne(i, tasks[i], now)
  {
    seq(|tasks|, i requires 0 <= i < |tasks| => WakeOne(i, tasks[i], now))
  }

  /** The task `k` places after `cur`, going round. */
  function Around(n: nat, cur: nat, k: nat): (j: nat)
    requires cur < n && k <= n
    ensures j < n
  {
    if cur + k < n then cur + k else cur + k - n
  }

  /** How far after `cur` the task `i` comes: 1 to n. */
  function Distance(n: nat, cur: nat, i: nat): (k: nat)
    requires cur < n && i < n
    ensures 1 <= k <= n && Around(n, cur, k) == i
  {
    if cur < i then i - cur else i - cur + n
  }

  /** The first Ready task after `cur`, going round and ending with `cur` itself; idle if there is none. */
  predicate IsNext(tasks: seq<Task>, cur: nat, next: nat)
    requires cur < |tasks|
  {
    var n := |tasks|;
    next < n &&
    ((tasks[next].status == Ready &&
      forall k :: 1 <= k < Distance(n, cur, next) ==> tasks[Around(n, cur, k)].status != Ready) ||
     (next == 0 && forall i :: 0 <= i < n ==> tasks[i].status != Ready))
  }

  function Search(tasks: seq<Task>, cur: nat, k: nat): (next: nat)
    requires cur < |tasks| && 1 <= k <= |tasks| + 1
    requires forall j :: 1 <= j < k ==> tasks[Around(|tasks|, cur, j)].status != Ready
    ensures IsNext(tasks, cur, next)
    decreases |tasks| + 1 - k
  {
    var n := |tasks|;
    if k > n then
      assert forall i :: 0 <= i < n ==> tasks[i].status != Ready by {
        forall i | 0 <= i < n ensures tasks[i].status != Ready {
          assert tasks[Around(n, cur, Distance(n, cur, i))] == tasks[i];
        }
      }
      0
    else if tasks[Around(n, cur, k)].status == Ready then Around(n, cur, k)
    else Search(tasks, cur, k + 1)
  }

  function Rested(s: State, rsp: nat, now: nat): seq<Task>
    requires s.current < |s.tasks|
  {
    Wake(s.tasks[s.current := Save(s.tasks[s.current], rsp)], now)
  }

  /** The running task's context is saved; the returned stack pointer is that of the task switched to. */
  function Schedule(s: State, rsp: nat, now: nat): (State, nat)
    requires s.current < |s.tasks|
  {
    var tasks := Rested(s, rsp, now);
    var next := Search(tasks, s.current, 1);
    var ptr := tasks[next].stackPtr;
    (State(tasks[next := tasks[next].(status := Running)], next, tasks[next].pml4,
           s.stacks + [Saved(s.current, rsp)] + [Resumed(next, ptr)], s.frames), ptr)
  }

  // ---- Blocking and waking -----------------------------------------------------

  function Block(s: State, until: Option<nat>): State
    requires s.current < |s.tasks|
  {
    var t := s.tasks[s.current];
    s.(tasks := s.tasks[s.current := t.(status := Blocked, wakeTick := if until.Some? then until else t.wakeTick)])
  }

  function Unblock(s: State, i: nat): State {
    if i < |s.tasks| && s.tasks[i].status == Blocked
    then s.(tasks := s.tasks[i := s.tasks[i].(status := Ready, wakeTick := None)]) else s
  }

  function WakeParent(s: State, parent: Option<nat>): State {
    if parent.Some? then Unblock(s, parent.value) else s
  }

  // ---- Ending ------------------------------------------------------------------

  function Ended(t: Task, code: nat): Task { t.(status := Exited, exitCode := Some(code), wakeTick := None) }

  function ExitCurrent(s: State, code: nat): State
    requires s.current < |s.tasks|
  {
    var t := s.tasks[s.current];
    WakeParent(s.(tasks := s.tasks[s.current := Ended(t, code)]), t.parent)
  }

  /** As an exit, but the wake-up time stays. */
  function FaultCurrent(s: State, code: nat): State
    requires s.current < |s.tasks|
  {
    var t := s.tasks[s.current];
    WakeParent(s.(tasks := s.tasks[s.current := t.(status := Exited, exitCode := Some(code))]), t.parent)
  }

  predicate CanControl(s: State, actor: nat, target: nat) {
    actor == target ||
    (actor < |s.tasks| && target < |s.tasks| &&
     (s.tasks[actor].cred.uid == 0 || s.tasks[actor].cred.admin || s.tasks[target].parent == Some(actor) ||
      s.tasks[actor].cred.uid == s.tasks[target].cred.uid))
  }

  /** What a kill checks, under the lock. */
  function KillCheck(s: State, i: nat): Result<(), KillError> {
    if i == 0 then Err(CannotKillIdle)
    else if i == s.current then Err(CannotKillCurrent)
    else if i >= |s.tasks| then Err(InvalidTask)
    else if !CanControl(s, s.current, i) then Err(PermissionDenied)
    else if s.tasks[i].status == Exited then Err(AlreadyExited)
    else if s.tasks[i].status == Reaped then Err(AlreadyReaped)
    else Ok(())
  }

  /** What it then does, under the lock taken anew: the status is not looked at again. */
  function FinishKill(s: State, i: nat, code: nat): State {
    if i >= |s.tasks| then s
    else WakeParent(s.(tasks := s.tasks[i := Ended(s.tasks[i], code)]), s.tasks[i].parent)
  }

  /** A kill that nothing comes between. */
  function Kill(s: State, i: nat, code: nat): (State, Result<(), KillError>) {
    if KillCheck(s, i).Err? then (s, KillCheck(s, i)) else (FinishKill(s, i, code), Ok(()))
  }

  function ExitCode(sig: Signal): Option<nat> {
    match sig case Term => Some(143) case Int => Some(130) case _ => None
  }

  function Signalled(t: Task, sig: Signal): Task {
    match sig
    case User1 =>
      if t.status == Blocked
        then t.(pending := Some(User1), status := Ready, wakeTick := None) else t.(pending := Some(User1))
    case Stop => t.(pending := None, wakeTick := None, status := Stopped)
    case Continue => t.(pending := None, status := if t.status == Stopped then Ready else t.status)
    case _ => t
  }

  function SendSignal(s: State, i: nat, sig: Signal): (State, Result<(), KillError>)
    requires s.current < |s.tasks|
  {
    if i == 0 then (s, Err(CannotKillIdle))
    else if ExitCode(sig).Some? then
      if i == s.current then (ExitCurrent(s, ExitCode(sig).value), Ok(())) else Kill(s, i, ExitCode(sig).value)
    else if i >= |s.tasks| then (s, Err(InvalidTask))
    else if !CanControl(s, s.current, i) then (s, Err(PermissionDenied))
    else if s.tasks[i].status == Exited then (s, Err(AlreadyExited))
    else if s.tasks[i].status == Reaped then (s, Err(AlreadyReaped))
    else (s.(tasks := s.tasks[i := Signalled(s.tasks[i], sig)]), Ok(()))
  }

  // ---- Reaping -----------------------------------------------------------------

  ghost predicate InUse(tasks: seq<Task>, p: Frame) {
    exists i :: 0 <= i < |tasks| && tasks[i].pml4 == Some(p) && tasks[i].status != Reaped
  }

  predicate Shared(tasks: seq<Task>, i: nat, p: Frame) {
    exists j :: 0 <= j < |tasks| && j != i && tasks[j].pml4 == Some(p) && tasks[j].status != Reaped
  }

  /** Releases the stack; the address space goes with the last task that is not reaped. */
  function Reap(s: State, i: nat): State
    requires i < |s.tasks|
  {
    var t := s.tasks[i];
    var last := t.pml4.Some? && !Shared(s.tasks, i, t.pml4.value);
    s.(tasks := s.tasks[i := t.(status := Reaped, stack := None, stackPtr := 0, syscallTop := 0,
                                pml4 := if last then None else t.pml4)],
       stacks := if t.stack.Some? then s.stacks + [Released(i)] else s.stacks,
       frames := if last then s.frames + [Freed(t.pml4.value)] else s.frames)
  }

  function WaitPid(s: State, parent: nat, i: nat): (State, Result<nat, WaitError>) {
    if i == 0 || i >= |s.tasks| then (s, Err(NoSuchTask))
    else if s.tasks[i].parent != Some(parent) && parent != 0 then (s, Err(NotChild))
    else if s.tasks[i].status == Exited then
      (Reap(s, i), Ok(if s.tasks[i].exitCode.Some? then s.tasks[i].exitCode.value else 0))
    else if s.tasks[i].status == Reaped then (s, Err(WasReaped))
    else (s, Err(NotExited))
  }

  predicate Reapable(t: Task, parent: nat) { t.status == Exited && (t.parent == Some(parent) || parent == 0) }

  /** Reaps the reapable tasks below `k`, from the lowest on; idle is never one. */
  function ReapBelow(s: State, parent: nat, k: nat): (r: (State, nat))
    requires k <= |s.tasks|
    ensures |r.0.tasks| == |s.tasks|
    ensures forall i :: k <= i < |s.tasks| ==> r.0.tasks[i] == s.tasks[i]
  {
    if k == 0 then (s, 0)
    else
      var (before, count) := ReapBelow(s, parent, k - 1);
      if k - 1 != 0 && Reapable(before.tasks[k - 1], parent) then (Reap(before, k - 1), count + 1) else (before, count)
  }

  /** Memory pressure: a task is ended and reaped in one go. */
  function Reclaim(s: State, i: nat, code: nat): (State, Result<(), KillError>) {
    if i == 0 then (s, Err(CannotKillIdle))
    else if i == s.current then (s, Err(CannotKillCurrent))
    else if i >= |s.tasks| then (s, Err(InvalidTask))
    else if s.tasks[i].status == Exited then (s, Err(AlreadyExited))
    else if s.tasks[i].status == Reaped then (s, Err(AlreadyReaped))
    else
      var t := s.tasks[i];
      (WakeParent(Reap(s.(tasks := s.tasks[i := t.(exitCode := Some(code), wakeTick := None)]), i), t.parent), Ok(()))
  }

  // ---- Runs --------------------------------------------------------------------

  datatype Op =
    | OpSpawnKernel(mem: Memory)
    | OpSpawnUser(frame: Frame, mem: Memory, fds: bool, cred: Option<Credentials>)
    | OpSpawnBlocked(frame: Frame, mem: Memory, fds: bool, cred: Option<Credentials>)
    | OpSpawnThread(mem: Memory, fds: bool)
    | OpExec(frame: Frame)
    | OpSchedule(rsp: nat, now: nat)
    | OpBlock(until: Option<nat>)
    | OpUnblock(task: nat)
    | OpExit(code: nat)
    | OpFault(code: nat)
    | OpKill(task: nat, code: nat)
    | OpFinishKill(task: nat, code: nat)
    | OpSignal(task: nat, sig: Signal)
    | OpWait(parent: nat, task: nat)
    | OpReapAll(parent: nat)
    | OpReclaim(task: nat, code: nat)

  function Step(s: State, op: Op): State
    requires s.current < |s.tasks|
  {
    match op
    case OpSpawnKernel(mem) => SpawnKernel(s, mem)
    case OpSpawnUser(p, mem, fds, cred) => SpawnUser(s, p, mem, fds, cred).0
    case OpSpawnBlocked(p, mem, fds, cred) => SpawnBlocked(s, p, mem, fds, cred).0
    case OpSpawnThread(mem, fds) => SpawnThread(s, mem, fds).0
    case OpExec(p) => Exec(s, p)
    case OpSchedule(rsp, now) => Schedule(s, rsp, now).0
    case OpBlock(until) => Block(s, until)
    case OpUnblock(i) => Unblock(s, i)
    case OpExit(code) => ExitCurrent(s, code)
    case OpFault(code) => FaultCurrent(s, code)
    case OpKill(i, code) => Kill(s, i, code).0
    case OpFinishKill(i, code) => FinishKill(s, i, code)
    case OpSignal(i, sig) => SendSignal(s, i, sig).0
    case OpWait(parent, i) => WaitPid(s, parent, i).0
    case OpReapAll(parent) => ReapBelow(s, parent, |s.tasks|).0
    case OpReclaim(i, code) => Reclaim(s, i, code).0
  }
}
