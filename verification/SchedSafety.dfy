/** What every run of the task table keeps: who may run, which stacks are live and which address spaces exist. */
module SchedSafety {
  import opened Bytes
  import opened Sched

  // ---- The logs ----------------------------------------------------------------

  /** How often `p` was made, less how often it was freed. */
  ghost function Balance(frames: seq<FrameEvent>, p: Frame): int {
    if frames == [] then 0
    else
      var e := frames[|frames| - 1];
      Balance(frames[..|frames| - 1], p) + (if e == Made(p) then 1 else if e == Freed(p) then -1 else 0)
  }

  /** At no time is an address space freed that does not exist, or made while it exists. */
  ghost predicate Paired(frames: seq<FrameEvent>) {
    frames == [] ||
    (Paired(frames[..|frames| - 1]) &&
     var e := frames[|frames| - 1];
     Balance(frames[..|frames| - 1], e.frame) == if e.Made? then 0 else 1)
  }

  /** The stack pointer a task last saved, or that of its first context. */
  ghost function LastPtr(stacks: seq<StackEvent>, i: nat): Option<nat> {
    if stacks == [] then None
    else
      var e := stacks[|stacks| - 1];
      if e.task == i && (e.Started? || e.Saved?) then Some(e.ptr) else LastPtr(stacks[..|stacks| - 1], i)
  }

  ghost predicate EventOk(before: seq<StackEvent>, e: StackEvent) {
    Released(e.task) !in before && (e.Resumed? ==> LastPtr(before, e.task) == Some(e.ptr))
  }

  /** A task is resumed only with the pointer it last saved, and nothing happens on a stack once it is released. */
  ghost predicate TraceOk(stacks: seq<StackEvent>) {
    stacks == [] || (TraceOk(stacks[..|stacks| - 1]) && EventOk(stacks[..|stacks| - 1], stacks[|stacks| - 1]))
  }

  lemma {:induction false} TraceAt(stacks: seq<StackEvent>, k: nat)
    requires TraceOk(stacks) && k < |stacks|
    ensures EventOk(stacks[..k], stacks[k])
    decreases |stacks|
  {
    var n := |stacks| - 1;
    if k < n {
      assert stacks[..n][..k] == stacks[..k] && stacks[..n][k] == stacks[k];
      TraceAt(stacks[..n], k);
    }
  }

  lemma {:induction false} PairedAt(frames: seq<FrameEvent>, k: nat)
    requires Paired(frames) && k < |frames|
    ensures Balance(frames[..k], frames[k].frame) == if frames[k].Made? then 0 else 1
    decreases |frames|
  {
    var n := |frames| - 1;
    if k < n {
      assert frames[..n][..k] == frames[..k] && frames[..n][k] == frames[k];
      PairedAt(frames[..n], k);
    }
  }

  lemma LastPtrPush(stacks: seq<StackEvent>, e: StackEvent, i: nat)
    ensures LastPtr(stacks + [e], i) == if e.task == i && (e.Started? || e.Saved?)
      then Some(e.ptr) else LastPtr(stacks, i)
  {
    assert (stacks + [e])[..|stacks|] == stacks;
  }

  lemma TracePush(stacks: seq<StackEvent>, e: StackEvent)
    requires TraceOk(stacks) && EventOk(stacks, e)
    ensures TraceOk(stacks + [e])
  {
    assert (stacks + [e])[..|stacks|] == stacks;
  }

  lemma BalancePush(frames: seq<FrameEvent>, e: FrameEvent, p: Frame)
    ensures Balance(frames + [e], p) ==
      Balance(frames, p) + (if e == Made(p) then 1 else if e == Freed(p) then -1 else 0)
  {
    assert (frames + [e])[..|frames|] == frames;
  }

  lemma PairedPush(frames: seq<FrameEvent>, e: FrameEvent)
    requires Paired(frames) && Balance(frames, e.frame) == if e.Made? then 0 else 1
    ensures Paired(frames + [e])
  {
    assert (frames + [e])[..|frames|] == frames;
  }

  // ---- The invariant -----------------------------------------------------------

  /** Only the current task runs; idle never ends; an ended task has its exit code. */
  ghost predicate StatusOk(s: State) {
    s.current < |s.tasks| && s.tasks[s.current].status != Reaped && !Halted(s.tasks[0]) &&
    (forall i :: 0 <= i < |s.tasks| ==> s.tasks[i].status == Running ==> i == s.current) &&
    (forall i :: 0 <= i < |s.tasks| ==> Halted(s.tasks[i]) ==> s.tasks[i].exitCode.Some?) &&
    (forall i :: 0 <= i < |s.tasks| ==> s.tasks[i].pending == None || s.tasks[i].pending == Some(User1))
  }

  ghost predicate StackOk(s: State, i: nat)
    requires i < |s.tasks|
  {
    var t := s.tasks[i];
    (i != 0 ==> (t.status == Reaped <==> t.stack.None?)) &&
    (Released(i) in s.stacks ==> t.status == Reaped) &&
    (t.status != Reaped && i != s.current ==> LastPtr(s.stacks, i) == Some(t.stackPtr))
  }

  /** Exactly the reaped tasks have lost their stack; every other waiting task holds the pointer it last saved. */
  ghost predicate StacksOk(s: State) {
    TraceOk(s.stacks) &&
    (forall i: nat :: i < |s.tasks| ==> StackOk(s, i)) &&
    (forall e :: e in s.stacks ==> e.task < |s.tasks|)
  }

  /** The address spaces that exist are exactly those of the tasks not yet reaped; the loaded one is the current
      task's. */
  ghost predicate FramesOk(s: State) {
    Paired(s.frames) && s.current < |s.tasks| && s.loaded == s.tasks[s.current].pml4 && FramesMatch(s)
  }

  ghost predicate FramesMatch(s: State) { forall p: Frame :: FrameMatches(s, p) }

  /** `p` exists, once, if and only if some task that is not reaped uses it. */
  ghost predicate FrameMatches(s: State, p: Frame) { Balance(s.frames, p) == if InUse(s.tasks, p) then 1 else 0 }

  ghost predicate Inv(s: State) { StatusOk(s) && StacksOk(s) && FramesOk(s) }

  /** What a step may do to a task: an ended one can only be reaped, and a reaped one never changes. */
  ghost predicate TaskStep(t: Task, t': Task) {
    t'.parent == t.parent && (Halted(t) ==> Halted(t')) &&
    (t.status == Reaped ==> t' == t.(pending := t'.pending, wakeTick := t'.wakeTick))
  }

  ghost predicate Progress(s: State, s': State) {
    |s.tasks| <= |s'.tasks| && forall i :: 0 <= i < |s.tasks| ==> TaskStep(s.tasks[i], s'.tasks[i])
  }

  /** Tasks that have ended keep their exit code, but for task `late`. */
  ghost predicate CodesKept(s: State, s': State, late: Option<nat>) {
    |s.tasks| <= |s'.tasks| && forall i: nat ::
      i < |s.tasks| && Halted(s.tasks[i]) && late != Some(i) ==> s'.tasks[i].exitCode == s.tasks[i].exitCode
  }

  /** The task whose kill the step finishes. */
  function Late(op: Op): Option<nat> { if op.OpFinishKill? then Some(op.task) else None }

  /** When the callers of the task table take each step: idle never ends, a task that has ended only waits to be
      switched away, a new address space is not one that exists, exec runs only in an unshared address space, and a
      kill is finished only if its target has not been reaped since the check. */
  ghost predicate Enabled(s: State, op: Op)
    requires s.current < |s.tasks|
  {
    var cur := s.tasks[s.current];
    match op
    case OpSpawnUser(p, _, _, _) => Balance(s.frames, p) == 0
    case OpSpawnBlocked(p, _, _, _) => Balance(s.frames, p) == 0
    case OpExec(p) => Balance(s.frames, p) == 0 && !Halted(cur) && Alone(s)
    case OpBlock(_) => !Halted(cur)
    case OpExit(_) => !Halted(cur) && s.current != 0
    case OpFault(_) => !Halted(cur) && s.current != 0
    case OpSignal(i, sig) => ExitCode(sig).Some? && i == s.current ==> !Halted(cur)
    case OpWait(_, _) => !Halted(cur)
    case OpReapAll(_) => !Halted(cur)
    case OpFinishKill(i, _) => 0 < i < |s.tasks| && i != s.current && s.tasks[i].status != Reaped
    case _ => true
  }

  /** No other task that is not reaped uses the current task's address space. */
  ghost predicate Alone(s: State)
    requires s.current < |s.tasks|
  {
    s.tasks[s.current].pml4.Some? ==> !Shared(s.tasks, s.current, s.tasks[s.current].pml4.value)
  }

  lemma BootOk(cred: Credentials)
    ensures Inv(Boot(cred))
  {
  }

  // ---- Steps that touch neither stacks nor address spaces ------------------------

  ghost predicate SameResources(s: State, s': State) {
    s' == s.(tasks := s'.tasks) && |s'.tasks| == |s.tasks| &&
    forall i :: 0 <= i < |s.tasks| ==>
      s'.tasks[i].stack == s.tasks[i].stack && s'.tasks[i].stackPtr == s.tasks[i].stackPtr &&
      s'.tasks[i].pml4 == s.tasks[i].pml4 && (s'.tasks[i].status == Reaped <==> s.tasks[i].status == Reaped)
  }

  lemma SameResourcesKeep(s: State, s': State)
    requires SameResources(s, s') && StacksOk(s) && FramesOk(s)
    ensures StacksOk(s') && FramesOk(s')
  {
    forall i: nat | i < |s'.tasks| ensures StackOk(s', i) { assert StackOk(s, i); }
    forall p: Frame ensures FrameMatches(s', p) { SameUse(s.tasks, s'.tasks, p); assert FrameMatches(s, p); }
  }

  lemma SameUse(tasks: seq<Task>, tasks': seq<Task>, p: Frame)
    requires |tasks'| == |tasks|
    requires forall i :: 0 <= i < |tasks| ==>
      tasks'[i].pml4 == tasks[i].pml4 && (tasks'[i].status == Reaped <==> tasks[i].status == Reaped)
    ensures InUse(tasks', p) == InUse(tasks, p)
  {
    if InUse(tasks, p) {
      var i :| 0 <= i < |tasks| && tasks[i].pml4 == Some(p) && tasks[i].status != Reaped;
      assert tasks'[i].pml4 == Some(p);
    }
    if InUse(tasks', p) {
      var i :| 0 <= i < |tasks| && tasks'[i].pml4 == Some(p) && tasks'[i].status != Reaped;
      assert tasks[i].pml4 == Some(p);
    }
  }

  /** One task changes its status, its exit code or its wake-up state. */
  lemma EditKeeps(s: State, i: nat, t': Task)
    requires Inv(s) && i < |s.tasks|
    requires var t := s.tasks[i];
      t' == t.(status := t'.status, exitCode := t'.exitCode, pending := t'.pending, wakeTick := t'.wakeTick)
    requires s.tasks[i].status != Reaped && t'.status != Reaped && (t'.status == Running ==> i == s.current)
    requires s.tasks[i].status == Exited ==> t'.status == Exited
    requires t'.status == Exited ==> i != 0 && t'.exitCode.Some?
    requires t'.pending == None || t'.pending == Some(User1)
    ensures Inv(s.(tasks := s.tasks[i := t']))
    ensures Progress(s, s.(tasks := s.tasks[i := t']))
  {
    SameResourcesKeep(s, s.(tasks := s.tasks[i := t']));
  }

  lemma UnblockKeeps(s: State, i: nat)
    requires Inv(s)
    ensures Inv(Unblock(s, i)) && Progress(s, Unblock(s, i))
  {
    if i < |s.tasks| && s.tasks[i].status == Blocked {
      EditKeeps(s, i, s.tasks[i].(status := Ready, wakeTick := None));
    }
  }

  lemma WakeParentKeeps(s: State, parent: Option<nat>)
    requires Inv(s)
    ensures Inv(WakeParent(s, parent)) && Progress(s, WakeParent(s, parent))
  {
    if parent.Some? { UnblockKeeps(s, parent.value); }
  }

  lemma ProgressTrans(a: State, b: State, c: State)
    requires Progress(a, b) && Progress(b, c)
    ensures Progress(a, c)
  {
  }

  lemma EndKeeps(s: State, i: nat, t': Task)
    requires Inv(s) && 0 < i < |s.tasks| && s.tasks[i].status != Reaped
    requires var t := s.tasks[i];
      t' == t.(status := Exited, exitCode := t'.exitCode, wakeTick := t'.wakeTick) && t'.exitCode.Some?
    ensures var s' := WakeParent(s.(tasks := s.tasks[i := t']), s.tasks[i].parent); Inv(s') && Progress(s, s')
  {
    EditKeeps(s, i, t');
    var mid := s.(tasks := s.tasks[i := t']);
    WakeParentKeeps(mid, s.tasks[i].parent);
    ProgressTrans(s, mid, WakeParent(mid, s.tasks[i].parent));
  }

  lemma KillKeeps(s: State, i: nat, code: nat)
    requires Inv(s)
    ensures Inv(Kill(s, i, code).0) && Progress(s, Kill(s, i, code).0)
  {
    if Kill(s, i, code).1.Ok? { EndKeeps(s, i, Ended(s.tasks[i], code)); }
  }

  /** Finishing a kill keeps the invariant if and only if the target has not been reaped. */
  lemma FinishExact(s: State, i: nat, code: nat)
    requires Inv(s) && 0 < i < |s.tasks| && i != s.current
    ensures Inv(FinishKill(s, i, code)) <==> s.tasks[i].status != Reaped
    ensures s.tasks[i].status != Reaped ==> Progress(s, FinishKill(s, i, code))
  {
    if s.tasks[i].status != Reaped {
      EndKeeps(s, i, Ended(s.tasks[i], code));
    } else {
      var s' := FinishKill(s, i, code);
      assert StackOk(s, i) && !StackOk(s', i);
    }
  }

  lemma SignalKeeps(s: State, i: nat, sig: Signal)
    requires Inv(s) && Enabled(s, OpSignal(i, sig))
    ensures Inv(SendSignal(s, i, sig).0) && Progress(s, SendSignal(s, i, sig).0)
  {
    if i != 0 && ExitCode(sig).Some? {
      if i == s.current { EndKeeps(s, i, Ended(s.tasks[i], ExitCode(sig).value)); } else {
        KillKeeps(s, i, ExitCode(sig).value);
      }
    } else if SendSignal(s, i, sig).1.Ok? {
      EditKeeps(s, i, Signalled(s.tasks[i], sig));
    }
  }

  // ---- Spawning ------------------------------------------------------------------

  lemma PushStacks(s: State, t: Task)
    requires StatusOk(s) && StacksOk(s) && t.status == Ready && t.stack.Some? && t.pending == None
    ensures StatusOk(Push(s, t)) && StacksOk(Push(s, t)) && Progress(s, Push(s, t))
  {
    var s' := Push(s, t);
    var e := Started(|s.tasks|, t.stackPtr);
    TracePush(s.stacks, e);
    forall i: nat | i < |s'.tasks| ensures StackOk(s', i) {
      LastPtrPush(s.stacks, e, i);
      if i < |s.tasks| { assert StackOk(s, i); }
    }
  }

  lemma PushUse(tasks: seq<Task>, t: Task, p: Frame)
    ensures InUse(tasks + [t], p) == (InUse(tasks, p) || (t.pml4 == Some(p) && t.status != Reaped))
  {
    if InUse(tasks, p) {
      var i :| 0 <= i < |tasks| && tasks[i].pml4 == Some(p) && tasks[i].status != Reaped;
      assert (tasks + [t])[i] == tasks[i];
    }
    if t.pml4 == Some(p) && t.status != Reaped { assert (tasks + [t])[|tasks|] == t; }
  }

  /** A task in a new address space `p`, or in none. */
  lemma PushFresh(s: State, t: Task)
    requires FramesOk(s) && t.status == Ready && (t.pml4.Some? ==> Balance(s.frames, t.pml4.value) == 0)
    ensures var made := if t.pml4.Some? then s.(frames := s.frames + [Made(t.pml4.value)]) else s;
      FramesOk(Push(made, t))
  {
    var made := if t.pml4.Some? then s.(frames := s.frames + [Made(t.pml4.value)]) else s;
    if t.pml4.Some? { PairedPush(s.frames, Made(t.pml4.value)); }
    forall p: Frame ensures FrameMatches(Push(made, t), p) {
      assert FrameMatches(s, p);
      if t.pml4.Some? { BalancePush(s.frames, Made(t.pml4.value), p); }
      PushUse(s.tasks, t, p);
    }
  }

  /** A thread: the address space is in use already. */
  lemma PushShared(s: State, t: Task)
    requires FramesOk(s) && t.pml4.Some? && InUse(s.tasks, t.pml4.value) && t.status == Ready
    ensures FramesOk(Push(s, t))
  {
    forall p: Frame ensures FrameMatches(Push(s, t), p) { PushUse(s.tasks, t, p); assert FrameMatches(s, p); }
  }

  lemma MadeAndFreed(s: State, p: Frame)
    requires FramesOk(s) && Balance(s.frames, p) == 0
    ensures FramesOk(s.(frames := s.frames + [Made(p)] + [Freed(p)]))
  {
    var made := s.frames + [Made(p)];
    PairedPush(s.frames, Made(p));
    BalancePush(s.frames, Made(p), p);
    PairedPush(made, Freed(p));
    var s' := s.(frames := made + [Freed(p)]);
    forall q: Frame ensures FrameMatches(s', q) {
      assert FrameMatches(s, q);
      BalancePush(s.frames, Made(p), q);
      BalancePush(made, Freed(p), q);
    }
  }

  lemma SpawnUserKeeps(s: State, p: Frame, mem: Memory, fds: bool, cred: Option<Credentials>)
    requires Inv(s) && Balance(s.frames, p) == 0
    ensures var s' := SpawnUser(s, p, mem, fds, cred).0; Inv(s') && Progress(s, s')
  {
    var made := s.(frames := s.frames + [Made(p)]);
    if SpawnUser(s, p, mem, fds, cred).1 {
      var t := NewTask(s, mem.base, Some(p));
      var t' := if cred.Some? then t.(cred := cred.value) else t;
      forall i: nat | i < |made.tasks| ensures StackOk(made, i) { assert StackOk(s, i); }
      PushStacks(made, t');
      PushFresh(s, t');
    } else {
      MadeAndFreed(s, p);
      var s' := SpawnUser(s, p, mem, fds, cred).0;
      forall i: nat | i < |s'.tasks| ensures StackOk(s', i) { assert StackOk(s, i); }
    }
  }

  lemma SpawnBlockedKeeps(s: State, p: Frame, mem: Memory, fds: bool, cred: Option<Credentials>)
    requires Inv(s) && Balance(s.frames, p) == 0
    ensures var s' := SpawnBlocked(s, p, mem, fds, cred).0; Inv(s') && Progress(s, s')
  {
    SpawnUserKeeps(s, p, mem, fds, cred);
    var (mid, ok) := SpawnUser(s, p, mem, fds, cred);
    var n := |s.tasks|;
    if ok {
      EditKeeps(mid, n, mid.tasks[n].(status := Blocked));
      ProgressTrans(s, mid, SpawnBlocked(s, p, mem, fds, cred).0);
    }
  }

  lemma SpawnKernelKeeps(s: State, mem: Memory)
    requires Inv(s)
    ensures Inv(SpawnKernel(s, mem)) && Progress(s, SpawnKernel(s, mem))
  {
    if mem.ok {
      PushStacks(s, NewTask(s, mem.base, None));
      PushFresh(s, NewTask(s, mem.base, None));
    }
  }

  lemma SpawnThreadKeeps(s: State, mem: Memory, fds: bool)
    requires Inv(s)
    ensures Inv(SpawnThread(s, mem, fds).0) && Progress(s, SpawnThread(s, mem, fds).0)
  {
    if SpawnThread(s, mem, fds).1.Some? {
      var parent := s.tasks[s.current];
      var t := NewTask(s, mem.base, parent.pml4).(threadGroup := parent.threadGroup);
      PushStacks(s, t);
      assert InUse(s.tasks, parent.pml4.value);
      PushShared(s, t);
    }
  }

  // ---- Exec ----------------------------------------------------------------------

  lemma ExecUse(s: State, p: Frame, q: Frame)
    requires StatusOk(s) && !InUse(s.tasks, p)
    ensures var cur := s.tasks[s.current];
      InUse(Exec(s, p).tasks, q) ==
        (q == p || (if cur.pml4 == Some(q) then Shared(s.tasks, s.current, q) else InUse(s.tasks, q)))
  {
    var after := Exec(s, p).tasks;
    if InUse(after, q) {
      var i :| 0 <= i < |after| && after[i].pml4 == Some(q) && after[i].status != Reaped;
      assert i == s.current || s.tasks[i].pml4 == Some(q);
    }
    if InUse(s.tasks, q) {
      var i :| 0 <= i < |s.tasks| && s.tasks[i].pml4 == Some(q) && s.tasks[i].status != Reaped;
      assert i == s.current || after[i].pml4 == Some(q);
    }
    if Shared(s.tasks, s.current, q) {
      var i :| 0 <= i < |s.tasks| && i != s.current && s.tasks[i].pml4 == Some(q) && s.tasks[i].status != Reaped;
      assert after[i].pml4 == Some(q);
    }
    assert after[s.current].pml4 == Some(p);
  }

  lemma ExecBalance(s: State, p: Frame, q: Frame)
    requires StatusOk(s)
    ensures var was := s.tasks[s.current].pml4;
      Balance(Exec(s, p).frames, q) ==
      Balance(s.frames, q) + (if q == p then 1 else 0) - (if was == Some(q) then 1 else 0)
  {
    var was := s.tasks[s.current].pml4;
    var made := s.frames + [Made(p)];
    BalancePush(s.frames, Made(p), q);
    if was.Some? { BalancePush(made, Freed(was.value), q); } else { assert made + [] == made; }
  }

  /** Exec leaves exactly the used address spaces in existence if and only if no live sibling thread shares the old
      one. */
  lemma ExecExact(s: State, p: Frame)
    requires Inv(s) && Balance(s.frames, p) == 0
    ensures FramesMatch(Exec(s, p)) <==> Alone(s)
  {
    assert FrameMatches(s, p);
    forall q: Frame ensures FrameMatches(Exec(s, p), q) <==>
      (s.tasks[s.current].pml4 == Some(q) ==> !Shared(s.tasks, s.current, q)) {
      assert FrameMatches(s, q);
      ExecUse(s, p, q);
      ExecBalance(s, p, q);
    }
  }

  /** It can go wrong: a program that has started a thread frees the address space its thread still uses. */
  lemma ExecExample(cred: Credentials)
    ensures var mem := Memory(true, 0);
      var s := SpawnThread(Schedule(SpawnUser(Boot(cred), 7, mem, true, None).0, 0, 0).0, mem, true).0;
      Inv(s) && Balance(s.frames, 8) == 0 && !FramesMatch(Exec(s, 8))
  {
    var mem := Memory(true, 0);
    var s1 := SpawnUser(Boot(cred), 7, mem, true, None).0;
    var s2 := FirstProgram(cred, mem);
    var s3 := SpawnThread(s2, mem, true).0;
    SpawnThreadKeeps(s2, mem, true);
    assert ActiveFrom(s2.tasks, 2) == 0;
    assert s3.tasks[2].pml4 == Some(7) && s3.tasks[2].status == Ready;
    assert s3.frames == [Made(7)];
    ExecExact(s3, 8);
  }

  /** The first program runs. */
  lemma FirstProgram(cred: Credentials, mem: Memory) returns (s: State)
    requires mem == Memory(true, 0)
    ensures s == Schedule(SpawnUser(Boot(cred), 7, mem, true, None).0, 0, 0).0 && Inv(s) && s.frames == [Made(7)]
    ensures |s.tasks| == 2 && s.current == 1 && s.tasks[1].pml4 == Some(7) && s.tasks[1].status == Running
  {
    var s1 := SpawnUser(Boot(cred), 7, mem, true, None).0;
    BootOk(cred);
    SpawnUserKeeps(Boot(cred), 7, mem, true, None);
    assert s1.tasks == [Idle(cred), NewTask(Boot(cred), 0, Some(7))];
    s := Schedule(s1, 0, 0).0;
    assert Around(2, 0, 1) == 1 && Rested(s1, 0, 0)[1].status == Ready;
    StepKeeps(s1, OpSchedule(0, 0));
  }

  lemma ExecPaired(s: State, p: Frame)
    requires Inv(s) && Balance(s.frames, p) == 0
    ensures Paired(Exec(s, p).frames)
  {
    var was := s.tasks[s.current].pml4;
    var made := s.frames + [Made(p)];
    PairedPush(s.frames, Made(p));
    if was.Some? {
      assert FrameMatches(s, was.value) && InUse(s.tasks, was.value);
      BalancePush(s.frames, Made(p), was.value);
      PairedPush(made, Freed(was.value));
    } else {
      assert made + [] == made;
    }
  }

  lemma ExecKeeps(s: State, p: Frame)
    requires Inv(s) && Enabled(s, OpExec(p))
    ensures Inv(Exec(s, p)) && Progress(s, Exec(s, p))
  {
    ExecExact(s, p);
    ExecPaired(s, p);
    var s' := Exec(s, p);
    forall i: nat | i < |s'.tasks| ensures StackOk(s', i) { assert StackOk(s, i); }
  }

  // ---- Reaping -------------------------------------------------------------------

  lemma ReapUse(s: State, i: nat, p: Frame)
    requires i < |s.tasks| && s.tasks[i].status != Reaped
    ensures InUse(Reap(s, i).tasks, p) == (InUse(s.tasks, p) && !(s.tasks[i].pml4 == Some(p) && !Shared(s.tasks, i, p)))
  {
    var after := Reap(s, i).tasks;
    if InUse(after, p) {
      var j :| 0 <= j < |after| && after[j].pml4 == Some(p) && after[j].status != Reaped;
      assert s.tasks[j].pml4 == Some(p) && j != i;
    }
    if InUse(s.tasks, p) {
      var j :| 0 <= j < |s.tasks| && s.tasks[j].pml4 == Some(p) && s.tasks[j].status != Reaped;
      if j != i {
        assert after[j].pml4 == Some(p);
      } else if Shared(s.tasks, i, p) {
        var k :| 0 <= k < |s.tasks| && k != i && s.tasks[k].pml4 == Some(p) && s.tasks[k].status != Reaped;
        assert after[k].pml4 == Some(p);
      }
    }
  }

  lemma ReapFrames(s: State, i: nat)
    requires FramesOk(s) && i < |s.tasks| && i != s.current && s.tasks[i].status != Reaped
    ensures FramesOk(Reap(s, i))
  {
    var t := s.tasks[i];
    if t.pml4.Some? && !Shared(s.tasks, i, t.pml4.value) {
      assert FrameMatches(s, t.pml4.value) && InUse(s.tasks, t.pml4.value);
      PairedPush(s.frames, Freed(t.pml4.value));
    }
    forall p: Frame ensures FrameMatches(Reap(s, i), p) {
      assert FrameMatches(s, p);
      if t.pml4.Some? { BalancePush(s.frames, Freed(t.pml4.value), p); }
      ReapUse(s, i, p);
    }
  }

  lemma ReapStacks(s: State, i: nat)
    requires StacksOk(s) && 0 < i < |s.tasks| && i != s.current && s.tasks[i].status != Reaped
    ensures StacksOk(Reap(s, i))
  {
    var s' := Reap(s, i);
    assert StackOk(s, i);
    TracePush(s.stacks, Released(i));
    forall j: nat | j < |s'.tasks| ensures StackOk(s', j) {
      assert StackOk(s, j);
      LastPtrPush(s.stacks, Released(i), j);
    }
  }

  lemma ReapEnded(s: State, i: nat)
    requires Inv(s) && 0 < i < |s.tasks| && i != s.current && s.tasks[i].status != Reaped && s.tasks[i].exitCode.Some?
    ensures Inv(Reap(s, i)) && Progress(s, Reap(s, i))
  {
    ReapFrames(s, i);
    ReapStacks(s, i);
  }

  lemma WaitKeeps(s: State, parent: nat, i: nat)
    requires Inv(s) && !Halted(s.tasks[s.current])
    ensures Inv(WaitPid(s, parent, i).0) && Progress(s, WaitPid(s, parent, i).0)
  {
    if WaitPid(s, parent, i).1.Ok? { ReapEnded(s, i); }
  }

  /** One more task looked at, after some have been reaped. */
  lemma ReapNext(s: State, mid: State, parent: nat, k: nat)
    requires Inv(s) && !Halted(s.tasks[s.current]) && Inv(mid) && Progress(s, mid) && mid.current == s.current
    requires k < |s.tasks| && mid.tasks[k] == s.tasks[k]
    ensures var s' := if k != 0 && Reapable(mid.tasks[k], parent) then Reap(mid, k) else mid;
      Inv(s') && Progress(s, s') && s'.current == s.current
  {
    if k != 0 && Reapable(mid.tasks[k], parent) {
      ReapEnded(mid, k);
      ProgressTrans(s, mid, Reap(mid, k));
    }
  }

  lemma {:induction false} ReapBelowKeeps(s: State, parent: nat, k: nat)
    requires Inv(s) && !Halted(s.tasks[s.current]) && k <= |s.tasks|
    ensures var s' := ReapBelow(s, parent, k).0; Inv(s') && Progress(s, s') && s'.current == s.current
  {
    if k > 0 {
      ReapBelowKeeps(s, parent, k - 1);
      var mid := ReapBelow(s, parent, k - 1).0;
      ReapNext(s, mid, parent, k - 1);
      assert ReapBelow(s, parent, k).0 == if k - 1 != 0 && Reapable(mid.tasks[k - 1], parent)
        then Reap(mid, k - 1) else mid;
    }
  }

  lemma ReclaimKeeps(s: State, i: nat, code: nat)
    requires Inv(s)
    ensures Inv(Reclaim(s, i, code).0) && Progress(s, Reclaim(s, i, code).0)
  {
    if Reclaim(s, i, code).1.Ok? {
      var t := s.tasks[i];
      var ended := s.(tasks := s.tasks[i := t.(exitCode := Some(code), wakeTick := None)]);
      EditKeeps(s, i, t.(exitCode := Some(code), wakeTick := None));
      ReapEnded(ended, i);
      var reaped := Reap(ended, i);
      ProgressTrans(s, ended, reaped);
      WakeParentKeeps(reaped, t.parent);
      ProgressTrans(s, reaped, WakeParent(reaped, t.parent));
    }
  }

  // ---- Scheduling ----------------------------------------------------------------

  lemma RestedTask(s: State, rsp: nat, now: nat, i: nat)
    requires StatusOk(s) && i < |s.tasks|
    ensures var t, t' := s.tasks[i], Rested(s, rsp, now)[i];
      t' == t.(stackPtr := t'.stackPtr, status := t'.status, pending := None, wakeTick := t'.wakeTick) &&
      t'.stackPtr == (if i == s.current then rsp else t.stackPtr) &&
      t'.status != Running && (Halted(t) ==> t'.status == t.status) && (!Halted(t) ==> !Halted(t')) &&
      (t.status == Ready ==> t'.status == Ready)
  {
  }

  lemma ScheduleStatus(s: State, rsp: nat, now: nat)
    requires StatusOk(s)
    ensures StatusOk(Schedule(s, rsp, now).0) && Progress(s, Schedule(s, rsp, now).0)
  {
    var tasks := Rested(s, rsp, now);
    forall i: nat | i < |tasks| ensures TaskStep(s.tasks[i], tasks[i]) && tasks[i].status != Running &&
      (Halted(tasks[i]) ==> tasks[i].exitCode.Some?) && tasks[i].pending == None && (Halted(tasks[i]) ==> i != 0)
    {
      RestedTask(s, rsp, now, i);
    }
    var next := Search(tasks, s.current, 1);
    assert !Halted(tasks[next]);
  }

  lemma ScheduleFrames(s: State, rsp: nat, now: nat)
    requires StatusOk(s) && FramesOk(s)
    ensures FramesOk(Schedule(s, rsp, now).0)
  {
    var s' := Schedule(s, rsp, now).0;
    ScheduleStatus(s, rsp, now);
    forall i: nat | i < |s.tasks|
      ensures s'.tasks[i].pml4 == s.tasks[i].pml4 && (s'.tasks[i].status == Reaped <==> s.tasks[i].status == Reaped)
    {
      RestedTask(s, rsp, now, i);
    }
    forall p: Frame ensures FrameMatches(s', p) { SameUse(s.tasks, s'.tasks, p); assert FrameMatches(s, p); }
  }

  lemma ScheduleStacks(s: State, rsp: nat, now: nat)
    requires StatusOk(s) && StacksOk(s)
    ensures StacksOk(Schedule(s, rsp, now).0)
  {
    var (s', ptr) := Schedule(s, rsp, now);
    var tasks := Rested(s, rsp, now);
    var saved := s.stacks + [Saved(s.current, rsp)];
    assert StackOk(s, s.current);
    TracePush(s.stacks, Saved(s.current, rsp));
    forall i: nat | i < |tasks| ensures tasks[i].status != Reaped ==> LastPtr(saved, i) == Some(tasks[i].stackPtr) {
      RestedTask(s, rsp, now, i);
      LastPtrPush(s.stacks, Saved(s.current, rsp), i);
      assert StackOk(s, i);
    }
    RestedTask(s, rsp, now, s'.current);
    RestedTask(s, rsp, now, 0);
    assert StackOk(s, s'.current);
    TracePush(saved, Resumed(s'.current, ptr));
    forall i: nat | i < |s'.tasks| ensures StackOk(s', i) {
      RestedTask(s, rsp, now, i);
      LastPtrPush(saved, Resumed(s'.current, ptr), i);
      assert StackOk(s, i);
    }
  }

  // ---- Whole runs ----------------------------------------------------------------

  lemma StepKeeps(s: State, op: Op)
    requires Inv(s) && Enabled(s, op)
    ensures Inv(Step(s, op)) && Progress(s, Step(s, op))
  {
    match op
    case OpSpawnKernel(mem) => SpawnKernelKeeps(s, mem);
    case OpSpawnUser(p, mem, fds, cred) => SpawnUserKeeps(s, p, mem, fds, cred);
    case OpSpawnBlocked(p, mem, fds, cred) => SpawnBlockedKeeps(s, p, mem, fds, cred);
    case OpSpawnThread(mem, fds) => SpawnThreadKeeps(s, mem, fds);
    case OpExec(p) => ExecKeeps(s, p);
    case OpSchedule(rsp, now) => ScheduleStatus(s, rsp, now); ScheduleFrames(s, rsp, now); ScheduleStacks(s, rsp, now);
    case OpBlock(until) => EditKeeps(s, s.current, Block(s, until).tasks[s.current]);
    case OpUnblock(i) => UnblockKeeps(s, i);
    case OpExit(code) => EndKeeps(s, s.current, Ended(s.tasks[s.current], code));
    case OpFault(code) => EndKeeps(s, s.current, s.tasks[s.current].(status := Exited, exitCode := Some(code)));
    case OpKill(i, code) => KillKeeps(s, i, code);
    case OpFinishKill(i, code) => FinishExact(s, i, code);
    case OpSignal(i, sig) => SignalKeeps(s, i, sig);
    case OpWait(parent, i) => WaitKeeps(s, parent, i);
    case OpReapAll(parent) => ReapBelowKeeps(s, parent, |s.tasks|);
    case OpReclaim(i, code) => ReclaimKeeps(s, i, code);
  }

  /** Each step is taken when it is enabled. */
  ghost predicate Legal(s: State, ops: seq<Op>)
    decreases |ops|
  {
    ops == [] || (s.current < |s.tasks| && Enabled(s, ops[0]) && Legal(Step(s, ops[0]), ops[1..]))
  }

  ghost function After(s: State, ops: seq<Op>): State
    requires Legal(s, ops)
    decreases |ops|
  {
    if ops == [] then s else After(Step(s, ops[0]), ops[1..])
  }

  lemma {:induction false} RunKeeps(s: State, ops: seq<Op>)
    requires Inv(s) && Legal(s, ops)
    ensures Inv(After(s, ops)) && Progress(s, After(s, ops))
    decreases |ops|
  {
    if ops != [] {
      StepKeeps(s, ops[0]);
      var mid := Step(s, ops[0]);
      RunKeeps(mid, ops[1..]);
      ProgressTrans(s, mid, After(s, ops));
    }
  }

  /** From boot on, an address space is made only while it does not exist and freed only while it exists; it exists
      exactly as long as some task that is not reaped uses it; and the loaded one always exists. */
  lemma AddressSpaces(cred: Credentials, ops: seq<Op>)
    requires Legal(Boot(cred), ops)
    ensures var s := After(Boot(cred), ops);
      (forall k :: 0 <= k < |s.frames| ==>
        Balance(s.frames[..k], s.frames[k].frame) == if s.frames[k].Made? then 0 else 1) &&
      (forall p: Frame :: Balance(s.frames, p) == if InUse(s.tasks, p) then 1 else 0) &&
      (s.loaded.Some? ==> Balance(s.frames, s.loaded.value) == 1)
  {
    BootOk(cred);
    RunKeeps(Boot(cred), ops);
    var s := After(Boot(cred), ops);
    forall k | 0 <= k < |s.frames|
      ensures Balance(s.frames[..k], s.frames[k].frame) == if s.frames[k].Made? then 0 else 1
    {
      PairedAt(s.frames, k);
    }
    forall p: Frame ensures Balance(s.frames, p) == if InUse(s.tasks, p) then 1 else 0 { assert FrameMatches(s, p); }
    if s.loaded.Some? { assert InUse(s.tasks, s.loaded.value); }
  }

  /** From boot on, every task switched to gets the stack pointer it last saved, or that of its first context, and
      nothing happens on a stack once it is released; only the current task is ever Running. */
  lemma ResumedStacks(cred: Credentials, ops: seq<Op>)
    requires Legal(Boot(cred), ops)
    ensures var s := After(Boot(cred), ops);
      (forall k :: 0 <= k < |s.stacks| && s.stacks[k].Resumed? ==>
        LastPtr(s.stacks[..k], s.stacks[k].task) == Some(s.stacks[k].ptr)) &&
      (forall j, k :: 0 <= j < k < |s.stacks| && s.stacks[j].Released? ==> s.stacks[k].task != s.stacks[j].task) &&
      (forall i :: 0 <= i < |s.tasks| && s.tasks[i].status == Running ==> i == s.current)
  {
    BootOk(cred);
    RunKeeps(Boot(cred), ops);
    var s := After(Boot(cred), ops);
    forall k | 0 <= k < |s.stacks| ensures EventOk(s.stacks[..k], s.stacks[k]) { TraceAt(s.stacks, k); }
    forall j, k | 0 <= j < k < |s.stacks| && s.stacks[j].Released? ensures s.stacks[k].task != s.stacks[j].task {
      assert EventOk(s.stacks[..k], s.stacks[k]);
      assert s.stacks[..k][j] == s.stacks[j];
    }
  }

  lemma ReapBelowCodes(s: State, parent: nat)
    ensures CodesKept(s, ReapBelow(s, parent, |s.tasks|).0, None)
  {
    forall i: nat | i < |s.tasks|
      ensures ReapBelow(s, parent, |s.tasks|).0.tasks[i].exitCode == s.tasks[i].exitCode
    {
      ReapBelowExact(s, parent, |s.tasks|, i);
    }
  }

  lemma ScheduleCodes(s: State, rsp: nat, now: nat)
    requires StatusOk(s)
    ensures CodesKept(s, Schedule(s, rsp, now).0, None)
  {
    forall i: nat | i < |s.tasks| ensures Schedule(s, rsp, now).0.tasks[i].exitCode == s.tasks[i].exitCode {
      RestedTask(s, rsp, now, i);
    }
  }

  /** Only the end of a kill changes the exit code of a task that has ended. */
  lemma StepCodes(s: State, op: Op)
    requires Inv(s) && Enabled(s, op)
    ensures CodesKept(s, Step(s, op), Late(op))
  {
    match op
    case OpSchedule(rsp, now) => ScheduleCodes(s, rsp, now);
    case OpReapAll(parent) => ReapBelowCodes(s, parent);
    case OpReclaim(i, code) => ReclaimCodes(s, i, code);
    case OpKill(i, code) => KillCodes(s, i, code);
    case OpSignal(i, sig) => SignalCodes(s, i, sig);
    case OpSpawnKernel(_) =>
    case OpSpawnUser(p, mem, fds, cred) => SpawnCodes(s, p, mem, fds, cred);
    case OpSpawnBlocked(p, mem, fds, cred) => SpawnCodes(s, p, mem, fds, cred);
    case _ => EndCodes(s, op);
  }

  lemma SpawnCodes(s: State, p: Frame, mem: Memory, fds: bool, cred: Option<Credentials>)
    requires s.current < |s.tasks|
    ensures CodesKept(s, SpawnUser(s, p, mem, fds, cred).0, None)
    ensures CodesKept(s, SpawnBlocked(s, p, mem, fds, cred).0, None)
  {
  }

  lemma ReclaimCodes(s: State, i: nat, code: nat)
    ensures CodesKept(s, Reclaim(s, i, code).0, None)
  {
  }

  lemma KillCodes(s: State, i: nat, code: nat)
    ensures CodesKept(s, Kill(s, i, code).0, None)
  {
  }

  lemma SignalCodes(s: State, i: nat, sig: Signal)
    requires s.current < |s.tasks| && (ExitCode(sig).Some? && i == s.current ==> !Halted(s.tasks[s.current]))
    ensures CodesKept(s, SendSignal(s, i, sig).0, None)
  {
    if ExitCode(sig).Some? { KillCodes(s, i, ExitCode(sig).value); }
  }

  lemma EndCodes(s: State, op: Op)
    requires s.current < |s.tasks| && Enabled(s, op)
    requires op.OpSpawnThread? || op.OpExec? || op.OpBlock? || op.OpUnblock? || op.OpExit? || op.OpFault? ||
      op.OpFinishKill? || op.OpWait?
    ensures CodesKept(s, Step(s, op), Late(op))
  {
  }

  lemma {:induction false} RunCodes(s: State, ops: seq<Op>, i: nat)
    requires Inv(s) && Legal(s, ops) && i < |s.tasks| && Halted(s.tasks[i])
    requires forall op :: op in ops ==> Late(op) != Some(i)
    ensures i < |After(s, ops).tasks| && After(s, ops).tasks[i].exitCode == s.tasks[i].exitCode
    decreases |ops|
  {
    if ops != [] {
      StepKeeps(s, ops[0]);
      StepCodes(s, ops[0]);
      RunCodes(Step(s, ops[0]), ops[1..], i);
    }
  }

  lemma ExitedWith(s: State, code: nat)
    requires s.current < |s.tasks|
    ensures var s' := ExitCurrent(s, code);
      s.current < |s'.tasks| && s'.tasks[s.current].status == Exited && s'.tasks[s.current].exitCode == Some(code)
  {
  }

  /** Whatever happens after an exit but the end of a kill begun before, the wait that reaps the task returns the code
      it exited with. */
  lemma WaitReturnsExitCode(s: State, code: nat, ops: seq<Op>, parent: nat)
    requires Inv(s) && Legal(s, [OpExit(code)] + ops) && forall op :: op in ops ==> Late(op) != Some(s.current)
    ensures var wait := WaitPid(After(s, [OpExit(code)] + ops), parent, s.current).1; wait.Ok? ==> wait.value == code
  {
    var run := [OpExit(code)] + ops;
    assert run[0] == OpExit(code) && run[1..] == ops;
    StepKeeps(s, OpExit(code));
    var mid := Step(s, OpExit(code));
    ExitedWith(s, code);
    RunCodes(mid, ops, s.current);
    assert After(s, run) == After(mid, ops);
  }

  /** A task is reaped by at most one wait, whatever happens afterwards. */
  lemma WaitOnce(s: State, parent: nat, i: nat, ops: seq<Op>, again: nat)
    requires Inv(s) && Legal(s, [OpWait(parent, i)] + ops) && WaitPid(s, parent, i).1.Ok?
    ensures WaitPid(After(s, [OpWait(parent, i)] + ops), again, i).1.Err?
  {
    var run := [OpWait(parent, i)] + ops;
    assert run[0] == OpWait(parent, i) && run[1..] == ops;
    StepKeeps(s, OpWait(parent, i));
    var mid := WaitPid(s, parent, i).0;
    assert mid == Step(s, OpWait(parent, i)) && mid.tasks[i].status == Reaped;
    RunKeeps(mid, ops);
  }

  /** Were idle to end, schedule would run it again exactly when no other task is Ready: this is why idle must not. */
  lemma IdleRevived(s: State, rsp: nat, now: nat)
    requires s.current < |s.tasks| && s.tasks[0].status == Exited
    ensures Schedule(s, rsp, now).0.tasks[0].status == Running <==>
      forall i :: 0 <= i < |s.tasks| ==> Rested(s, rsp, now)[i].status != Ready
  {
    var tasks := Rested(s, rsp, now);
    assert tasks[0].status == Exited;
  }

  /** Reaping all exited children reaps exactly those, and counts them. */
  lemma {:induction false} ReapBelowExact(s: State, parent: nat, k: nat, i: nat)
    requires k <= |s.tasks| && i < |s.tasks|
    ensures var t := ReapBelow(s, parent, k).0.tasks[i];
      t.status == (if 0 < i < k && Reapable(s.tasks[i], parent) then Reaped else s.tasks[i].status) &&
        t.exitCode == s.tasks[i].exitCode
    ensures ReapBelow(s, parent, k).1 == |set j | 0 < j < k && Reapable(s.tasks[j], parent)|
  {
    if k > 0 {
      ReapBelowExact(s, parent, k - 1, i);
      ReapableMore(s.tasks, parent, k - 1);
    }
  }

  lemma ReapableMore(tasks: seq<Task>, parent: nat, k: nat)
    requires k < |tasks|
    ensures |set j | 0 < j < k + 1 && Reapable(tasks[j], parent)| ==
      |set j | 0 < j < k && Reapable(tasks[j], parent)| + if k != 0 && Reapable(tasks[k], parent) then 1 else 0
  {
    var fewer := set j | 0 < j < k && Reapable(tasks[j], parent);
    var all := set j | 0 < j < k + 1 && Reapable(tasks[j], parent);
    assert all == if k != 0 && Reapable(tasks[k], parent) then fewer + {k} else fewer;
  }
}
