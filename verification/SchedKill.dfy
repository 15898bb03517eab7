/** A kill takes the lock twice, to check its target and to end it: what may come between, and what goes wrong. */
module SchedKill {
  import opened Bytes
  import opened Sched
  import opened SchedSafety

  /** The step may reap task `i`. */
  predicate MayReap(op: Op, i: nat) {
    match op
    case OpWait(_, t) => t == i
    case OpReapAll(_) => true
    case OpReclaim(t, _) => t == i
    case _ => false
  }

  lemma StepUnreaped(s: State, op: Op, i: nat)
    requires Inv(s) && Enabled(s, op) && i < |s.tasks| && s.tasks[i].status != Reaped && !MayReap(op, i)
    ensures i < |Step(s, op).tasks| && Step(s, op).tasks[i].status != Reaped
  {
    match op
    case OpSchedule(rsp, now) => RestedTask(s, rsp, now, i);
    case OpKill(t, code) => KillUnreaped(s, t, code, i);
    case OpFinishKill(t, code) => FinishUnreaped(s, t, code, i);
    case OpSignal(t, sig) => SignalUnreaped(s, t, sig, i);
    case OpReclaim(t, code) => ReclaimUnreaped(s, t, code, i);
    case _ => OtherUnreaped(s, op, i);
  }

  lemma FinishUnreaped(s: State, t: nat, code: nat, i: nat)
    requires i < |s.tasks| && s.tasks[i].status != Reaped
    ensures var s' := FinishKill(s, t, code); i < |s'.tasks| && s'.tasks[i].status != Reaped
  {
  }

  lemma KillUnreaped(s: State, t: nat, code: nat, i: nat)
    requires i < |s.tasks| && s.tasks[i].status != Reaped
    ensures var s' := Kill(s, t, code).0; i < |s'.tasks| && s'.tasks[i].status != Reaped
  {
    FinishUnreaped(s, t, code, i);
  }

  lemma SignalUnreaped(s: State, t: nat, sig: Signal, i: nat)
    requires s.current < |s.tasks| && i < |s.tasks| && s.tasks[i].status != Reaped
    ensures var s' := SendSignal(s, t, sig).0; i < |s'.tasks| && s'.tasks[i].status != Reaped
  {
    if ExitCode(sig).Some? { KillUnreaped(s, t, ExitCode(sig).value, i); }
  }

  lemma ReclaimUnreaped(s: State, t: nat, code: nat, i: nat)
    requires i < |s.tasks| && s.tasks[i].status != Reaped && t != i
    ensures var s' := Reclaim(s, t, code).0; i < |s'.tasks| && s'.tasks[i].status != Reaped
  {
  }

  lemma OtherUnreaped(s: State, op: Op, i: nat)
    requires s.current < |s.tasks| && i < |s.tasks| && s.tasks[i].status != Reaped && !MayReap(op, i)
    requires !op.OpSchedule? && !op.OpKill? && !op.OpFinishKill? && !op.OpSignal? && !op.OpReapAll? && !op.OpReclaim?
    ensures i < |Step(s, op).tasks| && Step(s, op).tasks[i].status != Reaped
  {
  }

  lemma {:induction false} RunUnreaped(s: State, ops: seq<Op>, i: nat)
    requires Inv(s) && Legal(s, ops) && i < |s.tasks| && s.tasks[i].status != Reaped
    requires forall op :: op in ops ==> !MayReap(op, i)
    ensures i < |After(s, ops).tasks| && After(s, ops).tasks[i].status != Reaped
    decreases |ops|
  {
    if ops != [] {
      StepKeeps(s, ops[0]);
      StepUnreaped(s, ops[0], i);
      RunUnreaped(Step(s, ops[0]), ops[1..], i);
    }
  }

  /** Whatever happens between the check and the end of a kill, the invariant holds afterwards if and only if the target
      has not been reaped meanwhile; so it does if no step between them reaps it. */
  lemma KillAcross(s: State, i: nat, code: nat, ops: seq<Op>)
    requires Inv(s) && KillCheck(s, i).Ok? && Legal(s, ops) && After(s, ops).current == s.current
    ensures i < |After(s, ops).tasks|
    ensures Inv(FinishKill(After(s, ops), i, code)) <==> After(s, ops).tasks[i].status != Reaped
    ensures (forall op :: op in ops ==> !MayReap(op, i)) ==> Inv(FinishKill(After(s, ops), i, code))
  {
    RunKeeps(s, ops);
    FinishExact(After(s, ops), i, code);
    if forall op :: op in ops ==> !MayReap(op, i) { RunUnreaped(s, ops, i); }
  }

  /** A target that exited meanwhile loses its exit code to that of the kill. */
  lemma CodeOverwritten(s: State, i: nat, code: nat)
    requires Inv(s) && 0 < i < |s.tasks| && i != s.current && s.tasks[i].status == Exited
    ensures WaitPid(FinishKill(s, i, code), 0, i).1 == Ok(code)
  {
  }

  /** A target that was reaped meanwhile is waited for a second time, and its address space, if it was left with one and
      nobody else uses it, is freed although it no longer exists. */
  lemma ReapedTwice(s: State, i: nat, code: nat)
    requires Inv(s) && 0 < i < |s.tasks| && i != s.current && s.tasks[i].status == Reaped
    ensures WaitPid(FinishKill(s, i, code), 0, i).1 == Ok(code)
    ensures forall p: Frame :: s.tasks[i].pml4 == Some(p) && !InUse(s.tasks, p) ==>
      Balance(WaitPid(FinishKill(s, i, code), 0, i).0.frames, p) == -1
  {
    var s' := FinishKill(s, i, code);
    assert s'.tasks[i] == Ended(s.tasks[i], code);
    forall p: Frame | s.tasks[i].pml4 == Some(p) && !InUse(s.tasks, p)
      ensures Balance(Reap(s', i).frames, p) == -1
    {
      assert FrameMatches(s, p);
      NotShared(s, s', i, p);
      BalancePush(s.frames, Freed(p), p);
    }
  }

  lemma NotShared(s: State, s': State, i: nat, p: Frame)
    requires |s'.tasks| == |s.tasks| && !InUse(s.tasks, p)
    requires forall j :: 0 <= j < |s.tasks| && j != i ==>
      s'.tasks[j].pml4 == s.tasks[j].pml4 && (s'.tasks[j].status == Reaped <==> s.tasks[j].status == Reaped)
    ensures !Shared(s'.tasks, i, p)
  {
  }

  // ---- It does happen ----------------------------------------------------------

  /** What the example follows of a task. */
  datatype Brief = Brief(status: Status, pml4: Option<Frame>)

  ghost function Briefs(s: State): (r: seq<Brief>)
    ensures |r| == |s.tasks| && forall i :: 0 <= i < |r| ==> r[i] == Brief(s.tasks[i].status, s.tasks[i].pml4)
  {
    seq(|s.tasks|, i requires 0 <= i < |s.tasks| => Brief(s.tasks[i].status, s.tasks[i].pml4))
  }

  /** The run from boot has come to `s`; no task sleeps or has a signal pending, and all belong to one user. */
  ghost predicate At(cred: Credentials, ops: seq<Op>, s: State) {
    Legal(Boot(cred), ops) && After(Boot(cred), ops) == s && Inv(s) && Calm(cred, s)
  }

  ghost predicate Calm(cred: Credentials, s: State) {
    forall i :: 0 <= i < |s.tasks| ==>
      s.tasks[i].pending == None && s.tasks[i].wakeTick == None && s.tasks[i].cred == cred
  }

  lemma {:induction false} LegalMore(s: State, ops: seq<Op>, op: Op)
    requires Inv(s) && Legal(s, ops) && After(s, ops).current < |After(s, ops).tasks| && Enabled(After(s, ops), op)
    ensures Legal(s, ops + [op]) && After(s, ops + [op]) == Step(After(s, ops), op)
    decreases |ops|
  {
    var all := ops + [op];
    if ops == [] {
      assert all[0] == op && all[1..] == [];
    } else {
      assert all[0] == ops[0] && all[1..] == ops[1..] + [op];
      StepKeeps(s, ops[0]);
      LegalMore(Step(s, ops[0]), ops[1..], op);
    }
  }

  lemma Extend(cred: Credentials, ops: seq<Op>, s: State, op: Op)
    requires At(cred, ops, s) && Enabled(s, op) && Calm(cred, Step(s, op))
    ensures At(cred, ops + [op], Step(s, op))
  {
    BootOk(cred);
    LegalMore(Boot(cred), ops, op);
    StepKeeps(s, op);
  }

  /** A switch to the next task, which is Ready. */
  lemma Turn(cred: Credentials, ops: seq<Op>, s: State) returns (s': State)
    requires At(cred, ops, s) && var next := Around(|s.tasks|, s.current, 1); s.tasks[next].status == Ready
    ensures At(cred, ops + [OpSchedule(0, 0)], s') && s'.frames == s.frames
    ensures var next, cur := Around(|s.tasks|, s.current, 1), Briefs(s)[s.current];
      var left := if cur.status == Running then cur.(status := Ready) else cur;
      s'.current == next && Briefs(s') == Briefs(s)[s.current := left][next := Briefs(s)[next].(status := Running)]
  {
    s' := Schedule(s, 0, 0).0;
    var next, tasks := Around(|s.tasks|, s.current, 1), Rested(s, 0, 0);
    assert tasks[next].status == Ready;
    assert Search(tasks, s.current, 1) == next;
    Extend(cred, ops, s, OpSchedule(0, 0));
  }

  /** The current task exits; its parent is not waiting. */
  lemma Leave(cred: Credentials, ops: seq<Op>, s: State, code: nat) returns (s': State)
    requires At(cred, ops, s) && s.current != 0 && s.tasks[s.current].status == Running
    requires forall i :: 0 <= i < |s.tasks| ==> s.tasks[i].status != Blocked
    ensures At(cred, ops + [OpExit(code)], s') && s'.frames == s.frames && s'.current == s.current
    ensures Briefs(s') == Briefs(s)[s.current := Briefs(s)[s.current].(status := Exited)]
  {
    s' := ExitCurrent(s, code);
    Extend(cred, ops, s, OpExit(code));
  }

  /** Idle waits for a task that has exited. */
  lemma Collect(cred: Credentials, ops: seq<Op>, s: State, i: nat) returns (s': State)
    requires At(cred, ops, s) && s.current == 0 && 0 < i < |s.tasks| && s.tasks[i].status == Exited
    ensures At(cred, ops + [OpWait(0, i)], s') && s'.current == 0
    ensures var b := Briefs(s)[i];
      var last := b.pml4.Some? && !Shared(s.tasks, i, b.pml4.value);
      Briefs(s') == Briefs(s)[i := Brief(Reaped, if last then None else b.pml4)]
  {
    s' := WaitPid(s, 0, i).0;
    Extend(cred, ops, s, OpWait(0, i));
  }

  const ROOM: Memory := Memory(true, 0)

  /** A kernel task, a program and its thread, which are tasks 1, 2 and 3; task 1 runs. */
  lemma Started3(cred: Credentials) returns (ops: seq<Op>, s: State)
    ensures At(cred, ops, s) && s.current == 1
    ensures Briefs(s) == [Brief(Ready, None), Brief(Running, None), Brief(Ready, Some(7)), Brief(Ready, Some(7))]
  {
    s, ops := Boot(cred), [];
    BootOk(cred);
    Extend(cred, ops, s, OpSpawnKernel(ROOM));
    ops, s := ops + [OpSpawnKernel(ROOM)], SpawnKernel(s, ROOM);
    assert Briefs(s) == [Brief(Running, None), Brief(Ready, None)];
    ops, s := ProgramAdded(cred, ops, s);
    ops, s := ThreadStarted(cred, ops, s);
    s := Turn(cred, ops, s);
    ops := ops + [OpSchedule(0, 0)];
    s := Turn(cred, ops, s);
    ops := ops + [OpSchedule(0, 0)];
    s := Turn(cred, ops, s);
    ops := ops + [OpSchedule(0, 0)];
  }

  lemma ThreadStarted(cred: Credentials, ops: seq<Op>, s: State) returns (ops': seq<Op>, s': State)
    requires At(cred, ops, s) && s.current == 0
    requires Briefs(s) == [Brief(Running, None), Brief(Ready, None), Brief(Ready, Some(7))]
    ensures At(cred, ops', s') && s'.current == 2
    ensures Briefs(s') == [Brief(Ready, None), Brief(Ready, None), Brief(Running, Some(7)), Brief(Ready, Some(7))]
  {
    s' := Turn(cred, ops, s);
    ops' := ops + [OpSchedule(0, 0)];
    s' := Turn(cred, ops', s');
    ops' := ops' + [OpSchedule(0, 0)];
    ops', s' := ThreadAdded(cred, ops', s');
  }

  lemma ProgramAdded(cred: Credentials, ops: seq<Op>, s: State) returns (ops': seq<Op>, s': State)
    requires At(cred, ops, s) && s.frames == [] && s.current == 0
    requires Briefs(s) == [Brief(Running, None), Brief(Ready, None)]
    ensures At(cred, ops', s') && s'.current == 0
    ensures Briefs(s') == [Brief(Running, None), Brief(Ready, None), Brief(Ready, Some(7))]
  {
    var op := OpSpawnUser(7, ROOM, true, None);
    s' := UserSpawned(cred, s);
    Extend(cred, ops, s, op);
    ops' := ops + [op];
  }

  lemma {:induction false} ActiveBound(tasks: seq<Task>, i: nat)
    requires i <= |tasks|
    ensures ActiveFrom(tasks, i) <= |tasks| - i
    decreases |tasks| - i
  {
    if i < |tasks| { ActiveBound(tasks, i + 1); }
  }

  lemma UserSpawned(cred: Credentials, s: State) returns (s': State)
    requires s.current < |s.tasks| < MAX_ACTIVE_TASKS && Calm(cred, s)
    ensures s' == Step(s, OpSpawnUser(7, ROOM, true, None)) && Calm(cred, s') && s'.current == s.current
    ensures Briefs(s') == Briefs(s) + [Brief(Ready, Some(7))]
  {
    ActiveBound(s.tasks, 1);
    s' := SpawnUser(s, 7, ROOM, true, None).0;
    assert s'.tasks == s.tasks + [NewTask(s, 0, Some(7))];
  }

  lemma ThreadSpawned(cred: Credentials, s: State) returns (s': State)
    requires s.current < |s.tasks| < MAX_ACTIVE_TASKS && Calm(cred, s) && s.tasks[s.current].pml4 == Some(7)
    ensures s' == Step(s, OpSpawnThread(ROOM, true)) && Calm(cred, s') && s'.current == s.current
    ensures Briefs(s') == Briefs(s) + [Brief(Ready, Some(7))]
  {
    ActiveBound(s.tasks, 1);
    s' := SpawnThread(s, ROOM, true).0;
    var t := NewTask(s, 0, Some(7)).(threadGroup := s.tasks[s.current].threadGroup);
    assert s'.tasks == s.tasks + [t];
  }

  lemma ThreadAdded(cred: Credentials, ops: seq<Op>, s: State) returns (ops': seq<Op>, s': State)
    requires At(cred, ops, s) && s.current == 2
    requires Briefs(s) == [Brief(Ready, None), Brief(Ready, None), Brief(Running, Some(7))]
    ensures At(cred, ops', s') && s'.current == 2
    ensures Briefs(s') == Briefs(s) + [Brief(Ready, Some(7))]
  {
    var op := OpSpawnThread(ROOM, true);
    assert Briefs(s)[2].pml4 == Some(7);
    s' := ThreadSpawned(cred, s);
    Extend(cred, ops, s, op);
    ops' := ops + [op];
  }

  /** A run from boot in which task 1 finds that it may kill task 3; then the program and its thread exit and are waited
      for, and task 1 runs again: the thread was reaped, and left with an address space that was freed.  If task 1 now
      finishes its kill, the next wait frees that address space a second time. */
  lemma ReapedBetween(cred: Credentials) returns (ops: seq<Op>, ops': seq<Op>, s: State, s': State)
    ensures At(cred, ops, s) && KillCheck(s, 3).Ok? && At(cred, ops', s') && ops <= ops' && s'.current == s.current == 1
    ensures |s'.tasks| == 4 && s'.tasks[3].status == Reaped && Balance(s'.frames, 7) == 0
    ensures Balance(WaitPid(FinishKill(s', 3, 9), 0, 3).0.frames, 7) == -1
  {
    ops, s := Started3(cred);
    assert Briefs(s)[3].status == Ready;
    ops', s' := BothGone(cred, ops, s);
    var b := Briefs(s');
    assert b[0].pml4 == None && b[1].pml4 == None && b[2].pml4 == None && b[3] == Brief(Reaped, Some(7));
    assert !InUse(s'.tasks, 7) && FrameMatches(s', 7);
    ReapedTwice(s', 3, 9);
  }

  lemma BothGone(cred: Credentials, ops: seq<Op>, s: State) returns (ops': seq<Op>, s': State)
    requires At(cred, ops, s) && s.current == 1
    requires Briefs(s) == [Brief(Ready, None), Brief(Running, None), Brief(Ready, Some(7)), Brief(Ready, Some(7))]
    ensures At(cred, ops', s') && ops <= ops' && s'.current == 1
    ensures Briefs(s') == [Brief(Ready, None), Brief(Running, None), Brief(Reaped, None), Brief(Reaped, Some(7))]
  {
    ops', s' := BothExited(cred, ops, s);
    ops', s' := BothCollected(cred, ops', s');
    s' := Turn(cred, ops', s');
    ops' := ops' + [OpSchedule(0, 0)];
  }

  lemma BothExited(cred: Credentials, ops: seq<Op>, s: State) returns (ops': seq<Op>, s': State)
    requires At(cred, ops, s) && s.current == 1
    requires Briefs(s) == [Brief(Ready, None), Brief(Running, None), Brief(Ready, Some(7)), Brief(Ready, Some(7))]
    ensures At(cred, ops', s') && ops <= ops' && s'.current == 0
    ensures Briefs(s') == [Brief(Running, None), Brief(Ready, None), Brief(Exited, Some(7)), Brief(Exited, Some(7))]
  {
    s' := Turn(cred, ops, s);
    ops' := ops + [OpSchedule(0, 0)];
    s' := Leave(cred, ops', s', 6);
    ops' := ops' + [OpExit(6)];
    s' := Turn(cred, ops', s');
    ops' := ops' + [OpSchedule(0, 0)];
    s' := Leave(cred, ops', s', 5);
    ops' := ops' + [OpExit(5)];
    s' := Turn(cred, ops', s');
    ops' := ops' + [OpSchedule(0, 0)];
  }

  lemma BothCollected(cred: Credentials, ops: seq<Op>, s: State) returns (ops': seq<Op>, s': State)
    requires At(cred, ops, s) && s.current == 0
    requires Briefs(s) == [Brief(Running, None), Brief(Ready, None), Brief(Exited, Some(7)), Brief(Exited, Some(7))]
    ensures At(cred, ops', s') && ops <= ops' && s'.current == 0
    ensures Briefs(s') == [Brief(Running, None), Brief(Ready, None), Brief(Reaped, None), Brief(Reaped, Some(7))]
  {
    assert Briefs(s)[2] == Brief(Exited, Some(7)) && Briefs(s)[3] == Brief(Exited, Some(7));
    assert Shared(s.tasks, 3, 7);
    var mid := Collect(cred, ops, s, 3);
    ops' := ops + [OpWait(0, 3)];
    var b := Briefs(mid);
    assert b == [Brief(Running, None), Brief(Ready, None), Brief(Exited, Some(7)), Brief(Reaped, Some(7))];
    assert b[0].pml4 == None && b[1].pml4 == None && b[2].status == Exited && b[3].status == Reaped;
    assert !Shared(mid.tasks, 2, 7);
    s' := Collect(cred, ops', mid, 2);
    ops' := ops' + [OpWait(0, 2)];
  }
}
