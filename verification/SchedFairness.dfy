/** Round robin is fair: a task left Ready is switched to after at most as many schedule calls as there are other
    tasks. */
module SchedFairness {
  import opened Sched
  import opened SchedSafety

  /** The choice of the next task is determined. */
  lemma NextUnique(tasks: seq<Task>, cur: nat, a: nat, b: nat)
    requires cur < |tasks| && IsNext(tasks, cur, a) && IsNext(tasks, cur, b)
    ensures a == b
  {
    var n := |tasks|;
    var ka, kb := Distance(n, cur, a), Distance(n, cur, b);
    assert tasks[Around(n, cur, ka)] == tasks[a] && tasks[Around(n, cur, kb)] == tasks[b];
  }

  /** One schedule call either switches to the Ready task `i` or comes strictly closer to it. */
  lemma Closer(s: State, rsp: nat, now: nat, i: nat)
    requires Inv(s) && i < |s.tasks| && i != s.current && s.tasks[i].status == Ready
    ensures var s' := Schedule(s, rsp, now).0;
      |s'.tasks| == |s.tasks| && s'.current < |s.tasks| &&
      (s'.current == i ||
       (s'.tasks[i].status == Ready && Distance(|s.tasks|, s'.current, i) < Distance(|s.tasks|, s.current, i)))
  {
    var tasks := Rested(s, rsp, now);
    var n := |tasks|;
    var next := Search(tasks, s.current, 1);
    RestedTask(s, rsp, now, i);
    var k := Distance(n, s.current, i);
    assert tasks[Around(n, s.current, k)].status == Ready;
    assert Distance(n, s.current, next) <= k;
  }

  /** The step does not end, stop or reclaim `i`. */
  predicate Undisturbed(op: Op, i: nat) {
    match op
    case OpKill(t, _) => t != i
    case OpFinishKill(t, _) => t != i
    case OpReclaim(t, _) => t != i
    case OpSignal(t, sig) => t != i || sig == User1 || sig == Continue
    case _ => true
  }

  predicate Spawns(op: Op) { op.OpSpawnKernel? || op.OpSpawnUser? || op.OpSpawnBlocked? || op.OpSpawnThread? }

  lemma {:induction false} ReapLeaves(s: State, parent: nat, k: nat)
    requires k <= |s.tasks|
    ensures var s' := ReapBelow(s, parent, k).0; s'.current == s.current && |s'.tasks| == |s.tasks|
  {
    if k > 0 { ReapLeaves(s, parent, k - 1); }
  }

  lemma SpawnStaysReady(s: State, op: Op, i: nat)
    requires s.current < |s.tasks| && Spawns(op) && i < |s.tasks|
    ensures var s' := Step(s, op);
      |s.tasks| <= |s'.tasks| <= |s.tasks| + 1 && s'.current == s.current && s'.tasks[i].status == s.tasks[i].status
  {
  }

  lemma EndStaysReady(s: State, op: Op, i: nat)
    requires s.current < |s.tasks| && (op.OpKill? || op.OpFinishKill? || op.OpSignal?) && Undisturbed(op, i)
    requires i < |s.tasks| && i != s.current && s.tasks[i].status == Ready
    ensures var s' := Step(s, op); |s'.tasks| == |s.tasks| && s'.current == s.current && s'.tasks[i].status == Ready
  {
  }

  lemma StaysReady(s: State, op: Op, i: nat)
    requires Inv(s) && Enabled(s, op) && Undisturbed(op, i) && !op.OpSchedule?
    requires i < |s.tasks| && i != s.current && s.tasks[i].status == Ready
    ensures var s' := Step(s, op);
      |s.tasks| <= |s'.tasks| <= |s.tasks| + (if Spawns(op) then 1 else 0) && s'.current == s.current &&
        s'.tasks[i].status == Ready
  {
    if Spawns(op) {
      SpawnStaysReady(s, op, i);
    } else if op.OpKill? || op.OpFinishKill? || op.OpSignal? {
      EndStaysReady(s, op, i);
    } else if op.OpReapAll? {
      ReapLeaves(s, op.parent, |s.tasks|);
      ReapBelowExact(s, op.parent, |s.tasks|, i);
    }
  }

  ghost function Schedules(ops: seq<Op>): nat {
    if ops == [] then 0 else (if ops[0].OpSchedule? then 1 else 0) + Schedules(ops[1..])
  }

  ghost function Spawned(ops: seq<Op>): nat {
    if ops == [] then 0 else (if Spawns(ops[0]) then 1 else 0) + Spawned(ops[1..])
  }

  /** The task is current after some first part of the run. */
  ghost predicate SwitchedTo(s: State, ops: seq<Op>, i: nat)
    requires Legal(s, ops)
    decreases |ops|
  {
    s.current == i || (ops != [] && SwitchedTo(Step(s, ops[0]), ops[1..], i))
  }

  lemma {:induction false} SwitchedWithin(s: State, ops: seq<Op>, i: nat)
    requires Inv(s) && Legal(s, ops) && (forall op :: op in ops ==> Undisturbed(op, i))
    requires i < |s.tasks| && i != s.current && s.tasks[i].status == Ready
    requires Schedules(ops) >= Distance(|s.tasks|, s.current, i) + Spawned(ops)
    ensures SwitchedTo(s, ops, i)
    decreases |ops|
  {
    var op, s' := ops[0], Step(s, ops[0]);
    StepKeeps(s, op);
    if op.OpSchedule? { Closer(s, op.rsp, op.now, i); } else { StaysReady(s, op, i); }
    if s'.current != i { SwitchedWithin(s', ops[1..], i); }
  }

  /** A task left Ready is switched to within one schedule call for each other task, those added meanwhile included. */
  lemma Fair(s: State, ops: seq<Op>, i: nat)
    requires Inv(s) && Legal(s, ops) && (forall op :: op in ops ==> Undisturbed(op, i))
    requires i < |s.tasks| && i != s.current && s.tasks[i].status == Ready
    requires Schedules(ops) >= |s.tasks| - 1 + Spawned(ops)
    ensures SwitchedTo(s, ops, i)
  {
    SwitchedWithin(s, ops, i);
  }
}
