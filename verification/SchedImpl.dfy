/** The scheduler object, updated in place; each method leaves the state the function of the same name computes. */
module SchedImpl {
  import opened Bytes
  import opened Sched
  import opened SchedSafety
  import Fairness = SchedFairness

  lemma NextRound(n: nat, cur: nat, k: nat)
    requires cur < n && k < n
    ensures (Around(n, cur, k) + 1) % n == Around(n, cur, k + 1)
  {
  }

  class Scheduler {
    var tasks: seq<Task>
    var current: nat
    var loaded: Option<Frame>
    ghost var stacks: seq<StackEvent>
    ghost var frames: seq<FrameEvent>

    ghost function Now(): State
      reads this
    {
      State(tasks, current, loaded, stacks, frames)
    }

    constructor (cred: Credentials)
      ensures Now() == Boot(cred)
    {
      tasks := [Idle(cred)];
      current := 0;
      loaded := None;
      stacks := [];
      frames := [];
    }

    method ActiveTaskCount() returns (count: nat)
      ensures count == Active(tasks)
    {
      count := 0;
      var i := |tasks|;
      while i > 1
        invariant 0 <= i <= |tasks| && (|tasks| >= 1 ==> i >= 1)
        invariant count == if i >= 1 then ActiveFrom(tasks, i) else ActiveFrom(tasks, 1)
      {
        i := i - 1;
        if tasks[i].status != Reaped { count := count + 1; }
      }
    }

    /** Pushes a new task; the caller has checked the limit on tasks. */
    method SpawnContext(mem: Memory, pml4: Option<Frame>) returns (id: Option<nat>)
      requires current < |tasks|
      modifies this
      ensures id == if mem.ok then Some(|old(tasks)|) else None
      ensures Now() == if mem.ok then Push(old(Now()), NewTask(old(Now()), mem.base, pml4)) else old(Now())
    {
      if !mem.ok { return None; }
      var top := mem.base + STACK_SIZE - (mem.base + STACK_SIZE) % 16;
      var ptr := top - CONTEXT_BYTES;
      var parent := tasks[current];
      var t := Task(Some(mem.base), top, ptr, Ready, None, Some(current), parent.group, None, None, parent.cred, 0,
        pml4);
      tasks := tasks + [t];
      id := Some(|tasks| - 1);
      tasks := tasks[|tasks| - 1 := t.(threadGroup := |tasks| - 1)];
      stacks := stacks + [Started(|tasks| - 1, ptr)];
    }

    method SpawnUser(p: Frame, mem: Memory, fds: bool, cred: Option<Credentials>) returns (ok: bool)
      requires current < |tasks|
      modifies this
      ensures (Now(), ok) == Sched.SpawnUser(old(Now()), p, mem, fds, cred)
    {
      ghost var s := Now();
      frames := frames + [Made(p)];
      var count := ActiveTaskCount();
      if count >= MAX_ACTIVE_TASKS {
        frames := frames + [Freed(p)];
        return false;
      }
      var id := SpawnContext(mem, Some(p));
      if id.None? {
        frames := frames + [Freed(p)];
        return false;
      }
      if cred.Some? { tasks := tasks[id.value := tasks[id.value].(cred := cred.value)]; }
      if fds {
        ghost var t := NewTask(s, mem.base, Some(p));
        assert tasks == s.tasks + [if cred.Some? then t.(cred := cred.value) else t];
        return true;
      }
      tasks := tasks[..|tasks| - 1];
      stacks := stacks[..|stacks| - 1];
      assert tasks == s.tasks && stacks == s.stacks;
      frames := frames + [Freed(p)];
      return false;
    }

    /** Spawns a program's task and blocks it before the lock is given back. */
    method SpawnBlocked(p: Frame, mem: Memory, fds: bool, cred: Option<Credentials>) returns (id: Option<nat>)
      requires current < |tasks|
      modifies this
      ensures (Now(), id) == Sched.SpawnBlocked(old(Now()), p, mem, fds, cred)
    {
      var before := |tasks|;
      var ok := SpawnUser(p, mem, fds, cred);
      if !ok { return None; }
      if before < |tasks| { tasks := tasks[before := tasks[before].(status := Blocked)]; }
      return Some(before);
    }

    method SpawnThread(mem: Memory, fds: bool) returns (id: Option<nat>)
      requires current < |tasks|
      modifies this
      ensures (Now(), id) == Sched.SpawnThread(old(Now()), mem, fds)
    {
      ghost var s := Now();
      var count := ActiveTaskCount();
      var parent := tasks[current];
      if count >= MAX_ACTIVE_TASKS || parent.pml4.None? { return None; }
      id := SpawnContext(mem, parent.pml4);
      if id.None? { return None; }
      tasks := tasks[id.value := tasks[id.value].(threadGroup := parent.threadGroup)];
      if fds {
        assert tasks == s.tasks + [NewTask(s, mem.base, parent.pml4).(threadGroup := parent.threadGroup)];
        return;
      }
      tasks := tasks[..|tasks| - 1];
      stacks := stacks[..|stacks| - 1];
      assert tasks == s.tasks && stacks == s.stacks;
      return None;
    }

    method Exec(p: Frame)
      requires current < |tasks|
      modifies this
      ensures Now() == Sched.Exec(old(Now()), p)
    {
      var before := tasks[current].pml4;
      tasks := tasks[current := tasks[current].(pml4 := Some(p))];
      frames := frames + [Made(p)];
      loaded := Some(p);
      if before.Some? {
        frames := frames + [Freed(before.value)];
      } else {
        assert frames == frames + [];
      }
    }

    method WakeSleepers(now: nat)
      modifies this`tasks
      ensures tasks == Wake(old(tasks), now)
    {
      var i := 0;
      while i < |tasks|
        invariant 0 <= i <= |tasks| == |old(tasks)|
        invariant forall j :: 0 <= j < i ==> tasks[j] == WakeOne(j, old(tasks)[j], now)
        invariant forall j :: i <= j < |tasks| ==> tasks[j] == old(tasks)[j]
      {
        var t := tasks[i];
        if t.status == Blocked && t.wakeTick.Some? && now >= t.wakeTick.value {
          t := t.(wakeTick := None, status := Ready);
        }
        if t.pending.Some? {
          var sig := t.pending.value;
          t := t.(pending := None);
          match sig {
            case User1 =>
              t := t.(wakeTick := None);
              if t.status == Blocked { t := t.(status := Ready); }
            case Stop =>
              if i != 0 && t.status != Exited && t.status != Reaped { t := t.(status := Stopped, wakeTick := None); }
            case Continue =>
              if t.status == Stopped { t := t.(status := Ready); }
            case _ =>
          }
        }
        tasks := tasks[i := t];
        i := i + 1;
      }
    }

    method FindNext() returns (next: nat)
      requires current < |tasks|
      ensures IsNext(tasks, current, next)
    {
      var n := |tasks|;
      NextRound(n, current, 0);
      next := (current + 1) % n;
      var k := 1;
      while k <= n
        invariant 1 <= k <= n + 1
        invariant k <= n ==> next == Around(n, current, k)
        invariant forall j :: 1 <= j < k ==> tasks[Around(n, current, j)].status != Ready
      {
        if tasks[next].status == Ready { return; }
        if k < n { NextRound(n, current, k); }
        next := (next + 1) % n;
        k := k + 1;
      }
      forall i | 0 <= i < n ensures tasks[i].status != Ready {
        assert tasks[Around(n, current, Distance(n, current, i))] == tasks[i];
      }
      next := 0;
    }

    /** With no task at all the interrupted stack goes on. */
    method Schedule(rsp: nat, now: nat) returns (ptr: nat)
      requires tasks == [] || current < |tasks|
      modifies this
      ensures old(tasks) == [] ==> Now() == old(Now()) && ptr == rsp
      ensures old(tasks) != [] ==> (Now(), ptr) == Sched.Schedule(old(Now()), rsp, now)
    {
      if |tasks| == 0 { return rsp; }
      ghost var s := Now();
      tasks := tasks[current := tasks[current].(stackPtr := rsp)];
      if tasks[current].status == Running { tasks := tasks[current := tasks[current].(status := Ready)]; }
      stacks := stacks + [Saved(current, rsp)];
      assert tasks == s.tasks[s.current := Save(s.tasks[s.current], rsp)];
      WakeSleepers(now);
      var next := FindNext();
      Fairness.NextUnique(tasks, current, next, Search(tasks, current, 1));
      tasks := tasks[next := tasks[next].(status := Running)];
      current := next;
      loaded := tasks[next].pml4;
      stacks := stacks + [Resumed(next, tasks[next].stackPtr)];
      return tasks[next].stackPtr;
    }

    method BlockCurrent(until: Option<nat>)
      requires current < |tasks|
      modifies this`tasks
      ensures Now() == Block(old(Now()), until)
    {
      var t := tasks[current].(status := Blocked);
      if until.Some? { t := t.(wakeTick := until); }
      tasks := tasks[current := t];
    }

    method Unblock(i: nat)
      modifies this`tasks
      ensures Now() == Sched.Unblock(old(Now()), i)
    {
      if i < |tasks| {
        if tasks[i].status == Blocked { tasks := tasks[i := tasks[i].(wakeTick := None, status := Ready)]; }
      }
    }

    method WakeWaitingParent(parent: Option<nat>)
      modifies this`tasks
      ensures Now() == WakeParent(old(Now()), parent)
    {
      if parent.Some? { Unblock(parent.value); }
    }

    method ExitCurrent(code: nat)
      requires current < |tasks|
      modifies this`tasks
      ensures Now() == Sched.ExitCurrent(old(Now()), code)
    {
      var t := tasks[current];
      tasks := tasks[current := t.(status := Exited, exitCode := Some(code), wakeTick := None)];
      WakeWaitingParent(t.parent);
    }

    method FaultCurrent(code: nat)
      requires current < |tasks|
      modifies this`tasks
      ensures Now() == Sched.FaultCurrent(old(Now()), code)
    {
      var t := tasks[current];
      tasks := tasks[current := t.(status := Exited, exitCode := Some(code))];
      WakeWaitingParent(t.parent);
    }

    method CanControlTask(actor: nat, target: nat) returns (ok: bool)
      ensures ok == CanControl(Now(), actor, target)
    {
      if actor == target { return true; }
      if actor >= |tasks| || target >= |tasks| { return false; }
      var a, t := tasks[actor], tasks[target];
      return a.cred.uid == 0 || a.cred.admin || t.parent == Some(actor) || a.cred.uid == t.cred.uid;
    }

    method KillTask(i: nat, code: nat) returns (r: Result<(), KillError>)
      modifies this`tasks
      ensures (Now(), r) == Kill(old(Now()), i, code)
    {
      r := CheckKill(i);
      if r.Err? { return; }
      FinishKill(i, code);
    }

    /** The first lock section. */
    method CheckKill(i: nat) returns (r: Result<(), KillError>)
      ensures r == KillCheck(Now(), i)
    {
      if i == 0 { return Err(CannotKillIdle); }
      if i == current { return Err(CannotKillCurrent); }
      if i >= |tasks| { return Err(InvalidTask); }
      var allowed := CanControlTask(current, i);
      if !allowed { return Err(PermissionDenied); }
      if tasks[i].status == Exited { return Err(AlreadyExited); }
      if tasks[i].status == Reaped { return Err(AlreadyReaped); }
      return Ok(());
    }

    /** The second lock section. */
    method FinishKill(i: nat, code: nat)
      modifies this`tasks
      ensures Now() == Sched.FinishKill(old(Now()), i, code)
    {
      if i >= |tasks| { return; }
      var t := tasks[i];
      tasks := tasks[i := t.(status := Exited, exitCode := Some(code), wakeTick := None)];
      WakeWaitingParent(t.parent);
    }

    method SendSignal(i: nat, sig: Signal) returns (r: Result<(), KillError>)
      requires current < |tasks|
      modifies this`tasks
      ensures (Now(), r) == Sched.SendSignal(old(Now()), i, sig)
    {
      if i == 0 { return Err(CannotKillIdle); }
      var code := ExitCode(sig);
      if code.Some? {
        if i == current {
          ExitCurrent(code.value);
          return Ok(());
        }
        r := KillTask(i, code.value);
        return;
      }
      if i >= |tasks| { return Err(InvalidTask); }
      var allowed := CanControlTask(current, i);
      if !allowed { return Err(PermissionDenied); }
      var t := tasks[i];
      if t.status == Exited { return Err(AlreadyExited); }
      if t.status == Reaped { return Err(AlreadyReaped); }
      match sig {
        case User1 =>
          t := t.(pending := Some(sig));
          if t.status == Blocked { t := t.(wakeTick := None, status := Ready); }
        case Stop =>
          t := t.(pending := None, wakeTick := None, status := Stopped);
        case Continue =>
          t := t.(pending := None);
          if t.status == Stopped { t := t.(status := Ready); }
        case _ =>
      }
      tasks := tasks[i := t];
      return Ok(());
    }

    /** Takes the address space of a task just marked reaped, unless a live task still shares it. */
    method TakeReapPml4(i: nat) returns (freed: Option<Frame>)
      requires i < |tasks|
      modifies this`tasks
      ensures var t := old(tasks[i]);
        freed == (if t.pml4.Some? && !Shared(old(tasks), i, t.pml4.value) then t.pml4 else None) &&
        tasks == old(tasks)[i := t.(pml4 := if freed.Some? then None else t.pml4)]
    {
      var p := tasks[i].pml4;
      if p.None? { return None; }
      var j := 0;
      while j < |tasks|
        invariant 0 <= j <= |tasks| && tasks == old(tasks)
        invariant forall k :: 0 <= k < j && k != i ==> !(tasks[k].pml4 == p && tasks[k].status != Reaped)
      {
        if j != i && tasks[j].pml4 == p && tasks[j].status != Reaped {
          assert tasks == tasks[i := tasks[i].(pml4 := p)];
          return None;
        }
        j := j + 1;
      }
      tasks := tasks[i := tasks[i].(pml4 := None)];
      return p;
    }

    /** Marks a task reaped, releases its stack and takes its address space if it was the last to use it. */
    method ReapTask(i: nat) returns (freed: Option<Frame>)
      requires i < |tasks|
      modifies this`tasks, this`stacks
      ensures var s := old(Now());
        Now() == Reap(s, i).(frames := s.frames) &&
        Reap(s, i).frames == if freed.Some? then s.frames + [Freed(freed.value)] else s.frames
    {
      var t := tasks[i];
      if t.stack.Some? { stacks := stacks + [Released(i)]; }
      tasks := tasks[i := t.(status := Reaped, stack := None, stackPtr := 0, syscallTop := 0)];
      if t.pml4.Some? { SharedByOthers(old(tasks), i, tasks[i], t.pml4.value); }
      freed := TakeReapPml4(i);
    }

    method WaitPid(parent: nat, i: nat) returns (r: Result<nat, WaitError>)
      modifies this
      ensures (Now(), r) == Sched.WaitPid(old(Now()), parent, i)
    {
      if i == 0 || i >= |tasks| { return Err(NoSuchTask); }
      var t := tasks[i];
      if t.parent != Some(parent) && parent != 0 { return Err(NotChild); }
      if t.status == Exited {
        var code := if t.exitCode.Some? then t.exitCode.value else 0;
        var freed := ReapTask(i);
        if freed.Some? { frames := frames + [Freed(freed.value)]; }
        return Ok(code);
      }
      if t.status == Reaped { return Err(WasReaped); }
      return Err(NotExited);
    }

    /** The address spaces are collected first and freed once every child is reaped. */
    method ReapAllExited(parent: nat) returns (count: nat)
      modifies this
      ensures (Now(), count) == ReapBelow(old(Now()), parent, |old(tasks)|)
    {
      ghost var s := Now();
      var toFree: seq<Frame> := [];
      assert s.frames + FreedAll(toFree) == s.frames;
      count := 0;
      var i := 0;
      while i < |tasks|
        invariant 0 <= i <= |tasks| == |s.tasks|
        invariant frames == s.frames
        invariant (Now().(frames := s.frames + FreedAll(toFree)), count) == ReapBelow(s, parent, i)
      {
        if i != 0 && tasks[i].status == Exited && (tasks[i].parent == Some(parent) || parent == 0) {
          ghost var before := Now();
          var freed := ReapTask(i);
          ReapCollects(before, i, s.frames, toFree, freed);
          if freed.Some? { toFree := toFree + [freed.value]; }
          count := count + 1;
        }
        i := i + 1;
      }
      frames := frames + FreedAll(toFree);
    }

    method ForceReclaim(i: nat, code: nat) returns (r: Result<(), KillError>)
      modifies this
      ensures (Now(), r) == Reclaim(old(Now()), i, code)
    {
      if i == 0 { return Err(CannotKillIdle); }
      if i == current { return Err(CannotKillCurrent); }
      if i >= |tasks| { return Err(InvalidTask); }
      var t := tasks[i];
      if t.status == Exited { return Err(AlreadyExited); }
      if t.status == Reaped { return Err(AlreadyReaped); }
      tasks := tasks[i := t.(exitCode := Some(code), wakeTick := None)];
      var freed := ReapTask(i);
      WakeWaitingParent(t.parent);
      if freed.Some? { frames := frames + [Freed(freed.value)]; }
      return Ok(());
    }

    /** Any step taken when it is enabled keeps the invariant of the task table. */
    method Perform(op: Op)
      requires Inv(Now()) && Enabled(Now(), op)
      modifies this
      ensures Now() == Step(old(Now()), op) && Inv(Now()) && Progress(old(Now()), Now())
    {
      StepKeeps(Now(), op);
      match op {
        case OpSpawnKernel(mem) => var id := SpawnContext(mem, None);
        case OpSpawnUser(p, mem, fds, cred) => var ok := SpawnUser(p, mem, fds, cred);
        case OpSpawnBlocked(p, mem, fds, cred) => var id := SpawnBlocked(p, mem, fds, cred);
        case OpSpawnThread(mem, fds) => var id := SpawnThread(mem, fds);
        case OpExec(p) => Exec(p);
        case OpSchedule(rsp, now) => var ptr := Schedule(rsp, now);
        case OpBlock(until) => BlockCurrent(until);
        case OpUnblock(i) => Unblock(i);
        case OpExit(code) => ExitCurrent(code);
        case OpFault(code) => FaultCurrent(code);
        case OpKill(i, code) => var r := KillTask(i, code);
        case OpFinishKill(i, code) => FinishKill(i, code);
        case OpSignal(i, sig) => var r := SendSignal(i, sig);
        case OpWait(parent, i) => var r := WaitPid(parent, i);
        case OpReapAll(parent) => var count := ReapAllExited(parent);
        case OpReclaim(i, code) => var r := ForceReclaim(i, code);
      }
    }

    /** From boot on: every run of enabled steps ends in the state the steps compute, with the invariant. */
    method Run(ops: seq<Op>, ghost cred: Credentials)
      requires Now() == Boot(cred) && Legal(Boot(cred), ops)
      modifies this
      ensures Now() == After(Boot(cred), ops) && Inv(Now())
    {
      BootOk(cred);
      ghost var start := Boot(cred);
      for k := 0 to |ops|
        invariant Inv(Now()) && Legal(Now(), ops[k..]) && After(Now(), ops[k..]) == After(start, ops)
      {
        assert ops[k..][0] == ops[k] && ops[k..][1..] == ops[k + 1..];
        Perform(ops[k]);
      }
    }
  }

  ghost function FreedAll(ps: seq<Frame>): seq<FrameEvent> { seq(|ps|, i requires 0 <= i < |ps| => Freed(ps[i])) }

  lemma SharedByOthers(tasks: seq<Task>, i: nat, t: Task, p: Frame)
    requires i < |tasks|
    ensures Shared(tasks[i := t], i, p) == Shared(tasks, i, p)
  {
    if Shared(tasks, i, p) {
      var j :| 0 <= j < |tasks| && j != i && tasks[j].pml4 == Some(p) && tasks[j].status != Reaped;
      assert tasks[i := t][j] == tasks[j];
    }
  }

  /** Freeing after the collected address spaces is freeing at once. */
  lemma ReapCollects(s: State, i: nat, frames: seq<FrameEvent>, toFree: seq<Frame>, freed: Option<Frame>)
    requires i < |s.tasks| && Reap(s, i).frames == if freed.Some? then s.frames + [Freed(freed.value)] else s.frames
    ensures var more := if freed.Some? then toFree + [freed.value] else toFree;
      Reap(s.(frames := frames + FreedAll(toFree)), i) == Reap(s, i).(frames := frames + FreedAll(more))
  {
    var t := s.tasks[i];
    var last := t.pml4.Some? && !Shared(s.tasks, i, t.pml4.value);
    assert |Reap(s, i).frames| == |s.frames| + (if last then 1 else 0);
    assert freed.Some? == last;
    if last {
      assert Reap(s, i).frames[|s.frames|] == Freed(t.pml4.value);
      assert FreedAll(toFree + [freed.value]) == FreedAll(toFree) + [Freed(freed.value)];
      Assoc(frames, FreedAll(toFree), [Freed(freed.value)]);
    }
  }
}
