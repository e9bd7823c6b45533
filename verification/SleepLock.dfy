/**
  The sleep lock and the sleep/wakeup channel under it, as interleaved steps: one
  program counter per process and one step per spin-lock operation or group of
  updates made under a spin lock. The guard is taken before qlock; qlock is
  handed to the scheduler by a process that sleeps and comes back with the
  process the scheduler switches to.
 */
module SleepLock {
  import opened SeqUtil
  import opened Channel

  datatype Pc =
    | Outside     // before acquire_sleeplock, or after release_sleeplock
    | Test        // guard held: while (lk->locked)
    | SleepTake   // sleep: acquire qlock
    | SleepDrop   // sleep: release the guard
    | SleepLink   // sleep: guard released, not yet on the channel queue
    | SleepSwitch // sleep: on the queue, about to call sched
    | SleepBack   // sleep: after sched; reacquire the guard
    | Claim       // guard held: locked = 1, pid = me
    | Unguard     // release the guard with the lock claimed
    | Critical    // between acquire_sleeplock and release_sleeplock
    | Clear       // release_sleeplock, guard held: locked = 0, pid = 0
    | WakeTake    // wakeup_all: acquire qlock
    | WakeLoop    // wakeup_all: dequeue one process, or leave the loop
    | WakeDrop    // wakeup_all: release qlock
    | Finish      // release the guard

  datatype State = State(
    pc: seq<Pc>,
    mode: seq<Mode>,
    guard: Holder,
    qlock: Holder,
    locked: bool,
    pid: Option<Pid>,       // the pid field, None when cleared
    queue: seq<Pid>)        // the channel queue, head first

  datatype Action =
    | Run(p: Pid)           // the next step of a process on a CPU
    | Preempt(p: Pid)       // a clock interrupt makes it yield
    | SchedTake             // fos_scheduler acquires qlock
    | SchedDrop             // fos_scheduler found nothing and releases it
    | Switch(p: Pid)        // fos_scheduler switches to a ready process

  predicate Init(s: State) {
    && |s.mode| == |s.pc|
    && (forall i :: 0 <= i < |s.pc| ==> s.pc[i] == Outside && s.mode[i] == OnCpu)
    && s.guard == Nobody && s.qlock == Nobody && !s.locked && s.pid == None && s.queue == []
  }

  // ---------- Steps ----------

  predicate WantsGuard(pc: Pc) { pc == Outside || pc == SleepBack || pc == Critical }

  predicate WantsQlock(pc: Pc) { pc == SleepTake || pc == WakeTake }

  predicate Enabled(s: State, a: Action) {
    |s.mode| == |s.pc| &&
    match a
    case Run(p) =>
      p < |s.pc| && (s.mode[p] == Resumed ||
        (s.mode[p] == OnCpu && (WantsGuard(s.pc[p]) ==> s.guard == Nobody)
                            && (WantsQlock(s.pc[p]) ==> s.qlock == Nobody)))
    // a process that holds no spin lock has interrupts on
    case Preempt(p) => p < |s.pc| && s.mode[p] == OnCpu && WantsGuard(s.pc[p]) && s.qlock == Nobody
    case SchedTake => s.qlock == Nobody
    case SchedDrop => s.qlock == Sched
    case Switch(p) => p < |s.pc| && s.qlock == Sched && s.mode[p] == Parked
  }

  function Goto(s: State, p: Pid, pc: Pc): State
    requires p < |s.pc|
  {
    s.(pc := s.pc[p := pc])
  }

  function RunStep(s: State, p: Pid): State
    requires Enabled(s, Run(p))
  {
    if s.mode[p] == Resumed then s.(mode := s.mode[p := OnCpu], qlock := Nobody)
    else
      match s.pc[p]
      case Outside => Goto(s, p, Test).(guard := Proc(p))
      case Test => Goto(s, p, if s.locked then SleepTake else Claim)
      case SleepTake => Goto(s, p, SleepDrop).(qlock := Proc(p))
      case SleepDrop => Goto(s, p, SleepLink).(guard := Nobody)
      case SleepLink => Goto(s, p, SleepSwitch).(queue := [p] + s.queue)
      case SleepSwitch => Goto(s, p, SleepBack).(mode := s.mode[p := Blocked], qlock := Sched)
      case SleepBack => Goto(s, p, Test).(guard := Proc(p))
      case Claim => Goto(s, p, Unguard).(locked := true, pid := Some(p))
      case Unguard => Goto(s, p, Critical).(guard := Nobody)
      case Critical => Goto(s, p, Clear).(guard := Proc(p))
      case Clear => Goto(s, p, WakeTake).(locked := false, pid := None)
      case WakeTake => Goto(s, p, WakeLoop).(qlock := Proc(p))
      case WakeLoop =>
        if s.queue == [] then Goto(s, p, WakeDrop)
        else s.(queue := s.queue[..|s.queue| - 1], mode := Woken(s.mode, s.queue))
      case WakeDrop => Goto(s, p, Finish).(qlock := Nobody)
      case Finish => Goto(s, p, Outside).(guard := Nobody)
  }

  function Next(s: State, a: Action): State
    requires Enabled(s, a)
  {
    match a
    case Run(p) => RunStep(s, p)
    case Preempt(p) => s.(mode := s.mode[p := Parked], qlock := Sched)
    case SchedTake => s.(qlock := Sched)
    case SchedDrop => s.(qlock := Nobody)
    case Switch(p) => s.(mode := s.mode[p := Resumed], qlock := Proc(p))
  }

  predicate Legal(s: State, run: seq<Action>)
    decreases |run|
  {
    run == [] || (Enabled(s, run[0]) && Legal(Next(s, run[0]), run[1..]))
  }

  function Exec(s: State, run: seq<Action>): State
    requires Legal(s, run)
    decreases |run|
  {
    if run == [] then s else Exec(Next(s, run[0]), run[1..])
  }

  // ---------- Invariant ----------

  predicate HasGuard(pc: Pc) {
    pc == Test || pc == SleepTake || pc == SleepDrop || pc == Claim || pc == Unguard || pc == Clear
    || pc == WakeTake || pc == WakeLoop || pc == WakeDrop || pc == Finish
  }

  predicate HasQlock(pc: Pc) {
    pc == SleepDrop || pc == SleepLink || pc == SleepSwitch || pc == WakeLoop || pc == WakeDrop
  }

  /** From claiming the lock to clearing it. */
  predicate Owns(pc: Pc) { pc == Unguard || pc == Critical || pc == Clear }

  /** From clearing the lock to releasing the guard. */
  predicate Releasing(pc: Pc) { pc == WakeTake || pc == WakeLoop || pc == WakeDrop || pc == Finish }

  /** The holder of the guard is about to empty the channel queue. */
  ghost predicate Draining(s: State) {
    s.guard.Proc? && s.guard.p < |s.pc| && (s.pc[s.guard.p] == WakeTake || s.pc[s.guard.p] == WakeLoop)
  }

  ghost predicate ProcessOk(s: State, p: Pid)
    requires p < |s.pc| == |s.mode|
  {
    var pc, mode := s.pc[p], s.mode[p];
    && (HasGuard(pc) <==> s.guard == Proc(p))
    && (HasQlock(pc) || mode == Resumed <==> s.qlock == Proc(p))
    && (mode != OnCpu ==> WantsGuard(pc))
    && (mode == Blocked ==> pc == SleepBack)
    && (mode == Blocked || pc == SleepSwitch <==> p in s.queue)
    && (Owns(pc) <==> s.pid == Some(p))
    && (pc == SleepTake || pc == SleepDrop ==> s.locked)
    && (pc == Claim || Releasing(pc) ==> !s.locked)
    && (pc == SleepLink ==> s.locked || Draining(s))
  }

  ghost predicate Inv(s: State) {
    && |s.mode| == |s.pc|
    && (forall p: Pid :: p < |s.pc| ==> ProcessOk(s, p))
    && s.guard != Sched
    && (s.guard.Proc? ==> s.guard.p < |s.pc|)
    && (s.qlock.Proc? ==> s.qlock.p < |s.pc|)
    && NoDup(s.queue) && (forall p :: p in s.queue ==> p < |s.pc|)
    && (s.locked <==> s.pid.Some?) && (s.pid.Some? ==> s.pid.value < |s.pc|)
    && (s.queue != [] ==> s.locked || Draining(s))
  }

  lemma EnterKeepsInv(s: State, p: Pid)
    requires Inv(s) && Enabled(s, Run(p))
    requires s.mode[p] == Resumed || s.pc[p] in {Outside, Test, Claim, Unguard}
    ensures Inv(RunStep(s, p))
  {
    var t := RunStep(s, p);
    assert ProcessOk(s, p);
    forall x: Pid | x < |s.pc|
      ensures ProcessOk(t, x)
    {
      assert ProcessOk(s, x);
    }
  }

  lemma FallAsleepKeepsInv(s: State, p: Pid)
    requires Inv(s) && Enabled(s, Run(p))
    requires s.mode[p] == OnCpu && s.pc[p] in {SleepTake, SleepDrop, SleepBack}
    ensures Inv(RunStep(s, p))
  {
    var t := RunStep(s, p);
    assert ProcessOk(s, p);
    forall x: Pid | x < |s.pc|
      ensures ProcessOk(t, x)
    {
      assert ProcessOk(s, x);
    }
  }

  lemma BlockKeepsInv(s: State, p: Pid)
    requires Inv(s) && Enabled(s, Run(p))
    requires s.mode[p] == OnCpu && s.pc[p] in {SleepLink, SleepSwitch}
    ensures Inv(RunStep(s, p))
  {
    var t := RunStep(s, p);
    assert ProcessOk(s, p);
    forall x: Pid | x < |s.pc|
      ensures ProcessOk(t, x)
    {
      assert ProcessOk(s, x);
    }
  }

  lemma ClearKeepsInv(s: State, p: Pid)
    requires Inv(s) && Enabled(s, Run(p))
    requires s.mode[p] == OnCpu && s.pc[p] in {Critical, Clear}
    ensures Inv(RunStep(s, p))
  {
    var t := RunStep(s, p);
    assert ProcessOk(s, p);
    forall x: Pid | x < |s.pc|
      ensures ProcessOk(t, x)
    {
      assert ProcessOk(s, x);
    }
  }

  lemma QlockKeepsInv(s: State, p: Pid)
    requires Inv(s) && Enabled(s, Run(p))
    requires s.mode[p] == OnCpu && s.pc[p] in {WakeTake, WakeDrop}
    ensures Inv(RunStep(s, p))
  {
    var t := RunStep(s, p);
    assert ProcessOk(s, p);
    forall x: Pid | x < |s.pc|
      ensures ProcessOk(t, x)
    {
      assert ProcessOk(s, x);
    }
  }

  lemma FinishKeepsInv(s: State, p: Pid)
    requires Inv(s) && Enabled(s, Run(p))
    requires s.mode[p] == OnCpu && s.pc[p] == Finish
    ensures Inv(RunStep(s, p))
  {
    var t := RunStep(s, p);
    assert ProcessOk(s, p);
    assert s.guard == Proc(p) && !Draining(s);
    assert t == s.(pc := s.pc[p := Outside], guard := Nobody);
    forall x: Pid | x < |s.pc|
      ensures ProcessOk(t, x)
    {
      FinishOthers(s, t, p, x);
    }
  }

  /** Releasing the guard at the end of a release changes nothing for anybody else. */
  lemma FinishOthers(s: State, t: State, p: Pid, x: Pid)
    requires |s.pc| == |s.mode| && p < |s.pc| && x < |s.pc| && ProcessOk(s, p) && ProcessOk(s, x)
    requires s.mode[p] == OnCpu && s.pc[p] == Finish && s.guard == Proc(p) && !Draining(s)
    requires t == s.(pc := s.pc[p := Outside], guard := Nobody)
    ensures ProcessOk(t, x)
  {
    assert x == p || t.pc[x] == s.pc[x];
  }

  lemma WakeKeepsInv(s: State, p: Pid)
    requires Inv(s) && Enabled(s, Run(p))
    requires s.mode[p] == OnCpu && s.pc[p] == WakeLoop
    ensures Inv(RunStep(s, p))
  {
    var t := RunStep(s, p);
    assert ProcessOk(s, p);
    if s.queue != [] {
      var w := s.queue[|s.queue| - 1];
      assert w in s.queue && ProcessOk(s, w);
      assert forall x :: x in t.queue <==> x in s.queue && x != w;
    }
    forall x: Pid | x < |s.pc|
      ensures ProcessOk(t, x)
    {
      assert ProcessOk(s, x);
    }
  }

  lemma NextKeepsInv(s: State, a: Action)
    requires Inv(s) && Enabled(s, a)
    ensures Inv(Next(s, a))
  {
    match a
    case Run(p) =>
      if s.mode[p] == Resumed || s.pc[p] in {Outside, Test, Claim, Unguard} {
        EnterKeepsInv(s, p);
      } else if s.pc[p] == WakeLoop {
        WakeKeepsInv(s, p);
      } else if s.pc[p] in {SleepTake, SleepDrop, SleepBack} {
        FallAsleepKeepsInv(s, p);
      } else if s.pc[p] in {SleepLink, SleepSwitch} {
        BlockKeepsInv(s, p);
      } else if s.pc[p] in {Critical, Clear} {
        ClearKeepsInv(s, p);
      } else if s.pc[p] in {WakeTake, WakeDrop} {
        QlockKeepsInv(s, p);
      } else {
        FinishKeepsInv(s, p);
      }
    case _ =>
      var t := Next(s, a);
      forall x: Pid | x < |s.pc|
        ensures ProcessOk(t, x)
      {
        assert ProcessOk(s, x);
      }
  }

  lemma {:induction false} RunsKeepInv(s: State, run: seq<Action>)
    requires Inv(s) && Legal(s, run)
    ensures Inv(Exec(s, run))
    decreases |run|
  {
    if run != [] {
      NextKeepsInv(s, run[0]);
      RunsKeepInv(Next(s, run[0]), run[1..]);
    }
  }

  // ---------- Main results, for every run from the initial state ----------

  /** At most one process is between acquire and release, and the lock records which. */
  lemma MutualExclusion(s: State, run: seq<Action>, a: Pid, b: Pid)
    requires Init(s) && Legal(s, run)
    requires var r := Exec(s, run); a < |r.pc| && b < |r.pc| && Owns(r.pc[a]) && Owns(r.pc[b])
    ensures a == b && Exec(s, run).locked && Exec(s, run).pid == Some(a)
  {
    RunsKeepInv(s, run);
    var r := Exec(s, run);
    assert ProcessOk(r, a) && ProcessOk(r, b);
  }

  /** Guard free and lock free: nobody sleeps, and nobody is in the gap before the queue. */
  lemma NoLostWakeup(s: State, run: seq<Action>)
    requires Init(s) && Legal(s, run)
    requires Exec(s, run).guard == Nobody && !Exec(s, run).locked
    ensures var r := Exec(s, run);
      && r.queue == []
      && |r.mode| == |r.pc|
      && forall p :: 0 <= p < |r.pc| ==>
           r.mode[p] != Blocked && r.pc[p] != SleepDrop && r.pc[p] != SleepLink && r.pc[p] != SleepSwitch
  {
    RunsKeepInv(s, run);
    var r := Exec(s, run);
    forall p: Pid | p < |r.pc|
      ensures r.mode[p] != Blocked && r.pc[p] != SleepDrop && r.pc[p] != SleepLink && r.pc[p] != SleepSwitch
    {
      assert ProcessOk(r, p);
    }
  }

  /** A sleeper always has somebody who will wake it: the lock's owner, or a releaser at work. */
  lemma SleeperHasWaker(s: State, run: seq<Action>, p: Pid) returns (w: Pid)
    requires Init(s) && Legal(s, run)
    requires p in Exec(s, run).queue
    ensures var r := Exec(s, run);
      w < |r.pc| && (Owns(r.pc[w]) || r.pc[w] == WakeTake || r.pc[w] == WakeLoop)
  {
    RunsKeepInv(s, run);
    var r := Exec(s, run);
    if r.locked {
      w := r.pid.value;
      assert ProcessOk(r, w);
    } else {
      w := r.guard.p;
    }
  }

  /** A step that is not the start of a fresh acquire and not idling of the scheduler. */
  ghost predicate Productive(s: State, a: Action)
    requires Enabled(s, a)
  {
    match a
    case Run(p) => s.pc[p] != Outside || s.mode[p] == Resumed
    case Preempt(_) => false
    case SchedTake => exists x :: 0 <= x < |s.mode| && s.mode[x] == Parked
    case SchedDrop => forall x :: 0 <= x < |s.mode| ==> s.mode[x] != Parked
    case Switch(_) => true
  }

  lemma ProgressWithQlockFree(s: State, p: Pid) returns (a: Action)
    requires Inv(s) && s.qlock == Nobody && p < |s.pc| && s.pc[p] != Outside
    ensures Enabled(s, a) && Productive(s, a)
  {
    if x :| 0 <= x < |s.mode| && s.mode[x] == Parked {
      return SchedTake;
    }
    forall x: Pid | x < |s.pc|
      ensures s.mode[x] == OnCpu || s.mode[x] == Blocked
    {
      assert ProcessOk(s, x);
    }
    assert ProcessOk(s, p);
    if s.guard.Proc? {
      assert ProcessOk(s, s.guard.p);
      a := Run(s.guard.p);
    } else if s.mode[p] == OnCpu {
      a := Run(p);
    } else {
      assert p in s.queue;
      assert ProcessOk(s, s.pid.value);
      a := Run(s.pid.value);
    }
  }

  /**
    Deadlock freedom: whenever some process is past Outside, a productive step is
    enabled. Without the no-lost-wakeup invariant the last case fails.
   */
  lemma NoDeadlock(s: State, run: seq<Action>, p: Pid) returns (a: Action)
    requires Init(s) && Legal(s, run)
    requires p < |Exec(s, run).pc| && Exec(s, run).pc[p] != Outside
    ensures Enabled(Exec(s, run), a) && Productive(Exec(s, run), a)
  {
    RunsKeepInv(s, run);
    var r := Exec(s, run);
    match r.qlock
    case Proc(q) =>
      assert ProcessOk(r, q);
      a := Run(q);
    case Sched =>
      if x :| 0 <= x < |r.mode| && r.mode[x] == Parked {
        a := Switch(x);
      } else {
        a := SchedDrop;
      }
    case Nobody =>
      a := ProgressWithQlockFree(r, p);
  }

  // ---------- What acquire and release do ----------

  /** The next step of process p, where it is enabled. */
  ghost function By(p: Pid): State -> Option<State> {
    (s: State) => if Enabled(s, Run(p)) then Some(RunStep(s, p)) else None
  }

  /** n steps of process p alone, all of them enabled, lead from s to t. */
  ghost predicate Leads(s: State, p: Pid, n: nat, t: State) {
    LeadsBy(By(p), s, n, t)
  }

  function Turns(p: Pid, n: nat): (run: seq<Action>)
    ensures |run| == n
  {
    if n == 0 then [] else [Run(p)] + Turns(p, n - 1)
  }

  lemma OneStep(s: State, p: Pid, t: State)
    requires Enabled(s, Run(p)) && RunStep(s, p) == t
    ensures Leads(s, p, 1, t)
  {
    LeadsOnce(By(p), s, t);
  }

  lemma StepFirst(s: State, p: Pid, u: State, n: nat, t: State)
    requires Enabled(s, Run(p)) && RunStep(s, p) == u && Leads(u, p, n, t)
    ensures Leads(s, p, n + 1, t)
  {
    LeadsFirst(By(p), s, u, n, t);
  }

  /** Such steps are a run. */
  lemma {:induction false} LeadsIsRun(s: State, p: Pid, n: nat, t: State)
    requires Leads(s, p, n, t)
    ensures Legal(s, Turns(p, n)) && Exec(s, Turns(p, n)) == t
    decreases n
  {
    if n > 0 {
      LeadsIsRun(RunStep(s, p), p, n - 1, t);
      assert Turns(p, n)[0] == Run(p) && Turns(p, n)[1..] == Turns(p, n - 1);
    }
  }

  ghost predicate At(s: State, p: Pid, pc: Pc) {
    p < |s.pc| == |s.mode| && s.mode[p] == OnCpu && s.pc[p] == pc
  }

  /** Calling acquire_sleeplock with the guard free takes the guard and comes to the test. */
  lemma AcquireStarts(s: State, p: Pid)
    requires At(s, p, Outside) && s.guard == Nobody
    ensures Leads(s, p, 1, s.(pc := s.pc[p := Test], guard := Proc(p)))
  {
    OneStep(s, p, s.(pc := s.pc[p := Test], guard := Proc(p)));
  }

  /** At the test of a free lock, three steps end in the critical section as the lock's owner. */
  lemma AcquireSucceeds(s: State, p: Pid)
    requires At(s, p, Test) && !s.locked
    ensures Leads(s, p, 3, s.(pc := s.pc[p := Critical], guard := Nobody, locked := true, pid := Some(p)))
  {
    var s1 := s.(pc := s.pc[p := Claim]);
    var s2 := s.(pc := s.pc[p := Unguard], locked := true, pid := Some(p));
    var s3 := s.(pc := s.pc[p := Critical], guard := Nobody, locked := true, pid := Some(p));
    assert s1.pc[p := Unguard] == s2.pc && s2.pc[p := Critical] == s3.pc;
    OneStep(s2, p, s3);
    StepFirst(s1, p, s2, 1, s3);
    StepFirst(s, p, s1, 2, s3);
  }

  /** At the test of a held lock, five steps end asleep, newest on the channel, with the guard free. */
  lemma AcquireSleeps(s: State, p: Pid)
    requires At(s, p, Test) && s.locked && s.qlock == Nobody
    ensures Leads(s, p, 5, s.(pc := s.pc[p := SleepBack], mode := s.mode[p := Blocked], guard := Nobody,
                              qlock := Sched, queue := [p] + s.queue))
  {
    var s1 := s.(pc := s.pc[p := SleepTake]);
    var s2 := s.(pc := s.pc[p := SleepDrop], qlock := Proc(p));
    var s3 := s.(pc := s.pc[p := SleepLink], qlock := Proc(p), guard := Nobody);
    var s4 := s.(pc := s.pc[p := SleepSwitch], qlock := Proc(p), guard := Nobody, queue := [p] + s.queue);
    var s5 := s.(pc := s.pc[p := SleepBack], mode := s.mode[p := Blocked], guard := Nobody, qlock := Sched, queue := [p] + s.queue);
    assert s1.pc[p := SleepDrop] == s2.pc && s2.pc[p := SleepLink] == s3.pc;
    assert s3.pc[p := SleepSwitch] == s4.pc && s4.pc[p := SleepBack] == s5.pc;
    OneStep(s4, p, s5);
    StepFirst(s3, p, s4, 1, s5);
    StepFirst(s2, p, s3, 2, s5);
    StepFirst(s1, p, s2, 3, s5);
    StepFirst(s, p, s1, 4, s5);
  }

  /** A woken sleeper that gets the guard back tests the lock again. */
  lemma WokenTestsAgain(s: State, p: Pid)
    requires At(s, p, SleepBack) && s.guard == Nobody
    ensures Leads(s, p, 1, s.(pc := s.pc[p := Test], guard := Proc(p)))
  {
    OneStep(s, p, s.(pc := s.pc[p := Test], guard := Proc(p)));
  }

  /** In every run, whoever is at the test of a free lock is three enabled steps from owning it. */
  lemma AcquireCompletes(s: State, run: seq<Action>, p: Pid)
    requires Init(s) && Legal(s, run)
    requires var r := Exec(s, run); p < |r.pc| && r.guard == Proc(p) && r.pc[p] == Test && !r.locked
    ensures Legal(Exec(s, run), Turns(p, 3))
    ensures var t := Exec(Exec(s, run), Turns(p, 3));
      p < |t.pc| && t.pc[p] == Critical && t.locked && t.pid == Some(p) && t.guard == Nobody
  {
    RunsKeepInv(s, run);
    var r := Exec(s, run);
    assert ProcessOk(r, p);
    AcquireSucceeds(r, p);
    LeadsIsRun(r, p, 3, r.(pc := r.pc[p := Critical], guard := Nobody, locked := true, pid := Some(p)));
  }

  /** A run that reaches the critical section. */
  lemma CriticalReached(s: State)
    requires Init(s) && |s.pc| == 1
    ensures Legal(s, Turns(0, 4)) && Exec(s, Turns(0, 4)).pc == [Critical] && Exec(s, Turns(0, 4)).pid == Some(0)
  {
    var u := s.(pc := [Test], guard := Proc(0));
    var t := u.(pc := [Critical], guard := Nobody, locked := true, pid := Some(0));
    AcquireStarts(s, 0);
    assert s.pc[0 := Test] == [Test] && u.pc[0 := Critical] == [Critical];
    AcquireSucceeds(u, 0);
    LeadsOn(By(0), s, 1, u, 3, t);
    LeadsIsRun(s, 0, 4, t);
  }

  /** The wakeup loop wakes everybody, oldest first, and then leaves. */
  lemma {:induction false} WakesAll(s: State, p: Pid)
    requires At(s, p, WakeLoop) && p !in s.queue
    ensures Leads(s, p, |s.queue| + 1, s.(pc := s.pc[p := WakeDrop], mode := AllParked(s.mode, s.queue), queue := []))
    decreases |s.queue|
  {
    var t := s.(pc := s.pc[p := WakeDrop], mode := AllParked(s.mode, s.queue), queue := []);
    if s.queue == [] {
      OneStep(s, p, t);
    } else {
      var u := s.(queue := s.queue[..|s.queue| - 1], mode := Woken(s.mode, s.queue));
      assert s.queue[|s.queue| - 1] in s.queue;
      WakesAll(u, p);
      StepFirst(s, p, u, |s.queue|, t);
    }
  }

  /** Two steps past the wakeup loop a release is over. */
  lemma ReleaseEnds(s: State, p: Pid, t: State)
    requires At(s, p, WakeDrop) && t == s.(pc := s.pc[p := Outside], guard := Nobody, qlock := Nobody)
    ensures Leads(s, p, 2, t)
  {
    var u := s.(pc := s.pc[p := Finish], qlock := Nobody);
    assert u.pc[p := Outside] == t.pc;
    OneStep(u, p, t);
    StepFirst(s, p, u, 1, t);
  }

  /** Three steps into a release the lock is clear and the releaser is at the wakeup loop. */
  lemma ReleaseStarts(s: State, p: Pid)
    requires At(s, p, Critical) && s.guard == Nobody && s.qlock == Nobody
    ensures Leads(s, p, 3, s.(pc := s.pc[p := WakeLoop], guard := Proc(p), qlock := Proc(p), locked := false, pid := None))
  {
    var s1 := s.(pc := s.pc[p := Clear], guard := Proc(p));
    var s2 := s.(pc := s.pc[p := WakeTake], guard := Proc(p), locked := false, pid := None);
    var s3 := s.(pc := s.pc[p := WakeLoop], guard := Proc(p), qlock := Proc(p), locked := false, pid := None);
    assert s1.pc[p := WakeTake] == s2.pc && s2.pc[p := WakeLoop] == s3.pc;
    OneStep(s2, p, s3);
    StepFirst(s1, p, s2, 1, s3);
    StepFirst(s, p, s1, 2, s3);
  }

  /** From the wakeup loop to the end of the release. */
  lemma ReleaseFinishes(s: State, p: Pid, t: State)
    requires At(s, p, WakeLoop) && p !in s.queue
    requires t == s.(pc := s.pc[p := Outside], mode := AllParked(s.mode, s.queue), queue := [], guard := Nobody, qlock := Nobody)
    ensures Leads(s, p, |s.queue| + 3, t)
  {
    var u := s.(pc := s.pc[p := WakeDrop], mode := t.mode, queue := []);
    WakesAll(s, p);
    AllParkedAt(s.mode, s.queue, p);
    assert u.pc[p := Outside] == t.pc;
    ReleaseEnds(u, p, t);
    LeadsOn(By(p), s, |s.queue| + 1, u, 2, t);
  }

  /**
    release_sleeplock from end to end: the lock is free, everybody who slept is ready,
    nobody else's standing changed, and both spin locks are free again.
   */
  lemma ReleaseCompletes(s: State, p: Pid)
    requires Inv(s) && At(s, p, Critical) && s.guard == Nobody && s.qlock == Nobody
    ensures |AllParked(s.mode, s.queue)| == |s.mode|
    ensures forall x: Pid :: x < |s.mode| ==> AllParked(s.mode, s.queue)[x] == if x in s.queue then Parked else s.mode[x]
    ensures Leads(s, p, |s.queue| + 6,
      s.(pc := s.pc[p := Outside], mode := AllParked(s.mode, s.queue), queue := [], locked := false, pid := None))
  {
    assert ProcessOk(s, p);
    var u := s.(pc := s.pc[p := WakeLoop], guard := Proc(p), qlock := Proc(p), locked := false, pid := None);
    var t := s.(pc := s.pc[p := Outside], mode := AllParked(s.mode, s.queue), queue := [], locked := false, pid := None);
    ReleaseStarts(s, p);
    assert u.pc[p := Outside] == t.pc;
    ReleaseFinishes(u, p, t);
    LeadsOn(By(p), s, 3, u, |s.queue| + 3, t);
    forall x: Pid | x < |s.mode|
      ensures AllParked(s.mode, s.queue)[x] == if x in s.queue then Parked else s.mode[x]
    {
      AllParkedAt(s.mode, s.queue, x);
    }
  }

  /** In every run, when a release frees the guard the lock is free and the channel empty. */
  lemma ReleaseLeavesFree(s: State, run: seq<Action>, p: Pid)
    requires Init(s) && Legal(s, run)
    requires p < |Exec(s, run).pc| && Exec(s, run).pc[p] == Finish
    ensures var r := Exec(s, run); r.guard == Proc(p) && !r.locked && r.pid == None && r.queue == []
    ensures var r := Exec(s, run); Leads(r, p, 1, r.(pc := r.pc[p := Outside], guard := Nobody))
  {
    RunsKeepInv(s, run);
    LeavesFree(Exec(s, run), p);
  }

  lemma LeavesFree(r: State, p: Pid)
    requires Inv(r) && p < |r.pc| && r.pc[p] == Finish
    ensures r.guard == Proc(p) && !r.locked && r.pid == None && r.queue == []
    ensures Leads(r, p, 1, r.(pc := r.pc[p := Outside], guard := Nobody))
  {
    assert ProcessOk(r, p);
    OneStep(r, p, r.(pc := r.pc[p := Outside], guard := Nobody));
  }

  // ---------- The channel queue and the scheduler ----------

  /** The queue changes only by a sleeper entering as the newest, or the oldest one being made ready. */
  lemma QueueStep(s: State, a: Action)
    requires Inv(s) && Enabled(s, a)
    ensures var q, t := s.queue, Next(s, a);
      || t.queue == q
      || (a.Run? && s.pc[a.p] == SleepLink && t.queue == [a.p] + q)
      || (a.Run? && s.pc[a.p] == WakeLoop && q != [] && t.queue == q[..|q| - 1]
          && q[|q| - 1] < |t.mode| && t.mode[q[|q| - 1]] == Parked)
  {
    assert s.queue != [] ==> s.queue[|s.queue| - 1] in s.queue;
  }

  /** A process that is preempted and switched to again is where it was. */
  lemma PreemptedComesBack(s: State, p: Pid)
    requires Enabled(s, Preempt(p))
    ensures Enabled(Next(s, Preempt(p)), Switch(p))
    ensures Leads(Next(Next(s, Preempt(p)), Switch(p)), p, 1, s)
  {
    var u := s.(mode := s.mode[p := Resumed], qlock := Proc(p));
    assert s.mode[p := Parked][p := Resumed] == u.mode && u.mode[p := OnCpu] == s.mode;
    OneStep(u, p, s);
  }

  /** A ready process the scheduler switches to goes on where it was. */
  lemma SwitchedTo(s: State, p: Pid)
    requires p < |s.pc| == |s.mode| && s.mode[p] == Parked && s.qlock == Nobody
    ensures Enabled(s, SchedTake) && Enabled(Next(s, SchedTake), Switch(p))
    ensures Leads(Next(Next(s, SchedTake), Switch(p)), p, 1, s.(mode := s.mode[p := OnCpu]))
  {
    var u := s.(mode := s.mode[p := Resumed], qlock := Proc(p));
    assert u.mode[p := OnCpu] == s.mode[p := OnCpu];
    OneStep(u, p, s.(mode := s.mode[p := OnCpu]));
  }

  /** A scheduler that finds nothing to run leaves no trace. */
  lemma SchedulerComesBack(s: State)
    requires Enabled(s, SchedTake)
    ensures Enabled(Next(s, SchedTake), SchedDrop) && Next(Next(s, SchedTake), SchedDrop) == s
  {}
}
