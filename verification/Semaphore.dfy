/**
  The kernel semaphore over the same sleep/wakeup channel, as interleaved steps.
  wait sleeps behind an `if`, not a loop: what makes that sound is that every
  signal that finds the count negative hands its unit to one process of the queue.
 */
module Semaphore {
  import opened SeqUtil
  import opened Channel

  datatype Pc =
    | Outside
    | Dec         // wait, guard held: count--
    | Decide      // wait, guard held: if (count < 0)
    | SleepTake   // sleep: acquire qlock
    | SleepDrop   // sleep: release the guard
    | SleepLink   // sleep: guard released, not yet on the channel queue
    | SleepSwitch // sleep: on the queue, about to call sched
    | SleepBack   // sleep: after sched; reacquire the guard
    | Leave       // wait: release the guard and return
    | Inc         // signal, guard held: count++
    | Choose      // signal, guard held: if (count <= 0)
    | WakeTake    // wakeup_one: acquire qlock
    | WakePick    // wakeup_one: dequeue at most one process
    | WakeDrop    // wakeup_one: release qlock
    | Finish      // signal: release the guard and return

  datatype State = State(
    pc: seq<Pc>,
    mode: seq<Mode>,
    guard: Holder,
    qlock: Holder,
    count: int,
    queue: seq<Pid>,
    // history
    waits: nat,          // decrements made
    signals: nat,        // increments made
    completed: nat)      // waits that have returned

  datatype Action =
    | Wait(p: Pid)       // a process calls wait_ksemaphore and takes the guard
    | Signal(p: Pid)     // a process calls signal_ksemaphore and takes the guard
    | Run(p: Pid)
    | Preempt(p: Pid)
    | SchedTake
    | SchedDrop
    | Switch(p: Pid)

  predicate Init(s: State, init: int) {
    && |s.mode| == |s.pc|
    && (forall i :: 0 <= i < |s.pc| ==> s.pc[i] == Outside && s.mode[i] == OnCpu)
    && s.guard == Nobody && s.qlock == Nobody && s.queue == []
    && s.count == init && s.waits == s.signals == s.completed == 0
  }

  // ---------- Steps ----------

  predicate Free(pc: Pc) { pc == Outside || pc == SleepBack }

  predicate WantsQlock(pc: Pc) { pc == SleepTake || pc == WakeTake }

  predicate Enabled(s: State, a: Action) {
    |s.mode| == |s.pc| &&
    match a
    case Wait(p) => p < |s.pc| && s.mode[p] == OnCpu && s.pc[p] == Outside && s.guard == Nobody
    case Signal(p) => p < |s.pc| && s.mode[p] == OnCpu && s.pc[p] == Outside && s.guard == Nobody
    case Run(p) =>
      p < |s.pc| && (s.mode[p] == Resumed ||
        (s.mode[p] == OnCpu && s.pc[p] != Outside
          && (s.pc[p] == SleepBack ==> s.guard == Nobody)
          && (WantsQlock(s.pc[p]) ==> s.qlock == Nobody)))
    case Preempt(p) => p < |s.pc| && s.mode[p] == OnCpu && Free(s.pc[p]) && s.qlock == Nobody
    case SchedTake => s.qlock == Nobody
    case SchedDrop => s.qlock == Sched
    case Switch(p) => p < |s.pc| && s.qlock == Sched && s.mode[p] == Parked
  }

  function Goto(s: State, p: Pid, pc: Pc): State
    requires p < |s.pc|
  {
    s.(pc := s.pc[p := pc])
  }

  function RunStep(s: State, p: Pid): State
    requires Enabled(s, Run(p))
  {
    if s.mode[p] == Resumed then s.(mode := s.mode[p := OnCpu], qlock := Nobody)
    else
      match s.pc[p]
      case Dec => Goto(s, p, Decide).(count := s.count - 1, waits := s.waits + 1)
      case Decide => Goto(s, p, if s.count < 0 then SleepTake else Leave)
      case SleepTake => Goto(s, p, SleepDrop).(qlock := Proc(p))
      case SleepDrop => Goto(s, p, SleepLink).(guard := Nobody)
      case SleepLink => Goto(s, p, SleepSwitch).(queue := [p] + s.queue)
      case SleepSwitch => Goto(s, p, SleepBack).(mode := s.mode[p := Blocked], qlock := Sched)
      case SleepBack => Goto(s, p, Leave).(guard := Proc(p))
      case Leave => Goto(s, p, Outside).(guard := Nobody, completed := s.completed + 1)
      case Inc => Goto(s, p, Choose).(count := s.count + 1, signals := s.signals + 1)
      case Choose => Goto(s, p, if s.count <= 0 then WakeTake else Finish)
      case WakeTake => Goto(s, p, WakePick).(qlock := Proc(p))
      case WakePick =>
        if s.queue == [] then Goto(s, p, WakeDrop)
        else Goto(s, p, WakeDrop).(queue := s.queue[..|s.queue| - 1], mode := Woken(s.mode, s.queue))
      case WakeDrop => Goto(s, p, Finish).(qlock := Nobody)
      case Finish => Goto(s, p, Outside).(guard := Nobody)
  }

  function Next(s: State, a: Action): State
    requires Enabled(s, a)
  {
    match a
    case Wait(p) => Goto(s, p, Dec).(guard := Proc(p))
    case Signal(p) => Goto(s, p, Inc).(guard := Proc(p))
    case Run(p) => RunStep(s, p)
    case Preempt(p) => s.(mode := s.mode[p := Parked], qlock := Sched)
    case SchedTake => s.(qlock := Sched)
    case SchedDrop => s.(qlock := Nobody)
    case Switch(p) => s.(mode := s.mode[p := Resumed], qlock := Proc(p))
  }

  predicate Legal(s: State, run: seq<Action>)
    decreases |run|
  {
    run == [] || (Enabled(s, run[0]) && Legal(Next(s, run[0]), run[1..]))
  }

  function Exec(s: State, run: seq<Action>): State
    requires Legal(s, run)
    decreases |run|
  {
    if run == [] then s else Exec(Next(s, run[0]), run[1..])
  }

  // ---------- Lock discipline ----------

  predicate HasGuard(pc: Pc) {
    pc == Dec || pc == Decide || pc == SleepTake || pc == SleepDrop || pc == Leave || pc == Inc
    || pc == Choose || pc == WakeTake || pc == WakePick || pc == WakeDrop || pc == Finish
  }

  predicate HasQlock(pc: Pc) {
    pc == SleepDrop || pc == SleepLink || pc == SleepSwitch || pc == WakePick || pc == WakeDrop
  }

  ghost predicate ProcessOk(s: State, p: Pid)
    requires p < |s.pc| == |s.mode|
  {
    var pc, mode := s.pc[p], s.mode[p];
    && (HasGuard(pc) <==> s.guard == Proc(p))
    && (HasQlock(pc) || mode == Resumed <==> s.qlock == Proc(p))
    && (mode != OnCpu ==> Free(pc))
    && (mode == Blocked ==> pc == SleepBack)
    && (mode == Blocked || pc == SleepSwitch <==> p in s.queue)
    && (pc == WakeTake || pc == WakePick ==> s.count <= 0)
  }

  ghost predicate Locks(s: State) {
    && |s.mode| == |s.pc|
    && (forall p: Pid :: p < |s.pc| ==> ProcessOk(s, p))
    && s.guard != Sched
    && (s.guard.Proc? ==> s.guard.p < |s.pc|)
    && (s.qlock.Proc? ==> s.qlock.p < |s.pc|)
    && NoDup(s.queue) && (forall p :: p in s.queue ==> p < |s.pc|)
  }

  ghost function GuardPc(s: State): Pc {
    if s.guard.Proc? && s.guard.p < |s.pc| then s.pc[s.guard.p] else Outside
  }

  ghost function QlockPc(s: State): Pc {
    if s.qlock.Proc? && s.qlock.p < |s.pc| then s.pc[s.qlock.p] else Outside
  }

  /** The guard's holder is committed to sleeping but not yet past the guard. */
  ghost function Committed(s: State): nat {
    if GuardPc(s) == SleepTake || GuardPc(s) == SleepDrop || (GuardPc(s) == Decide && s.count < 0) then 1 else 0
  }

  /** A process is in the gap between releasing the guard and entering the queue. */
  ghost function InGap(s: State): nat {
    if QlockPc(s) == SleepLink then 1 else 0
  }

  /** The guard's holder has counted a signal up and has yet to wake a sleeper for it. */
  ghost function Owed(s: State): nat {
    if (GuardPc(s) == Choose && s.count <= 0) || GuardPc(s) == WakeTake || GuardPc(s) == WakePick then 1 else 0
  }

  /** Waits that have counted down and not yet returned. */
  predicate Pending(pc: Pc) {
    pc == Decide || pc == SleepTake || pc == SleepDrop || pc == SleepLink || pc == SleepSwitch
    || pc == SleepBack || pc == Leave
  }

  ghost function PendingSet(s: State): set<Pid> {
    set p: Pid | 0 <= p < |s.pc| && Pending(s.pc[p])
  }

  function Deficit(count: int): nat { if count < 0 then -count else 0 }

  /** Sleepers, committed processes and the one in the gap balance the deficit. */
  ghost predicate Balanced(s: State) {
    |s.queue| + Committed(s) + InGap(s) == Deficit(s.count) + Owed(s)
  }

  /** The history explains the count, and every wait is completed or pending. */
  ghost predicate Accounted(s: State, init: int) {
    && s.count == init + s.signals - s.waits
    && s.waits == s.completed + |PendingSet(s)|
  }

  ghost predicate Inv(s: State, init: int) {
    Locks(s) && Balanced(s) && Accounted(s, init)
  }

  // ---------- Every step keeps the lock discipline ----------

  lemma SleepStepLocks(s: State, p: Pid)
    requires Locks(s) && Enabled(s, Run(p)) && s.mode[p] == OnCpu
    requires s.pc[p] in {SleepTake, SleepDrop, SleepLink, SleepSwitch, SleepBack}
    ensures Locks(RunStep(s, p))
  {
    var t := RunStep(s, p);
    assert ProcessOk(s, p);
    forall x: Pid | x < |s.pc|
      ensures ProcessOk(t, x)
    {
      assert ProcessOk(s, x);
    }
  }

  lemma CountStepLocks(s: State, p: Pid)
    requires Locks(s) && Enabled(s, Run(p))
    requires s.mode[p] == Resumed || s.pc[p] in {Dec, Decide, Leave, Inc, Choose}
    ensures Locks(RunStep(s, p))
  {
    var t := RunStep(s, p);
    assert ProcessOk(s, p);
    forall x: Pid | x < |s.pc|
      ensures ProcessOk(t, x)
    {
      assert ProcessOk(s, x);
    }
  }

  lemma WakeStepLocks(s: State, p: Pid)
    requires Locks(s) && Enabled(s, Run(p)) && s.mode[p] == OnCpu
    requires s.pc[p] in {WakeTake, WakeDrop, Finish}
    ensures Locks(RunStep(s, p))
  {
    var t := RunStep(s, p);
    assert ProcessOk(s, p);
    forall x: Pid | x < |s.pc|
      ensures ProcessOk(t, x)
    {
      assert ProcessOk(s, x);
    }
  }

  lemma PickStepLocks(s: State, p: Pid)
    requires Locks(s) && Enabled(s, Run(p)) && s.mode[p] == OnCpu && s.pc[p] == WakePick
    ensures Locks(RunStep(s, p))
  {
    var t := RunStep(s, p);
    assert ProcessOk(s, p);
    if s.queue != [] {
      var w := s.queue[|s.queue| - 1];
      assert w in s.queue && ProcessOk(s, w);
      assert forall x :: x in t.queue <==> x in s.queue && x != w;
    }
    forall x: Pid | x < |s.pc|
      ensures ProcessOk(t, x)
    {
      assert ProcessOk(s, x);
    }
  }

  lemma NextLocks(s: State, a: Action)
    requires Locks(s) && Enabled(s, a)
    ensures Locks(Next(s, a))
  {
    match a
    case Run(p) =>
      assert ProcessOk(s, p);
      if s.mode[p] == Resumed || s.pc[p] in {Dec, Decide, Leave, Inc, Choose} {
        CountStepLocks(s, p);
      } else if s.pc[p] == WakePick {
        PickStepLocks(s, p);
      } else if s.pc[p] in {WakeTake, WakeDrop, Finish} {
        WakeStepLocks(s, p);
      } else {
        SleepStepLocks(s, p);
      }
    case _ =>
      var t := Next(s, a);
      forall x: Pid | x < |s.pc|
        ensures ProcessOk(t, x)
      {
        assert ProcessOk(s, x);
      }
  }

  // ---------- Every step keeps the accounts ----------

  lemma CountStepBalanced(s: State, p: Pid)
    requires Locks(s) && Balanced(s) && Enabled(s, Run(p))
    requires s.mode[p] == Resumed || s.pc[p] in {Dec, Decide, Leave, Inc, Choose}
    ensures Balanced(RunStep(s, p))
  {
    assert ProcessOk(s, p);
    if s.qlock.Proc? { assert ProcessOk(s, s.qlock.p); }
    if s.mode[p] == Resumed && s.guard.Proc? { assert ProcessOk(s, s.guard.p); }
  }

  lemma SleepStepBalanced(s: State, p: Pid)
    requires Locks(s) && Balanced(s) && Enabled(s, Run(p)) && s.mode[p] == OnCpu
    requires s.pc[p] in {SleepTake, SleepDrop, SleepLink, SleepSwitch, SleepBack}
    ensures Balanced(RunStep(s, p))
  {
    assert ProcessOk(s, p);
    if s.guard.Proc? { assert ProcessOk(s, s.guard.p); }
    if s.qlock.Proc? { assert ProcessOk(s, s.qlock.p); }
  }

  lemma WakeStepBalanced(s: State, p: Pid)
    requires Locks(s) && Balanced(s) && Enabled(s, Run(p)) && s.mode[p] == OnCpu
    requires s.pc[p] in {WakeTake, WakePick, WakeDrop, Finish}
    ensures Balanced(RunStep(s, p))
  {
    assert ProcessOk(s, p);
    if s.qlock.Proc? { assert ProcessOk(s, s.qlock.p); }
  }

  lemma RunBalanced(s: State, p: Pid)
    requires Locks(s) && Balanced(s) && Enabled(s, Run(p))
    ensures Balanced(RunStep(s, p))
  {
    if s.mode[p] == Resumed || s.pc[p] in {Dec, Decide, Leave, Inc, Choose} {
      CountStepBalanced(s, p);
    } else if s.pc[p] in {WakeTake, WakePick, WakeDrop, Finish} {
      WakeStepBalanced(s, p);
    } else {
      SleepStepBalanced(s, p);
    }
  }

  /** A process outside every critical section is not the one the accounts speak of. */
  lemma BystanderFacts(s: State, p: Pid)
    requires Locks(s) && p < |s.pc| && Free(s.pc[p])
    ensures s.guard != Proc(p) && (s.qlock == Proc(p) ==> s.mode[p] == Resumed)
    ensures QlockPc(s) == SleepLink ==> s.qlock != Proc(p)
  {
    assert ProcessOk(s, p);
  }

  lemma NextBalanced(s: State, a: Action)
    requires Locks(s) && Balanced(s) && Enabled(s, a)
    ensures Balanced(Next(s, a))
  {
    match a
    case Run(p) => RunBalanced(s, p);
    case SchedTake =>
    case SchedDrop =>
    case Wait(p) => BystanderFacts(s, p);
    case Signal(p) => BystanderFacts(s, p);
    case Preempt(p) => BystanderFacts(s, p);
    case Switch(p) => assert ProcessOk(s, p); BystanderFacts(s, p);
  }

  /** One process moving changes the number of pending waits by its own share. */
  lemma PendingChange(s: State, t: State, p: Pid)
    requires p < |s.pc| == |t.pc| && t.pc == s.pc[p := t.pc[p]]
    ensures |PendingSet(t)| + (if Pending(s.pc[p]) then 1 else 0)
         == |PendingSet(s)| + (if Pending(t.pc[p]) then 1 else 0)
  {
    var rest := PendingSet(s) - {p};
    assert PendingSet(s) == if Pending(s.pc[p]) then rest + {p} else rest;
    assert PendingSet(t) == if Pending(t.pc[p]) then rest + {p} else rest;
  }

  lemma NextAccounted(s: State, a: Action, init: int)
    requires Accounted(s, init) && Enabled(s, a)
    ensures Accounted(Next(s, a), init)
  {
    var t := Next(s, a);
    if a.Run? {
      RunAccounted(s, a.p, init);
    } else if a.Wait? || a.Signal? {
      PendingChange(s, t, a.p);
    } else {
      assert PendingSet(t) == PendingSet(s);
    }
  }

  lemma RunAccounted(s: State, p: Pid, init: int)
    requires Accounted(s, init) && Enabled(s, Run(p))
    ensures Accounted(RunStep(s, p), init)
  {
    PendingChange(s, RunStep(s, p), p);
  }

  lemma NextKeepsInv(s: State, a: Action, init: int)
    requires Inv(s, init) && Enabled(s, a)
    ensures Inv(Next(s, a), init)
  {
    NextLocks(s, a);
    NextBalanced(s, a);
    NextAccounted(s, a, init);
  }

  lemma {:induction false} RunsKeepInv(s: State, run: seq<Action>, init: int)
    requires Inv(s, init) && Legal(s, run)
    ensures Inv(Exec(s, run), init)
    decreases |run|
  {
    if run != [] {
      NextKeepsInv(s, run[0], init);
      RunsKeepInv(Next(s, run[0]), run[1..], init);
    }
  }

  lemma InitInv(s: State, init: nat)
    requires Init(s, init)
    ensures Inv(s, init)
  {
    assert PendingSet(s) == {};
  }

  // ---------- Main results, for every run from a non-negative initial value ----------

  /**
    Whenever the guard is free the count is initial + signals - waits, and the
    sleepers number max(0, -count), less the process in the gap between releasing
    the guard and entering the queue, if there is one.
   */
  lemma GuardFreeAccounts(s: State, run: seq<Action>, init: nat)
    requires Init(s, init) && Legal(s, run) && Exec(s, run).guard == Nobody
    ensures var r := Exec(s, run);
      && r.count == init + r.signals - r.waits
      && |r.queue| + InGap(r) == Deficit(r.count)
      && (|r.queue| == Deficit(r.count) <==> forall p :: 0 <= p < |r.pc| ==> r.pc[p] != SleepLink)
  {
    InitInv(s, init);
    RunsKeepInv(s, run, init);
    var r := Exec(s, run);
    forall p: Pid | p < |r.pc| && r.pc[p] == SleepLink
      ensures InGap(r) == 1
    {
      assert ProcessOk(r, p);
    }
  }

  /** Every signal that owes a wakeup finds somebody in the queue: no wakeup is lost. */
  lemma SignalFindsSleeper(s: State, run: seq<Action>, init: nat, p: Pid)
    requires Init(s, init) && Legal(s, run)
    requires p < |Exec(s, run).pc| && Exec(s, run).pc[p] == WakePick
    ensures Exec(s, run).queue != []
  {
    InitInv(s, init);
    RunsKeepInv(s, run, init);
    assert ProcessOk(Exec(s, run), p);
  }

  /** The sleepers and those on the way to sleep are pending waits, each counted once. */
  lemma PendingCoversSleepers(s: State)
    requires Locks(s)
    ensures |s.queue| + Committed(s) + InGap(s) <= |PendingSet(s)|
  {
    var g := if Committed(s) == 1 then [s.guard.p] else [];
    var l := if InGap(s) == 1 then [s.qlock.p] else [];
    if s.guard.Proc? { assert ProcessOk(s, s.guard.p); }
    if s.qlock.Proc? { assert ProcessOk(s, s.qlock.p); }
    var all := s.queue + g + l;
    forall x | x in all
      ensures x in PendingSet(s)
    {
      assert x < |s.pc| && ProcessOk(s, x);
    }
    assert NoDup(all);
    NoDupBound(all, PendingSet(s));
  }

  /** Completed waits never exceed initial + signals. */
  lemma CompletedNeverExceedsSupply(s: State, run: seq<Action>, init: nat)
    requires Init(s, init) && Legal(s, run)
    ensures var r := Exec(s, run); r.completed <= init + r.signals
  {
    InitInv(s, init);
    RunsKeepInv(s, run, init);
    PendingCoversSleepers(Exec(s, run));
  }

  // ---------- What wait and signal do ----------

  /** The next step of process p, where it is enabled. */
  ghost function By(p: Pid): State -> Option<State> {
    (s: State) => if Enabled(s, Run(p)) then Some(RunStep(s, p)) else None
  }

  /** n steps of process p alone, all of them enabled, lead from s to t. */
  ghost predicate Leads(s: State, p: Pid, n: nat, t: State) {
    LeadsBy(By(p), s, n, t)
  }

  function Turns(p: Pid, n: nat): (run: seq<Action>)
    ensures |run| == n
  {
    if n == 0 then [] else [Run(p)] + Turns(p, n - 1)
  }

  lemma OneStep(s: State, p: Pid, t: State)
    requires Enabled(s, Run(p)) && RunStep(s, p) == t
    ensures Leads(s, p, 1, t)
  {
    LeadsOnce(By(p), s, t);
  }

  lemma StepFirst(s: State, p: Pid, u: State, n: nat, t: State)
    requires Enabled(s, Run(p)) && RunStep(s, p) == u && Leads(u, p, n, t)
    ensures Leads(s, p, n + 1, t)
  {
    LeadsFirst(By(p), s, u, n, t);
  }

  /** Such steps are a run. */
  lemma {:induction false} LeadsIsRun(s: State, p: Pid, n: nat, t: State)
    requires Leads(s, p, n, t)
    ensures Legal(s, Turns(p, n)) && Exec(s, Turns(p, n)) == t
    decreases n
  {
    if n > 0 {
      LeadsIsRun(RunStep(s, p), p, n - 1, t);
      assert Turns(p, n)[0] == Run(p) && Turns(p, n)[1..] == Turns(p, n - 1);
    }
  }

  ghost predicate At(s: State, p: Pid, pc: Pc) {
    p < |s.pc| == |s.mode| && s.mode[p] == OnCpu && s.pc[p] == pc
  }

  /** With a unit to take, wait takes it and returns. */
  lemma WaitSucceeds(s: State, p: Pid)
    requires At(s, p, Outside) && s.guard == Nobody && s.count > 0
    ensures Enabled(s, Wait(p))
    ensures Leads(Next(s, Wait(p)), p, 3, s.(count := s.count - 1, waits := s.waits + 1, completed := s.completed + 1))
  {
    var s0 := s.(pc := s.pc[p := Dec], guard := Proc(p));
    var s1 := s0.(pc := s.pc[p := Decide], count := s.count - 1, waits := s.waits + 1);
    var s2 := s1.(pc := s.pc[p := Leave]);
    var s3 := s.(count := s.count - 1, waits := s.waits + 1, completed := s.completed + 1);
    assert s0.pc[p := Decide] == s1.pc && s1.pc[p := Leave] == s2.pc && s2.pc[p := Outside] == s3.pc;
    OneStep(s2, p, s3);
    StepFirst(s1, p, s2, 1, s3);
    StepFirst(s0, p, s1, 2, s3);
  }

  /** Without one, wait ends asleep, newest on the channel, with the guard free. */
  lemma WaitSleeps(s: State, p: Pid, t: State)
    requires At(s, p, Outside) && s.guard == Nobody && s.qlock == Nobody && s.count <= 0
    requires t == s.(pc := s.pc[p := SleepBack], mode := s.mode[p := Blocked], qlock := Sched, queue := [p] + s.queue,
                     count := s.count - 1, waits := s.waits + 1)
    ensures Enabled(s, Wait(p)) && Leads(Next(s, Wait(p)), p, 6, t)
  {
    var s0 := s.(pc := s.pc[p := Dec], guard := Proc(p));
    var s1 := s0.(pc := s.pc[p := Decide], count := s.count - 1, waits := s.waits + 1);
    assert s0.pc[p := Decide] == s1.pc && s1.pc[p := SleepBack] == t.pc;
    DecidesToSleep(s1, p, t);
    StepFirst(s0, p, s1, 5, t);
  }

  lemma DecidesToSleep(s: State, p: Pid, t: State)
    requires At(s, p, Decide) && s.qlock == Nobody && s.count < 0
    requires t == s.(pc := s.pc[p := SleepBack], mode := s.mode[p := Blocked], guard := Nobody,
                     qlock := Sched, queue := [p] + s.queue)
    ensures Leads(s, p, 5, t)
  {
    var s1 := s.(pc := s.pc[p := SleepTake]);
    var s2 := s.(pc := s.pc[p := SleepDrop], qlock := Proc(p));
    assert s1.pc[p := SleepDrop] == s2.pc && s2.pc[p := SleepBack] == t.pc;
    DropsToSleep(s2, p, t);
    StepFirst(s1, p, s2, 3, t);
    StepFirst(s, p, s1, 4, t);
  }

  lemma DropsToSleep(s: State, p: Pid, t: State)
    requires At(s, p, SleepDrop)
    requires t == s.(pc := s.pc[p := SleepBack], mode := s.mode[p := Blocked], guard := Nobody,
                     qlock := Sched, queue := [p] + s.queue)
    ensures Leads(s, p, 3, t)
  {
    var s1 := s.(pc := s.pc[p := SleepLink], guard := Nobody);
    var s2 := s.(pc := s.pc[p := SleepSwitch], guard := Nobody, queue := [p] + s.queue);
    assert s1.pc[p := SleepSwitch] == s2.pc && s2.pc[p := SleepBack] == t.pc;
    OneStep(s2, p, t);
    StepFirst(s1, p, s2, 1, t);
    StepFirst(s, p, s1, 2, t);
  }

  /** A woken process that gets the guard back returns without looking at the count. */
  lemma WokenReturns(s: State, p: Pid)
    requires At(s, p, SleepBack) && s.guard == Nobody
    ensures Leads(s, p, 2, s.(pc := s.pc[p := Outside], completed := s.completed + 1))
  {
    var s1 := s.(pc := s.pc[p := Leave], guard := Proc(p));
    var s2 := s.(pc := s.pc[p := Outside], completed := s.completed + 1);
    assert s1.pc[p := Outside] == s2.pc;
    OneStep(s1, p, s2);
    StepFirst(s, p, s1, 1, s2);
  }

  /** Signal takes the guard and counts up. */
  lemma SignalStarts(s: State, p: Pid, t: State)
    requires At(s, p, Outside) && s.guard == Nobody
    requires t == s.(pc := s.pc[p := Choose], guard := Proc(p), count := s.count + 1, signals := s.signals + 1)
    ensures Enabled(s, Signal(p)) && Leads(Next(s, Signal(p)), p, 1, t)
  {
    var s0 := s.(pc := s.pc[p := Inc], guard := Proc(p));
    assert s0.pc[p := Choose] == t.pc;
    OneStep(s0, p, t);
  }

  lemma Finishes(s: State, p: Pid, t: State)
    requires At(s, p, Finish) && t == s.(pc := s.pc[p := Outside], guard := Nobody)
    ensures Leads(s, p, 1, t)
  {
    OneStep(s, p, t);
  }

  /** Nobody waits: signal counts up and returns. */
  lemma SignalCounts(s: State, p: Pid)
    requires At(s, p, Outside) && s.guard == Nobody && s.count >= 0
    ensures Enabled(s, Signal(p))
    ensures Leads(Next(s, Signal(p)), p, 3, s.(count := s.count + 1, signals := s.signals + 1))
  {
    var s1 := s.(pc := s.pc[p := Choose], guard := Proc(p), count := s.count + 1, signals := s.signals + 1);
    var s3 := s.(count := s.count + 1, signals := s.signals + 1);
    SignalStarts(s, p, s1);
    assert s1.pc[p := Outside] == s3.pc;
    ChoosesToReturn(s1, p, s3);
    LeadsOn(By(p), Next(s, Signal(p)), 1, s1, 2, s3);
  }

  lemma ChoosesToReturn(s: State, p: Pid, t: State)
    requires At(s, p, Choose) && s.count > 0 && t == s.(pc := s.pc[p := Outside], guard := Nobody)
    ensures Leads(s, p, 2, t)
  {
    var u := s.(pc := s.pc[p := Finish]);
    assert u.pc[p := Outside] == t.pc;
    Finishes(u, p, t);
    StepFirst(s, p, u, 1, t);
  }

  /** Somebody waits: signal makes the oldest sleeper ready and returns. */
  lemma SignalWakes(s: State, p: Pid, t: State)
    requires At(s, p, Outside) && s.guard == Nobody && s.qlock == Nobody && s.count < 0
    requires s.queue != [] && p != Oldest(s.queue)
    requires t == s.(queue := s.queue[..|s.queue| - 1], mode := Woken(s.mode, s.queue),
                     count := s.count + 1, signals := s.signals + 1)
    ensures Enabled(s, Signal(p)) && Leads(Next(s, Signal(p)), p, 6, t)
  {
    var s1 := s.(pc := s.pc[p := Choose], guard := Proc(p), count := s.count + 1, signals := s.signals + 1);
    SignalStarts(s, p, s1);
    assert s1.pc[p := Outside] == t.pc;
    ChoosesToWake(s1, p, t);
    LeadsOn(By(p), Next(s, Signal(p)), 1, s1, 5, t);
  }

  lemma ChoosesToWake(s: State, p: Pid, t: State)
    requires At(s, p, Choose) && s.qlock == Nobody && s.count <= 0 && s.queue != [] && p != Oldest(s.queue)
    requires t == s.(pc := s.pc[p := Outside], queue := s.queue[..|s.queue| - 1], mode := Woken(s.mode, s.queue), guard := Nobody)
    ensures Leads(s, p, 5, t)
  {
    var u := s.(pc := s.pc[p := WakePick], qlock := Proc(p));
    assert u.pc[p := Outside] == t.pc;
    ComesToPick(s, p, u);
    Picks(u, p, t);
    LeadsOn(By(p), s, 2, u, 3, t);
  }

  lemma ComesToPick(s: State, p: Pid, t: State)
    requires At(s, p, Choose) && s.qlock == Nobody && s.count <= 0
    requires t == s.(pc := s.pc[p := WakePick], qlock := Proc(p))
    ensures Leads(s, p, 2, t)
  {
    var u := s.(pc := s.pc[p := WakeTake]);
    assert u.pc[p := WakePick] == t.pc;
    OneStep(u, p, t);
    StepFirst(s, p, u, 1, t);
  }

  /** At the queue: one process is taken off it and made ready, and both spin locks are released. */
  lemma Picks(s: State, p: Pid, t: State)
    requires At(s, p, WakePick) && s.queue != [] && p != Oldest(s.queue)
    requires t == s.(pc := s.pc[p := Outside], queue := s.queue[..|s.queue| - 1], mode := Woken(s.mode, s.queue),
                     guard := Nobody, qlock := Nobody)
    ensures Leads(s, p, 3, t)
  {
    var u := s.(pc := s.pc[p := WakeDrop], queue := t.queue, mode := t.mode);
    assert u.pc[p := Outside] == t.pc;
    Drops(u, p, t);
    StepFirst(s, p, u, 2, t);
  }

  lemma Drops(s: State, p: Pid, t: State)
    requires At(s, p, WakeDrop) && t == s.(pc := s.pc[p := Outside], guard := Nobody, qlock := Nobody)
    ensures Leads(s, p, 2, t)
  {
    var u := s.(pc := s.pc[p := Finish], qlock := Nobody);
    assert u.pc[p := Outside] == t.pc;
    Finishes(u, p, t);
    StepFirst(s, p, u, 1, t);
  }

  /** A ready process the scheduler switches to goes on where it was. */
  lemma SwitchedTo(s: State, p: Pid)
    requires p < |s.pc| == |s.mode| && s.mode[p] == Parked && s.qlock == Nobody
    ensures Enabled(s, SchedTake) && Enabled(Next(s, SchedTake), Switch(p))
    ensures Leads(Next(Next(s, SchedTake), Switch(p)), p, 1, s.(mode := s.mode[p := OnCpu]))
  {
    var u := s.(mode := s.mode[p := Resumed], qlock := Proc(p));
    assert u.mode[p := OnCpu] == s.mode[p := OnCpu];
    OneStep(u, p, s.(mode := s.mode[p := OnCpu]));
  }

  /** In every run, a signal that finds the count negative and both spin locks free hands its unit to the oldest waiter. */
  lemma SignalHandsOver(s: State, run: seq<Action>, init: nat, r: State, p: Pid) returns (w: Pid, t: State)
    requires Init(s, init) && Legal(s, run) && r == Exec(s, run)
    requires At(r, p, Outside) && r.guard == Nobody && r.qlock == Nobody && r.count < 0
    ensures |r.queue| == -r.count && w == Oldest(r.queue) && w < |r.pc| == |r.mode| && r.pc[w] == SleepBack
    ensures t == r.(queue := r.queue[..|r.queue| - 1], mode := r.mode[w := Parked], count := r.count + 1, signals := r.signals + 1)
    ensures Enabled(r, Signal(p)) && Leads(Next(r, Signal(p)), p, 6, t)
  {
    InitInv(s, init);
    RunsKeepInv(s, run, init);
    w := NextServed(r, p);
    t := r.(queue := r.queue[..|r.queue| - 1], mode := r.mode[w := Parked], count := r.count + 1, signals := r.signals + 1);
    SignalWakes(r, p, t);
  }

  lemma NextServed(r: State, p: Pid) returns (w: Pid)
    requires Locks(r) && Balanced(r) && At(r, p, Outside) && r.guard == Nobody && r.qlock == Nobody && r.count < 0
    ensures |r.queue| == -r.count && w == Oldest(r.queue) && w < |r.pc| && r.pc[w] == SleepBack
  {
    w := Oldest(r.queue);
    assert w in r.queue && ProcessOk(r, w);
  }

  /** And that waiter, once switched to, returns. */
  lemma WaiterCompletes(s: State, w: Pid)
    requires w < |s.pc| == |s.mode| && s.mode[w] == Parked && s.pc[w] == SleepBack
    requires s.guard == Nobody && s.qlock == Nobody
    ensures Enabled(s, SchedTake) && Enabled(Next(s, SchedTake), Switch(w))
    ensures Leads(Next(Next(s, SchedTake), Switch(w)), w, 3,
      s.(pc := s.pc[w := Outside], mode := s.mode[w := OnCpu], completed := s.completed + 1))
  {
    SwitchedTo(s, w);
    var u := s.(mode := s.mode[w := OnCpu]);
    WokenReturns(u, w);
    LeadsOn(By(w), Next(Next(s, SchedTake), Switch(w)), 1, u, 2, u.(pc := s.pc[w := Outside], completed := s.completed + 1));
  }

  // ---------- The channel queue and the scheduler ----------

  /** The queue changes only by a sleeper entering as the newest, or the oldest one being made ready. */
  lemma QueueStep(s: State, a: Action)
    requires Locks(s) && Enabled(s, a)
    ensures var q, t := s.queue, Next(s, a);
      || t.queue == q
      || (a.Run? && s.pc[a.p] == SleepLink && t.queue == [a.p] + q)
      || (a.Run? && s.pc[a.p] == WakePick && q != [] && t.queue == q[..|q| - 1]
          && q[|q| - 1] < |t.mode| && t.mode[q[|q| - 1]] == Parked)
  {
    assert s.queue != [] ==> s.queue[|s.queue| - 1] in s.queue;
  }

  /** A process that is preempted and switched to again is where it was. */
  lemma PreemptedComesBack(s: State, p: Pid)
    requires Enabled(s, Preempt(p))
    ensures Enabled(Next(s, Preempt(p)), Switch(p))
    ensures Leads(Next(Next(s, Preempt(p)), Switch(p)), p, 1, s)
  {
    var u := s.(mode := s.mode[p := Resumed], qlock := Proc(p));
    assert s.mode[p := Parked][p := Resumed] == u.mode && u.mode[p := OnCpu] == s.mode;
    OneStep(u, p, s);
  }

  /** A scheduler that finds nothing to run leaves no trace. */
  lemma SchedulerComesBack(s: State)
    requires Enabled(s, SchedTake)
    ensures Enabled(Next(s, SchedTake), SchedDrop) && Next(Next(s, SchedTake), SchedDrop) == s
  {}

  // ---------- One wait, one signal, from a value that is not positive ----------

  /** Process 0 waits and sleeps, process 1 signals and wakes it, process 0 returns. */
  function Scene(v: int, i: nat): State
    requires i <= 20
  {
    if i == 0 then State([Outside, Outside], [OnCpu, OnCpu], Nobody, Nobody, v, [], 0, 0, 0)
    else if i == 1 then State([Dec, Outside], [OnCpu, OnCpu], Proc(0), Nobody, v, [], 0, 0, 0)
    else if i == 2 then State([Decide, Outside], [OnCpu, OnCpu], Proc(0), Nobody, v - 1, [], 1, 0, 0)
    else if i == 3 then State([SleepTake, Outside], [OnCpu, OnCpu], Proc(0), Nobody, v - 1, [], 1, 0, 0)
    else if i == 4 then State([SleepDrop, Outside], [OnCpu, OnCpu], Proc(0), Proc(0), v - 1, [], 1, 0, 0)
    else if i == 5 then State([SleepLink, Outside], [OnCpu, OnCpu], Nobody, Proc(0), v - 1, [], 1, 0, 0)
    else if i == 6 then State([SleepSwitch, Outside], [OnCpu, OnCpu], Nobody, Proc(0), v - 1, [0], 1, 0, 0)
    else if i == 7 then State([SleepBack, Outside], [Blocked, OnCpu], Nobody, Sched, v - 1, [0], 1, 0, 0)
    else if i == 8 then State([SleepBack, Outside], [Blocked, OnCpu], Nobody, Nobody, v - 1, [0], 1, 0, 0)
    else if i == 9 then State([SleepBack, Inc], [Blocked, OnCpu], Proc(1), Nobody, v - 1, [0], 1, 0, 0)
    else if i == 10 then State([SleepBack, Choose], [Blocked, OnCpu], Proc(1), Nobody, v, [0], 1, 1, 0)
    else if i == 11 then State([SleepBack, WakeTake], [Blocked, OnCpu], Proc(1), Nobody, v, [0], 1, 1, 0)
    else if i == 12 then State([SleepBack, WakePick], [Blocked, OnCpu], Proc(1), Proc(1), v, [0], 1, 1, 0)
    else if i == 13 then State([SleepBack, WakeDrop], [Parked, OnCpu], Proc(1), Proc(1), v, [], 1, 1, 0)
    else if i == 14 then State([SleepBack, Finish], [Parked, OnCpu], Proc(1), Nobody, v, [], 1, 1, 0)
    else if i == 15 then State([SleepBack, Outside], [Parked, OnCpu], Nobody, Nobody, v, [], 1, 1, 0)
    else if i == 16 then State([SleepBack, Outside], [Parked, OnCpu], Nobody, Sched, v, [], 1, 1, 0)
    else if i == 17 then State([SleepBack, Outside], [Resumed, OnCpu], Nobody, Proc(0), v, [], 1, 1, 0)
    else if i == 18 then State([SleepBack, Outside], [OnCpu, OnCpu], Nobody, Nobody, v, [], 1, 1, 0)
    else if i == 19 then State([Leave, Outside], [OnCpu, OnCpu], Proc(0), Nobody, v, [], 1, 1, 0)
    else State([Outside, Outside], [OnCpu, OnCpu], Nobody, Nobody, v, [], 1, 1, 1)
  }

  function Script(i: nat): Action
    requires i < 20
  {
    if i == 0 then Wait(0) else if i < 7 then Run(0) else if i == 7 then SchedDrop
    else if i == 8 then Signal(1) else if i < 15 then Run(1)
    else if i == 15 then SchedTake else if i == 16 then Switch(0) else Run(0)
  }

  lemma WaiterSleeps(v: int, i: nat)
    requires v <= 0 && 0 <= i < 8
    ensures Enabled(Scene(v, i), Script(i)) && Next(Scene(v, i), Script(i)) == Scene(v, i + 1)
  {
    if i == 0 { assert Next(Scene(v, 0), Script(0)) == Scene(v, 1); }
    if i == 1 { assert Next(Scene(v, 1), Script(1)) == Scene(v, 2); }
    if i == 2 { assert Next(Scene(v, 2), Script(2)) == Scene(v, 3); }
    if i == 3 { assert Next(Scene(v, 3), Script(3)) == Scene(v, 4); }
    if i == 4 { assert Next(Scene(v, 4), Script(4)) == Scene(v, 5); }
    if i == 5 { assert Next(Scene(v, 5), Script(5)) == Scene(v, 6); }
    if i == 6 { assert Next(Scene(v, 6), Script(6)) == Scene(v, 7); }
    if i == 7 { assert Next(Scene(v, 7), Script(7)) == Scene(v, 8); }
  }

  lemma SignallerCounts(v: int, i: nat)
    requires v <= 0 && 8 <= i < 12
    ensures Enabled(Scene(v, i), Script(i)) && Next(Scene(v, i), Script(i)) == Scene(v, i + 1)
  {
    if i == 8 { assert Next(Scene(v, 8), Script(8)) == Scene(v, 9); }
    if i == 9 { assert Next(Scene(v, 9), Script(9)) == Scene(v, 10); }
    if i == 10 { assert Next(Scene(v, 10), Script(10)) == Scene(v, 11); }
    if i == 11 { assert Next(Scene(v, 11), Script(11)) == Scene(v, 12); }
  }

  lemma SignallerWakes(v: int, i: nat)
    requires v <= 0 && 12 <= i < 15
    ensures Enabled(Scene(v, i), Script(i)) && Next(Scene(v, i), Script(i)) == Scene(v, i + 1)
  {
    if i == 12 { assert Next(Scene(v, 12), Script(12)) == Scene(v, 13); }
    if i == 13 { assert Next(Scene(v, 13), Script(13)) == Scene(v, 14); }
    if i == 14 { assert Next(Scene(v, 14), Script(14)) == Scene(v, 15); }
  }

  lemma WaiterReturns(v: int, i: nat)
    requires v <= 0 && 15 <= i < 20
    ensures Enabled(Scene(v, i), Script(i)) && Next(Scene(v, i), Script(i)) == Scene(v, i + 1)
  {
    if i == 15 { assert Next(Scene(v, 15), Script(15)) == Scene(v, 16); }
    if i == 16 { assert Next(Scene(v, 16), Script(16)) == Scene(v, 17); }
    if i == 17 { assert Next(Scene(v, 17), Script(17)) == Scene(v, 18); }
    if i == 18 { assert Next(Scene(v, 18), Script(18)) == Scene(v, 19); }
    if i == 19 { assert Next(Scene(v, 19), Script(19)) == Scene(v, 20); }
  }

  lemma {:induction false} ScriptRuns(v: int, i: nat, n: nat) returns (run: seq<Action>)
    requires v <= 0 && i <= n <= 20
    ensures Legal(Scene(v, i), run) && Exec(Scene(v, i), run) == Scene(v, n)
    decreases n - i
  {
    if i == n {
      run := [];
    } else {
      var rest := ScriptRuns(v, i + 1, n);
      run := [Script(i)] + rest;
      if i < 8 { WaiterSleeps(v, i); } else if i < 12 { SignallerCounts(v, i); } else if i < 15 { SignallerWakes(v, i); } else { WaiterReturns(v, i); }
      assert run[1..] == rest;
    }
  }

  /** The gap is reached: guard free, count -1, and nobody in the queue yet. */
  lemma GapExists() returns (run: seq<Action>)
    ensures Init(Scene(0, 0), 0) && Legal(Scene(0, 0), run)
    ensures var r := Exec(Scene(0, 0), run);
      r.guard == Nobody && r.count == -1 && r.queue == [] && |r.queue| != Deficit(r.count)
  {
    run := ScriptRuns(0, 0, 5);
  }

  ghost predicate SupplyBound(init: int) {
    forall s, run :: Init(s, init) && Legal(s, run) ==> Exec(s, run).completed <= init + Exec(s, run).signals
  }

  /** The supply bound holds for every run exactly when the initial value is not negative. */
  lemma SupplyBoundIff(init: int)
    ensures SupplyBound(init) <==> init >= 0
  {
    if init >= 0 {
      forall s, run | Init(s, init) && Legal(s, run)
        ensures Exec(s, run).completed <= init + Exec(s, run).signals
      {
        CompletedNeverExceedsSupply(s, run, init);
      }
    } else {
      var s0 := Scene(init, 0);
      var run := ScriptRuns(init, 0, 20);
      assert Init(s0, init) && Exec(s0, run) == Scene(init, 20);
    }
  }
}
