/**
  Starvation freedom of the priority round-robin scheduler with a numeric bound,
  over every run of the operations that touch the process queues, and the one
  threshold for which it fails.
 */
module BoundedWaiting {
  import opened SeqUtil
  import opened SchedState
  import opened Ageing

  /** wakeup_all and sched_run_all are repetitions of Wake and Run. */
  datatype Event =
    | Tick                       // clock_interrupt_handler, with its yield
    | Yield
    | Sleep(chan: nat)
    | Wake(chan: nat)
    | Create(p: Pid)
    | Run(p: Pid)
    | Leave                      // the running process exits
    | Remove(p: Pid)             // a ready process is exited
    | Prioritise(p: Pid, k: nat)
    | Kill(p: Pid)               // a new, ready or exited process is killed
    | Idle                       // fos_scheduler looks for work on an idle CPU

  ghost predicate Enabled(s: State, e: Event)
    requires Inv(s)
  {
    match e
    case Tick => true
    case Yield => s.cpu.Some?
    case Sleep(c) => s.cpu.Some? && c < |s.chans|
    case Wake(c) => c < |s.chans|
    case Create(p) => p < |s.status| && s.status[p] == Free
    case Run(p) => p < |s.status| && s.status[p] == New
    case Leave => s.cpu.Some?
    case Remove(p) => p < |s.status| && s.status[p] == Ready
    case Prioritise(p, k) => p < |s.status| && k < |s.ready|
    case Kill(p) => p < |s.status| && s.status[p] in {New, Ready, Exit}
    case Idle => s.cpu == None
  }

  /** The fields no operation resizes, and the invariant. */
  ghost predicate SameShape(s: State, r: State) {
    Inv(r) && |r.ready| == |s.ready| && |r.status| == |s.status| && r.thresh == s.thresh
  }

  /** The running process, if any, goes to the back of its queue and the next one is chosen. */
  ghost function YieldNow(s: State): (r: State)
    requires Inv(s)
    ensures SameShape(s, r)
  {
    if s.cpu == None then s
    else
      RequeueKeepsInv(s);
      DispatchKeepsInv(Requeue(s));
      Dispatch(Requeue(s))
  }

  ghost function TickNow(s: State): (r: State)
    requires Inv(s) && |s.ready| > 0
    ensures SameShape(s, r)
  {
    AgedKeepsInv(s);
    YieldNow(Aged(s))
  }

  ghost function SleepNow(s: State, c: nat): (r: State)
    requires Inv(s) && s.cpu.Some? && c < |s.chans|
    ensures SameShape(s, r)
  {
    BlockKeepsInv(s, c);
    DispatchKeepsInv(BlockOn(s, c));
    Dispatch(BlockOn(s, c))
  }

  ghost function LeaveNow(s: State): (r: State)
    requires Inv(s) && s.cpu.Some?
    ensures SameShape(s, r)
  {
    ExitRunningKeepsInv(s);
    DispatchKeepsInv(ExitRunning(s));
    Dispatch(ExitRunning(s))
  }

  // ---------- What happens to the process that gives up the CPU ----------

  /** Dispatching leaves everybody who is not ready alone, and every queue but the ready ones. */
  lemma DispatchLeaves(s: State)
    requires Inv(s) && s.cpu == None && CanDispatch(s)
    ensures var t := Dispatch(s);
      && t.chans == s.chans && t.newQ == s.newQ && t.exitQ == s.exitQ && t.channel == s.channel && t.prio == s.prio
      && |t.status| == |s.status| == |t.starv| && t.thresh == s.thresh
      && (forall x: Pid :: x < |s.status| ==>
            if t.cpu == Some(x) then s.status[x] == Ready && t.status[x] == Running && t.starv[x] == 0
            else t.status[x] == s.status[x] && t.starv[x] == s.starv[x])
  {
    var level := FirstNonEmpty(s.ready);
    if level < |s.ready| {
      var p := s.ready[level][|s.ready[level]| - 1];
      assert IsQueue(s, InReady(level)) && Agrees(s, InReady(level)) && p in Queue(s, InReady(level));
    }
  }

  /** The sleeper is the newest node of its channel and of no other queue. */
  lemma SleepEffect(s: State, c: nat)
    requires Inv(s) && s.cpu.Some? && c < |s.chans|
    ensures var p, t := s.cpu.value, SleepNow(s, c);
      && p < |s.status| == |t.status| == |t.channel| && t.cpu != Some(p)
      && t.chans == s.chans[c := [p] + s.chans[c]] && t.channel == s.channel[p := Some(c)] && t.status[p] == Blocked
      && t.newQ == s.newQ && t.exitQ == s.exitQ && t.prio == s.prio
  {
    OnCpuFacts(s);
    BlockKeepsInv(s, c);
    InvCanDispatch(BlockOn(s, c));
    DispatchLeaves(BlockOn(s, c));
  }

  /** A yielding process is chosen again, or is the newest of its ready queue with its counter as it was. */
  lemma YieldEffect(s: State)
    requires Inv(s) && s.cpu.Some?
    ensures var p, t := s.cpu.value, YieldNow(s);
      && p < |s.status| == |t.status| == |t.starv| == |t.prio|
      && t.chans == s.chans && t.newQ == s.newQ && t.exitQ == s.exitQ && t.channel == s.channel && t.prio == s.prio
      && t.cpu.Some?
      && (t.cpu == Some(p) ||
          (t.status[p] == Ready && t.starv[p] == s.starv[p]
           && t.prio[p] < |t.ready| && t.ready[t.prio[p]] != [] && t.ready[t.prio[p]][0] == p))
  {
    OnCpuFacts(s);
    RequeueKeepsInv(s);
    var r, p := Requeue(s), s.cpu.value;
    InvCanDispatch(r);
    DispatchLeaves(r);
    assert r.ready[s.prio[p]][0] == p;
  }

  /** A tick ages first: the process that ran is not aged by the tick that preempts it. */
  lemma TickEffect(s: State)
    requires Inv(s) && |s.ready| > 0
    ensures s.cpu == None ==> TickNow(s) == Aged(s)
    ensures s.cpu.Some? ==> var p, t := s.cpu.value, TickNow(s);
      && p < |s.status| == |t.status| == |t.starv| == |t.prio|
      && (t.cpu == Some(p) || (t.status[p] == Ready && t.starv[p] == s.starv[p] && t.prio[p] == s.prio[p]))
  {
    AgedKeepsInv(s);
    if s.cpu.Some? {
      OnCpuFacts(s);
      YieldEffect(Aged(s));
    }
  }

  /** An exiting process is the newest of the EXIT queue. */
  lemma LeaveEffect(s: State)
    requires Inv(s) && s.cpu.Some?
    ensures var p, t := s.cpu.value, LeaveNow(s);
      && p < |s.status| == |t.status| && t.status[p] == Exit && t.cpu != Some(p)
      && t.exitQ == [p] + s.exitQ && t.newQ == s.newQ && t.chans == s.chans && t.prio == s.prio
  {
    OnCpuFacts(s);
    ExitRunningKeepsInv(s);
    InvCanDispatch(ExitRunning(s));
    DispatchLeaves(ExitRunning(s));
  }

  ghost function Step(s: State, e: Event): (r: State)
    requires Inv(s) && Enabled(s, e) && |s.ready| > 0
    ensures SameShape(s, r)
  {
    match e
    case Tick => TickNow(s)
    case Yield => YieldNow(s)
    case Sleep(c) => SleepNow(s, c)
    case Wake(c) => WakeOneKeepsInv(s, c); WakeOne(s, c)
    case Create(p) => NewEnvKeepsInv(s, p); NewEnv(s, p)
    case Run(p) => RunEnvKeepsInv(s, p); RunEnv(s, p)
    case Leave => LeaveNow(s)
    case Remove(p) => ExitReadyKeepsInv(s, p); ExitReady(s, p)
    case Prioritise(p, k) => SetPriorityKeepsInv(s, p, k); SetPriority(s, p, k)
    case Kill(p) => KillKeepsInv(s, p); SchedState.Kill(s, p)
    case Idle => DispatchKeepsInv(s); Dispatch(s)
  }

  // ---------- Runs ----------

  ghost predicate Legal(s: State, es: seq<Event>)
    requires Inv(s) && |s.ready| > 0
    decreases |es|
  {
    es == [] || (Enabled(s, es[0]) && Legal(Step(s, es[0]), es[1..]))
  }

  ghost function Exec(s: State, es: seq<Event>): (r: State)
    requires Inv(s) && |s.ready| > 0 && Legal(s, es)
    ensures SameShape(s, r)
    decreases |es|
  {
    if es == [] then s else Exec(Step(s, es[0]), es[1..])
  }

  /** Clock ticks of a run that find a process on the CPU. */
  ghost function RunningTicks(s: State, es: seq<Event>): nat
    requires Inv(s) && |s.ready| > 0 && Legal(s, es)
    decreases |es|
  {
    if es == [] then 0
    else (if es[0] == Tick && s.cpu.Some? then 1 else 0) + RunningTicks(Step(s, es[0]), es[1..])
  }

  /** Somebody sets the priority of w, or exits or kills it while it waits. */
  predicate Disturbs(e: Event, w: Pid) {
    (e.Remove? || e.Prioritise? || e.Kill?) && e.p == w
  }

  /** w waits, with a counter the ageing pass has not yet acted on. */
  ghost predicate Waiting(s: State, w: Pid)
    requires Sized(s)
  {
    w < |s.status| && s.status[w] == Ready && (s.prio[w] > 0 ==> s.starv[w] <= s.thresh)
  }

  // ---------- Progress measure ----------

  /** How many processes of its queue are dispatched before w. */
  function Ahead(q: seq<Pid>, w: Pid): nat
    requires w in q
  {
    var last := |q| - 1;
    if q[last] == w then 0
    else
      assert q == q[..last] + [q[last]];
      1 + Ahead(q[..last], w)
  }

  lemma {:induction false} AheadBound(q: seq<Pid>, w: Pid)
    requires w in q
    ensures Ahead(q, w) < |q|
  {
    var last := |q| - 1;
    if q[last] != w {
      assert q == q[..last] + [q[last]];
      AheadBound(q[..last], w);
    }
  }

  /** Whoever enters the queue enters behind w. */
  lemma {:induction false} AheadPrefix(a: seq<Pid>, q: seq<Pid>, w: Pid)
    requires w in q
    ensures Ahead(a + q, w) == Ahead(q, w)
  {
    var last := |q| - 1;
    if q[last] != w {
      assert q == q[..last] + [q[last]];
      AheadPrefix(a, q[..last], w);
      assert (a + q)[..|a + q| - 1] == a + q[..last];
    }
  }

  /** Unlinking somebody else brings w no further from the tail. */
  lemma {:induction false} AheadDrop(q: seq<Pid>, w: Pid, x: Pid)
    requires w in q && w != x
    ensures w in Drop(q, {x}) && Ahead(Drop(q, {x}), w) <= Ahead(q, w)
  {
    var last := |q| - 1;
    DropMembers(q, {x});
    var front := q[..last];
    assert q == front + [q[last]];
    DropConcat(front, [q[last]], {x});
    if q[last] == x {
      assert Drop([q[last]], {x}) == [];
      assert Drop(q, {x}) == Drop(front, {x});
      AheadDrop(front, w, x);
    } else {
      assert Drop([q[last]], {x}) == [q[last]];
      var d := Drop(q, {x});
      assert d == Drop(front, {x}) + [q[last]] && d[..|d| - 1] == Drop(front, {x});
      if q[last] != w {
        AheadDrop(front, w, x);
      }
    }
  }

  /** Running ticks that may still pass before w is dispatched. */
  ghost function Budget(s: State, w: Pid): int
    requires Inv(s) && Waiting(s, w)
  {
    WaitingInQueue(s, w);
    if s.prio[w] > 0 then s.prio[w] * (s.thresh + 1) - s.starv[w] + |s.status| - 1
    else Ahead(s.ready[0], w) + 1
  }

  lemma WaitingInQueue(s: State, w: Pid)
    requires Inv(s) && Waiting(s, w)
    ensures w in s.ready[s.prio[w]]
  {
    ReadyIsLinked(s, w);
  }

  /** A ready queue holds at most the processes that are not running. */
  lemma QueueBound(s: State, i: nat)
    requires Inv(s) && i < |s.ready|
    ensures |s.ready[i]| <= |s.status| - (if s.cpu.Some? then 1 else 0)
  {
    var all := Upto(|s.status|);
    assert IsQueue(s, InReady(i)) && Agrees(s, InReady(i));
    forall p | p in s.ready[i]
      ensures p in all && (s.cpu.Some? ==> p != s.cpu.value)
    {
      assert p in Queue(s, InReady(i));
      if s.cpu.Some? { OnCpuFacts(s); }
    }
    if s.cpu.Some? {
      OnCpuFacts(s);
      NoDupBound(s.ready[i], all - {s.cpu.value});
    } else {
      NoDupBound(s.ready[i], all);
    }
  }

  // ---------- What each operation does to the waiting process ----------

  /** w is as before and nobody has overtaken it. */
  ghost predicate NoWorse(s: State, t: State, w: Pid)
    requires Inv(s) && Inv(t) && Waiting(s, w)
  {
    && |t.status| == |s.status| && t.thresh == s.thresh
    && Waiting(t, w) && t.prio[w] == s.prio[w] && t.starv[w] == s.starv[w]
    && Budget(t, w) <= Budget(s, w)
  }

  lemma EnteringIsNoWorse(s: State, t: State, w: Pid, x: Pid)
    requires Inv(s) && Inv(t) && Waiting(s, w) && |s.ready| > 0
    requires |t.status| == |s.status| && t.thresh == s.thresh && |t.ready| == |s.ready|
    requires t.status[w] == Ready && t.prio[w] == s.prio[w] && t.starv[w] == s.starv[w]
    requires t.ready[0] == s.ready[0] || t.ready[0] == [x] + s.ready[0]
    ensures NoWorse(s, t, w)
  {
    WaitingInQueue(s, w);
    if s.prio[w] == 0 {
      AheadPrefix([x], s.ready[0], w);
    }
  }

  lemma LeavingIsNoWorse(s: State, t: State, w: Pid, x: Pid)
    requires Inv(s) && Inv(t) && Waiting(s, w) && |s.ready| > 0 && x != w
    requires |t.status| == |s.status| && t.thresh == s.thresh && |t.ready| == |s.ready|
    requires t.status[w] == Ready && t.prio[w] == s.prio[w] && t.starv[w] == s.starv[w]
    requires var q := Drop(s.ready[0], {x});
      t.ready[0] == s.ready[0] || t.ready[0] == q || t.ready[0] == [x] + q || t.ready[0] == [x] + s.ready[0]
    ensures NoWorse(s, t, w)
  {
    WaitingInQueue(s, w);
    if s.prio[w] == 0 {
      AheadDrop(s.ready[0], w, x);
      AheadPrefix([x], Drop(s.ready[0], {x}), w);
      AheadPrefix([x], s.ready[0], w);
    }
  }

  /** Choosing the next process: w itself, or one step nearer if w is in the first queue. */
  lemma DispatchProgress(s: State, w: Pid)
    requires Inv(s) && s.cpu == None && Waiting(s, w)
    ensures CanDispatch(s) && Inv(Dispatch(s))
    ensures Dispatch(s).cpu == Some(w) ||
            (NoWorse(s, Dispatch(s), w) &&
             (s.prio[w] == 0 ==> Budget(Dispatch(s), w) == Budget(s, w) - 1))
  {
    DispatchKeepsInv(s);
    WaitingInQueue(s, w);
    var t := Dispatch(s);
    var i := FirstNonEmpty(s.ready);
    assert i <= s.prio[w];
    var p := s.ready[i][|s.ready[i]| - 1];
    if p != w {
      assert t.status[w] == Ready && t.prio == s.prio && t.starv[w] == s.starv[w];
      if s.prio[w] == 0 {
        assert i == 0 && t.ready[0] == s.ready[0][..|s.ready[0]| - 1];
        assert Ahead(s.ready[0], w) == 1 + Ahead(t.ready[0], w);
      }
    }
  }

  lemma YieldProgress(s: State, w: Pid)
    requires Inv(s) && Waiting(s, w) && |s.ready| > 0
    ensures YieldNow(s).cpu == Some(w) ||
            (NoWorse(s, YieldNow(s), w) &&
             (s.cpu.Some? && s.prio[w] == 0 ==> Budget(YieldNow(s), w) == Budget(s, w) - 1))
  {
    if s.cpu.Some? {
      OnCpuFacts(s);
      RequeueKeepsInv(s);
      var t := Requeue(s);
      EnteringIsNoWorse(s, t, w, s.cpu.value);
      if s.prio[w] == 0 {
        WaitingInQueue(s, w);
        AheadPrefix([s.cpu.value], s.ready[0], w);
      }
      DispatchProgress(t, w);
    }
  }

  /** In the first queue ageing changes nothing for w: newcomers enter behind it. */
  lemma AgedInFirstQueue(s: State, w: Pid)
    requires Inv(s) && Waiting(s, w) && s.prio[w] == 0
    ensures Inv(Aged(s)) && Waiting(Aged(s), w) && Aged(s).prio[w] == 0
    ensures Budget(Aged(s), w) == Budget(s, w)
  {
    AgedKeepsInv(s);
    WaitingInQueue(s, w);
    AgedFirstQueue(s);
    var newcomers := Reverse(Keep(if 1 < |s.ready| then s.ready[1] else [], Promoted(s)));
    assert Aged(s).ready[0] == newcomers + s.ready[0];
    AheadPrefix(newcomers, s.ready[0], w);
  }

  /** Past the first queue ageing takes one from the budget, by the counter or by a promotion. */
  lemma AgedAboveFirstQueue(s: State, w: Pid)
    requires Inv(s) && Waiting(s, w) && s.prio[w] > 0 && s.thresh < U32_MAX
    ensures Inv(Aged(s)) && Waiting(Aged(s), w)
    ensures Budget(Aged(s), w) <= Budget(s, w) - (if s.cpu.Some? then 1 else 0)
  {
    AgedKeepsInv(s);
    if !Promotes(s, w) {
      assert Aged(s).starv[w] == s.starv[w] + 1 && Aged(s).prio[w] == s.prio[w];
    } else {
      PromotedBudget(s, w);
    }
  }

  lemma PromotedBudget(s: State, w: Pid)
    requires Inv(s) && Inv(Aged(s)) && Waiting(s, w) && Promotes(s, w)
    ensures Waiting(Aged(s), w)
    ensures Budget(Aged(s), w) <= Budget(s, w) - (if s.cpu.Some? then 1 else 0)
  {
    var t := Aged(s);
    assert t.starv[w] == 0 && t.prio[w] == s.prio[w] - 1 && s.starv[w] == s.thresh;
    LevelUp(s, t, w);
  }

  /** Going one level up with a fresh counter costs less than it gains. */
  lemma LevelUp(s: State, t: State, w: Pid)
    requires Inv(s) && Waiting(s, w) && Inv(t) && Waiting(t, w) && s.prio[w] > 0
    requires t.starv[w] == 0 && t.prio[w] == s.prio[w] - 1 && s.starv[w] == s.thresh
    requires t.thresh == s.thresh && t.cpu == s.cpu && |t.status| == |s.status|
    ensures Budget(t, w) <= Budget(s, w) - (if s.cpu.Some? then 1 else 0)
  {
    NextLevel(s.prio[w], s.thresh + 1);
    if t.prio[w] == 0 {
      WaitingInQueue(t, w);
      AheadBound(t.ready[0], w);
      QueueBound(t, 0);
    }
  }

  lemma NextLevel(k: int, t: int)
    ensures k * t == (k - 1) * t + t
  {}

  /** One tick of ageing takes one from the budget until w reaches the first queue. */
  lemma AgedProgress(s: State, w: Pid)
    requires Inv(s) && Waiting(s, w) && s.thresh < U32_MAX
    ensures Inv(Aged(s)) && Waiting(Aged(s), w)
    ensures s.prio[w] == 0 ==> Aged(s).prio[w] == 0 && Budget(Aged(s), w) == Budget(s, w)
    ensures s.prio[w] > 0 ==> Budget(Aged(s), w) <= Budget(s, w) - (if s.cpu.Some? then 1 else 0)
  {
    if s.prio[w] == 0 {
      AgedInFirstQueue(s, w);
    } else {
      AgedAboveFirstQueue(s, w);
    }
  }

  lemma AgedFirstQueue(s: State)
    requires Inv(s) && |s.ready| > 0
    ensures Drop(s.ready[0], Promoted(s)) == s.ready[0]
  {
    assert IsQueue(s, InReady(0)) && Agrees(s, InReady(0));
    forall p | p in s.ready[0]
      ensures p !in Promoted(s)
    {
      assert p in Queue(s, InReady(0));
    }
    DropNone(s.ready[0], Promoted(s));
  }

  lemma TickProgress(s: State, w: Pid)
    requires Inv(s) && Waiting(s, w) && s.thresh < U32_MAX && |s.ready| > 0
    ensures var t := Step(s, Tick);
      t.cpu == Some(w) ||
      (Waiting(t, w) && Budget(t, w) <= Budget(s, w) - (if s.cpu.Some? then 1 else 0))
  {
    AgedProgress(s, w);
    YieldProgress(Aged(s), w);
  }

  lemma WakeProgress(s: State, w: Pid, c: nat)
    requires Inv(s) && Waiting(s, w) && |s.ready| > 0 && c < |s.chans|
    ensures Inv(WakeOne(s, c)) && NoWorse(s, WakeOne(s, c), w)
  {
    WakeOneKeepsInv(s, c);
    if s.chans[c] != [] {
      assert IsQueue(s, OnChan(c)) && Agrees(s, OnChan(c));
      var x := s.chans[c][|s.chans[c]| - 1];
      assert x in Queue(s, OnChan(c));
      EnteringIsNoWorse(s, WakeOne(s, c), w, x);
    }
  }

  lemma BlockProgress(s: State, w: Pid, c: nat)
    requires Inv(s) && Waiting(s, w) && |s.ready| > 0 && c < |s.chans| && s.cpu.Some?
    ensures Step(s, Sleep(c)).cpu == Some(w) || NoWorse(s, Step(s, Sleep(c)), w)
  {
    OnCpuFacts(s);
    BlockKeepsInv(s, c);
    EnteringIsNoWorse(s, BlockOn(s, c), w, 0);
    DispatchProgress(BlockOn(s, c), w);
  }

  lemma LeaveProgress(s: State, w: Pid)
    requires Inv(s) && Waiting(s, w) && |s.ready| > 0 && s.cpu.Some?
    ensures Step(s, Leave).cpu == Some(w) || NoWorse(s, Step(s, Leave), w)
  {
    OnCpuFacts(s);
    ExitRunningKeepsInv(s);
    EnteringIsNoWorse(s, ExitRunning(s), w, 0);
    DispatchProgress(ExitRunning(s), w);
  }

  lemma PrioritiseProgress(s: State, w: Pid, x: Pid, k: nat)
    requires Inv(s) && Waiting(s, w) && |s.ready| > 0 && x < |s.status| && k < |s.ready| && x != w
    ensures Inv(SetPriority(s, x, k)) && NoWorse(s, SetPriority(s, x, k), w)
  {
    SetPriorityKeepsInv(s, x, k);
    LeavingIsNoWorse(s, SetPriority(s, x, k), w, x);
  }

  /** Every undisturbing operation dispatches w or spends the budget only on running ticks. */
  lemma StepProgress(s: State, w: Pid, e: Event)
    requires Inv(s) && Waiting(s, w) && s.thresh < U32_MAX && |s.ready| > 0
    requires Enabled(s, e) && !Disturbs(e, w)
    ensures var t := Step(s, e);
      t.cpu == Some(w) ||
      (Waiting(t, w) && Budget(t, w) <= Budget(s, w) - (if e == Tick && s.cpu.Some? then 1 else 0))
  {
    match e
    case Tick => TickProgress(s, w);
    case Yield => YieldProgress(s, w);
    case Sleep(c) => BlockProgress(s, w, c);
    case Wake(c) => WakeProgress(s, w, c);
    case Create(p) => EnteringIsNoWorse(s, Step(s, e), w, 0);
    case Run(p) => EnteringIsNoWorse(s, Step(s, e), w, p);
    case Leave => LeaveProgress(s, w);
    case Remove(p) => LeavingIsNoWorse(s, Step(s, e), w, p);
    case Prioritise(p, k) => PrioritiseProgress(s, w, p, k);
    case Kill(p) => LeavingIsNoWorse(s, Step(s, e), w, p);
    case Idle => DispatchProgress(s, w);
  }

  // ---------- Main results ----------

  lemma {:induction false} DispatchedWithinBudget(s: State, es: seq<Event>, w: Pid) returns (k: nat)
    requires Inv(s) && Waiting(s, w) && s.thresh < U32_MAX && |s.ready| > 0 && Legal(s, es)
    requires forall e :: e in es ==> !Disturbs(e, w)
    requires RunningTicks(s, es) >= Budget(s, w)
    ensures 0 < k <= |es| && Legal(s, es[..k]) && Exec(s, es[..k]).cpu == Some(w)
    decreases |es|
  {
    WaitingInQueue(s, w);
    BudgetPositive(s, w);
    var e, t := es[0], Step(s, es[0]);
    StepProgress(s, w, e);
    if t.cpu == Some(w) {
      k := 1;
      assert es[..1][1..] == [];
      assert Legal(t, []) && Exec(t, []) == t;
    } else {
      var j := DispatchedWithinBudget(t, es[1..], w);
      k := j + 1;
      assert es[..k][1..] == es[1..][..j];
    }
  }

  lemma BudgetPositive(s: State, w: Pid)
    requires Inv(s) && Waiting(s, w)
    ensures Budget(s, w) >= 1
  {
    if s.prio[w] > 0 {
      assert s.prio[w] * (s.thresh + 1) >= s.thresh + 1 by {
        assert s.prio[w] * (s.thresh + 1) == (s.prio[w] - 1) * (s.thresh + 1) + (s.thresh + 1);
        assert (s.prio[w] - 1) * (s.thresh + 1) >= 0;
      }
    }
  }

  /**
    Bounded waiting. With threshold T below the largest 32-bit value and N
    processes, a process made ready at priority p is on the CPU before
    p*(T+1) + N running ticks have passed, whatever the others do, unless somebody
    sets its priority or exits it.
   */
  lemma BoundedWaiting(s: State, es: seq<Event>, w: Pid)
    requires Inv(s) && |s.ready| > 0 && Legal(s, es)
    requires w < |s.status| && s.status[w] == Ready && s.starv[w] == 0
    requires s.thresh < U32_MAX
    requires forall e :: e in es ==> !Disturbs(e, w)
    requires RunningTicks(s, es) >= s.prio[w] * (s.thresh + 1) + |s.status|
    ensures exists k :: 0 < k <= |es| && Legal(s, es[..k]) && Exec(s, es[..k]).cpu == Some(w)
  {
    InitialBudget(s, w);
    var k := DispatchedWithinBudget(s, es, w);
  }

  lemma InitialBudget(s: State, w: Pid)
    requires Inv(s) && Waiting(s, w) && s.starv[w] == 0
    ensures Budget(s, w) <= s.prio[w] * (s.thresh + 1) + |s.status|
  {
    if s.prio[w] == 0 {
      WaitingInQueue(s, w);
      AheadBound(s.ready[0], w);
      QueueBound(s, 0);
    }
  }

  /** Every reachable state satisfies the one-place-per-process invariant. */
  lemma RunKeepsInv(s: State, es: seq<Event>, p: Pid, a: Place, b: Place)
    requires Inv(s) && |s.ready| > 0 && Legal(s, es)
    requires var r := Exec(s, es);
      IsQueue(r, a) && IsQueue(r, b) && p in Queue(r, a) && p in Queue(r, b)
    ensures var r := Exec(s, es);
      a == b && NoDup(Queue(r, a)) && p < |r.status| && PlaceOf(r, p) == a
  {
    LinkedAtMostOnce(Exec(s, es), p, a, b);
  }

  // ---------- The excluded threshold ----------

  /** A process of better priority runs, and no other process of better priority than w waits. */
  ghost predicate Overshadowed(s: State, w: Pid)
    requires Inv(s)
  {
    && w < |s.status| && s.status[w] == Ready
    && s.cpu.Some? && s.cpu.value < |s.status| && s.prio[s.cpu.value] < s.prio[w]
    && (forall i :: 0 <= i < s.prio[w] ==> s.ready[i] == [])
  }

  ghost function Ticks(m: nat): seq<Event> { seq(m, _ => Tick) }

  lemma {:induction false} KeepNone(q: seq<Pid>)
    ensures Keep(q, {}) == []
  {
    if q != [] { KeepNone(q[1..]); }
  }

  lemma AgedNothing(s: State)
    requires Inv(s) && s.thresh == U32_MAX
    ensures Aged(s).ready == s.ready && Aged(s).prio == s.prio
  {
    NoPromotionAtLargestThreshold(s);
    forall i | 0 <= i < |s.ready|
      ensures AgedQueue(s, i) == s.ready[i]
    {
      KeepNone(if i + 1 < |s.ready| then s.ready[i + 1] else []);
      DropNone(s.ready[i], {});
    }
  }

  /** A running process that nobody of its priority or better waits for is chosen again. */
  lemma YieldAlone(s: State)
    requires Inv(s) && s.cpu.Some? && s.cpu.value < |s.status|
    requires forall i :: 0 <= i <= s.prio[s.cpu.value] ==> s.ready[i] == []
    ensures var t := YieldNow(s);
      t.cpu == s.cpu && t.ready == s.ready && t.prio == s.prio && t.status == s.status
  {
    OnCpuFacts(s);
    RequeueKeepsInv(s);
    var h, r := s.cpu.value, Requeue(s);
    DispatchKeepsInv(r);
    assert r.ready[s.prio[h]] == [h];
    assert FirstNonEmpty(r.ready) == s.prio[h];
    assert Dispatch(r).ready == s.ready && Dispatch(r).status == s.status;
  }

  lemma OvershadowedTick(s: State, w: Pid)
    requires Inv(s) && |s.ready| > 0 && s.thresh == U32_MAX && Overshadowed(s, w)
    ensures Overshadowed(Step(s, Tick), w) && Step(s, Tick).cpu == s.cpu
  {
    AgedKeepsInv(s);
    AgedNothing(s);
    YieldAlone(Aged(s));
  }

  /** With that threshold an overshadowed process waits through any number of running ticks. */
  lemma {:induction false} StarvedAtLargestThreshold(s: State, w: Pid, m: nat)
    requires Inv(s) && |s.ready| > 0 && s.thresh == U32_MAX && Overshadowed(s, w)
    ensures Legal(s, Ticks(m)) && RunningTicks(s, Ticks(m)) == m
    ensures Exec(s, Ticks(m)).cpu != Some(w) && Exec(s, Ticks(m)).status[w] == Ready
    decreases m
  {
    if m > 0 {
      OvershadowedTick(s, w);
      StarvedAtLargestThreshold(Step(s, Tick), w, m - 1);
      TickFirst(s, m - 1);
    }
  }

  /** One tick, then m more. */
  lemma TickFirst(s: State, m: nat)
    requires Inv(s) && |s.ready| > 0 && s.cpu.Some? && Legal(Step(s, Tick), Ticks(m))
    ensures Legal(s, Ticks(m + 1)) && Exec(s, Ticks(m + 1)) == Exec(Step(s, Tick), Ticks(m))
    ensures RunningTicks(s, Ticks(m + 1)) == 1 + RunningTicks(Step(s, Tick), Ticks(m))
  {
    assert Ticks(m + 1)[1..] == Ticks(m) && Ticks(m + 1)[0] == Tick;
  }

  /** Such a state exists: process 0 runs at priority 0 and process 1 waits at priority 1. */
  lemma OvershadowedExists(s: State)
    requires s == State([[], [1]], [], [], [], Some(0), [Running, Ready], [None, None], [0, 1], [0, 0], U32_MAX)
    ensures Inv(s) && Overshadowed(s, 1)
  {
    forall place | IsQueue(s, place)
      ensures Agrees(s, place)
    {
      match place
      case InReady(i) => assert i == 0 || i == 1;
      case _ =>
    }
  }

  // ---------- The exact condition on the threshold ----------

  ghost predicate DispatchedIn(s: State, es: seq<Event>, w: Pid)
    requires Inv(s) && |s.ready| > 0 && Legal(s, es)
  {
    exists k :: 0 < k <= |es| && Legal(s, es[..k]) && Exec(s, es[..k]).cpu == Some(w)
  }

  /** s, es and w are as BoundedWaiting asks, under the given threshold. */
  ghost predicate LongWait(thresh: nat, s: State, es: seq<Event>, w: Pid) {
    && Inv(s) && |s.ready| > 0 && Legal(s, es) && s.thresh == thresh
    && w < |s.status| && s.status[w] == Ready && s.starv[w] == 0
    && (forall e :: e in es ==> !Disturbs(e, w))
    && RunningTicks(s, es) >= s.prio[w] * (thresh + 1) + |s.status|
  }

  ghost predicate StarvationFree(thresh: nat) {
    forall s, es, w :: LongWait(thresh, s, es, w) ==> DispatchedIn(s, es, w)
  }

  lemma OvershadowedStarves(s: State, w: Pid, m: nat)
    requires Inv(s) && |s.ready| > 0 && s.thresh == U32_MAX && Overshadowed(s, w) && s.starv[w] == 0
    requires m >= s.prio[w] * (U32_MAX + 1) + |s.status|
    ensures LongWait(U32_MAX, s, Ticks(m), w) && !DispatchedIn(s, Ticks(m), w)
  {
    var es := Ticks(m);
    StarvedAtLargestThreshold(s, w, m);
    forall k | 0 < k <= |es| && Legal(s, es[..k])
      ensures Exec(s, es[..k]).cpu != Some(w)
    {
      assert es[..k] == Ticks(k);
      StarvedAtLargestThreshold(s, w, k);
    }
  }

  lemma LargestThresholdStarves()
    ensures !StarvationFree(U32_MAX)
  {
    var s := State([[], [1]], [], [], [], Some(0), [Running, Ready], [None, None], [0, 1], [0, 0], U32_MAX);
    OvershadowedExists(s);
    OvershadowedStarves(s, 1, U32_MAX + 3);
  }

  /** Among the 32-bit thresholds exactly the largest one lets a process starve. */
  lemma StarvationFreeIff(thresh: nat)
    requires thresh <= U32_MAX
    ensures StarvationFree(thresh) <==> thresh < U32_MAX
  {
    if thresh < U32_MAX {
      SmallerThresholdFree(thresh);
    } else {
      LargestThresholdStarves();
    }
  }

  lemma SmallerThresholdFree(thresh: nat)
    requires thresh < U32_MAX
    ensures StarvationFree(thresh)
  {
    forall s, es, w | LongWait(thresh, s, es, w)
      ensures DispatchedIn(s, es, w)
    {
      LongWaitEnds(thresh, s, es, w);
    }
  }

  lemma LongWaitEnds(thresh: nat, s: State, es: seq<Event>, w: Pid)
    requires thresh < U32_MAX && LongWait(thresh, s, es, w)
    ensures DispatchedIn(s, es, w)
  {
    BoundedWaiting(s, es, w);
  }
}
