/**
  The scheduler's own loops and updates on its global queues, each proved to
  leave the state that SchedState, Ageing and BoundedWaiting describe.
 */
module SchedulerQueues {
  import opened SeqUtil
  import S = SchedState
  import opened Ageing
  import BW = BoundedWaiting

  type Pid = S.Pid

  /** The le_next link of a node of a list. */
  function Next(q: seq<Pid>, p: Pid): Option<Pid>
  {
    if q == [] then None
    else if q[0] == p then (if |q| > 1 then Some(q[1]) else None)
    else Next(q[1..], p)
  }

  lemma {:induction false} NextAfter(a: seq<Pid>, b: seq<Pid>, p: Pid)
    requires p !in a
    ensures Next(a + ([p] + b), p) == if b == [] then None else Some(b[0])
  {
    if a == [] {
      assert a + ([p] + b) == [p] + b;
    } else {
      NextAfter(a[1..], b, p);
      assert (a + ([p] + b))[1..] == a[1..] + ([p] + b);
    }
  }

  /** Before the node is processed, its link leads to the next node of the original queue. */
  lemma WalkNext(s: S.State, i: nat, k: nat)
    requires S.Inv(s) && i < |s.ready| && k < |s.ready[i]|
    ensures Next(Partial(s, i, k).ready[i], s.ready[i][k]) ==
            if k + 1 < |s.ready[i]| then Some(s.ready[i][k + 1]) else None
  {
    var q, up := s.ready[i], Promoted(s);
    assert S.IsQueue(s, S.InReady(i)) && S.Agrees(s, S.InReady(i));
    DropMembers(q[..k], up);
    assert q[k..] == [q[k]] + q[k + 1..];
    NextAfter(Drop(q[..k], up), q[k + 1..], q[k]);
  }

  // ---------- Moving a whole queue ----------

  ghost function WakeAll(s: S.State, c: nat): (r: S.State)
    requires S.Inv(s) && c < |s.chans|
    ensures BW.SameShape(s, r) && |r.chans| == |s.chans|
    decreases |s.chans[c]|
  {
    S.WakeOneKeepsInv(s, c);
    if s.chans[c] == [] then s else WakeAll(S.WakeOne(s, c), c)
  }

  /** Moving the tail node to the front of another list, or leaving it out. */
  lemma KeepTail(front: seq<Pid>, z: Pid, level: set<Pid>, rest: seq<Pid>)
    ensures Keep(front + [z], level) + rest ==
            Keep(front, level) + (if z in level then [z] + rest else rest)
  {
    KeepConcat(front, [z], level);
    var k := Keep(front, level);
    if z in level {
      assert Keep([z], level) == [z];
      assert (k + [z]) + rest == k + ([z] + rest);
    } else {
      assert Keep([z], level) == [];
      assert k + [] == k;
    }
  }

  ghost function AtLevel(s: S.State, k: nat): set<Pid> {
    set p: Pid | 0 <= p < |s.prio| && s.prio[p] == k
  }

  /** wakeup_all empties the channel and keeps arrival order inside every priority. */
  lemma {:induction false} WakeAllOrder(s: S.State, c: nat, k: nat)
    requires S.Inv(s) && c < |s.chans| && k < |s.ready|
    ensures var r := WakeAll(s, c);
      && r.chans == s.chans[c := []] && r.cpu == s.cpu && r.prio == s.prio
      && r.newQ == s.newQ && r.exitQ == s.exitQ && r.starv == s.starv
      && r.ready[k] == Keep(s.chans[c], AtLevel(s, k)) + s.ready[k]
    decreases |s.chans[c]|
  {
    var q := s.chans[c];
    if q != [] {
      var last := |q| - 1;
      var z, t := q[last], S.WakeOne(s, c);
      assert S.IsQueue(s, S.OnChan(c)) && S.Agrees(s, S.OnChan(c)) && z in S.Queue(s, S.OnChan(c));
      S.WakeOneKeepsInv(s, c);
      WakeAllOrder(t, c, k);
      assert AtLevel(t, k) == AtLevel(s, k);
      assert t.chans[c := []] == s.chans[c := []];
      assert q == q[..last] + [z];
      KeepTail(q[..last], z, AtLevel(s, k), s.ready[k]);
      assert t.ready[k] == if s.prio[z] == k then [z] + s.ready[k] else s.ready[k];
    } else {
      assert s.chans[c := []] == s.chans;
    }
  }

  /** wakeup_one, n times over. */
  ghost function WakeTimes(s: S.State, c: nat, n: nat): (r: S.State)
    requires S.Inv(s) && c < |s.chans|
    ensures S.Inv(r) && |r.chans| == |s.chans| && |r.status| == |s.status|
    decreases n
  {
    S.WakeOneKeepsInv(s, c);
    if n == 0 then s else WakeTimes(S.WakeOne(s, c), c, n - 1)
  }

  lemma WakeOneStatus(s: S.State, c: nat)
    requires S.Inv(s) && c < |s.chans|
    ensures var t, q := S.WakeOne(s, c), s.chans[c];
      && S.Inv(t) && |t.chans| == |s.chans| && |t.status| == |s.status|
      && t.chans[c] == (if q == [] then [] else q[..|q| - 1])
      && (forall x: Pid :: x < |s.status| ==>
            t.status[x] == if q != [] && x == q[|q| - 1] then S.Ready else s.status[x])
  {
    S.WakeOneKeepsInv(s, c);
  }

  /** A wakeup never puts a ready process back to sleep. */
  lemma {:induction false} ReadyStays(s: S.State, c: nat, n: nat, p: Pid)
    requires S.Inv(s) && c < |s.chans| && p < |s.status| && s.status[p] == S.Ready
    ensures WakeTimes(s, c, n).status[p] == S.Ready
    decreases n
  {
    if n > 0 {
      WakeOneStatus(s, c);
      ReadyStays(S.WakeOne(s, c), c, n - 1, p);
    }
  }

  lemma SleeperIsBlocked(s: S.State, c: nat, j: nat)
    requires S.Inv(s) && c < |s.chans| && j < |s.chans[c]|
    ensures s.chans[c][j] < |s.status| && s.status[s.chans[c][j]] == S.Blocked
    ensures forall k :: 0 <= k < |s.chans[c]| && k != j ==> s.chans[c][k] != s.chans[c][j]
  {
    assert S.IsQueue(s, S.OnChan(c)) && S.Agrees(s, S.OnChan(c)) && s.chans[c][j] in S.Queue(s, S.OnChan(c));
  }

  /** The sleeper at position i from the tail is woken by the call number i + 1, and not before. */
  lemma {:induction false} WokenInTurn(s: S.State, c: nat, i: nat, n: nat)
    requires S.Inv(s) && c < |s.chans| && i < |s.chans[c]|
    ensures var p := s.chans[c][|s.chans[c]| - 1 - i];
      p < |s.status| && WakeTimes(s, c, n).status[p] == if n <= i then S.Blocked else S.Ready
    decreases n
  {
    SleeperIsBlocked(s, c, |s.chans[c]| - 1 - i);
    if n > 0 {
      WakeOneStatus(s, c);
      if i == 0 {
        ReadyStays(S.WakeOne(s, c), c, n - 1, s.chans[c][|s.chans[c]| - 1]);
      } else {
        WokenInTurn(S.WakeOne(s, c), c, i - 1, n - 1);
      }
    }
  }

  /** A process that goes to sleep on c is woken by one call more than the channel had sleepers. */
  lemma SleeperWakes(s: S.State, c: nat, n: nat)
    requires S.Inv(s) && s.cpu.Some? && c < |s.chans|
    ensures var p, t := s.cpu.value, BW.SleepNow(s, c);
      && p < |s.status| == |t.status| && c < |t.chans|
      && WakeTimes(t, c, n).status[p] == if n <= |s.chans[c]| then S.Blocked else S.Ready
  {
    BW.SleepEffect(s, c);
    WokenInTurn(BW.SleepNow(s, c), c, |s.chans[c]|, n);
  }

  /** The process that entered the NEW queue first goes to its ready queue. */
  ghost function RunOldest(s: S.State): (r: S.State)
    requires S.Inv(s) && s.newQ != []
    ensures BW.SameShape(s, r) && r.newQ == s.newQ[..|s.newQ| - 1]
    ensures s.newQ[|s.newQ| - 1] < |s.status|
    ensures r == S.InsertReady(s.(newQ := s.newQ[..|s.newQ| - 1]), s.newQ[|s.newQ| - 1])
  {
    var p := s.newQ[|s.newQ| - 1];
    assert S.IsQueue(s, S.InNew) && S.Agrees(s, S.InNew) && p in S.Queue(s, S.InNew);
    S.RunEnvKeepsInv(s, p);
    S.DropLast(s.newQ);
    S.RunEnv(s, p)
  }

  ghost function RunAllNew(s: S.State): (r: S.State)
    requires S.Inv(s)
    ensures BW.SameShape(s, r)
    decreases |s.newQ|
  {
    if s.newQ == [] then s else RunAllNew(RunOldest(s))
  }

  /** sched_run_all starts every new process, in creation order inside every priority. */
  lemma {:induction false} RunAllOrder(s: S.State, k: nat)
    requires S.Inv(s) && k < |s.ready|
    ensures var r := RunAllNew(s);
      && r.newQ == [] && r.cpu == s.cpu && r.prio == s.prio && r.chans == s.chans && r.exitQ == s.exitQ
      && r.ready[k] == Keep(s.newQ, AtLevel(s, k)) + s.ready[k]
    decreases |s.newQ|
  {
    var q := s.newQ;
    if q != [] {
      var last := |q| - 1;
      var z, t := q[last], RunOldest(s);
      assert S.IsQueue(s, S.InNew) && S.Agrees(s, S.InNew) && z in S.Queue(s, S.InNew);
      RunAllOrder(t, k);
      assert AtLevel(t, k) == AtLevel(s, k);
      assert q == q[..last] + [z];
      KeepTail(q[..last], z, AtLevel(s, k), s.ready[k]);
      assert t.ready[k] == if s.prio[z] == k then [z] + s.ready[k] else s.ready[k];
    }
  }

  /** find_env_in_queue */
  method FindInQueue(q: seq<Pid>, id: Pid) returns (r: Option<Pid>)
    ensures r == if id in q then Some(id) else None
  {
    for i := 0 to |q|
      invariant id !in q[..i]
    {
      if q[i] == id {
        return Some(q[i]);
      }
    }
    r := None;
  }

  /** now is what the pass over s leaves after the first k nodes of queue i, which was q. */
  ghost predicate Walking(s: S.State, i: nat, k: nat, q: seq<Pid>, now: S.State) {
    S.Inv(s) && i < |s.ready| && q == s.ready[i] && k <= |q| && now == Partial(s, i, k)
  }

  class Scheduler {
    var ready: seq<seq<Pid>>
    var newQ: seq<Pid>
    var exitQ: seq<Pid>
    var chans: seq<seq<Pid>>
    var cpu: Option<Pid>
    var status: seq<S.Status>
    var channel: seq<Option<nat>>
    var prio: seq<nat>
    var starv: seq<nat>
    var thresh: nat

    ghost function Abs(): S.State
      reads this
    {
      S.State(ready, newQ, exitQ, chans, cpu, status, channel, prio, starv, thresh)
    }

    ghost predicate Valid()
      reads this
    {
      S.Inv(Abs()) && |ready| > 0
    }

    /** sched_init_PRIRR over empty queues: refuses a zero quantum or threshold by panicking. */
    constructor (queues: nat, threshold: nat, envs: nat, channels: nat)
      requires 0 < queues < 256 && 0 < threshold <= S.U32_MAX
      ensures Valid() && cpu == None && thresh == threshold
      ensures |ready| == queues && |status| == envs && |chans| == channels
      ensures forall p :: 0 <= p < envs ==> status[p] == S.Free
    {
      ready := seq(queues, _ => []);
      newQ, exitQ := [], [];
      chans := seq(channels, _ => []);
      cpu := None;
      status := seq(envs, _ => S.Free);
      channel := seq(envs, _ => None);
      prio := seq(envs, _ => 0);
      starv := seq(envs, _ => 0);
      thresh := threshold;
      new;
      assert forall place :: S.IsQueue(Abs(), place) ==> S.Queue(Abs(), place) == [];
    }

    /** sched_insert_ready */
    method InsertReady(p: Pid)
      requires S.Sized(Abs()) && p < |status|
      modifies this
      ensures Abs() == S.InsertReady(old(Abs()), p)
    {
      status := status[p := S.Ready];
      ready := ready[prio[p] := [p] + ready[prio[p]]];
    }

    /** sched_remove_ready: search every ready queue for the process, unlink it where found */
    method RemoveReady(p: Pid)
      requires Valid() && p < |status| && status[p] == S.Ready
      modifies this
      ensures Abs() == S.RemoveReady(old(Abs()), p)
    {
      ghost var s0 := Abs();
      S.ReadyIsLinked(s0, p);
      for i := 0 to |ready|
        invariant Abs() == s0 && i <= prio[p]
      {
        var found := FindInQueue(ready[i], p);
        if found.Some? {
          assert p in S.Queue(s0, S.InReady(i));
          S.LinkedAtMostOnce(s0, p, S.InReady(i), S.InReady(prio[p]));
          ready := ready[i := Drop(ready[i], {p})];
          status := status[p := S.Unknown];
          return;
        }
      }
    }

    /** env_set_priority; panics without an effect on a priority that has no queue */
    method SetPriority(p: Pid, k: int) returns (panicked: bool)
      requires Valid() && p < |status|
      modifies this
      ensures panicked <==> k < 0 || k >= |old(ready)|
      ensures Abs() == if panicked then old(Abs()) else S.SetPriority(old(Abs()), p, k)
      ensures Valid()
    {
      if k < 0 || k >= |ready| {
        return true;
      }
      S.SetPriorityKeepsInv(Abs(), p, k);
      if status[p] == S.Ready {
        RemoveReady(p);
        prio := prio[p := k];
        starv := starv[p := 0];
        InsertReady(p);
      } else {
        prio := prio[p := k];
      }
      panicked := false;
    }

    /** The body of the ageing loop for one process */
    method AgeProcess(p: Pid)
      requires Valid() && p < |status|
      modifies this
      ensures Valid() && Abs() == AgeOne(old(Abs()), p)
    {
      ghost var s0 := Abs();
      AgeOneKeepsInv(s0, p);
      CounterKeepsInv(s0, p);
      starv := starv[p := Bump(starv[p])];
      if starv[p] > thresh {
        var newprio := prio[p] as int - 1;
        if newprio < 0 {
          return;
        }
        var _ := SetPriority(p, newprio);
      }
    }

    /** One turn of that walk: the link is read before the node is aged. */
    method AgeNext(i: nat, cur: Pid, ghost k: nat, ghost q: seq<Pid>, ghost s0: S.State) returns (next: Option<Pid>)
      requires Walking(s0, i, k, q, Abs()) && k < |q| && cur == q[k]
      modifies this
      ensures Walking(s0, i, k + 1, q, Abs())
      ensures next == if k + 1 < |q| then Some(q[k + 1]) else None
    {
      WalkNext(s0, i, k);
      PartialKeepsInv(s0, i, k);
      PartialStep(s0, i, k);
      next := Next(ready[i], cur);
      AgeProcess(cur);
    }

    /** The walk over one ready queue: it relinks nodes of the list it walks. */
    method AgeQueue(i: nat, ghost q: seq<Pid>, ghost s0: S.State)
      requires Walking(s0, i, 0, q, Abs()) && i < |ready| && ready[i] == q
      modifies this
      ensures Walking(s0, i, |q|, q, Abs())
    {
      var cur := if |ready[i]| == 0 then None else Some(ready[i][0]);
      ghost var k := 0;
      while cur.Some?
        invariant k <= |q| && cur == if k < |q| then Some(q[k]) else None
        invariant Walking(s0, i, k, q, Abs())
        decreases |q| - k
      {
        cur := AgeNext(i, cur.value, k, q, s0);
        k := k + 1;
      }
    }

    /** The ageing pass of clock_interrupt_handler */
    method Age()
      requires Valid()
      modifies this
      ensures Valid() && Abs() == Aged(old(Abs()))
    {
      ghost var s0 := Abs();
      PartialStart(s0);
      for i := 0 to |ready|
        invariant |ready| == |s0.ready| && Abs() == Partial(s0, i, 0)
      {
        PartialFresh(s0, i);
        PartialNextQueue(s0, i);
        AgeQueue(i, s0.ready[i], s0);
      }
      PartialEnd(s0);
      AgedKeepsInv(s0);
    }

    /** The search of fos_scheduler_PRIRR and the switch in fos_scheduler, on an empty CPU */
    method RunNext()
      requires S.Sized(Abs()) && S.CanDispatch(Abs()) && cpu == None
      modifies this
      ensures Abs() == S.Dispatch(old(Abs()))
    {
      var enew: Option<Pid> := None;
      var i := 0;
      while i < |ready|
        invariant 0 <= i <= |ready| && Abs() == old(Abs())
        invariant forall j :: 0 <= j < i ==> ready[j] == []
      {
        if |ready[i]| != 0 {
          break;
        }
        i := i + 1;
      }
      assert i == S.FirstNonEmpty(ready);
      if i < |ready| {
        var last := |ready[i]| - 1;
        enew := Some(ready[i][last]);
        assert enew.value in ready[i];
        ready := ready[i := ready[i][..last]];
      }
      if enew.Some? {
        starv := starv[enew.value := 0];
        cpu := enew;
        status := status[enew.value := S.Running];
      }
    }

    /**
      One turn of the loop in fos_scheduler, entered when the running process has
      given up the CPU with its new status already set.
     */
    method Reschedule()
      requires S.Sized(Abs()) && S.CanDispatch(Abs())
      requires cpu.Some? && cpu.value < |status|
      modifies this
      ensures var s := old(Abs());
        var t := if s.status[s.cpu.value] == S.Ready then S.Requeue(s) else s.(cpu := None);
        S.CanDispatch(t) && Abs() == S.Dispatch(t)
    {
      var elast := cpu.value;
      cpu := None;
      if status[elast] == S.Ready {
        assert forall i, p :: 0 <= i < |ready| && p in ready[i] ==> p < |status|;
        ready := ready[prio[elast] := [elast] + ready[prio[elast]]];
        assert Abs() == S.Requeue(old(Abs()));
        assert S.CanDispatch(Abs());
      }
      RunNext();
    }

    /** yield */
    method Yield()
      requires Valid() && cpu.Some?
      modifies this
      ensures Valid() && Abs() == BW.YieldNow(old(Abs()))
    {
      ghost var s0 := Abs();
      S.OnCpuFacts(s0);
      S.RequeueKeepsInv(s0);
      S.DispatchKeepsInv(S.Requeue(s0));
      S.InvCanDispatch(s0);
      status := status[cpu.value := S.Ready];
      assert S.Requeue(Abs()) == S.Requeue(s0);
      Reschedule();
    }

    /** clock_interrupt_handler */
    method Tick()
      requires Valid()
      modifies this
      ensures Valid() && Abs() == BW.TickNow(old(Abs()))
    {
      Age();
      if cpu.Some? {
        Yield();
      }
    }

    /** sleep on a channel, up to the switch to the next process */
    method Sleep(c: nat)
      requires Valid() && cpu.Some? && c < |chans|
      modifies this
      ensures Valid() && Abs() == BW.SleepNow(old(Abs()), c)
      ensures var p := old(cpu).value;
        && p < |status| == |channel| && status[p] == S.Blocked && channel[p] == Some(c) && cpu != Some(p)
        && chans == old(chans)[c := [p] + old(chans)[c]]
        && newQ == old(newQ) && exitQ == old(exitQ) && prio == old(prio)
    {
      ghost var s0 := Abs();
      BW.SleepEffect(s0, c);
      S.OnCpuFacts(s0);
      S.BlockKeepsInv(s0, c);
      S.DispatchKeepsInv(S.BlockOn(s0, c));
      S.InvCanDispatch(s0);
      var p := cpu.value;
      status := status[p := S.Blocked];
      channel := channel[p := Some(c)];
      chans := chans[c := [p] + chans[c]];
      Reschedule();
    }

    /** wakeup_one */
    method WakeupOne(c: nat)
      requires Valid() && c < |chans|
      modifies this
      ensures Valid() && Abs() == S.WakeOne(old(Abs()), c)
      ensures old(chans)[c] == [] ==> Abs() == old(Abs())
      ensures old(chans)[c] != [] ==>
        var q := old(chans)[c];
        var p := q[|q| - 1];
        && p < |status| == |prio| && prio == old(prio) && prio[p] < |ready| == |old(ready)| && status[p] == S.Ready
        && chans == old(chans)[c := q[..|q| - 1]]
        && ready == old(ready)[prio[p] := [p] + old(ready)[prio[p]]]
        && newQ == old(newQ) && exitQ == old(exitQ) && cpu == old(cpu)
    {
      ghost var s0 := Abs();
      S.WakeOneKeepsInv(s0, c);
      if |chans[c]| > 0 {
        var last := |chans[c]| - 1;
        var p := chans[c][last];
        assert S.IsQueue(s0, S.OnChan(c)) && S.Agrees(s0, S.OnChan(c)) && p in S.Queue(s0, S.OnChan(c));
        chans := chans[c := chans[c][..last]];
        channel := channel[p := None];
        InsertReady(p);
      }
    }

    /** wakeup_all */
    method WakeupAll(c: nat)
      requires Valid() && c < |chans|
      modifies this
      ensures Valid() && Abs() == WakeAll(old(Abs()), c)
    {
      while |chans[c]| > 0
        invariant Valid() && c < |chans|
        invariant WakeAll(Abs(), c) == WakeAll(old(Abs()), c)
        decreases |chans[c]|
      {
        S.WakeOneKeepsInv(Abs(), c);
        WakeupOne(c);
      }
    }

    /** sched_run_all, up to starting the scheduler */
    method RunAll()
      requires Valid()
      modifies this
      ensures Valid() && Abs() == RunAllNew(old(Abs()))
    {
      var size := |newQ|;
      for i := 0 to size
        invariant Valid() && |newQ| == size - i
        invariant RunAllNew(Abs()) == RunAllNew(old(Abs()))
      {
        ghost var s0 := Abs();
        ghost var s1 := RunOldest(s0);
        var p := newQ[|newQ| - 1];
        assert S.IsQueue(s0, S.InNew) && S.Agrees(s0, S.InNew) && p in S.Queue(s0, S.InNew);
        newQ := newQ[..|newQ| - 1];
        InsertReady(p);
        assert Abs() == s1;
      }
    }

    /** sched_run_env on a started scheduler: only a process of the NEW queue is run */
    method RunEnv(id: Pid)
      requires Valid()
      modifies this
      ensures Valid()
      ensures id in old(newQ) ==> id < |old(status)| && Abs() == S.RunEnv(old(Abs()), id)
      ensures id !in old(newQ) ==> Abs() == old(Abs())
    {
      ghost var s0 := Abs();
      for i := 0 to |newQ|
        invariant Abs() == s0 && id !in newQ[..i]
      {
        if newQ[i] == id {
          assert S.IsQueue(s0, S.InNew) && S.Agrees(s0, S.InNew) && id in S.Queue(s0, S.InNew);
          S.RunEnvKeepsInv(s0, id);
          newQ := Drop(newQ, {id});
          InsertReady(id);
          return;
        }
      }
    }

    /** The search of sched_exit_env through the ready queues */
    method ExitFromReady(id: Pid) returns (found: bool)
      requires Valid() && id < |status|
      modifies this
      ensures Valid() && (found <==> old(status)[id] == S.Ready)
      ensures Abs() == if found then S.ExitReady(old(Abs()), id) else old(Abs())
    {
      ghost var s0 := Abs();
      if status[id] == S.Ready { S.ReadyIsLinked(s0, id); }
      for i := 0 to |ready|
        invariant Abs() == s0
        invariant forall j :: 0 <= j < i ==> id !in ready[j]
      {
        var hit := FindInQueue(ready[i], id);
        if hit.Some? {
          assert S.IsQueue(s0, S.InReady(i)) && S.Agrees(s0, S.InReady(i)) && id in S.Queue(s0, S.InReady(i));
          S.ExitReadyKeepsInv(s0, id);
          ready := ready[i := Drop(ready[i], {id})];
          status := status[id := S.Exit];
          exitQ := [id] + exitQ;
          assert Abs() == S.ExitReady(s0, id);
          return true;
        }
      }
      found := false;
    }

    /**
      sched_exit_env. A process of the NEW queue is unlinked there; the walk then runs on to
      the end of the list, and the null pointer it leaves fails an assertion.
     */
    method ExitEnv(id: Pid) returns (panicked: bool)
      requires Valid() && cpu.Some? && id < |status|
      modifies this
      ensures Valid() && (panicked <==> old(status)[id] == S.New)
      ensures var s := old(Abs());
        Abs() == if s.status[id] == S.New then S.RemoveNew(s, id)
                 else if s.status[id] == S.Ready then S.ExitReady(s, id)
                 else if s.cpu == Some(id) then BW.LeaveNow(s)
                 else s
    {
      ghost var s0 := Abs();
      S.OnCpuFacts(s0);
      var hit := FindInQueue(newQ, id);
      assert S.IsQueue(s0, S.InNew) && S.Agrees(s0, S.InNew);
      if hit.Some? {
        S.RemoveNewKeepsInv(s0, id);
        newQ := Drop(newQ, {id});
        status := status[id := S.Unknown];
        return true;
      }
      panicked := false;
      assert status[id] == S.New ==> S.PlaceOf(s0, id) == S.InNew;
      var found := ExitFromReady(id);
      if !found && cpu.value == id {
        S.ExitRunningKeepsInv(s0);
        S.DispatchKeepsInv(S.ExitRunning(s0));
        S.InvCanDispatch(s0);
        status := status[id := S.Exit];
        exitQ := [id] + exitQ;
        Reschedule();
      }
    }
  }

  lemma CounterKeepsInv(s: S.State, p: Pid)
    requires S.Inv(s) && p < |s.status|
    ensures S.Inv(s.(starv := s.starv[p := Bump(s.starv[p])]))
  {
    var t := s.(starv := s.starv[p := Bump(s.starv[p])]);
    forall x: Pid | x < |s.status|
      ensures S.PlaceOf(t, x) == S.PlaceOf(s, x)
    {}
    forall place | S.IsQueue(t, place)
      ensures S.Agrees(t, place)
    {
      assert S.IsQueue(s, place) && S.Agrees(s, place) && S.Queue(t, place) == S.Queue(s, place);
    }
  }
}
