/**
  What every user of a sleep/wakeup channel has in common: who holds a spin lock, how a
  process stands to the scheduler, and the step that wakes the oldest sleeper.
 */
module Channel {
  import opened SeqUtil

  type Pid = nat

  /** Who holds a spin lock: nobody, a process, or the scheduler's own context. */
  datatype Holder = Nobody | Proc(p: Pid) | Sched

  datatype Mode =
    | OnCpu
    | Parked      // in a ready queue
    | Blocked     // asleep on the channel
    | Resumed     // just switched to: holds qlock and releases it first

  /** The oldest sleeper is at the tail of the channel queue, which is filled at its head. */
  function Oldest(queue: seq<Pid>): Pid
    requires queue != []
  {
    queue[|queue| - 1]
  }

  /** The oldest sleeper becomes ready. */
  function Woken(mode: seq<Mode>, queue: seq<Pid>): (r: seq<Mode>)
    requires queue != []
    ensures |r| == |mode|
  {
    if Oldest(queue) < |mode| then mode[Oldest(queue) := Parked] else mode
  }

  /** Everybody in the queue is ready to run. */
  function AllParked(mode: seq<Mode>, queue: seq<Pid>): (r: seq<Mode>)
    ensures |r| == |mode|
    decreases |queue|
  {
    if queue == [] then mode else AllParked(Woken(mode, queue), queue[..|queue| - 1])
  }

  lemma {:induction false} AllParkedAt(mode: seq<Mode>, queue: seq<Pid>, x: Pid)
    requires x < |mode|
    ensures AllParked(mode, queue)[x] == if x in queue then Parked else mode[x]
    decreases |queue|
  {
    if queue != [] {
      assert queue == queue[..|queue| - 1] + [queue[|queue| - 1]];
      AllParkedAt(Woken(mode, queue), queue[..|queue| - 1], x);
    }
  }

  // ---------- One process alone ----------

  /** n steps, all of them possible, lead from s to t; a step answers None where it is not possible. */
  ghost predicate LeadsBy<S(!new)>(step: S -> Option<S>, s: S, n: nat, t: S)
    decreases n
  {
    if n == 0 then s == t else step(s).Some? && LeadsBy(step, step(s).value, n - 1, t)
  }

  lemma {:induction false} LeadsOn<S(!new)>(step: S -> Option<S>, s: S, m: nat, u: S, n: nat, t: S)
    requires LeadsBy(step, s, m, u) && LeadsBy(step, u, n, t)
    ensures LeadsBy(step, s, m + n, t)
    decreases m
  {
    if m > 0 { LeadsOn(step, step(s).value, m - 1, u, n, t); }
  }

  /** One step first. */
  lemma LeadsFirst<S(!new)>(step: S -> Option<S>, s: S, u: S, n: nat, t: S)
    requires step(s) == Some(u) && LeadsBy(step, u, n, t)
    ensures LeadsBy(step, s, n + 1, t)
  {}

  lemma LeadsOnce<S(!new)>(step: S -> Option<S>, s: S, t: S)
    requires step(s) == Some(t)
    ensures LeadsBy(step, s, 1, t)
  {
    assert LeadsBy(step, t, 0, t);
  }
}
