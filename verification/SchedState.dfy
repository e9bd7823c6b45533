/**
  The process queues of the priority round-robin scheduler as one value, and
  every kernel operation that links or unlinks a process as a function on it.
  A queue is the sequence of its nodes, head first: a process enters at the head
  and leaves at the tail.
 */
module SchedState {
  import opened SeqUtil

  type Pid = nat

  const U32_MAX: nat := 0xFFFF_FFFF

  datatype Status = Free | Ready | Running | Blocked | New | Exit | Unknown

  /** Where a process descriptor may be linked. */
  datatype Place = Nowhere | InNew | InReady(level: nat) | InExit | OnChan(chan: nat) | OnCpu

  datatype State = State(
    ready: seq<seq<Pid>>,           // one queue per priority, 0 is served first
    newQ: seq<Pid>,
    exitQ: seq<Pid>,
    chans: seq<seq<Pid>>,           // queues of blocked processes
    cpu: Option<Pid>,
    status: seq<Status>,            // the envs[] table, one entry per process
    channel: seq<Option<nat>>,
    prio: seq<nat>,
    starv: seq<nat>,                // 32-bit ageing counters
    thresh: nat)

  // ---------- Where the status says a process is, and where it is linked ----------

  ghost predicate Sized(s: State) {
    && |s.status| == |s.channel| == |s.prio| == |s.starv|
    && (forall p :: 0 <= p < |s.prio| ==> s.prio[p] < |s.ready|)
    && (forall p :: 0 <= p < |s.starv| ==> s.starv[p] <= U32_MAX)
  }

  /** The place named by the status, priority and channel fields of a process. */
  function PlaceOf(s: State, p: Pid): Place
    requires p < |s.status| == |s.channel| == |s.prio|
  {
    match s.status[p]
    case Free => Nowhere
    case Unknown => Nowhere
    case New => InNew
    case Ready => InReady(s.prio[p])
    case Exit => InExit
    case Running => OnCpu
    case Blocked => if s.channel[p].Some? then OnChan(s.channel[p].value) else Nowhere
  }

  predicate IsQueue(s: State, place: Place) {
    match place
    case Nowhere => false
    case InReady(i) => i < |s.ready|
    case OnChan(c) => c < |s.chans|
    case _ => true
  }

  function Queue(s: State, place: Place): seq<Pid>
    requires IsQueue(s, place)
  {
    match place
    case InNew => s.newQ
    case InExit => s.exitQ
    case InReady(i) => s.ready[i]
    case OnChan(c) => s.chans[c]
    case OnCpu => if s.cpu.Some? then [s.cpu.value] else []
  }

  /** The queue at a place holds exactly the processes whose fields name it, once each. */
  ghost predicate Agrees(s: State, place: Place)
    requires Sized(s) && IsQueue(s, place)
  {
    && NoDup(Queue(s, place))
    && (forall p: Pid {:trigger p in Queue(s, place)} ::
          p in Queue(s, place) ==> p < |s.status| && PlaceOf(s, p) == place)
    && (forall p: Pid {:trigger PlaceOf(s, p)} ::
          p < |s.status| && PlaceOf(s, p) == place ==> p in Queue(s, place))
  }

  ghost predicate Inv(s: State) {
    && Sized(s)
    && (forall place {:trigger IsQueue(s, place)} :: IsQueue(s, place) ==> Agrees(s, place))
    && (forall p: Pid {:trigger PlaceOf(s, p)} ::
          p < |s.status| && PlaceOf(s, p) != Nowhere ==> IsQueue(s, PlaceOf(s, p)))
  }

  /** No process descriptor is linked twice, in one queue or in two. */
  lemma LinkedAtMostOnce(s: State, p: Pid, a: Place, b: Place)
    requires Inv(s) && IsQueue(s, a) && IsQueue(s, b)
    requires p in Queue(s, a) && p in Queue(s, b)
    ensures a == b && p < |s.status| && PlaceOf(s, p) == a
    ensures NoDup(Queue(s, a))
  {
    assert Agrees(s, a) && Agrees(s, b);
  }

  lemma ReadyIsLinked(s: State, p: Pid)
    requires Inv(s) && p < |s.status| && s.status[p] == Ready
    ensures p in s.ready[s.prio[p]]
  {
    var place := PlaceOf(s, p);
    assert IsQueue(s, place) && Agrees(s, place) && p in Queue(s, place);
  }

  /** s' is s with p unlinked from wherever it was and put at the head of the queue at b. */
  ghost predicate Relocated(s: State, s': State, p: Pid, b: Place)
    requires Sized(s)
  {
    && Sized(s')
    && p < |s.status| == |s'.status|
    && |s'.ready| == |s.ready| && |s'.chans| == |s.chans|
    && PlaceOf(s', p) == b
    && (forall x: Pid {:trigger PlaceOf(s', x)} ::
          x < |s.status| && x != p ==> PlaceOf(s', x) == PlaceOf(s, x))
    && (forall place {:trigger IsQueue(s', place)} :: IsQueue(s', place) && IsQueue(s, place) ==>
          Queue(s', place) == Moved(s, place, p, b))
  }

  /** The queue at a place once p has left it, if p was there, and entered it, if it is b. */
  function Moved(s: State, place: Place, p: Pid, b: Place): seq<Pid>
    requires IsQueue(s, place) && p < |s.status| == |s.channel| == |s.prio|
  {
    var rest := if place == PlaceOf(s, p) then Drop(Queue(s, place), {p}) else Queue(s, place);
    if place == b then [p] + rest else rest
  }

  lemma RelocatedKeepsInv(s: State, s': State, p: Pid, b: Place)
    requires Inv(s) && Relocated(s, s', p, b)
    requires b == Nowhere || IsQueue(s, b)
    ensures Inv(s')
  {
    forall place | IsQueue(s', place)
      ensures Agrees(s', place)
    {
      var q := Queue(s, place);
      assert IsQueue(s, place) && Agrees(s, place);
      DropMembers(q, {p});
      DropNoDup(q, {p});
      var rest := if place == PlaceOf(s, p) then Drop(q, {p}) else q;
      assert p !in rest && NoDup(rest);
      assert Queue(s', place) == if place == b then [p] + rest else rest;
    }
    forall x: Pid | x < |s'.status| && PlaceOf(s', x) != Nowhere
      ensures IsQueue(s', PlaceOf(s', x))
    {
      if x != p {
        assert PlaceOf(s', x) == PlaceOf(s, x);
      }
    }
  }

  // ---------- Operations ----------

  /** sched_insert_ready */
  function InsertReady(s: State, p: Pid): State
    requires p < |s.status| == |s.prio| && s.prio[p] < |s.ready|
  {
    s.(status := s.status[p := Ready],
       ready := s.ready[s.prio[p] := [p] + s.ready[s.prio[p]]])
  }

  /** sched_remove_ready of a process linked in the queue of its priority */
  function RemoveReady(s: State, p: Pid): State
    requires p < |s.status| == |s.prio| && s.prio[p] < |s.ready|
  {
    s.(status := s.status[p := Unknown],
       ready := s.ready[s.prio[p] := Drop(s.ready[s.prio[p]], {p})])
  }

  /** env_set_priority with a priority the ready-queue array has */
  function SetPriority(s: State, p: Pid, k: nat): State
    requires p < |s.status| == |s.prio| == |s.starv| && s.prio[p] < |s.ready| && k < |s.ready|
  {
    if s.status[p] == Ready then
      InsertReady(RemoveReady(s, p).(prio := s.prio[p := k], starv := s.starv[p := 0]), p)
    else
      s.(prio := s.prio[p := k])
  }

  /** Index of the first non-empty ready queue, or their number. */
  function FirstNonEmpty(ready: seq<seq<Pid>>): (i: nat)
    ensures i <= |ready|
    ensures forall j :: 0 <= j < i ==> ready[j] == []
    ensures i < |ready| ==> ready[i] != []
  {
    if ready == [] then 0
    else if ready[0] != [] then 0
    else 1 + FirstNonEmpty(ready[1..])
  }

  ghost predicate CanDispatch(s: State) {
    && |s.status| == |s.starv|
    && forall i, p :: 0 <= i < |s.ready| && p in s.ready[i] ==> p < |s.status|
  }

  /** fos_scheduler_PRIRR on an empty CPU, then the switch in fos_scheduler */
  function Dispatch(s: State): State
    requires CanDispatch(s)
  {
    var i := FirstNonEmpty(s.ready);
    if i == |s.ready| then s
    else
      var p := s.ready[i][|s.ready[i]| - 1];
      assert p in s.ready[i];
      s.(ready := s.ready[i := s.ready[i][..|s.ready[i]| - 1]],
         starv := s.starv[p := 0],
         status := s.status[p := Running],
         cpu := Some(p))
  }

  /** sleep, up to the switch away from the sleeping process */
  function BlockOn(s: State, c: nat): State
    requires s.cpu.Some? && s.cpu.value < |s.status| == |s.channel| && c < |s.chans|
  {
    var p := s.cpu.value;
    s.(status := s.status[p := Blocked],
       channel := s.channel[p := Some(c)],
       chans := s.chans[c := [p] + s.chans[c]],
       cpu := None)
  }

  /** wakeup_one */
  function WakeOne(s: State, c: nat): State
    requires Inv(s) && c < |s.chans|
  {
    if s.chans[c] == [] then s
    else
      var last := |s.chans[c]| - 1;
      var p := s.chans[c][last];
      assert Queue(s, OnChan(c)) == s.chans[c] && IsQueue(s, OnChan(c));
      assert p in Queue(s, OnChan(c));
      InsertReady(s.(chans := s.chans[c := s.chans[c][..last]], channel := s.channel[p := None]), p)
  }

  /** yield, up to the switch: the running process goes back to the queue of its priority */
  function Requeue(s: State): State
    requires s.cpu.Some? && s.cpu.value < |s.status| == |s.prio| && s.prio[s.cpu.value] < |s.ready|
  {
    InsertReady(s, s.cpu.value).(cpu := None)
  }

  /** sched_insert_exit of the running process */
  function ExitRunning(s: State): State
    requires s.cpu.Some? && s.cpu.value < |s.status|
  {
    s.(status := s.status[s.cpu.value := Exit], exitQ := [s.cpu.value] + s.exitQ, cpu := None)
  }

  /** sched_exit_env of a ready process */
  function ExitReady(s: State, p: Pid): State
    requires p < |s.status| == |s.prio| && s.prio[p] < |s.ready|
  {
    var r := RemoveReady(s, p);
    r.(status := r.status[p := Exit], exitQ := [p] + r.exitQ)
  }

  /** sched_new_env of a descriptor taken from the free ones */
  function NewEnv(s: State, p: Pid): State
    requires p < |s.status| == |s.starv|
  {
    s.(status := s.status[p := New], newQ := [p] + s.newQ, starv := s.starv[p := 0])
  }

  /** sched_run_env of a new process */
  function RunEnv(s: State, p: Pid): State
    requires p < |s.status| == |s.prio| && s.prio[p] < |s.ready|
  {
    InsertReady(s.(newQ := Drop(s.newQ, {p})), p)
  }

  /** sched_kill_env of a process in the NEW, a READY or the EXIT queue: unlinked there and freed */
  function Kill(s: State, p: Pid): State
    requires p < |s.status| == |s.prio| && (s.status[p] == Ready ==> s.prio[p] < |s.ready|)
  {
    var t := s.(status := s.status[p := Free]);
    match s.status[p]
    case New => t.(newQ := Drop(s.newQ, {p}))
    case Ready => t.(ready := s.ready[s.prio[p] := Drop(s.ready[s.prio[p]], {p})])
    case Exit => t.(exitQ := Drop(s.exitQ, {p}))
    case _ => s
  }

  /** sched_remove_new */
  function RemoveNew(s: State, p: Pid): State
    requires p < |s.status|
  {
    s.(status := s.status[p := Unknown], newQ := Drop(s.newQ, {p}))
  }

  // ---------- What every operation moves, and that it keeps the invariant ----------

  /** The fields that only ageing, dispatching and priority changes write. */
  ghost predicate SameCounters(s: State, s': State) {
    s'.prio == s.prio && s'.starv == s.starv && s'.thresh == s.thresh
  }

  /** A ready process goes to the head of queue k with a fresh counter; any other only gets the number. */
  lemma SetPriorityMoves(s: State, p: Pid, k: nat)
    requires Inv(s) && p < |s.status| && k < |s.ready|
    ensures var s' := SetPriority(s, p, k);
      && s'.prio == s.prio[p := k] && s'.thresh == s.thresh && s'.status == s.status && s'.channel == s.channel
      && (if s.status[p] == Ready then Relocated(s, s', p, InReady(k)) && s'.starv == s.starv[p := 0]
          else s' == s.(prio := s.prio[p := k]))
  {
    if s.status[p] == Ready {
      var s' := SetPriority(s, p, k);
      assert Sized(s') && PlaceOf(s', p) == InReady(k);
      forall x: Pid | x < |s.status| && x != p
        ensures PlaceOf(s', x) == PlaceOf(s, x)
      {}
      forall place | IsQueue(s', place)
        ensures IsQueue(s, place) && Queue(s', place) == Moved(s, place, p, InReady(k))
      {
        match place
        case InReady(i) => assert Queue(s, place) == s.ready[i];
        case _ =>
      }
    }
  }

  lemma SetPriorityKeepsInv(s: State, p: Pid, k: nat)
    requires Inv(s) && p < |s.status| && k < |s.ready|
    ensures Inv(SetPriority(s, p, k))
  {
    var s' := SetPriority(s, p, k);
    SetPriorityMoves(s, p, k);
    if s.status[p] == Ready {
      RelocatedKeepsInv(s, s', p, InReady(k));
    } else {
      forall x: Pid | x < |s.status|
        ensures PlaceOf(s', x) == PlaceOf(s, x)
      {}
      forall place | IsQueue(s', place)
        ensures Agrees(s', place)
      {
        assert IsQueue(s, place) && Agrees(s, place) && Queue(s', place) == Queue(s, place);
      }
    }
  }

  lemma InvCanDispatch(s: State)
    requires Inv(s)
    ensures CanDispatch(s)
  {
    forall i, p | 0 <= i < |s.ready| && p in s.ready[i]
      ensures p < |s.status|
    {
      assert IsQueue(s, InReady(i)) && Agrees(s, InReady(i)) && p in Queue(s, InReady(i));
    }
  }

  /** Taking the tail of a queue is unlinking that node. */
  lemma DropLast(q: seq<Pid>)
    requires NoDup(q) && q != []
    ensures Drop(q, {q[|q| - 1]}) == q[..|q| - 1]
  {
    DropAt(q, |q| - 1);
  }

  /** The oldest process of the best non-empty queue goes to the CPU with its counter cleared. */
  lemma DispatchMoves(s: State, level: nat)
    requires Inv(s) && s.cpu == None && CanDispatch(s)
    requires level < |s.ready| && s.ready[level] != [] && forall j :: 0 <= j < level ==> s.ready[j] == []
    ensures var p, s' := s.ready[level][|s.ready[level]| - 1], Dispatch(s);
      && p < |s.status| && Relocated(s, s', p, OnCpu) && s'.cpu == Some(p)
      && s'.prio == s.prio && s'.starv == s.starv[p := 0] && s'.thresh == s.thresh
  {
    var p := s.ready[level][|s.ready[level]| - 1];
    assert FirstNonEmpty(s.ready) == level;
    assert IsQueue(s, InReady(level)) && Agrees(s, InReady(level)) && p in Queue(s, InReady(level));
    DropLast(s.ready[level]);
    var s' := Dispatch(s);
    assert Sized(s') && PlaceOf(s', p) == OnCpu;
    forall x: Pid | x < |s.status| && x != p
      ensures PlaceOf(s', x) == PlaceOf(s, x)
    {}
    forall place | IsQueue(s', place)
      ensures IsQueue(s, place) && Queue(s', place) == Moved(s, place, p, OnCpu)
    {
      match place
      case InReady(i) => assert Queue(s, place) == s.ready[i];
      case _ =>
    }
  }

  /** With nobody ready the CPU stays empty. */
  lemma NothingToDispatch(s: State)
    requires CanDispatch(s) && forall j :: 0 <= j < |s.ready| ==> s.ready[j] == []
    ensures Dispatch(s) == s
  {}

  lemma DispatchKeepsInv(s: State)
    requires Inv(s) && s.cpu == None
    ensures CanDispatch(s) && Inv(Dispatch(s))
  {
    InvCanDispatch(s);
    var level := FirstNonEmpty(s.ready);
    if level < |s.ready| {
      DispatchMoves(s, level);
      RelocatedKeepsInv(s, Dispatch(s), s.ready[level][|s.ready[level]| - 1], OnCpu);
    }
  }

  lemma OnCpuFacts(s: State)
    requires Inv(s) && s.cpu.Some?
    ensures s.cpu.value < |s.status| && s.status[s.cpu.value] == Running
  {
    assert IsQueue(s, OnCpu) && Agrees(s, OnCpu) && s.cpu.value in Queue(s, OnCpu);
  }

  /** The running process is blocked at the head of the queue of channel c. */
  lemma BlockMoves(s: State, c: nat)
    requires Inv(s) && s.cpu.Some? && c < |s.chans|
    ensures s.cpu.value < |s.status|
    ensures Relocated(s, BlockOn(s, c), s.cpu.value, OnChan(c)) && SameCounters(s, BlockOn(s, c))
  {
    OnCpuFacts(s);
    var p, s' := s.cpu.value, BlockOn(s, c);
    assert Sized(s') && PlaceOf(s', p) == OnChan(c);
    forall x: Pid | x < |s.status| && x != p
      ensures PlaceOf(s', x) == PlaceOf(s, x)
    {}
    forall place | IsQueue(s', place)
      ensures IsQueue(s, place) && Queue(s', place) == Moved(s, place, p, OnChan(c))
    {
      match place
      case OnCpu => assert Drop([p], {p}) == [];
      case _ =>
    }
  }

  lemma BlockKeepsInv(s: State, c: nat)
    requires Inv(s) && s.cpu.Some? && c < |s.chans|
    ensures s.cpu.value < |s.status|
    ensures Inv(BlockOn(s, c)) && BlockOn(s, c).cpu == None
  {
    BlockMoves(s, c);
    RelocatedKeepsInv(s, BlockOn(s, c), s.cpu.value, OnChan(c));
  }

  /** The oldest sleeper of channel c goes to the head of the queue of its priority. */
  lemma WakeOneMoves(s: State, c: nat)
    requires Inv(s) && c < |s.chans| && s.chans[c] != []
    ensures var p, s' := s.chans[c][|s.chans[c]| - 1], WakeOne(s, c);
      && p < |s.status| && Relocated(s, s', p, InReady(s.prio[p])) && SameCounters(s, s')
      && s'.channel == s.channel[p := None]
  {
    assert IsQueue(s, OnChan(c)) && Agrees(s, OnChan(c));
    var p := s.chans[c][|s.chans[c]| - 1];
    assert p in Queue(s, OnChan(c));
    DropLast(s.chans[c]);
    var s' := WakeOne(s, c);
    assert Sized(s') && PlaceOf(s', p) == InReady(s.prio[p]);
    forall x: Pid | x < |s.status| && x != p
      ensures PlaceOf(s', x) == PlaceOf(s, x)
    {}
    forall place | IsQueue(s', place)
      ensures IsQueue(s, place) && Queue(s', place) == Moved(s, place, p, InReady(s.prio[p]))
    {
      match place
      case _ =>
    }
  }

  lemma WakeOneKeepsInv(s: State, c: nat)
    requires Inv(s) && c < |s.chans|
    ensures Inv(WakeOne(s, c))
    ensures |WakeOne(s, c).chans| == |s.chans| && |WakeOne(s, c).ready| == |s.ready|
    ensures |WakeOne(s, c).status| == |s.status| && WakeOne(s, c).thresh == s.thresh
    ensures s.chans[c] != [] ==> WakeOne(s, c).chans[c] == s.chans[c][..|s.chans[c]| - 1]
  {
    if s.chans[c] != [] {
      var p := s.chans[c][|s.chans[c]| - 1];
      WakeOneMoves(s, c);
      RelocatedKeepsInv(s, WakeOne(s, c), p, InReady(s.prio[p]));
    }
  }

  /** The running process goes to the head of the queue of its priority. */
  lemma RequeueMoves(s: State)
    requires Inv(s) && s.cpu.Some?
    ensures s.cpu.value < |s.status|
    ensures Relocated(s, Requeue(s), s.cpu.value, InReady(s.prio[s.cpu.value])) && SameCounters(s, Requeue(s))
  {
    OnCpuFacts(s);
    var p, s' := s.cpu.value, Requeue(s);
    assert Sized(s') && PlaceOf(s', p) == InReady(s.prio[s.cpu.value]);
    forall x: Pid | x < |s.status| && x != p
      ensures PlaceOf(s', x) == PlaceOf(s, x)
    {}
    forall place | IsQueue(s', place)
      ensures IsQueue(s, place) && Queue(s', place) == Moved(s, place, p, InReady(s.prio[s.cpu.value]))
    {
      match place
      case OnCpu => assert Drop([p], {p}) == [];
      case _ =>
    }
  }

  lemma RequeueKeepsInv(s: State)
    requires Inv(s) && s.cpu.Some?
    ensures s.cpu.value < |s.status|
    ensures Inv(Requeue(s)) && Requeue(s).cpu == None
  {
    RequeueMoves(s);
    RelocatedKeepsInv(s, Requeue(s), s.cpu.value, InReady(s.prio[s.cpu.value]));
  }

  /** The running process goes to the head of the EXIT queue. */
  lemma ExitRunningMoves(s: State)
    requires Inv(s) && s.cpu.Some?
    ensures s.cpu.value < |s.status|
    ensures Relocated(s, ExitRunning(s), s.cpu.value, InExit) && SameCounters(s, ExitRunning(s))
  {
    OnCpuFacts(s);
    var p, s' := s.cpu.value, ExitRunning(s);
    assert Sized(s') && PlaceOf(s', p) == InExit;
    forall x: Pid | x < |s.status| && x != p
      ensures PlaceOf(s', x) == PlaceOf(s, x)
    {}
    forall place | IsQueue(s', place)
      ensures IsQueue(s, place) && Queue(s', place) == Moved(s, place, p, InExit)
    {
      match place
      case OnCpu => assert Drop([p], {p}) == [];
      case _ =>
    }
  }

  lemma ExitRunningKeepsInv(s: State)
    requires Inv(s) && s.cpu.Some?
    ensures s.cpu.value < |s.status|
    ensures Inv(ExitRunning(s)) && ExitRunning(s).cpu == None
  {
    ExitRunningMoves(s);
    RelocatedKeepsInv(s, ExitRunning(s), s.cpu.value, InExit);
  }

  /** A ready process goes from its queue to the head of the EXIT queue. */
  lemma ExitReadyMoves(s: State, p: Pid)
    requires Inv(s) && p < |s.status| && s.status[p] == Ready
    ensures Relocated(s, ExitReady(s, p), p, InExit) && SameCounters(s, ExitReady(s, p))
  {
    var s' := ExitReady(s, p);
    assert Sized(s') && PlaceOf(s', p) == InExit;
    forall x: Pid | x < |s.status| && x != p
      ensures PlaceOf(s', x) == PlaceOf(s, x)
    {}
    forall place | IsQueue(s', place)
      ensures IsQueue(s, place) && Queue(s', place) == Moved(s, place, p, InExit)
    {
      match place
      case _ =>
    }
  }

  lemma ExitReadyKeepsInv(s: State, p: Pid)
    requires Inv(s) && p < |s.status| && s.status[p] == Ready
    ensures Inv(ExitReady(s, p))
  {
    ExitReadyMoves(s, p);
    RelocatedKeepsInv(s, ExitReady(s, p), p, InExit);
  }

  /** A free descriptor goes to the head of the NEW queue with its counter cleared. */
  lemma NewEnvMoves(s: State, p: Pid)
    requires Inv(s) && p < |s.status| && s.status[p] == Free
    ensures Relocated(s, NewEnv(s, p), p, InNew) && NewEnv(s, p).prio == s.prio && NewEnv(s, p).starv == s.starv[p := 0] && NewEnv(s, p).thresh == s.thresh
  {
    var s' := NewEnv(s, p);
    assert Sized(s') && PlaceOf(s', p) == InNew;
    forall x: Pid | x < |s.status| && x != p
      ensures PlaceOf(s', x) == PlaceOf(s, x)
    {}
    forall place | IsQueue(s', place)
      ensures IsQueue(s, place) && Queue(s', place) == Moved(s, place, p, InNew)
    {
      match place
      case _ =>
    }
  }

  lemma NewEnvKeepsInv(s: State, p: Pid)
    requires Inv(s) && p < |s.status| && s.status[p] == Free
    ensures Inv(NewEnv(s, p))
  {
    NewEnvMoves(s, p);
    RelocatedKeepsInv(s, NewEnv(s, p), p, InNew);
  }

  /** A new process goes from the NEW queue to the head of the queue of its priority. */
  lemma RunEnvMoves(s: State, p: Pid)
    requires Inv(s) && p < |s.status| && s.status[p] == New
    ensures Relocated(s, RunEnv(s, p), p, InReady(s.prio[p])) && SameCounters(s, RunEnv(s, p))
  {
    var s' := RunEnv(s, p);
    assert Sized(s') && PlaceOf(s', p) == InReady(s.prio[p]);
    forall x: Pid | x < |s.status| && x != p
      ensures PlaceOf(s', x) == PlaceOf(s, x)
    {}
    forall place | IsQueue(s', place)
      ensures IsQueue(s, place) && Queue(s', place) == Moved(s, place, p, InReady(s.prio[p]))
    {
      match place
      case _ =>
    }
  }

  lemma RunEnvKeepsInv(s: State, p: Pid)
    requires Inv(s) && p < |s.status| && s.status[p] == New
    ensures Inv(RunEnv(s, p))
  {
    RunEnvMoves(s, p);
    RelocatedKeepsInv(s, RunEnv(s, p), p, InReady(s.prio[p]));
  }

  /** A new process is linked nowhere any more. */
  lemma RemoveNewMoves(s: State, p: Pid)
    requires Inv(s) && p < |s.status| && s.status[p] == New
    ensures p in s.newQ
    ensures Relocated(s, RemoveNew(s, p), p, Nowhere) && SameCounters(s, RemoveNew(s, p)) && RemoveNew(s, p).status[p] == Unknown
  {
    assert IsQueue(s, InNew) && Agrees(s, InNew) && PlaceOf(s, p) == InNew;
    var s' := RemoveNew(s, p);
    assert Sized(s') && PlaceOf(s', p) == Nowhere;
    forall x: Pid | x < |s.status| && x != p
      ensures PlaceOf(s', x) == PlaceOf(s, x)
    {}
    forall place | IsQueue(s', place)
      ensures IsQueue(s, place) && Queue(s', place) == Moved(s, place, p, Nowhere)
    {
      match place
      case _ =>
    }
  }

  lemma RemoveNewKeepsInv(s: State, p: Pid)
    requires Inv(s) && p < |s.status| && s.status[p] == New
    ensures p in s.newQ && Inv(RemoveNew(s, p))
  {
    RemoveNewMoves(s, p);
    RelocatedKeepsInv(s, RemoveNew(s, p), p, Nowhere);
  }

  /** Killing a queued process unlinks it from its queue and from no other. */
  lemma KillMoves(s: State, p: Pid)
    requires Inv(s) && p < |s.status| && s.status[p] in {New, Ready, Exit}
    ensures s.status[p] == Ready ==> s.prio[p] < |s.ready|
    ensures Relocated(s, Kill(s, p), p, Nowhere) && SameCounters(s, Kill(s, p)) && Kill(s, p).status[p] == Free
  {
    var s' := Kill(s, p);
    assert Sized(s') && PlaceOf(s', p) == Nowhere;
    forall x: Pid | x < |s.status| && x != p
      ensures PlaceOf(s', x) == PlaceOf(s, x)
    {}
    forall place | IsQueue(s', place)
      ensures IsQueue(s, place) && Queue(s', place) == Moved(s, place, p, Nowhere)
    {
      match place
      case _ =>
    }
  }

  lemma KillKeepsInv(s: State, p: Pid)
    requires Inv(s) && p < |s.status| && s.status[p] in {New, Ready, Exit}
    ensures (s.status[p] == Ready ==> s.prio[p] < |s.ready|) && Inv(Kill(s, p)) && Kill(s, p).status[p] == Free
  {
    KillMoves(s, p);
    RelocatedKeepsInv(s, Kill(s, p), p, Nowhere);
  }
}
