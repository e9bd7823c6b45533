/**
  The ageing pass of the clock interrupt: a closed form for what the nested
  loops leave behind, and the proof that processing one more process at a time,
  each promotion relinking the node just visited, arrives at that form.
 */
module Ageing {
  import opened SeqUtil
  import opened SchedState

  /** The 32-bit increment of a waiting counter. */
  function Bump(c: nat): (r: nat)
    ensures c <= U32_MAX ==> r <= U32_MAX
  {
    if c >= U32_MAX then 0 else c + 1
  }

  /** The body of the ageing loop for one process. */
  function AgeOne(s: State, p: Pid): State
    requires Sized(s) && p < |s.status|
  {
    var t := s.(starv := s.starv[p := Bump(s.starv[p])]);
    if t.starv[p] > t.thresh && t.prio[p] >= 1 then SetPriority(t, p, t.prio[p] - 1) else t
  }

  /** p has waited past the threshold and there is a better priority to go to. */
  predicate Promotes(s: State, p: Pid)
    requires Sized(s) && p < |s.status|
  {
    s.status[p] == Ready && Bump(s.starv[p]) > s.thresh && s.prio[p] > 0
  }

  ghost function Promoted(s: State): set<Pid>
    requires Sized(s)
  {
    set p: Pid | 0 <= p < |s.status| && Promotes(s, p)
  }

  // ---------- Closed form ----------

  /** Queue j after a tick: newcomers from queue j+1, last promoted first, then those that stay. */
  ghost function AgedQueue(s: State, j: nat): seq<Pid>
    requires Sized(s) && j < |s.ready|
  {
    var above := if j + 1 < |s.ready| then s.ready[j + 1] else [];
    Reverse(Keep(above, Promoted(s))) + Drop(s.ready[j], Promoted(s))
  }

  /** Every ready process is aged exactly once; nobody else is touched. */
  ghost function Aged(s: State): State
    requires Sized(s)
  {
    s.(ready := seq(|s.ready|, j requires 0 <= j < |s.ready| => AgedQueue(s, j)),
       starv := seq(|s.status|, p requires 0 <= p < |s.status| =>
                  if s.status[p] != Ready then s.starv[p]
                  else if Promotes(s, p) then 0 else Bump(s.starv[p])),
       prio := seq(|s.status|, p requires 0 <= p < |s.status| =>
                 if Promotes(s, p) then s.prio[p] - 1 else s.prio[p]))
  }

  // ---------- The pass, part-way ----------

  /** p has been visited when queues below i and the first k nodes of queue i are done. */
  ghost predicate Visited(s: State, p: Pid, i: nat, k: nat)
    requires Sized(s) && p < |s.status|
    requires i <= |s.ready| && (if i < |s.ready| then k <= |s.ready[i]| else k == 0)
  {
    s.status[p] == Ready && (s.prio[p] < i || (i < |s.ready| && s.prio[p] == i && p in s.ready[i][..k]))
  }

  ghost function PartialQueue(s: State, i: nat, k: nat, j: nat): seq<Pid>
    requires Sized(s) && j < |s.ready|
    requires i <= |s.ready| && (if i < |s.ready| then k <= |s.ready[i]| else k == 0)
  {
    var up := Promoted(s);
    if j + 1 < i then Reverse(Keep(s.ready[j + 1], up)) + Drop(s.ready[j], up)
    else if j + 1 == i then
      (if i < |s.ready| then Reverse(Keep(s.ready[i][..k], up)) else []) + Drop(s.ready[j], up)
    else if j == i then Drop(s.ready[i][..k], up) + s.ready[i][k..]
    else s.ready[j]
  }

  ghost function Partial(s: State, i: nat, k: nat): State
    requires Sized(s)
    requires i <= |s.ready| && (if i < |s.ready| then k <= |s.ready[i]| else k == 0)
  {
    s.(ready := seq(|s.ready|, j requires 0 <= j < |s.ready| => PartialQueue(s, i, k, j)),
       starv := seq(|s.status|, p requires 0 <= p < |s.status| =>
                  if !Visited(s, p, i, k) then s.starv[p]
                  else if Promotes(s, p) then 0 else Bump(s.starv[p])),
       prio := seq(|s.status|, p requires 0 <= p < |s.status| =>
                 if Visited(s, p, i, k) && Promotes(s, p) then s.prio[p] - 1 else s.prio[p]))
  }

  lemma PartialStart(s: State)
    requires Sized(s) && |s.ready| > 0
    ensures Partial(s, 0, 0) == s
  {
    var t := Partial(s, 0, 0);
    forall j | 0 <= j < |s.ready|
      ensures t.ready[j] == s.ready[j]
    {
      if j == 0 {
        assert s.ready[0][..0] == [];
        assert s.ready[0][0..] == s.ready[0];
      }
    }
    assert t.ready == s.ready && t.starv == s.starv && t.prio == s.prio;
  }

  /** The queue the pass comes to is still as it was. */
  lemma PartialFresh(s: State, i: nat)
    requires Sized(s) && i < |s.ready|
    ensures Partial(s, i, 0).ready[i] == s.ready[i]
  {
    assert s.ready[i][..0] == [] && s.ready[i][0..] == s.ready[i];
  }

  lemma PartialNextQueue(s: State, i: nat)
    requires Inv(s) && i < |s.ready|
    ensures Partial(s, i, |s.ready[i]|) == Partial(s, i + 1, 0)
  {
    var n := |s.ready[i]|;
    var a, b := Partial(s, i, n), Partial(s, i + 1, 0);
    assert s.ready[i][..n] == s.ready[i];
    forall j | 0 <= j < |s.ready|
      ensures a.ready[j] == b.ready[j]
    {
      if i + 1 < |s.ready| {
        assert s.ready[i + 1][..0] == [];
        assert s.ready[i + 1][0..] == s.ready[i + 1];
      }
    }
    assert IsQueue(s, InReady(i)) && Agrees(s, InReady(i));
    forall p: Pid | p < |s.status|
      ensures Visited(s, p, i, n) == Visited(s, p, i + 1, 0)
    {
      if s.status[p] == Ready && s.prio[p] == i {
        assert PlaceOf(s, p) == InReady(i);
        assert p in Queue(s, InReady(i));
      }
    }
    assert a.ready == b.ready && a.starv == b.starv && a.prio == b.prio;
  }

  lemma PartialEnd(s: State)
    requires Inv(s)
    ensures Partial(s, |s.ready|, 0) == Aged(s)
  {
    var a, b := Partial(s, |s.ready|, 0), Aged(s);
    assert a.ready == b.ready;
    assert a.starv == b.starv && a.prio == b.prio;
  }

  /** What visiting the k-th node of queue i does to who has been visited. */
  lemma VisitedStep(s: State, i: nat, k: nat, x: Pid)
    requires Inv(s) && i < |s.ready| && k < |s.ready[i]| && x < |s.status|
    ensures Visited(s, x, i, k + 1) == (Visited(s, x, i, k) || x == s.ready[i][k])
    ensures s.ready[i][k] < |s.status|
    ensures !Visited(s, s.ready[i][k], i, k)
    ensures s.status[s.ready[i][k]] == Ready && s.prio[s.ready[i][k]] == i
  {
    var q := s.ready[i];
    assert IsQueue(s, InReady(i)) && Agrees(s, InReady(i));
    assert q[k] in Queue(s, InReady(i));
    assert q[..k + 1] == q[..k] + [q[k]];
  }

  /** The queues around the node being visited, when it stays. */
  lemma StayQueue(q: seq<Pid>, up: set<Pid>, k: nat)
    requires k < |q| && q[k] !in up
    ensures Drop(q[..k + 1], up) + q[k + 1..] == Drop(q[..k], up) + q[k..]
    ensures Keep(q[..k + 1], up) == Keep(q[..k], up)
  {
    assert q[..k + 1] == q[..k] + [q[k]];
    DropConcat(q[..k], [q[k]], up);
    KeepConcat(q[..k], [q[k]], up);
    assert q[k..] == [q[k]] + q[k + 1..];
  }

  /** The queue the visited node leaves when it is relinked one level up. */
  lemma LeaveQueue(q: seq<Pid>, up: set<Pid>, k: nat)
    requires NoDup(q) && k < |q| && q[k] in up
    ensures Drop(Drop(q[..k], up) + q[k..], {q[k]}) == Drop(q[..k + 1], up) + q[k + 1..]
  {
    var p, front, back := q[k], Drop(q[..k], up), q[k + 1..];
    assert Drop(q[..k + 1], up) == front by {
      assert q[..k + 1] == q[..k] + [p];
      DropConcat(q[..k], [p], up);
      assert Drop([p], up) == [];
    }
    assert Drop(front, {p}) == front by {
      DropMembers(q[..k], up);
      DropNone(front, {p});
    }
    assert Drop(q[k..], {p}) == back by {
      assert q[k..][1..] == back;
      DropNone(back, {p});
    }
    DropConcat(front, q[k..], {p});
  }

  /** The newcomers of the queue it enters. */
  lemma EnterQueue(q: seq<Pid>, up: set<Pid>, k: nat)
    requires k < |q| && q[k] in up
    ensures Reverse(Keep(q[..k + 1], up)) == [q[k]] + Reverse(Keep(q[..k], up))
  {
    assert q[..k + 1] == q[..k] + [q[k]];
    KeepConcat(q[..k], [q[k]], up);
    assert Keep([q[k]], up) == [q[k]];
    ReverseConcat(Keep(q[..k], up), [q[k]]);
    assert Reverse([q[k]]) == [q[k]];
  }

  lemma PartialStayStep(s: State, i: nat, k: nat)
    requires Inv(s) && i < |s.ready| && k < |s.ready[i]|
    requires s.ready[i][k] < |s.status| && !Promotes(s, s.ready[i][k])
    ensures AgeOne(Partial(s, i, k), s.ready[i][k]) == Partial(s, i, k + 1)
  {
    var p, t, u := s.ready[i][k], Partial(s, i, k), Partial(s, i, k + 1);
    VisitedStep(s, i, k, p);
    var r := AgeOne(t, p);
    StayQueue(s.ready[i], Promoted(s), k);
    forall j | 0 <= j < |s.ready|
      ensures r.ready[j] == u.ready[j]
    {}
    assert r.ready == u.ready;
    forall x: Pid | x < |s.status|
      ensures r.starv[x] == u.starv[x] && r.prio[x] == u.prio[x]
    {
      VisitedStep(s, i, k, x);
    }
    assert r.starv == u.starv && r.prio == u.prio;
  }

  lemma PartialMoveQueues(s: State, i: nat, k: nat, j: nat)
    requires Inv(s) && 0 < i < |s.ready| && k < |s.ready[i]| && j < |s.ready|
    requires s.ready[i][k] in Promoted(s)
    ensures PartialQueue(s, i, k + 1, j) ==
            if j == i then Drop(PartialQueue(s, i, k, i), {s.ready[i][k]})
            else if j == i - 1 then [s.ready[i][k]] + PartialQueue(s, i, k, j)
            else PartialQueue(s, i, k, j)
  {
    var p, up := s.ready[i][k], Promoted(s);
    if j == i {
      assert IsQueue(s, InReady(i)) && Agrees(s, InReady(i));
      LeaveQueue(s.ready[i], up, k);
    } else if j == i - 1 {
      EnterQueue(s.ready[i], up, k);
      assert [p] + Reverse(Keep(s.ready[i][..k], up)) + Drop(s.ready[j], up)
          == [p] + (Reverse(Keep(s.ready[i][..k], up)) + Drop(s.ready[j], up));
    }
  }

  lemma PartialMoveReady(s: State, i: nat, k: nat)
    requires Inv(s) && i < |s.ready| && k < |s.ready[i]|
    requires s.ready[i][k] < |s.status| && Promotes(s, s.ready[i][k])
    ensures AgeOne(Partial(s, i, k), s.ready[i][k]).ready == Partial(s, i, k + 1).ready
  {
    var p, t, u := s.ready[i][k], Partial(s, i, k), Partial(s, i, k + 1);
    VisitedStep(s, i, k, p);
    var r := AgeOne(t, p);
    assert t.prio[p] == i && t.starv[p] == s.starv[p];
    forall j | 0 <= j < |s.ready|
      ensures r.ready[j] == u.ready[j]
    {
      PartialMoveQueues(s, i, k, j);
    }
  }

  lemma PartialMoveStep(s: State, i: nat, k: nat)
    requires Inv(s) && i < |s.ready| && k < |s.ready[i]|
    requires s.ready[i][k] < |s.status| && Promotes(s, s.ready[i][k])
    ensures AgeOne(Partial(s, i, k), s.ready[i][k]) == Partial(s, i, k + 1)
  {
    var p, t, u := s.ready[i][k], Partial(s, i, k), Partial(s, i, k + 1);
    PartialMoveReady(s, i, k);
    VisitedStep(s, i, k, p);
    var r := AgeOne(t, p);
    assert t.prio[p] == i && t.starv[p] == s.starv[p];
    forall x: Pid | x < |s.status|
      ensures r.starv[x] == u.starv[x] && r.prio[x] == u.prio[x]
    {
      VisitedStep(s, i, k, x);
    }
    assert r.starv == u.starv && r.prio == u.prio;
    assert r.status == u.status;
  }

  /** One iteration of the inner loop: visiting the next node advances the pass by one. */
  lemma PartialStep(s: State, i: nat, k: nat)
    requires Inv(s) && i < |s.ready| && k < |s.ready[i]|
    ensures s.ready[i][k] < |s.status|
    ensures AgeOne(Partial(s, i, k), s.ready[i][k]) == Partial(s, i, k + 1)
  {
    VisitedStep(s, i, k, 0 + s.ready[i][k]) by {
      assert IsQueue(s, InReady(i)) && Agrees(s, InReady(i));
      assert s.ready[i][k] in Queue(s, InReady(i));
    }
    if Promotes(s, s.ready[i][k]) {
      PartialMoveStep(s, i, k);
    } else {
      PartialStayStep(s, i, k);
    }
  }

  lemma AgeOneKeepsInv(s: State, p: Pid)
    requires Inv(s) && p < |s.status|
    ensures Inv(AgeOne(s, p))
  {
    var t := s.(starv := s.starv[p := Bump(s.starv[p])]);
    forall x: Pid | x < |s.status|
      ensures PlaceOf(t, x) == PlaceOf(s, x)
    {}
    forall place | IsQueue(t, place)
      ensures Agrees(t, place)
    {
      assert IsQueue(s, place) && Agrees(s, place) && Queue(t, place) == Queue(s, place);
    }
    if t.starv[p] > t.thresh && t.prio[p] >= 1 {
      SetPriorityKeepsInv(t, p, t.prio[p] - 1);
    }
  }

  lemma PartialStepKeepsInv(s: State, i: nat, k: nat)
    requires Inv(s) && i < |s.ready| && k < |s.ready[i]| && Inv(Partial(s, i, k))
    ensures Inv(Partial(s, i, k + 1))
  {
    PartialStep(s, i, k);
    AgeOneKeepsInv(Partial(s, i, k), s.ready[i][k]);
  }

  lemma {:induction false} PartialKeepsInv(s: State, i: nat, k: nat)
    requires Inv(s)
    requires i <= |s.ready| && (if i < |s.ready| then k <= |s.ready[i]| else k == 0)
    requires |s.ready| > 0
    ensures Inv(Partial(s, i, k))
    decreases i, k
  {
    if k > 0 {
      PartialKeepsInv(s, i, k - 1);
      PartialStepKeepsInv(s, i, k - 1);
    } else if i > 0 {
      PartialKeepsInv(s, i - 1, |s.ready[i - 1]|);
      PartialNextQueue(s, i - 1);
    } else {
      PartialStart(s);
    }
  }

  lemma AgedKeepsInv(s: State)
    requires Inv(s) && |s.ready| > 0
    ensures Inv(Aged(s))
  {
    PartialKeepsInv(s, |s.ready|, 0);
    PartialEnd(s);
  }

  /**
    At the largest 32-bit threshold no counter can exceed it: the increment wraps
    first, so the pass promotes nobody.
   */
  lemma NoPromotionAtLargestThreshold(s: State)
    requires Sized(s) && s.thresh == U32_MAX
    ensures Promoted(s) == {}
    ensures Aged(s).prio == s.prio
  {
    forall p: Pid | p < |s.status|
      ensures !Promotes(s, p)
    {}
    assert Aged(s).prio == s.prio;
  }

  // ---------- How long a promotion takes ----------

  /** n ticks of ageing and nothing else. */
  ghost function AgedTimes(s: State, n: nat): (r: State)
    requires Inv(s) && |s.ready| > 0
    ensures Inv(r) && |r.ready| == |s.ready| && |r.status| == |s.status| && r.thresh == s.thresh && r.status == s.status
    decreases n
  {
    if n == 0 then s else AgedKeepsInv(AgedTimes(s, n - 1)); Aged(AgedTimes(s, n - 1))
  }

  /** A waiting process goes one level up at tick thresh + 1, with a fresh counter, and not before. */
  lemma {:induction false} PromotedExactly(s: State, w: Pid, n: nat)
    requires Inv(s) && |s.ready| > 0 && s.thresh < U32_MAX && n <= s.thresh + 1
    requires w < |s.status| && s.status[w] == Ready && s.starv[w] == 0 && s.prio[w] > 0
    ensures var r := AgedTimes(s, n);
      if n <= s.thresh then r.prio[w] == s.prio[w] && r.starv[w] == n
      else r.prio[w] == s.prio[w] - 1 && r.starv[w] == 0
    decreases n
  {
    if n > 0 { PromotedExactly(s, w, n - 1); }
  }
}
