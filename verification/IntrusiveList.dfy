/**
  The intrusive doubly linked lists that hold every queue and free list.  A list owns a
  sequence of nodes; the links, the two ends and the size agree with it.
 */
module IntrusiveList {
  import opened SeqUtil

  class Node {
    var next: Node?
    var prev: Node?

    constructor () { next, prev := null, null; }
  }

  ghost predicate Ends(q: seq<Node>)
    reads q
  {
    q != [] ==> q[0].prev == null && q[|q| - 1].next == null
  }

  ghost predicate Links(q: seq<Node>)
    reads q
  {
    && (forall i, j :: 0 <= i < |q| && 0 <= j < |q| && j == i + 1 ==> q[i].next == q[j] && q[j].prev == q[i])
    && Ends(q)
  }

  function FirstOf(q: seq<Node>): Node? { if q == [] then null else q[0] }

  function LastOf(q: seq<Node>): Node? { if q == [] then null else q[|q| - 1] }

  // ---------- Sequences with one node more or less ----------

  function Inserted(q: seq<Node>, k: nat, e: Node): (t: seq<Node>)
    requires k <= |q|
    ensures |t| == |q| + 1
  {
    q[..k] + [e] + q[k..]
  }

  function Without(q: seq<Node>, k: nat): (t: seq<Node>)
    requires k < |q|
    ensures |t| == |q| - 1
  {
    q[..k] + q[k + 1..]
  }

  lemma InsertedNoDup(q: seq<Node>, k: nat, e: Node)
    requires k <= |q| && NoDup(q) && e !in q
    ensures NoDup(Inserted(q, k, e))
  {
    var t := Inserted(q, k, e);
    forall i, j | 0 <= i < j < |t|
      ensures t[i] != t[j]
    {
      assert t[i] == if i < k then q[i] else if i == k then e else q[i - 1];
      assert t[j] == if j < k then q[j] else if j == k then e else q[j - 1];
    }
  }

  lemma WithoutNoDup(q: seq<Node>, k: nat)
    requires k < |q| && NoDup(q)
    ensures NoDup(Without(q, k)) && q[k] !in Without(q, k)
  {
    var t := Without(q, k);
    assert forall i :: 0 <= i < |t| ==> t[i] == if i < k then q[i] else q[i + 1];
  }

  /** The writes of an insertion at position k make the new sequence linked. */
  lemma InsertedLinks(q: seq<Node>, k: nat, e: Node)
    requires k <= |q|
    requires forall i, j :: 0 <= i < |q| && 0 <= j < |q| && j == i + 1 && j != k ==> q[i].next == q[j] && q[j].prev == q[i]
    requires if k == 0 then e.prev == null else e.prev == q[k - 1] && q[k - 1].next == e && q[0].prev == null
    requires if k == |q| then e.next == null else e.next == q[k] && q[k].prev == e && q[|q| - 1].next == null
    ensures Links(Inserted(q, k, e))
  {
    var t := Inserted(q, k, e);
    forall i, j | 0 <= i < |t| && 0 <= j < |t| && j == i + 1
      ensures t[i].next == t[j] && t[j].prev == t[i]
    {
      if j < k {
        assert t[i] == q[i] && t[j] == q[j];
      } else if i > k {
        assert t[i] == q[i - 1] && t[j] == q[j - 1];
      }
    }
  }

  /** The writes of a removal at position k make the remaining sequence linked. */
  lemma WithoutLinks(q: seq<Node>, k: nat)
    requires k < |q|
    requires forall i, j :: 0 <= i < |q| && 0 <= j < |q| && j == i + 1 && i != k && j != k ==> q[i].next == q[j] && q[j].prev == q[i]
    requires 0 < k < |q| - 1 ==> q[k - 1].next == q[k + 1] && q[k + 1].prev == q[k - 1]
    requires |q| > 1 ==> (if k == 0 then q[1] else q[0]).prev == null
    requires |q| > 1 ==> (if k == |q| - 1 then q[k - 1] else q[|q| - 1]).next == null
    ensures Links(Without(q, k))
  {
    var t := Without(q, k);
    forall i, j | 0 <= i < |t| && 0 <= j < |t| && j == i + 1
      ensures t[i].next == t[j] && t[j].prev == t[i]
    {
      if j < k {
        assert t[i] == q[i] && t[j] == q[j];
      } else if i >= k {
        assert t[i] == q[i + 1] && t[j] == q[j + 1];
      }
    }
  }

  lemma WithoutEnds(q: seq<Node>, k: nat)
    requires k < |q|
    ensures FirstOf(Without(q, k)) == if |q| == 1 then null else if k == 0 then q[1] else q[0]
    ensures LastOf(Without(q, k)) == if |q| == 1 then null else if k == |q| - 1 then q[k - 1] else q[|q| - 1]
  {}

  lemma InsertedEnds(q: seq<Node>, k: nat, e: Node)
    requires k <= |q|
    ensures FirstOf(Inserted(q, k, e)) == if k == 0 then e else q[0]
    ensures LastOf(Inserted(q, k, e)) == if k == |q| then e else q[|q| - 1]
  {}

  /** Writing one backward link. */
  method SetPrev(n: Node, v: Node?, ghost q: seq<Node>, ghost k: nat)
    requires NoDup(q) && k < |q| && n == q[k]
    modifies n`prev
    ensures forall i :: 0 <= i < |q| ==> q[i].prev == if i == k then v else old(q[i].prev)
  {
    n.prev := v;
  }

  /** Writing one forward link. */
  method SetNext(n: Node, v: Node?, ghost q: seq<Node>, ghost k: nat)
    requires NoDup(q) && k < |q| && n == q[k]
    modifies n`next
    ensures forall i :: 0 <= i < |q| ==> q[i].next == if i == k then v else old(q[i].next)
  {
    n.next := v;
  }

  // ---------- The list ----------

  class List {
    var first: Node?
    var last: Node?
    var size: nat
    ghost var nodes: seq<Node>

    ghost predicate Valid()
      reads this, nodes
    {
      && NoDup(nodes) && Links(nodes) && size == |nodes|
      && first == FirstOf(nodes) && last == LastOf(nodes)
    }

    /** LIST_INIT */
    constructor ()
      ensures Valid() && nodes == []
    {
      first, last, size, nodes := null, null, 0, [];
    }

    /** LIST_INSERT_HEAD */
    method InsertHead(elm: Node)
      requires Valid() && elm !in nodes
      modifies this, nodes, elm
      ensures Valid() && nodes == [elm] + old(nodes)
    {
      elm.next := first;
      if first != null {
        SetPrev(first, elm, nodes, 0);
      } else {
        last := elm;
      }
      first := elm;
      elm.prev := null;
      size := size + 1;
      InsertedLinks(nodes, 0, elm);
      InsertedNoDup(nodes, 0, elm);
      InsertedEnds(nodes, 0, elm);
      nodes := Inserted(nodes, 0, elm);
    }

    /** LIST_INSERT_TAIL */
    method InsertTail(elm: Node)
      requires Valid() && elm !in nodes
      modifies this, nodes, elm
      ensures Valid() && nodes == old(nodes) + [elm]
    {
      elm.prev := last;
      if last != null {
        SetNext(last, elm, nodes, |nodes| - 1);
      } else {
        first := elm;
      }
      last := elm;
      elm.next := null;
      size := size + 1;
      InsertedLinks(nodes, |nodes|, elm);
      InsertedNoDup(nodes, |nodes|, elm);
      InsertedEnds(nodes, |nodes|, elm);
      nodes := Inserted(nodes, |nodes|, elm);
    }

    method SpliceAfter(at: Node, elm: Node, ghost k: nat)
      requires Valid() && elm !in nodes && k < |nodes| && nodes[k] == at
      modifies nodes, elm
      ensures Links(Inserted(nodes, k + 1, elm))
      ensures elm.next == null <==> k + 1 == |nodes|
    {
      elm.next := at.next;
      if at.next != null {
        assert at.next == nodes[k + 1] && nodes[k + 1] in nodes;
        SetPrev(at.next, elm, nodes, k + 1);
      }
      SetNext(at, elm, nodes, k);
      elm.prev := at;
      InsertedLinks(nodes, k + 1, elm);
    }

    /** LIST_INSERT_AFTER */
    method InsertAfter(at: Node, elm: Node, ghost k: nat)
      requires Valid() && elm !in nodes && k < |nodes| && nodes[k] == at
      modifies this, nodes, elm
      ensures Valid() && nodes == Inserted(old(nodes), k + 1, elm)
    {
      InsertedNoDup(nodes, k + 1, elm);
      InsertedEnds(nodes, k + 1, elm);
      SpliceAfter(at, elm, k);
      if elm.next == null {
        last := elm;
      }
      size := size + 1;
      nodes := Inserted(nodes, k + 1, elm);
      assert Links(nodes);
    }

    method SpliceBefore(at: Node, elm: Node, ghost k: nat)
      requires Valid() && elm !in nodes && k < |nodes| && nodes[k] == at
      modifies this`first, nodes, elm
      ensures Links(Inserted(nodes, k, elm)) && first == if k == 0 then elm else old(first)
    {
      elm.prev := at.prev;
      elm.next := at;
      if at.prev != null {
        assert at.prev == nodes[k - 1] && nodes[k - 1] in nodes;
        SetNext(at.prev, elm, nodes, k - 1);
      } else {
        first := elm;
      }
      SetPrev(at, elm, nodes, k);
      InsertedLinks(nodes, k, elm);
    }

    /** LIST_INSERT_BEFORE */
    method InsertBefore(at: Node, elm: Node, ghost k: nat)
      requires Valid() && elm !in nodes && k < |nodes| && nodes[k] == at
      modifies this, nodes, elm
      ensures Valid() && nodes == Inserted(old(nodes), k, elm)
    {
      InsertedNoDup(nodes, k, elm);
      InsertedEnds(nodes, k, elm);
      SpliceBefore(at, elm, k);
      size := size + 1;
      nodes := Inserted(nodes, k, elm);
      assert Links(nodes);
    }

    /** The neighbours of a node, or the ends of the list, are made to skip it. */
    method Bypass(elm: Node, ghost k: nat)
      requires Valid() && k < |nodes| && nodes[k] == elm
      modifies this`first, this`last, nodes
      ensures Links(Without(nodes, k))
      ensures first == FirstOf(Without(nodes, k)) && last == LastOf(Without(nodes, k))
    {
      if elm.next != null {
        assert elm.next == nodes[k + 1] && nodes[k + 1] in nodes;
        SetPrev(elm.next, elm.prev, nodes, k + 1);
      } else {
        last := elm.prev;
      }
      if elm.prev != null {
        assert elm.prev == nodes[k - 1] && nodes[k - 1] in nodes;
        SetNext(elm.prev, elm.next, nodes, k - 1);
      } else {
        first := elm.next;
      }
      WithoutLinks(nodes, k);
      WithoutEnds(nodes, k);
    }

    /** LIST_REMOVE */
    method Remove(elm: Node, ghost k: nat)
      requires Valid() && k < |nodes| && nodes[k] == elm
      modifies this, nodes
      ensures Valid() && nodes == Without(old(nodes), k)
      ensures elm.next == null && elm.prev == null
    {
      WithoutNoDup(nodes, k);
      Bypass(elm, k);
      elm.next := null;
      elm.prev := null;
      size := size - 1;
      nodes := Without(nodes, k);
      assert Links(nodes);
    }
  }

  // ---------- Walking a list that changes ----------

  ghost predicate Apart(a: seq<Node>, b: seq<Node>) {
    forall n :: n in a ==> n !in b
  }

  /** Unlinking a node of one list leaves the other alone. */
  method TakeOut(src: List, dst: List, n: Node, ghost p: nat)
    requires src != dst && src.Valid() && dst.Valid() && Apart(src.nodes, dst.nodes)
    requires p < |src.nodes| && src.nodes[p] == n
    modifies src, src.nodes
    ensures src.Valid() && dst.Valid() && src.nodes == Without(old(src.nodes), p)
  {
    ApartSides(src.nodes, dst.nodes);
    src.Remove(n, p);
  }

  /** So does putting it at the head of the other. */
  method PutIn(src: List, dst: List, n: Node)
    requires src != dst && src.Valid() && dst.Valid() && Apart(src.nodes, [n] + dst.nodes) && n !in dst.nodes
    modifies dst, dst.nodes, n
    ensures src.Valid() && dst.Valid() && dst.nodes == [n] + old(dst.nodes)
  {
    ApartCons(src.nodes, n, dst.nodes);
    dst.InsertHead(n);
  }

  method MoveToHead(src: List, dst: List, n: Node, ghost p: nat)
    requires src != dst && src.Valid() && dst.Valid() && Apart(src.nodes, dst.nodes)
    requires p < |src.nodes| && src.nodes[p] == n
    modifies src, dst, src.nodes, dst.nodes
    ensures src.Valid() && dst.Valid() && Apart(src.nodes, dst.nodes)
    ensures src.nodes == Without(old(src.nodes), p) && dst.nodes == [n] + old(dst.nodes)
  {
    ApartAfter(src.nodes, dst.nodes, p);
    TakeOut(src, dst, n, p);
    PutIn(src, dst, n);
  }

  lemma ApartCons(a: seq<Node>, n: Node, b: seq<Node>)
    requires Apart(a, [n] + b)
    ensures forall i :: 0 <= i < |a| ==> a[i] != n && a[i] !in b
  {
    assert forall i :: 0 <= i < |a| ==> a[i] in a;
    assert n in [n] + b && forall x :: x in b ==> x in [n] + b;
  }

  lemma ApartSides(a: seq<Node>, b: seq<Node>)
    requires Apart(a, b)
    ensures forall i :: 0 <= i < |b| ==> b[i] !in a
  {}

  lemma ApartAfter(a: seq<Node>, b: seq<Node>, p: nat)
    requires Apart(a, b) && p < |a| && NoDup(a)
    ensures Apart(Without(a, p), [a[p]] + b) && a[p] !in b
  {
    WithoutNoDup(a, p);
    WithoutMembers(a, p);
  }

  lemma DropSnoc(done: seq<Node>, n: Node, marked: set<Node>)
    ensures Drop(done + [n], marked) == Drop(done, marked) + if n in marked then [] else [n]
  {
    DropConcat(done, [n], marked);
    assert Drop([n], marked) == if n in marked then [] else [n];
  }

  lemma KeepSnoc(done: seq<Node>, n: Node, marked: set<Node>)
    ensures Reverse(Keep(done + [n], marked)) == (if n in marked then [n] else []) + Reverse(Keep(done, marked))
  {
    KeepConcat(done, [n], marked);
    if n in marked {
      assert Keep([n], marked) == [n];
      ReverseConcat(Keep(done, marked), [n]);
      assert Reverse([n]) == [n];
    } else {
      assert Keep([n], marked) == [];
      assert Keep(done, marked) + [] == Keep(done, marked);
    }
  }

  /** The nodes met so far: those that stay, in order, and those that moved, last first. */
  ghost predicate Parted(done: seq<Node>, marked: set<Node>, kept: seq<Node>, moved: seq<Node>) {
    kept == Drop(done, marked) && moved == Reverse(Keep(done, marked))
  }

  lemma PartedStep(done: seq<Node>, n: Node, marked: set<Node>, kept: seq<Node>, moved: seq<Node>, d: seq<Node>)
    requires Parted(done, marked, kept, moved)
    ensures Parted(done + [n], marked, if n in marked then kept else kept + [n], (if n in marked then [n] else []) + moved)
    ensures (if n in marked then [n] else []) + (moved + d) == (if n in marked then [n] else []) + moved + d
  {
    DropSnoc(done, n, marked);
    KeepSnoc(done, n, marked);
    NoChange(kept);
    Regroup(if n in marked then [n] else [], moved, d);
  }

  lemma NoChange(q: seq<Node>)
    ensures q + [] == q && [] + q == q
  {}

  lemma Regroup(a: seq<Node>, b: seq<Node>, c: seq<Node>)
    ensures a + (b + c) == a + b + c
  {}

  /** The nodes of a list around the one in hand. */
  lemma InHand(kept: seq<Node>, n: Node, rest: seq<Node>)
    ensures var q := kept + ([n] + rest);
      && |q| == |kept| + 1 + |rest| && q[|kept|] == n && (rest != [] ==> q[|kept| + 1] == rest[0])
      && Without(q, |kept|) == kept + rest && q == kept + [n] + rest
  {}

  /** LIST_NEXT */
  method Next(list: List, n: Node, ghost p: nat) returns (next: Node?)
    requires list.Valid() && p < |list.nodes| && list.nodes[p] == n
    ensures next == if p + 1 < |list.nodes| then list.nodes[p + 1] else null
  {
    next := n.next;
  }

  /** One turn of the walk, within the nodes of the two lists. */
  method WalkNode(src: List, dst: List, cur: Node, marked: set<Node>, ghost p: nat, ghost all: set<Node>) returns (next: Node?)
    requires src != dst && src.Valid() && dst.Valid() && Apart(src.nodes, dst.nodes)
    requires p < |src.nodes| && src.nodes[p] == cur
    requires (forall n :: n in src.nodes ==> n in all) && (forall n :: n in dst.nodes ==> n in all)
    modifies src, dst, all
    ensures src.Valid() && dst.Valid() && Apart(src.nodes, dst.nodes)
    ensures (forall n :: n in src.nodes ==> n in all) && (forall n :: n in dst.nodes ==> n in all)
    ensures next == if p + 1 < |old(src.nodes)| then old(src.nodes)[p + 1] else null
    ensures src.nodes == if cur in marked then Without(old(src.nodes), p) else old(src.nodes)
    ensures dst.nodes == if cur in marked then [cur] + old(dst.nodes) else old(dst.nodes)
  {
    next := Next(src, cur, p);
    if cur in marked {
      WithoutMembers(src.nodes, p);
      MoveToHead(src, dst, cur, p);
    }
  }

  /** One turn of the walk: the nodes kept and moved so far, the one in hand and the rest. */
  method WalkTurn(src: List, dst: List, cur: Node, marked: set<Node>, ghost all: set<Node>,
                  ghost done: seq<Node>, ghost kept: seq<Node>, ghost moved: seq<Node>, ghost rest: seq<Node>, ghost d: seq<Node>)
    returns (next: Node?, ghost kept': seq<Node>, ghost moved': seq<Node>)
    requires src != dst && src.Valid() && dst.Valid() && Apart(src.nodes, dst.nodes)
    requires src.nodes == kept + ([cur] + rest) && dst.nodes == moved + d && Parted(done, marked, kept, moved)
    requires (forall n :: n in src.nodes ==> n in all) && (forall n :: n in dst.nodes ==> n in all)
    modifies src, dst, all
    ensures src.Valid() && dst.Valid() && Apart(src.nodes, dst.nodes)
    ensures (forall n :: n in src.nodes ==> n in all) && (forall n :: n in dst.nodes ==> n in all)
    ensures if next == null then |rest| == 0 else |rest| > 0 && next == rest[0]
    ensures src.nodes == kept' + rest && dst.nodes == moved' + d && Parted(done + [cur], marked, kept', moved')
  {
    InHand(kept, cur, rest);
    PartedStep(done, cur, marked, kept, moved, d);
    next := WalkNode(src, dst, cur, marked, |kept|, all);
    kept' := if cur in marked then kept else kept + [cur];
    moved' := (if cur in marked then [cur] else []) + moved;
    NoChange(moved + d);
  }

  /**
    LIST_FOREACH_SAFE over a list whose marked nodes are unlinked and put at the head of
    another list while the walk goes on: every node is met once, in order.
   */
  method MoveMarked(src: List, dst: List, marked: set<Node>, ghost all: set<Node>)
    requires src != dst && src.Valid() && dst.Valid() && Apart(src.nodes, dst.nodes)
    requires (forall n :: n in src.nodes ==> n in all) && (forall n :: n in dst.nodes ==> n in all)
    modifies src, dst, all
    ensures src.Valid() && dst.Valid() && Apart(src.nodes, dst.nodes)
    ensures src.nodes == Drop(old(src.nodes), marked)
    ensures dst.nodes == Reverse(Keep(old(src.nodes), marked)) + old(dst.nodes)
  {
    ghost var q, d := src.nodes, dst.nodes;
    ghost var done: seq<Node>, rest := [], q;
    ghost var kept: seq<Node>, moved: seq<Node> := [], [];
    var cur := src.first;
    while cur != null
      invariant q == done + rest && |rest| + |done| == |q|
      invariant if cur == null then |rest| == 0 else |rest| > 0 && cur == rest[0]
      invariant src.Valid() && dst.Valid() && Apart(src.nodes, dst.nodes)
      invariant src.nodes == kept + rest && dst.nodes == moved + d
      invariant Parted(done, marked, kept, moved)
      invariant (forall n :: n in src.nodes ==> n in all) && (forall n :: n in dst.nodes ==> n in all)
      decreases |rest|
    {
      ghost var n, more := rest[0], rest[1..];
      TakeFirst(done, rest);
      cur, kept, moved := WalkTurn(src, dst, cur, marked, all, done, kept, moved, more, d);
      done, rest := done + [n], more;
    }
    WalkDone(q, done, rest, kept, moved, marked);
  }

  lemma TakeFirst(done: seq<Node>, rest: seq<Node>)
    requires |rest| > 0
    ensures rest == [rest[0]] + rest[1..] && done + rest == done + [rest[0]] + rest[1..]
  {}

  lemma WalkDone(q: seq<Node>, done: seq<Node>, rest: seq<Node>, kept: seq<Node>, moved: seq<Node>, marked: set<Node>)
    requires q == done + rest && |rest| == 0 && Parted(done, marked, kept, moved)
    ensures kept + rest == Drop(q, marked) && moved == Reverse(Keep(q, marked))
  {
    assert rest == [] && done == q;
  }

  lemma WithoutMembers(q: seq<Node>, p: nat)
    requires p < |q|
    ensures forall n :: n in Without(q, p) ==> n in q
  {}
}
