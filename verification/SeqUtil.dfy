/**
  Facts about finite sequences without repetition, shared by every module that
  describes a linked list by the sequence of its nodes (head first).
 */
module SeqUtil {

  datatype Option<+T> = None | Some(value: T)

  ghost predicate NoDup<T>(q: seq<T>) {
    forall i, j :: 0 <= i < j < |q| ==> q[i] != q[j]
  }

  lemma ConsNoDup<T>(x: T, q: seq<T>)
    requires NoDup(q) && x !in q
    ensures NoDup([x] + q)
  {}

  lemma TailMembers<T>(q: seq<T>)
    requires NoDup(q) && q != []
    ensures NoDup(q[1..]) && (forall x :: x in q[1..] <==> x in q && x != q[0])
  {
    assert q == [q[0]] + q[1..];
  }

  /** The elements of q that are in s, in order. */
  function Keep<T(==)>(q: seq<T>, s: set<T>): (r: seq<T>)
  {
    if q == [] then []
    else if q[0] in s then [q[0]] + Keep(q[1..], s)
    else Keep(q[1..], s)
  }

  /** The elements of q that are not in s, in order. */
  function Drop<T(==)>(q: seq<T>, s: set<T>): (r: seq<T>)
  {
    if q == [] then []
    else if q[0] in s then Drop(q[1..], s)
    else [q[0]] + Drop(q[1..], s)
  }

  function Reverse<T>(q: seq<T>): (r: seq<T>)
  {
    if q == [] then [] else Reverse(q[1..]) + [q[0]]
  }

  lemma {:induction false} DropMembers<T>(q: seq<T>, s: set<T>)
    ensures forall x :: x in Drop(q, s) <==> x in q && x !in s
  {
    if q != [] {
      DropMembers(q[1..], s);
      assert q == [q[0]] + q[1..];
    }
  }

  lemma {:induction false} KeepMembers<T>(q: seq<T>, s: set<T>)
    ensures forall x :: x in Keep(q, s) <==> x in q && x in s
  {
    if q != [] {
      KeepMembers(q[1..], s);
      assert q == [q[0]] + q[1..];
    }
  }

  lemma {:induction false} DropNoDup<T>(q: seq<T>, s: set<T>)
    requires NoDup(q)
    ensures NoDup(Drop(q, s))
  {
    if q != [] {
      DropNoDup(q[1..], s);
      DropMembers(q[1..], s);
    }
  }

  lemma {:induction false} DropNone<T>(q: seq<T>, s: set<T>)
    requires forall x :: x in q ==> x !in s
    ensures Drop(q, s) == q
  {
    if q != [] {
      DropNone(q[1..], s);
    }
  }

  lemma {:induction false} DropConcat<T>(a: seq<T>, b: seq<T>, s: set<T>)
    ensures Drop(a + b, s) == Drop(a, s) + Drop(b, s)
  {
    if a == [] {
      assert a + b == b;
    } else {
      DropConcat(a[1..], b, s);
      assert (a + b)[1..] == a[1..] + b && (a + b)[0] == a[0];
      assert Drop(a + b, s) == if a[0] in s then Drop(a[1..] + b, s) else [a[0]] + Drop(a[1..] + b, s);
    }
  }

  lemma {:induction false} DropTwice<T>(q: seq<T>, a: set<T>, b: set<T>)
    ensures Drop(Drop(q, a), b) == Drop(q, a + b)
  {
    if q != [] { DropTwice(q[1..], a, b); }
  }

  lemma {:induction false} KeepConcat<T>(a: seq<T>, b: seq<T>, s: set<T>)
    ensures Keep(a + b, s) == Keep(a, s) + Keep(b, s)
  {
    if a == [] {
      assert a + b == b;
    } else {
      KeepConcat(a[1..], b, s);
      assert (a + b)[1..] == a[1..] + b;
    }
  }

  lemma {:induction false} ReverseConcat<T>(a: seq<T>, b: seq<T>)
    ensures Reverse(a + b) == Reverse(b) + Reverse(a)
  {
    if a == [] {
      assert a + b == b;
    } else {
      ReverseConcat(a[1..], b);
      assert (a + b)[1..] == a[1..] + b;
    }
  }

  /** Unlinking the node at position k. */
  lemma {:induction false} DropAt<T>(q: seq<T>, k: nat)
    requires NoDup(q) && k < |q|
    ensures Drop(q, {q[k]}) == q[..k] + q[k + 1..]
  {
    if k == 0 {
      DropNone(q[1..], {q[0]});
    } else {
      DropAt(q[1..], k - 1);
      assert q[1..][..k - 1] == q[1..k];
      assert q[1..][k..] == q[k + 1..];
      assert q[..k] == [q[0]] + q[1..k];
    }
  }

  /** A list without repetition is no longer than any set that holds its elements. */
  lemma {:induction false} NoDupBound<T>(q: seq<T>, s: set<T>)
    requires NoDup(q)
    requires forall x :: x in q ==> x in s
    ensures |q| <= |s|
  {
    if q != [] {
      NoDupBound(q[1..], s - {q[0]});
    }
  }

  function ToSet<T(==,!new)>(q: seq<T>): (s: set<T>)
    ensures forall x :: x in s <==> x in q
  {
    if q == [] then {} else
      assert q == [q[0]] + q[1..];
      {q[0]} + ToSet(q[1..])
  }

  lemma {:induction false} NoDupSize<T(!new)>(q: seq<T>)
    requires NoDup(q)
    ensures |ToSet(q)| == |q|
  {
    if q != [] {
      NoDupSize(q[1..]);
      assert q[0] !in ToSet(q[1..]);
    }
  }

  /** The numbers below n. */
  function Upto(n: nat): (r: set<nat>)
    ensures |r| == n
    ensures forall i: nat :: i in r <==> i < n
  {
    if n == 0 then {} else Upto(n - 1) + {n - 1}
  }

  /** A subset of the same size is the whole set. */
  lemma SubsetSize<T>(a: set<T>, b: set<T>)
    requires a <= b
    ensures |a| <= |b| && (|a| == |b| <==> b <= a)
  {
    assert b == a + (b - a);
    assert |b| == |a| + |b - a|;
    assert b <= a ==> b - a == {};
  }
}
