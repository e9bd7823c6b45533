/**
  Sorted sequences: the independent meaning of quicksort and quickselect.
 */
module Sorting {

  ghost predicate Sorted(s: seq<int>) {
    forall i, j :: 0 <= i < j < |s| ==> s[i] <= s[j]
  }

  ghost predicate Permuted(s: seq<int>, t: seq<int>) { multiset(s) == multiset(t) }

  /** Insertion into a sorted sequence. */
  function Insert(x: int, s: seq<int>): (r: seq<int>)
  {
    if s == [] then [x] else if x <= s[0] then [x] + s else [s[0]] + Insert(x, s[1..])
  }

  function SortedOf(s: seq<int>): (r: seq<int>)
  {
    if s == [] then [] else Insert(s[0], SortedOf(s[1..]))
  }

  lemma {:induction false} InsertSorted(x: int, s: seq<int>)
    requires Sorted(s)
    ensures Sorted(Insert(x, s)) && |Insert(x, s)| == |s| + 1
    ensures Insert(x, s)[0] == if s == [] || x <= s[0] then x else s[0]
  {
    if s != [] && x > s[0] {
      InsertSorted(x, s[1..]);
      HeadLe(s[0], Insert(x, s[1..]));
    }
  }

  lemma HeadLe(x: int, s: seq<int>)
    requires Sorted(s) && (s != [] ==> x <= s[0])
    ensures Sorted([x] + s)
  {}

  lemma {:induction false} InsertPermutes(x: int, s: seq<int>)
    ensures Permuted(Insert(x, s), [x] + s)
  {
    if s != [] && x > s[0] {
      InsertPermutes(x, s[1..]);
      Exchange(x, s[0], s[1..], Insert(x, s[1..]));
      assert s == [s[0]] + s[1..];
    }
  }

  lemma Exchange(x: int, y: int, s: seq<int>, t: seq<int>)
    requires Permuted(t, [x] + s)
    ensures Permuted([y] + t, [x] + ([y] + s))
  {
    assert multiset([y] + t) == multiset{y} + multiset(t);
    assert multiset([x] + ([y] + s)) == multiset{x} + (multiset{y} + multiset(s));
  }

  lemma {:induction false} SortedOfOk(s: seq<int>)
    ensures Sorted(SortedOf(s)) && Permuted(SortedOf(s), s) && |SortedOf(s)| == |s|
  {
    if s != [] {
      var r := SortedOf(s[1..]);
      SortedOfOk(s[1..]);
      InsertSorted(s[0], r);
      InsertPermutes(s[0], r);
      ConsPermuted(s[0], r, s[1..]);
      assert s == [s[0]] + s[1..];
    }
  }

  lemma ConsPermuted(x: int, s: seq<int>, t: seq<int>)
    requires Permuted(s, t)
    ensures Permuted([x] + s, [x] + t)
  {}

  lemma SameSize(s: seq<int>, t: seq<int>)
    requires Permuted(s, t)
    ensures |s| == |t| && (forall x :: x in s <==> x in t)
  {
    assert |multiset(s)| == |s|;
    assert |multiset(t)| == |t|;
    assert forall x :: x in s <==> x in multiset(s);
    assert forall x :: x in t <==> x in multiset(t);
  }

  /** The first element of a sorted sequence is its least. */
  lemma HeadLeast(s: seq<int>, t: seq<int>)
    requires Sorted(s) && Sorted(t) && Permuted(s, t) && s != [] && t != []
    ensures s[0] == t[0]
  {
    SameSize(s, t);
    assert s[0] in s && t[0] in t;
    assert s[0] in t && t[0] in s;
  }

  lemma TailPermuted(s: seq<int>, t: seq<int>)
    requires Permuted(s, t) && s != [] && t != [] && s[0] == t[0]
    ensures Permuted(s[1..], t[1..])
  {
    assert s == [s[0]] + s[1..] && t == [t[0]] + t[1..];
    assert multiset(s[1..]) == multiset(s) - multiset{s[0]};
    assert multiset(t[1..]) == multiset(t) - multiset{t[0]};
  }

  /** There is only one sorted arrangement. */
  lemma {:induction false} SortedUnique(s: seq<int>, t: seq<int>)
    requires Sorted(s) && Sorted(t) && Permuted(s, t)
    ensures s == t
  {
    SameSize(s, t);
    if s != [] {
      HeadLeast(s, t);
      TailPermuted(s, t);
      SortedUnique(s[1..], t[1..]);
      assert s == [s[0]] + s[1..] && t == [t[0]] + t[1..];
    }
  }

  /** An element with nothing larger before it and nothing smaller after it is where sorting puts it. */
  lemma RankIsPlace(s: seq<int>, k: nat)
    requires k < |s|
    requires forall i :: 0 <= i < k ==> s[i] <= s[k]
    requires forall i :: k < i < |s| ==> s[k] <= s[i]
    ensures |SortedOf(s)| == |s| && SortedOf(s)[k] == s[k]
  {
    var low, high := s[..k], s[k + 1..];
    assert s == low + [s[k]] + high;
    assert forall y :: y in low ==> y <= s[k];
    assert forall y :: y in high ==> s[k] <= y;
    SortedAround(low, s[k], high);
    SortedOfOk(low);
    SortedOfOk(s);
  }

  /** Sorting keeps an element between what is smaller and what is larger. */
  lemma SortedAround(low: seq<int>, x: int, high: seq<int>)
    requires (forall y :: y in low ==> y <= x) && (forall y :: y in high ==> x <= y)
    ensures SortedOf(low + [x] + high) == SortedOf(low) + [x] + SortedOf(high)
  {
    SortedOfOk(low);
    SortedOfOk(high);
    SortedOfOk(low + [x] + high);
    SameSize(SortedOf(low), low);
    SameSize(SortedOf(high), high);
    Joined(SortedOf(low), x, SortedOf(high));
    ThreePermuted(low, SortedOf(low), x, high, SortedOf(high));
    SortedUnique(SortedOf(low + [x] + high), SortedOf(low) + [x] + SortedOf(high));
  }

  lemma ThreePermuted(a: seq<int>, a': seq<int>, x: int, b: seq<int>, b': seq<int>)
    requires Permuted(a', a) && Permuted(b', b)
    ensures Permuted(a' + [x] + b', a + [x] + b)
  {}

  lemma Joined(low: seq<int>, x: int, high: seq<int>)
    requires Sorted(low) && Sorted(high)
    requires (forall y :: y in low ==> y <= x) && (forall y :: y in high ==> x <= y)
    ensures Sorted(low + [x] + high)
  {
    var s := low + [x] + high;
    assert forall i :: 0 <= i < |low| ==> s[i] == low[i] && low[i] in low;
    assert forall i :: |low| < i < |s| ==> s[i] == high[i - |low| - 1] && high[i - |low| - 1] in high;
  }

  lemma SortedOfPermuted(s: seq<int>, t: seq<int>)
    requires Permuted(s, t)
    ensures SortedOf(s) == SortedOf(t)
  {
    SortedOfOk(s);
    SortedOfOk(t);
    SortedUnique(SortedOf(s), SortedOf(t));
  }

  // ---------- Swapping ----------

  lemma SwapPermutes(s: seq<int>, t: seq<int>, i: nat, j: nat)
    requires i < |s| && j < |s| && t == s[i := s[j]][j := s[i]]
    ensures Permuted(s, t)
  {}
}
