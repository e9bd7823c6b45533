/**
  Quicksort and quickselect in place, with an arbitrary pivot below the last index.
  Ghost bounds carry what a caller knows about a range into the recursive calls.
 */
module QuickSelect {
  import opened Sorting

  ghost predicate Within(a: array<int>, lo: nat, hi: int, least: int, most: int)
    requires hi < a.Length
    reads a
  {
    forall k :: lo <= k <= hi ==> least <= a[k] <= most
  }

  ghost predicate SortedRange(a: array<int>, lo: nat, hi: int)
    requires hi < a.Length
    reads a
  {
    forall x, y :: lo <= x < y <= hi ==> a[x] <= a[y]
  }

  /** Nothing outside lo..hi changed, and the whole is a permutation of what it was. */
  twostate predicate Rearranged(a: array<int>, lo: nat, hi: int)
    requires hi < a.Length
    reads a
  {
    && Permuted(a[..], old(a[..]))
    && (forall k :: 0 <= k < a.Length && !(lo <= k <= hi) ==> a[k] == old(a[k]))
  }

  method Swap(a: array<int>, x: nat, y: nat)
    requires x < a.Length && y < a.Length
    modifies a
    ensures a[..] == old(a[..])[x := old(a[y])][y := old(a[x])]
    ensures Permuted(a[..], old(a[..]))
    ensures forall k :: 0 <= k < a.Length ==> a[k] == if k == y then old(a[x]) else if k == x then old(a[y]) else old(a[k])
  {
    a[x], a[y] := a[y], a[x];
    SwapPermutes(old(a[..]), a[..], x, y);
  }

  /** The first index from start whose element is larger than the pivot at lo, or hi + 1. */
  method ScanUp(a: array<int>, lo: nat, hi: nat, start: nat) returns (i: nat)
    requires lo < start <= hi + 1 && hi < a.Length
    ensures start <= i <= hi + 1 && (i <= hi ==> a[i] > a[lo])
    ensures forall k :: start <= k < i ==> a[k] <= a[lo]
  {
    i := start;
    while i <= hi && a[lo] >= a[i]
      invariant start <= i <= hi + 1
      invariant forall k :: start <= k < i ==> a[k] <= a[lo]
    {
      i := i + 1;
    }
  }

  /** The last index up to start whose element is smaller than the pivot at lo, or lo. */
  method ScanDown(a: array<int>, lo: nat, start: nat) returns (j: nat)
    requires lo <= start < a.Length
    ensures lo <= j <= start && (j > lo ==> a[j] < a[lo])
    ensures forall k :: j < k <= start ==> a[lo] <= a[k]
  {
    j := start;
    while j > lo && a[lo] <= a[j]
      invariant lo <= j <= start
      invariant forall k :: j < k <= start ==> a[lo] <= a[k]
    {
      j := j - 1;
    }
  }

  /** The last index up to start whose element is not larger than the pivot at lo. */
  method ScanDownStrict(a: array<int>, lo: nat, start: nat) returns (j: nat)
    requires lo <= start < a.Length
    ensures lo <= j <= start && a[j] <= a[lo]
    ensures forall k :: j < k <= start ==> a[lo] < a[k]
  {
    j := start;
    while j > lo && a[lo] < a[j]
      invariant lo <= j <= start
      invariant forall k :: j < k <= start ==> a[lo] < a[k]
    {
      j := j - 1;
    }
  }

  /** The last swap of a partition: the pivot moves from lo to j. */
  method PlacePivot(a: array<int>, lo: nat, hi: nat, i: nat, j: nat, ghost least: int, ghost most: int)
    requires lo <= j < i <= hi + 1 && hi < a.Length && Within(a, lo, hi, least, most)
    requires forall k :: lo <= k < i ==> a[k] <= a[lo]
    requires forall k :: j < k <= hi ==> a[lo] <= a[k]
    modifies a
    ensures Within(a, lo, (j as int) - 1, least, a[j]) && Within(a, i, hi, a[j], most) && least <= a[j] <= most
    ensures forall k :: j < k < i ==> a[k] == a[j]
    ensures Rearranged(a, lo, hi)
  {
    Swap(a, lo, j);
  }

  // ---------- Quicksort ----------

  /** Up to i nothing is larger than the pivot at lo, and after j nothing is smaller. */
  ghost predicate Banded(a: array<int>, lo: nat, hi: nat, i: nat, j: nat)
    requires lo < hi < a.Length
    reads a
  {
    && lo < i <= hi + 1 && lo <= j <= hi
    && (forall k :: lo <= k < i ==> a[k] <= a[lo])
    && (forall k :: j < k <= hi ==> a[lo] <= a[k])
  }

  /** The scans will stop where they are, so the next turn swaps. */
  predicate Crossed(a: array<int>, lo: nat, i: nat, j: nat)
    requires lo < a.Length && i <= j < a.Length
    reads a
  {
    a[i] > a[lo] && a[j] <= a[lo]
  }

  /** How much there is left to do: unscanned elements first, then a swap that is due. */
  ghost function Left(a: array<int>, lo: nat, i: nat, j: nat): (int, nat)
    requires lo < a.Length && j < a.Length
    reads a
  {
    ((j as int) - i, if i <= j && Crossed(a, lo, i, j) then 1 else 0)
  }

  ghost predicate Less(x: (int, nat), y: (int, nat)) { x.0 < y.0 || (x.0 == y.0 && x.1 < y.1) }

  /** One turn of the partition loop of quicksort */
  method BandTurn(a: array<int>, lo: nat, hi: nat, i0: nat, j0: nat, ghost least: int, ghost most: int) returns (i: nat, j: nat)
    requires lo < hi < a.Length && Banded(a, lo, hi, i0, j0) && i0 <= j0 && Within(a, lo, hi, least, most)
    modifies a
    ensures Banded(a, lo, hi, i, j) && Within(a, lo, hi, least, most) && Rearranged(a, lo, hi) && a[lo] == old(a[lo])
    ensures Less(Left(a, lo, i, j), old(Left(a, lo, i0, j0)))
  {
    i := ScanUp(a, lo, hi, i0);
    j := ScanDown(a, lo, j0);
    if i <= j { Swap(a, i, j); }
  }

  /** The partition loop of quicksort around the pivot at lo. */
  method BandLoop(a: array<int>, lo: nat, hi: nat, ghost least: int, ghost most: int) returns (i: nat, j: nat)
    requires lo < hi < a.Length && Within(a, lo, hi, least, most)
    modifies a
    ensures Banded(a, lo, hi, i, j) && j < i && a[lo] == old(a[lo])
    ensures Within(a, lo, hi, least, most) && Rearranged(a, lo, hi)
  {
    i, j := lo + 1, hi;
    while i <= j
      invariant Banded(a, lo, hi, i, j) && a[lo] == old(a[lo])
      invariant Within(a, lo, hi, least, most) && Rearranged(a, lo, hi)
      decreases Left(a, lo, i, j).0, Left(a, lo, i, j).1
    {
      i, j := BandTurn(a, lo, hi, i, j, least, most);
    }
  }

  /** A band of elements equal to the pivot ends between j and i. */
  method PartitionBand(a: array<int>, lo: nat, hi: nat, ghost least: int, ghost most: int) returns (i: nat, j: nat)
    requires lo < hi < a.Length && Within(a, lo, hi, least, most)
    modifies a
    ensures lo <= j < i <= hi + 1
    ensures Within(a, lo, (j as int) - 1, least, a[j]) && Within(a, i, hi, a[j], most) && least <= a[j] <= most
    ensures forall k :: j < k < i ==> a[k] == a[j]
    ensures Rearranged(a, lo, hi)
  {
    var pivot: nat :| lo <= pivot < hi;
    Swap(a, lo, pivot);
    i, j := BandLoop(a, lo, hi, least, most);
    PlacePivot(a, lo, hi, i, j, least, most);
  }

  method SortRange(a: array<int>, lo: nat, hi: int, ghost least: int, ghost most: int)
    requires -1 <= hi < a.Length && Within(a, lo, hi, least, most)
    modifies a
    ensures SortedRange(a, lo, hi) && Within(a, lo, hi, least, most) && Rearranged(a, lo, hi)
    decreases hi - lo
  {
    if lo >= hi { return; }
    var i, j := PartitionBand(a, lo, hi, least, most);
    ghost var p := a[j];
    SortRange(a, lo, (j as int) - 1, least, p);
    SortRange(a, i, hi, p, most);
    JoinRanges(a, lo, i, j, hi, least, p, most);
  }

  lemma JoinRanges(a: array<int>, lo: nat, i: nat, j: nat, hi: nat, least: int, p: int, most: int)
    requires lo <= j < i <= hi + 1 && hi < a.Length && least <= p <= most
    requires SortedRange(a, lo, (j as int) - 1) && Within(a, lo, (j as int) - 1, least, p)
    requires forall k :: j <= k < i ==> a[k] == p
    requires SortedRange(a, i, hi) && Within(a, i, hi, p, most)
    ensures SortedRange(a, lo, hi) && Within(a, lo, hi, least, most)
  {}

  /** QuickSort */
  method QuickSort(a: array<int>)
    modifies a
    ensures a[..] == SortedOf(old(a[..]))
  {
    ghost var least, most := Bounds(a[..]);
    SortRange(a, 0, a.Length - 1, least, most);
    SortedOfOk(old(a[..]));
    SortedUnique(a[..], SortedOf(old(a[..])));
  }

  lemma Bounds(s: seq<int>) returns (least: int, most: int)
    ensures forall k :: 0 <= k < |s| ==> least <= s[k] <= most
  {
    if s == [] { return 0, 0; }
    least, most := Bounds(s[1..]);
    least := if s[0] < least then s[0] else least;
    most := if s[0] > most then s[0] else most;
    assert forall k :: 0 < k < |s| ==> s[k] == s[1..][k - 1];
  }

  // ---------- Quickselect ----------

  /** Up to i nothing is larger than the pivot at lo, and after j everything is. */
  ghost predicate Cut(a: array<int>, lo: nat, hi: nat, i: nat, j: nat)
    requires lo < hi < a.Length
    reads a
  {
    && lo < i <= hi + 1 && lo <= j <= hi
    && (forall k :: lo <= k < i ==> a[k] <= a[lo])
    && (forall k :: j < k <= hi ==> a[lo] < a[k])
  }

  /** One turn of the partition loop of quickselect */
  method CutTurn(a: array<int>, lo: nat, hi: nat, i0: nat, j0: nat, ghost least: int, ghost most: int) returns (i: nat, j: nat)
    requires lo < hi < a.Length && Cut(a, lo, hi, i0, j0) && i0 <= j0 && Within(a, lo, hi, least, most)
    modifies a
    ensures Cut(a, lo, hi, i, j) && Within(a, lo, hi, least, most) && Rearranged(a, lo, hi) && a[lo] == old(a[lo])
    ensures Less(Left(a, lo, i, j), old(Left(a, lo, i0, j0)))
  {
    i := ScanUp(a, lo, hi, i0);
    j := ScanDownStrict(a, lo, j0);
    if i <= j { Swap(a, i, j); }
  }

  /** The partition loop of quickselect around the pivot at lo. */
  method StrictLoop(a: array<int>, lo: nat, hi: nat, ghost least: int, ghost most: int) returns (i: nat, j: nat)
    requires lo < hi < a.Length && Within(a, lo, hi, least, most)
    modifies a
    ensures Cut(a, lo, hi, i, j) && i == j + 1 && a[lo] == old(a[lo])
    ensures Within(a, lo, hi, least, most) && Rearranged(a, lo, hi)
  {
    i, j := lo + 1, hi;
    while i <= j
      invariant Cut(a, lo, hi, i, j) && a[lo] == old(a[lo])
      invariant Within(a, lo, hi, least, most) && Rearranged(a, lo, hi)
      decreases Left(a, lo, i, j).0, Left(a, lo, i, j).1
    {
      i, j := CutTurn(a, lo, hi, i, j, least, most);
    }
    assert j < hi ==> a[lo] < a[j + 1];
  }

  /** Everything after j is larger than the pivot, which ends at j. */
  method PartitionStrict(a: array<int>, lo: nat, hi: nat, ghost least: int, ghost most: int) returns (i: nat, j: nat)
    requires lo < hi < a.Length && Within(a, lo, hi, least, most)
    modifies a
    ensures lo <= j <= hi && i == j + 1
    ensures Within(a, lo, (j as int) - 1, least, a[j]) && Within(a, i, hi, a[j], most) && least <= a[j] <= most
    ensures Rearranged(a, lo, hi)
  {
    var pivot: nat :| lo <= pivot < hi;
    Swap(a, lo, pivot);
    i, j := StrictLoop(a, lo, hi, least, most);
    PlacePivot(a, lo, hi, i, j, least, most);
  }

  method SelectRange(a: array<int>, lo: nat, hi: nat, k: nat, ghost least: int, ghost most: int) returns (r: int)
    requires lo <= k <= hi < a.Length && Within(a, lo, hi, least, most)
    modifies a
    ensures r == a[k] && least <= r <= most
    ensures Within(a, lo, (k as int) - 1, least, r) && Within(a, k + 1, hi, r, most) && Rearranged(a, lo, hi)
    decreases hi - lo
  {
    if lo >= hi { return a[hi]; }
    var i, j := PartitionStrict(a, lo, hi, least, most);
    ghost var p := a[j];
    if k == j {
      r := a[k];
    } else if k < j {
      r := SelectRange(a, lo, j - 1, k, least, p);
    } else {
      r := SelectRange(a, i, hi, k, p, most);
    }
  }

  /** KthElement answers what QuickSort would leave at index k - 1. */
  method KthElement(a: array<int>, k: nat) returns (r: int)
    requires 1 <= k <= a.Length
    modifies a
    ensures |SortedOf(old(a[..]))| == a.Length && r == SortedOf(old(a[..]))[k - 1]
    ensures Permuted(a[..], old(a[..]))
  {
    ghost var least, most := Bounds(a[..]);
    r := SelectRange(a, 0, a.Length - 1, k - 1, least, most);
    RankIsPlace(a[..], k - 1);
    SortedOfPermuted(a[..], old(a[..]));
  }
}
