/**
  The page allocator of the kernel heap: a free list of bulks sorted by
  descending size, exact fit then worst fit then growth of the break, coalescing
  with both neighbours and lowering of the break on free.
 */
module PageHeap {
  import opened SeqUtil
  import opened Tiles

  const PAGE_SIZE: nat := 4096
  const U32: nat := 0x1_0000_0000

  predicate Aligned(x: nat) { x % PAGE_SIZE == 0 }

  /** Addresses of the pages of a range of whole pages. */
  function Pages(start: nat, size: nat): set<nat> {
    set p: nat | start <= p < start + size && Aligned(p)
  }

  datatype Heap = Heap(
    start: nat,               // kheapPageAllocStart
    max: nat,                 // KERNEL_HEAP_MAX
    brk: nat,                 // kheapPageAllocBreak
    free: seq<Bulk>,          // the list `bulks`
    alloc: seq<Bulk>,         // the list `bulks_allocated`
    mapped: set<nat>)         // pages of the region with a frame

  ghost function Elems(q: seq<Bulk>): set<Bulk> { set b | b in q }

  predicate Sorted(q: seq<Bulk>) {
    forall i, j :: 0 <= i < j < |q| ==> q[i].size >= q[j].size
  }

  /** No free bulk ends where another begins. */
  ghost predicate Separated(f: set<Bulk>) {
    forall a, b :: a in f && b in f ==> a.End() != b.start
  }

  ghost predicate Tiled(h: Heap) {
    && NoDup(h.free) && NoDup(h.alloc) && Elems(h.free) !! Elems(h.alloc)
    && Tiling(Elems(h.alloc) + Elems(h.free), h.start, h.brk) && h.brk <= h.max
  }

  ghost predicate PageGranular(h: Heap) {
    && Aligned(h.start) && Aligned(h.brk) && Aligned(h.max)
    && (forall b :: b in h.alloc || b in h.free ==> Aligned(b.start) && Aligned(b.size))
  }

  /** A page of the region is mapped exactly when it lies in an allocated bulk. */
  ghost predicate MappedIffAllocated(h: Heap) {
    forall p :: p in h.mapped <==> Aligned(p) && Covered(Elems(h.alloc), p)
  }

  ghost predicate Inv(h: Heap) {
    && Tiled(h) && PageGranular(h) && MappedIffAllocated(h)
    && Sorted(h.free) && Separated(Elems(h.free))
    && (forall f :: f in h.free ==> f.End() != h.brk)
  }

  predicate Empty(h: Heap) {
    h.free == [] && h.alloc == [] && h.mapped == {} && h.brk == h.start && h.start <= h.max
    && Aligned(h.start) && Aligned(h.max)
  }

  // ---------- List operations ----------

  /** insert_bulk_desc */
  function InsertDesc(q: seq<Bulk>, b: Bulk): seq<Bulk> {
    if q == [] || q[0].size <= b.size then [b] + q else [q[0]] + InsertDesc(q[1..], b)
  }

  lemma ConsSorted(b: Bulk, q: seq<Bulk>)
    requires Sorted(q) && forall x :: x in q ==> x.size <= b.size
    ensures Sorted([b] + q)
  {}

  lemma {:induction false} InsertDescFacts(q: seq<Bulk>, b: Bulk)
    requires NoDup(q) && b !in q && Sorted(q)
    ensures var r := InsertDesc(q, b);
      NoDup(r) && Sorted(r) && (forall x :: x in r <==> x in q || x == b)
  {
    if q == [] || q[0].size <= b.size {
      forall x | x in q
        ensures x.size <= b.size
      {
        HeadIsLargest(q, x);
      }
      ConsSorted(b, q);
    } else {
      var tail := q[1..];
      InsertDescFacts(tail, b);
      var r := InsertDesc(tail, b);
      assert q == [q[0]] + tail;
      ConsNoDup(q[0], r);
      ConsSorted(q[0], r);
    }
  }

  lemma {:induction false} DropSorted(q: seq<Bulk>, s: set<Bulk>)
    requires Sorted(q)
    ensures Sorted(Drop(q, s))
  {
    if q != [] {
      DropSorted(q[1..], s);
      DropMembers(q[1..], s);
      ConsSorted(q[0], Drop(q[1..], s));
    }
  }

  /** Unlinking keeps everything about a list but the unlinked bulks. */
  lemma DropFacts(q: seq<Bulk>, s: set<Bulk>)
    requires NoDup(q) && Sorted(q)
    ensures NoDup(Drop(q, s)) && Sorted(Drop(q, s)) && Elems(Drop(q, s)) == Elems(q) - s
  {
    DropNoDup(q, s);
    DropSorted(q, s);
    DropMembers(q, s);
  }

  /** The first bulk of exactly n bytes, in list order. */
  function FirstOfSize(q: seq<Bulk>, n: nat): (r: Option<Bulk>)
    ensures r.Some? ==> r.value in q && r.value.size == n
    ensures r.None? ==> forall b :: b in q ==> b.size != n
  {
    if q == [] then None
    else if q[0].size == n then Some(q[0])
    else FirstOfSize(q[1..], n)
  }

  /** The last bulk in list order that ends at x. */
  function EndingAt(q: seq<Bulk>, x: nat): (r: Option<Bulk>)
    ensures r.Some? ==> r.value in q && r.value.End() == x
    ensures r.None? ==> forall b :: b in q ==> b.End() != x
  {
    if q == [] then None
    else
      var last := |q| - 1;
      assert q == q[..last] + [q[last]];
      if q[last].End() == x then Some(q[last]) else EndingAt(q[..last], x)
  }

  /** The last bulk in list order that starts at x. */
  function StartingAt(q: seq<Bulk>, x: nat): (r: Option<Bulk>)
    ensures r.Some? ==> r.value in q && r.value.start == x
    ensures r.None? ==> forall b :: b in q ==> b.start != x
  {
    if q == [] then None
    else
      var last := |q| - 1;
      assert q == q[..last] + [q[last]];
      if q[last].start == x then Some(q[last]) else StartingAt(q[..last], x)
  }

  function AsSet(o: Option<Bulk>): set<Bulk> { if o.Some? then {o.value} else {} }

  // ---------- kmalloc: page_alloc_custom_fit ----------

  /** Record and map an allocation. */
  function Grant(h: Heap, va: nat, n: nat): Heap {
    h.(alloc := [Bulk(va, n)] + h.alloc, mapped := h.mapped + Pages(va, n))
  }

  function CustomFit(h: Heap, n: nat): (Heap, Option<nat>)
  {
    var exact := FirstOfSize(h.free, n);
    if h.free != [] && h.free[0].size >= n && exact.Some? then
      (Grant(h.(free := Drop(h.free, {exact.value})), exact.value.start, n), Some(exact.value.start))
    else if h.free != [] && h.free[0].size > n then
      var b := h.free[0];
      var rest := InsertDesc(h.free[1..], Bulk(b.start + n, b.size - n));
      (Grant(h.(free := rest), b.start, n), Some(b.start))
    else if h.brk < h.start || n > h.max - h.brk then (h, None)
    else (Grant(h, h.brk, n).(brk := h.brk + n), Some(h.brk))
  }

  /** On a sorted list the head is a largest hole. */
  lemma HeadIsLargest(q: seq<Bulk>, b: Bulk)
    requires Sorted(q) && b in q
    ensures q[0].size >= b.size
  {}

  /**
    The simple specification over the set of holes, in three cases that exclude
    each other. A hole of exactly n bytes is used if there is one.
   */
  lemma ExactFit(h: Heap, n: nat)
    requires Inv(h) && exists f :: f in h.free && f.size == n
    ensures var (h', r) := CustomFit(h, n);
      && r.Some? && Bulk(r.value, n) in h.free
      && h' == Grant(h.(free := Drop(h.free, {Bulk(r.value, n)})), r.value, n)
  {
    var f :| f in h.free && f.size == n;
    HeadIsLargest(h.free, f);
  }

  /** Otherwise a largest hole gives its first n bytes, if it has more than n. */
  lemma WorstFit(h: Heap, n: nat)
    requires Inv(h) && n > 0
    requires (forall f :: f in h.free ==> f.size != n) && exists f :: f in h.free && f.size > n
    ensures var (h', r) := CustomFit(h, n);
      && h.free != [] && r == Some(h.free[0].start)
      && (forall g :: g in h.free ==> g.size <= h.free[0].size) && h.free[0].size > n
      && h' == Grant(h.(free := h'.free), r.value, n)
      && NoDup(h'.free) && Sorted(h'.free)
      && Elems(h'.free) == Elems(h.free) - {h.free[0]} + {Bulk(h.free[0].start + n, h.free[0].size - n)}
  {
    var f :| f in h.free && f.size > n;
    HeadIsLargest(h.free, f);
    SplitRest(h, n);
  }

  /** Otherwise the break grows by n bytes, if they fit below the end of the region. */
  lemma GrowBreak(h: Heap, n: nat)
    requires Inv(h) && forall f :: f in h.free ==> f.size < n
    ensures CustomFit(h, n) ==
            if h.brk + n <= h.max then (Grant(h, h.brk, n).(brk := h.brk + n), Some(h.brk)) else (h, None)
  {
    if h.free != [] { assert h.free[0] in h.free; }
  }

  /** The free list after the head has given up its first n bytes. */
  lemma SplitRest(h: Heap, n: nat)
    requires Inv(h) && n > 0 && h.free != [] && h.free[0].size > n
    ensures var b, f' := h.free[0], CustomFitSplit(h, n);
      NoDup(f') && Sorted(f') && Elems(f') == Elems(h.free) - {b} + {Bulk(b.start + n, b.size - n)}
  {
    var c := Bulk(h.free[0].start + n, h.free[0].size - n);
    PartNotListed(h, h.free[0], c);
    ReplaceHead(h.free, c);
    ElemsReplaced(h.free, CustomFitSplit(h, n), h.free[0], c);
  }

  lemma ElemsReplaced(q: seq<Bulk>, r: seq<Bulk>, b: Bulk, c: Bulk)
    requires forall x :: x in r <==> (x in q && x != b) || x == c
    ensures Elems(r) == Elems(q) - {b} + {c}
  {}

  lemma ReplaceHead(q: seq<Bulk>, c: Bulk)
    requires NoDup(q) && Sorted(q) && q != [] && c !in q
    ensures var r := InsertDesc(q[1..], c);
      NoDup(r) && Sorted(r) && forall x :: x in r <==> (x in q && x != q[0]) || x == c
  {
    var tail := q[1..];
    assert q == [q[0]] + tail;
    assert NoDup(tail) && Sorted(tail) && q[0] !in tail;
    InsertDescFacts(tail, c);
  }

  /** A proper part of a free bulk is not itself a bulk. */
  lemma PartNotListed(h: Heap, b: Bulk, c: Bulk)
    requires Inv(h) && b in h.free && c != b && b.start <= c.start && c.End() <= b.End()
    ensures c !in h.free && c !in h.alloc
  {
    var t := Elems(h.alloc) + Elems(h.free);
    assert b in t;
    assert c in t ==> Disjoint(b, c) && c.size > 0;
  }

  function CustomFitSplit(h: Heap, n: nat): seq<Bulk>
    requires h.free != [] && h.free[0].size > n
  {
    InsertDesc(h.free[1..], Bulk(h.free[0].start + n, h.free[0].size - n))
  }

  // ---------- kmalloc keeps the invariant ----------

  lemma ElemsCons(b: Bulk, q: seq<Bulk>)
    ensures Elems([b] + q) == Elems(q) + {b}
  {
    assert forall x :: x in [b] + q <==> x in q || x == b;
  }

  /** Mapping the pages of a new allocation keeps mapped pages and allocations in step. */
  lemma GrantMapped(h: Heap, va: nat, n: nat)
    requires MappedIffAllocated(h)
    ensures MappedIffAllocated(Grant(h, va, n))
    ensures Elems(Grant(h, va, n).alloc) == Elems(h.alloc) + {Bulk(va, n)}
  {
    var b, h' := Bulk(va, n), Grant(h, va, n);
    ElemsCons(b, h.alloc);
    forall p: nat
      ensures Covered(Elems(h'.alloc), p) <==> Covered(Elems(h.alloc), p) || Holds(b, p)
    {
      if Covered(Elems(h.alloc), p) {
        var c :| c in Elems(h.alloc) && Holds(c, p);
        assert c in Elems(h'.alloc);
      }
      if Holds(b, p) { assert b in Elems(h'.alloc); }
    }
  }

  /** The tiles after a step, given as allocated and free sets. */
  lemma TiledBySets(h: Heap, a: set<Bulk>, f: set<Bulk>)
    requires Elems(h.alloc) == a && Elems(h.free) == f && a !! f
    requires NoDup(h.alloc) && NoDup(h.free) && h.brk <= h.max
    requires Tiling(a + f, h.start, h.brk)
    ensures Tiled(h)
  {}

  lemma ExactFitKeepsInv(h: Heap, f: Bulk)
    requires Inv(h) && f in h.free
    ensures Inv(Grant(h.(free := Drop(h.free, {f})), f.start, f.size))
  {
    var h' := Grant(h.(free := Drop(h.free, {f})), f.start, f.size);
    DropFacts(h.free, {f});
    assert f in Elems(h.free) && Bulk(f.start, f.size) == f;
    GrantMapped(h, f.start, f.size);
    assert f !in h.alloc by { assert f !in Elems(h.alloc); }
    ConsNoDup(f, h.alloc);
    assert Elems(h'.alloc) + Elems(h'.free) == Elems(h.alloc) + Elems(h.free);
    TiledBySets(h', Elems(h.alloc) + {f}, Elems(h.free) - {f});
    forall b | b in h'.alloc || b in h'.free
      ensures Aligned(b.start) && Aligned(b.size)
    {
      assert b in Elems(h'.alloc) || b in Elems(h'.free);
    }
    forall g | g in h'.free
      ensures g.End() != h'.brk
    {
      assert g in Elems(h'.free);
    }
  }

  lemma AlignedSums(x: nat, y: nat)
    requires Aligned(x) && Aligned(y)
    ensures Aligned(x + y)
    ensures y <= x ==> Aligned(x - y)
  {}

  /** Whole pages: enough to look at the new bulks. */
  lemma GranularBySets(h: Heap, h': Heap, added: set<Bulk>)
    requires PageGranular(h) && h'.start == h.start && h'.max == h.max && Aligned(h'.brk)
    requires Elems(h'.alloc) + Elems(h'.free) <= Elems(h.alloc) + Elems(h.free) + added
    requires forall b :: b in added ==> Aligned(b.start) && Aligned(b.size)
    ensures PageGranular(h')
  {
    forall x | x in h'.alloc || x in h'.free
      ensures Aligned(x.start) && Aligned(x.size)
    {
      assert x in Elems(h'.alloc) + Elems(h'.free);
    }
  }

  /** rest is the free list once hole b has given up its first n bytes. */
  ghost predicate SplitOff(h: Heap, b: Bulk, n: nat, rest: seq<Bulk>) {
    && b in h.free && 0 < n < b.size && NoDup(rest) && Sorted(rest)
    && Elems(rest) == Elems(h.free) - {b} + {Bulk(b.start + n, b.size - n)}
  }

  lemma SplitSets(a: set<Bulk>, f: set<Bulk>, b: Bulk, u: Bulk, v: Bulk)
    requires a !! f && b in f
    ensures a + f - {b} + {u, v} == (a + {u}) + (f - {b} + {v})
  {}

  lemma SplitOffTiled(h: Heap, b: Bulk, n: nat, rest: seq<Bulk>)
    requires Tiled(h) && SplitOff(h, b, n, rest)
    requires Bulk(b.start, n) !in h.alloc && Bulk(b.start, n) !in h.free
    requires Bulk(b.start + n, b.size - n) !in h.alloc
    ensures Tiled(Grant(h.(free := rest), b.start, n))
  {
    var u, v := Bulk(b.start, n), Bulk(b.start + n, b.size - n);
    ConsNoDup(u, h.alloc);
    ElemsCons(u, h.alloc);
    var a, f := Elems(h.alloc), Elems(h.free);
    Split(a + f, h.start, h.brk, b, n);
    SplitSets(a, f, b, u, v);
    TiledBySets(Grant(h.(free := rest), b.start, n), a + {u}, f - {b} + {v});
  }

  lemma SplitOffGranular(h: Heap, b: Bulk, n: nat, rest: seq<Bulk>)
    requires PageGranular(h) && Aligned(n) && SplitOff(h, b, n, rest)
    ensures PageGranular(Grant(h.(free := rest), b.start, n))
  {
    var u, v := Bulk(b.start, n), Bulk(b.start + n, b.size - n);
    AlignedSums(b.start, n);
    AlignedSums(b.size, n);
    ElemsCons(u, h.alloc);
    GranularBySets(h, Grant(h.(free := rest), b.start, n), {u, v});
  }

  lemma SplitOffKeepsInv(h: Heap, b: Bulk, n: nat, rest: seq<Bulk>)
    requires Inv(h) && Aligned(n) && SplitOff(h, b, n, rest)
    ensures Inv(Grant(h.(free := rest), b.start, n))
  {
    var v := Bulk(b.start + n, b.size - n);
    PartNotListed(h, b, Bulk(b.start, n));
    PartNotListed(h, b, v);
    SplitOffTiled(h, b, n, rest);
    SplitOffGranular(h, b, n, rest);
    GrantMapped(h.(free := rest), b.start, n);
    SplitSeparated(h, b, v);
    forall g | g in rest
      ensures g.End() != h.brk
    {
      assert g in Elems(rest);
    }
  }

  /** The remainder of a split hole still touches no other hole. */
  lemma SplitSeparated(h: Heap, b: Bulk, v: Bulk)
    requires Inv(h) && b in h.free && b.start < v.start < v.End() == b.End()
    ensures Separated(Elems(h.free) - {b} + {v})
  {
    var f := Elems(h.free);
    forall x, y | x in f - {b} + {v} && y in f - {b} + {v}
      ensures x.End() != y.start
    {
      assert b in f && b in Elems(h.alloc) + f;
      if y == v && x != v {
        assert x in Elems(h.alloc) + f && Disjoint(x, b);
      }
    }
  }

  lemma GrowTiled(h: Heap, n: nat)
    requires Inv(h) && n > 0 && h.brk + n <= h.max
    ensures Tiled(Grant(h, h.brk, n).(brk := h.brk + n))
  {
    var u := Bulk(h.brk, n);
    var h' := Grant(h, h.brk, n).(brk := h.brk + n);
    GrantMapped(h, h.brk, n);
    var a, f := Elems(h.alloc), Elems(h.free);
    assert u !in a + f;
    assert u !in h.alloc by { assert u !in a; }
    ConsNoDup(u, h.alloc);
    Extend(a + f, h.start, h.brk, n);
    assert a + f + {u} == (a + {u}) + f;
    TiledBySets(h', a + {u}, f);
  }

  lemma GrowKeepsInv(h: Heap, n: nat)
    requires Inv(h) && n > 0 && Aligned(n) && h.brk + n <= h.max
    ensures Inv(Grant(h, h.brk, n).(brk := h.brk + n))
  {
    var h' := Grant(h, h.brk, n).(brk := h.brk + n);
    GrowTiled(h, n);
    GrantMapped(h, h.brk, n);
    AlignedSums(h.brk, n);
    GranularBySets(h, h', {Bulk(h.brk, n)});
    forall g | g in h'.free
      ensures g.End() != h'.brk
    {
      assert g in Elems(h.alloc) + Elems(h.free);
    }
  }

  lemma CustomFitKeepsInv(h: Heap, n: nat)
    requires Inv(h) && n > 0 && Aligned(n)
    ensures Inv(CustomFit(h, n).0)
  {
    var (h', r) := CustomFit(h, n);
    if f :| f in h.free && f.size == n {
      ExactFit(h, n);
      ExactFitKeepsInv(h, Bulk(r.value, n));
    } else if f :| f in h.free && f.size > n {
      WorstFit(h, n);
      SplitOffKeepsInv(h, h.free[0], n, h'.free);
    } else {
      GrowBreak(h, n);
      if h.brk + n <= h.max { GrowKeepsInv(h, n); }
    }
  }

  // ---------- kfree ----------

  /** The free bulks that touch b. */
  function Neighbours(q: seq<Bulk>, b: Bulk): set<Bulk> {
    AsSet(EndingAt(q, b.start)) + AsSet(StartingAt(q, b.End()))
  }

  /** b joined with the free bulks that touch it. */
  function Joined(q: seq<Bulk>, b: Bulk): Bulk {
    var l, r := EndingAt(q, b.start), StartingAt(q, b.End());
    var left := if l.Some? then l.value.size else 0;
    var right := if r.Some? then r.value.size else 0;
    Bulk(if l.Some? then l.value.start else b.start, left + b.size + right)
  }

  /** merge_bulks */
  function Merge(q: seq<Bulk>, b: Bulk): seq<Bulk> {
    InsertDesc(Drop(q, Neighbours(q, b)), Joined(q, b))
  }

  /** The lists after an allocated bulk has been moved to the free list and coalesced. */
  function Released(h: Heap, b: Bulk): Heap {
    h.(alloc := Drop(h.alloc, {b}), mapped := h.mapped - Pages(b.start, b.size), free := Merge(h.free, b))
  }

  /** One turn of the break-lowering loop. */
  function Lowered(h: Heap): Heap {
    var top := EndingAt(h.free, h.brk);
    if top.Some? then h.(free := Drop(h.free, {top.value}), brk := top.value.start) else h
  }

  function Kfree(h: Heap, b: Bulk): Heap { Lowered(Released(h, b)) }

  /** In a tiling at most one bulk ends, and at most one starts, at a given address. */
  lemma UniqueEnds(t: set<Bulk>, lo: nat, hi: nat, a: Bulk, b: Bulk)
    requires Tiling(t, lo, hi) && a in t && b in t
    requires a.End() == b.End() || a.start == b.start
    ensures a == b
  {}

  /** b joined with what it touches on either side. */
  function Span(l: Option<Bulk>, b: Bulk, r: Option<Bulk>): Bulk {
    Bulk(if l.Some? then l.value.start else b.start,
         (if l.Some? then l.value.size else 0) + b.size + (if r.Some? then r.value.size else 0))
  }

  lemma JoinLeft(t: set<Bulk>, lo: nat, hi: nat, l: Option<Bulk>, b: Bulk)
    requires Tiling(t, lo, hi) && b in t
    requires l.Some? ==> l.value in t && l.value.End() == b.start
    ensures var m := Span(l, b, None);
      Tiling(t - AsSet(l) - {b} + {m}, lo, hi) && (m == b || m !in t)
  {
    var m := Span(l, b, None);
    if l.Some? {
      Join(t, lo, hi, l.value, b);
      assert t - {l.value, b} + {m} == t - AsSet(l) - {b} + {m};
      assert m in t ==> Disjoint(m, b);
    } else {
      assert t - AsSet(l) - {b} + {m} == t;
    }
  }

  lemma JoinRight(t: set<Bulk>, lo: nat, hi: nat, b: Bulk, r: Option<Bulk>)
    requires Tiling(t, lo, hi) && b in t
    requires r.Some? ==> r.value in t && r.value.start == b.End()
    ensures Tiling(t - AsSet(r) - {b} + {Span(None, b, r)}, lo, hi)
  {
    var m := Span(None, b, r);
    if r.Some? {
      Join(t, lo, hi, b, r.value);
      assert t - {b, r.value} + {m} == t - AsSet(r) - {b} + {m};
    } else {
      assert t - AsSet(r) - {b} + {m} == t;
    }
  }

  lemma TwoJoins(t: set<Bulk>, l: set<Bulk>, r: set<Bulk>, b: Bulk, b1: Bulk, m: Bulk)
    requires b1 == b || b1 !in t
    ensures (t - l - {b} + {b1}) - r - {b1} + {m} == t - l - r - {b} + {m}
  {}

  /** Coalescing as two joins of neighbouring tiles. */
  lemma JoinNeighbours(t: set<Bulk>, lo: nat, hi: nat, l: Option<Bulk>, b: Bulk, r: Option<Bulk>)
    requires Tiling(t, lo, hi) && b in t
    requires l.Some? ==> l.value in t && l.value.End() == b.start
    requires r.Some? ==> r.value in t && r.value.start == b.End()
    ensures Tiling(t - AsSet(l) - AsSet(r) - {b} + {Span(l, b, r)}, lo, hi)
  {
    JoinLeft(t, lo, hi, l, b);
    var b1, m := Span(l, b, None), Span(l, b, r);
    var t1 := t - AsSet(l) - {b} + {b1};
    if r.Some? {
      assert r.value.size > 0 && r.value != b && (l.Some? ==> r.value != l.value && l.value.size > 0);
      assert r.value in t1;
    }
    JoinRight(t1, lo, hi, b1, r);
    TwoJoins(t, AsSet(l), AsSet(r), b, b1, m);
  }

  lemma FreeSets(a: set<Bulk>, f: set<Bulk>, b: Bulk, l: set<Bulk>, r: set<Bulk>, m: Bulk)
    requires a !! f && b in a && l <= f && r <= f
    ensures a + f - l - r - {b} + {m} == (a - {b}) + (f - (l + r) + {m})
  {}

  /** The joined bulk is new: any listed bulk that overlaps b is b itself. */
  lemma SpanNotListed(t: set<Bulk>, lo: nat, hi: nat, b: Bulk, m: Bulk)
    requires Tiling(t, lo, hi) && b in t && m.start <= b.start && b.End() <= m.End()
    ensures m in t ==> m == b
  {
    assert m in t && m != b ==> Disjoint(m, b);
  }

  lemma JoinedFacts(h: Heap, b: Bulk)
    requires Inv(h) && b in h.alloc
    ensures var m, n := Joined(h.free, b), Neighbours(h.free, b);
      && n <= Elems(h.free)
      && Tiling((Elems(h.alloc) - {b}) + (Elems(h.free) - n + {m}), h.start, h.brk)
      && m !in Elems(h.alloc) - {b} && m !in Elems(h.free) - n
      && m.start <= b.start && b.End() <= m.End()
  {
    var l, r := EndingAt(h.free, b.start), StartingAt(h.free, b.End());
    var a, f, m := Elems(h.alloc), Elems(h.free), Joined(h.free, b);
    assert b in a && m == Span(l, b, r);
    JoinNeighbours(a + f, h.start, h.brk, l, b, r);
    FreeSets(a, f, b, AsSet(l), AsSet(r), m);
    SpanNotListed(a + f, h.start, h.brk, b, m);
  }

  /** The coalesced free list. */
  lemma MergeFacts(h: Heap, b: Bulk)
    requires Inv(h) && b in h.alloc
    ensures var q := Merge(h.free, b);
      NoDup(q) && Sorted(q) && Elems(q) == Elems(h.free) - Neighbours(h.free, b) + {Joined(h.free, b)}
  {
    var n, m := Neighbours(h.free, b), Joined(h.free, b);
    JoinedFacts(h, b);
    DropFacts(h.free, n);
    assert m !in Drop(h.free, n) by { assert m !in Elems(Drop(h.free, n)); }
    InsertDescFacts(Drop(h.free, n), m);
  }

  /** Coalescing on both sides leaves no two touching holes. */
  lemma MergeSeparated(h: Heap, b: Bulk)
    requires Inv(h) && b in h.alloc
    ensures Separated(Elems(h.free) - Neighbours(h.free, b) + {Joined(h.free, b)})
  {
    var f, n, m := Elems(h.free), Neighbours(h.free, b), Joined(h.free, b);
    JoinedFacts(h, b);
    var l, r := EndingAt(h.free, b.start), StartingAt(h.free, b.End());
    var t := (Elems(h.alloc) - {b}) + (f - n + {m});
    assert m in t && m.size > 0;
    forall g | g in f - n
      ensures g.End() != m.start && m.End() != g.start
    {
      assert g in h.free;
      assert g in Elems(h.alloc) + f && (l.Some? ==> l.value in Elems(h.alloc) + f)
             && (r.Some? ==> r.value in Elems(h.alloc) + f);
      if l.Some? { assert l.value in f && g.End() != l.value.start; }
      if r.Some? { assert r.value in f && r.value.End() != g.start; }
    }
  }

  lemma ReleasedMapped(h: Heap, b: Bulk)
    requires Inv(h) && b in h.alloc
    ensures MappedIffAllocated(Released(h, b))
    ensures Elems(Released(h, b).alloc) == Elems(h.alloc) - {b} && NoDup(Released(h, b).alloc)
  {
    var a, h' := Elems(h.alloc), Released(h, b);
    DropMembers(h.alloc, {b});
    DropNoDup(h.alloc, {b});
    assert Elems(h'.alloc) == a - {b};
    forall p: nat
      ensures p in h'.mapped <==> Aligned(p) && Covered(a - {b}, p)
    {
      CoveredWithout(a + Elems(h.free), h.start, h.brk, a, b, p);
      assert p in h'.mapped <==> p in h.mapped && !(Holds(b, p) && Aligned(p));
    }
  }

  lemma JoinedAligned(h: Heap, b: Bulk)
    requires PageGranular(h) && b in h.alloc
    ensures Aligned(Joined(h.free, b).start) && Aligned(Joined(h.free, b).size)
  {
    var l, r := EndingAt(h.free, b.start), StartingAt(h.free, b.End());
    var left := if l.Some? then l.value.size else 0;
    var right := if r.Some? then r.value.size else 0;
    AlignedSums(left, b.size);
    AlignedSums(left + b.size, right);
  }

  lemma ReleasedGranular(h: Heap, b: Bulk)
    requires Inv(h) && b in h.alloc
    ensures PageGranular(Released(h, b))
  {
    JoinedAligned(h, b);
    MergeFacts(h, b);
    ReleasedMapped(h, b);
    GranularBySets(h, Released(h, b), {Joined(h.free, b)});
  }

  /** Everything but the break is in order once the bulk has been coalesced. */
  lemma ReleasedOk(h: Heap, b: Bulk)
    requires Inv(h) && b in h.alloc
    ensures var h' := Released(h, b);
      && Tiled(h') && PageGranular(h') && MappedIffAllocated(h') && Sorted(h'.free) && Separated(Elems(h'.free))
  {
    var h' := Released(h, b);
    MergeFacts(h, b);
    JoinedFacts(h, b);
    ReleasedMapped(h, b);
    ReleasedGranular(h, b);
    MergeSeparated(h, b);
    var a, f := Elems(h.alloc), Elems(h.free);
    TiledBySets(h', a - {b}, f - Neighbours(h.free, b) + {Joined(h.free, b)});
  }

  /** Lowering the break once is enough: the bulk below the new break is allocated. */
  lemma LoweredKeepsInv(h: Heap)
    requires Tiled(h) && PageGranular(h) && MappedIffAllocated(h) && Sorted(h.free) && Separated(Elems(h.free))
    ensures Inv(Lowered(h)) && Lowered(Lowered(h)) == Lowered(h)
  {
    var top, h' := EndingAt(h.free, h.brk), Lowered(h);
    if top.Some? {
      var t := top.value;
      DropFacts(h.free, {t});
      var a, f := Elems(h.alloc), Elems(h.free);
      assert t in f;
      Shrink(a + f, h.start, h.brk, t);
      assert a + f - {t} == a + (f - {t});
      TiledBySets(h', a, f - {t});
      GranularBySets(h, h', {});
      forall g | g in h'.free
        ensures g.End() != h'.brk
      {
        assert g in Elems(h'.free) && g in f;
      }
    }
  }

  lemma KfreeKeepsInv(h: Heap, b: Bulk)
    requires Inv(h) && b in h.alloc
    ensures Inv(Kfree(h, b)) && Elems(Kfree(h, b).alloc) == Elems(h.alloc) - {b}
  {
    ReleasedOk(h, b);
    ReleasedMapped(h, b);
    LoweredKeepsInv(Released(h, b));
  }
}
