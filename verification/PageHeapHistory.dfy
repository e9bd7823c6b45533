/**
  What every run of kmalloc and kfree on the page region has in common: the free
  bulks and the break are a function of the live allocations alone.
 */
module PageHeapHistory {
  import opened SeqUtil
  import opened Tiles
  import opened PageHeap

  /** A maximal stretch of the region below the highest allocation with no allocation in it. */
  ghost predicate Gap(lo: nat, live: set<Bulk>, g: Bulk) {
    && g.size > 0 && lo <= g.start
    && (g.start == lo || exists a :: a in live && a.End() == g.start)
    && (exists a :: a in live && a.start == g.End())
    && (forall a :: a in live ==> Disjoint(a, g))
  }

  ghost function All(h: Heap): set<Bulk> { Elems(h.alloc) + Elems(h.free) }

  /** The break is the end of the highest allocation, or the start of the region. */
  lemma BreakIsTop(h: Heap)
    requires Inv(h)
    ensures h.brk == h.start || exists a :: a in Elems(h.alloc) && a.End() == h.brk
    ensures forall a :: a in Elems(h.alloc) ==> a.End() <= h.brk
  {
    forall a | a in Elems(h.alloc)
      ensures a.End() <= h.brk
    {
      assert a in All(h);
    }
    if h.start < h.brk {
      var b := TileAt(All(h), h.start, h.brk, h.brk - 1);
      assert b.End() == h.brk;
      assert b in Elems(h.alloc);
    }
  }

  lemma FreeIsGap(h: Heap, g: Bulk)
    requires Inv(h) && g in h.free
    ensures Gap(h.start, Elems(h.alloc), g)
  {
    var t := All(h);
    assert g in t && g in Elems(h.free);
    if g.start > h.start {
      var b := TileAt(t, h.start, h.brk, g.start - 1);
      assert Disjoint(b, g) && b.End() == g.start;
      assert b in Elems(h.alloc);
    }
    assert g.End() < h.brk;
    var c := TileAt(t, h.start, h.brk, g.End());
    assert Disjoint(c, g) && c.start == g.End();
    assert c in Elems(h.alloc);
    forall a | a in Elems(h.alloc)
      ensures Disjoint(a, g)
    {
      assert a in t && a != g;
    }
  }

  /** Overlapping gaps: neither starts before the other. */
  lemma GapStart(lo: nat, live: set<Bulk>, g: Bulk, f: Bulk)
    requires Gap(lo, live, g) && Gap(lo, live, f) && !Disjoint(g, f)
    requires forall a :: a in live ==> a.size > 0
    ensures f.start <= g.start
  {
    if f.start != lo {
      var b :| b in live && b.End() == f.start;
      assert Disjoint(b, g);
    }
  }

  /** Two gaps that share a byte are the same gap. */
  lemma GapsCoincide(lo: nat, live: set<Bulk>, g: Bulk, f: Bulk)
    requires Gap(lo, live, g) && Gap(lo, live, f) && !Disjoint(g, f)
    requires forall a :: a in live ==> a.size > 0
    ensures g == f
  {
    var ag :| ag in live && ag.start == g.End();
    var af :| af in live && af.start == f.End();
    assert Disjoint(ag, f) && Disjoint(af, g);
    GapStart(lo, live, g, f);
    GapStart(lo, live, f, g);
  }

  lemma GapIsFree(h: Heap, g: Bulk)
    requires Inv(h) && Gap(h.start, Elems(h.alloc), g)
    ensures g in h.free
  {
    var t := All(h);
    var a :| a in Elems(h.alloc) && a.start == g.End();
    assert a in t;
    var b := TileAt(t, h.start, h.brk, g.start);
    assert b in Elems(h.free) by {
      assert b in Elems(h.alloc) ==> Disjoint(b, g);
    }
    FreeIsGap(h, b);
    forall x | x in Elems(h.alloc)
      ensures x.size > 0
    {
      assert x in t;
    }
    GapsCoincide(h.start, Elems(h.alloc), g, b);
  }

  /** The free bulks are exactly the maximal gaps between the live allocations. */
  lemma FreeListIsGaps(h: Heap, g: Bulk)
    requires Inv(h)
    ensures g in h.free <==> Gap(h.start, Elems(h.alloc), g)
  {
    if g in h.free { FreeIsGap(h, g); }
    if Gap(h.start, Elems(h.alloc), g) { GapIsFree(h, g); }
  }

  lemma BreakByLive(h1: Heap, h2: Heap)
    requires Inv(h1) && Inv(h2) && h1.start == h2.start
    requires Elems(h1.alloc) == Elems(h2.alloc)
    ensures h1.brk <= h2.brk
  {
    BreakIsTop(h1);
    BreakIsTop(h2);
  }

  /**
    History independence: the same live allocations leave the same break, the same
    holes and the same mapped pages, however they came about.
   */
  lemma HistoryIndependent(h1: Heap, h2: Heap)
    requires Inv(h1) && Inv(h2) && h1.start == h2.start
    requires Elems(h1.alloc) == Elems(h2.alloc)
    ensures h1.brk == h2.brk && Elems(h1.free) == Elems(h2.free) && h1.mapped == h2.mapped
  {
    BreakByLive(h1, h2);
    BreakByLive(h2, h1);
    forall g
      ensures g in Elems(h1.free) <==> g in Elems(h2.free)
    {
      FreeListIsGaps(h1, g);
      FreeListIsGaps(h2, g);
    }
  }

  /** Freeing the one allocation by which h1 differs from h gives h back. */
  lemma KfreeUndoes(h: Heap, h1: Heap, b: Bulk)
    requires Inv(h) && Inv(h1) && h1.start == h.start && b !in Elems(h.alloc)
    requires Elems(h1.alloc) == Elems(h.alloc) + {b}
    ensures b in h1.alloc
    ensures var h2 := Kfree(h1, b);
      h2.brk == h.brk && Elems(h2.free) == Elems(h.free) && h2.mapped == h.mapped
  {
    assert b in Elems(h1.alloc);
    KfreeKeepsInv(h1, b);
    assert Elems(h.alloc) + {b} - {b} == Elems(h.alloc);
    HistoryIndependent(Kfree(h1, b), h);
  }

  /** kfree undoes kmalloc: same break, same holes, same mapped pages. */
  lemma KfreeUndoesKmalloc(h: Heap, n: nat)
    requires Inv(h) && n > 0 && Aligned(n) && CustomFit(h, n).1.Some?
    ensures var (h1, va) := CustomFit(h, n);
      var h2 := Kfree(h1, Bulk(va.value, n));
      Bulk(va.value, n) in h1.alloc && h2.brk == h.brk && Elems(h2.free) == Elems(h.free) && h2.mapped == h.mapped
  {
    CustomFitKeepsInv(h, n);
    CustomFitGrants(h, n);
    KfreeUndoes(h, CustomFit(h, n).0, Bulk(CustomFit(h, n).1.value, n));
  }

  /** A grant adds one allocation that was not there. */
  lemma CustomFitGrants(h: Heap, n: nat)
    requires Inv(h) && n > 0 && CustomFit(h, n).1.Some?
    ensures var (h', va) := CustomFit(h, n);
      Elems(h'.alloc) == Elems(h.alloc) + {Bulk(va.value, n)} && Bulk(va.value, n) !in Elems(h.alloc)
  {
    var (h', va) := CustomFit(h, n);
    var b := Bulk(va.value, n);
    ElemsCons(b, h.alloc);
    assert h'.alloc == [b] + h.alloc;
    if f :| f in h.free && f.size == n {
      ExactFit(h, n);
      assert b in Elems(h.free);
    } else if f :| f in h.free && f.size > n {
      WorstFit(h, n);
      PartNotListed(h, h.free[0], b);
    } else {
      GrowBreak(h, n);
      assert b in Elems(h.alloc) ==> b in All(h);
    }
  }

  // ---------- Requests in bytes ----------

  /** ROUNDUP(size, PAGE_SIZE) in 32-bit arithmetic */
  function RoundUp32(size: nat): nat {
    var s := (size + PAGE_SIZE - 1) % U32;
    s - s % PAGE_SIZE
  }

  const LARGEST: nat := U32 - PAGE_SIZE

  /** Up to LARGEST the rounding is the least sufficient number of whole pages... */
  lemma RoundUpExact(size: nat)
    requires 0 < size <= LARGEST
    ensures var n := RoundUp32(size); Aligned(n) && size <= n < size + PAGE_SIZE
  {}

  /** ...and beyond it, it wraps to zero. */
  lemma RoundUpWraps(size: nat)
    requires LARGEST < size < U32
    ensures RoundUp32(size) == 0
  {}

  /**
    A page request keeps the invariant exactly up to that size: beyond it kmalloc
    succeeds with an empty bulk.
   */
  lemma KmallocKeepsInvIff(h: Heap, size: nat)
    requires Inv(h) && 0 < size < U32
    ensures Inv(CustomFit(h, RoundUp32(size)).0) <==> size <= LARGEST
    ensures size > LARGEST ==> CustomFit(h, RoundUp32(size)).1.Some?
  {
    if size <= LARGEST {
      RoundUpExact(size);
      CustomFitKeepsInv(h, RoundUp32(size));
    } else {
      RoundUpWraps(size);
      var (h', r) := CustomFit(h, 0);
      forall f | f in h.free
        ensures f.size > 0
      {
        assert f in All(h);
      }
      if h.free != [] { assert h.free[0] in h.free; }
      assert r.Some? && h'.alloc[0] == Bulk(r.value, 0);
      assert Bulk(r.value, 0) in Elems(h'.alloc) + Elems(h'.free);
    }
  }

  // ---------- Runs ----------

  datatype Op = Kmalloc(size: nat) | Release(b: Bulk)

  ghost predicate Allowed(h: Heap, op: Op) {
    match op
    case Kmalloc(size) => 0 < size <= LARGEST
    case Release(b) => b in h.alloc
  }

  function Apply(h: Heap, op: Op): Heap {
    match op
    case Kmalloc(size) => CustomFit(h, RoundUp32(size)).0
    case Release(b) => Kfree(h, b)
  }

  ghost predicate Legal(h: Heap, ops: seq<Op>)
    decreases |ops|
  {
    ops == [] || (Allowed(h, ops[0]) && Legal(Apply(h, ops[0]), ops[1..]))
  }

  function Exec(h: Heap, ops: seq<Op>): Heap
    decreases |ops|
  {
    if ops == [] then h else Exec(Apply(h, ops[0]), ops[1..])
  }

  lemma ApplyKeepsInv(h: Heap, op: Op)
    requires Inv(h) && Allowed(h, op)
    ensures Inv(Apply(h, op)) && Apply(h, op).start == h.start && Apply(h, op).max == h.max
  {
    match op
    case Kmalloc(size) =>
      RoundUpExact(size);
      CustomFitKeepsInv(h, RoundUp32(size));
    case Release(b) =>
      KfreeKeepsInv(h, b);
  }

  lemma {:induction false} RunsKeepInv(h: Heap, ops: seq<Op>)
    requires Inv(h) && Legal(h, ops)
    ensures Inv(Exec(h, ops)) && Exec(h, ops).start == h.start && Exec(h, ops).max == h.max
    decreases |ops|
  {
    if ops != [] {
      ApplyKeepsInv(h, ops[0]);
      RunsKeepInv(Apply(h, ops[0]), ops[1..]);
    }
  }

  lemma EmptyInv(h: Heap)
    requires Empty(h)
    ensures Inv(h)
  {
    assert Elems(h.alloc) + Elems(h.free) == {};
    assert forall p: nat :: !Covered(Elems(h.alloc), p);
  }

  /** Every run from the empty region: tiling, coalescing, order and mapping hold at its end. */
  lemma EveryRun(h: Heap, ops: seq<Op>)
    requires Empty(h) && Legal(h, ops)
    ensures Inv(Exec(h, ops))
  {
    EmptyInv(h);
    RunsKeepInv(h, ops);
  }

  /** Two runs that leave the same allocations leave the same heap, up to list order. */
  lemma RunsAgree(h: Heap, ops1: seq<Op>, ops2: seq<Op>)
    requires Empty(h) && Legal(h, ops1) && Legal(h, ops2)
    requires Elems(Exec(h, ops1).alloc) == Elems(Exec(h, ops2).alloc)
    ensures var h1, h2 := Exec(h, ops1), Exec(h, ops2);
      h1.brk == h2.brk && Elems(h1.free) == Elems(h2.free) && h1.mapped == h2.mapped
  {
    EmptyInv(h);
    RunsKeepInv(h, ops1);
    RunsKeepInv(h, ops2);
    HistoryIndependent(Exec(h, ops1), Exec(h, ops2));
  }
}
