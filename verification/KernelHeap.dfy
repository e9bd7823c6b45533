/**
  kern/mem/kheap.c on its own lists: the search, insertion, coalescing and
  break-lowering loops, each proved to compute what PageHeap describes.
 */
module KernelHeap {
  import opened SeqUtil
  import opened Tiles
  import opened PageHeap
  import opened PageHeapHistory

  const MAX_BLOCK: nat := 2048

  /** What kmalloc returns: NULL, an address, or whatever the block allocator gives. */
  datatype Outcome = Null | FromBlocks | At(va: nat)

  /**
    What kfree does with an address: nothing, a panic, a call of free_block, a return that
    keeps the heap lock (the guard page), a panic, or a release.
   */
  datatype Freeing = Nothing | OutOfBounds | ToBlocks | LockKept | NotAllocated | Freed

  lemma {:induction false} InsertDescAt(q: seq<Bulk>, b: Bulk, i: nat)
    requires i <= |q| && (forall j :: 0 <= j < i ==> q[j].size > b.size) && (i < |q| ==> q[i].size <= b.size)
    ensures InsertDesc(q, b) == q[..i] + [b] + q[i..]
  {
    if i > 0 {
      InsertDescAt(q[1..], b, i - 1);
      assert q[1..][..i - 1] == q[1..i] && q[1..][i - 1..] == q[i..];
      assert q[..i] == [q[0]] + q[1..i];
    }
  }

  lemma {:induction false} FirstOfSizeAt(q: seq<Bulk>, n: nat, i: nat)
    requires i < |q| && q[i].size == n && forall j :: 0 <= j < i ==> q[j].size != n
    ensures FirstOfSize(q, n) == Some(q[i])
  {
    if i > 0 { FirstOfSizeAt(q[1..], n, i - 1); }
  }

  /** Unlinking the head. */
  lemma DropHead(q: seq<Bulk>)
    requires NoDup(q) && q != []
    ensures Drop(q, {q[0]}) == q[1..]
  {
    DropAt(q, 0);
  }

  class KHeap {
    const start: nat
    const max: nat
    var brk: nat
    var free: seq<Bulk>
    var alloc: seq<Bulk>
    var mapped: set<nat>

    ghost function Abs(): Heap
      reads this
    {
      Heap(start, max, brk, free, alloc, mapped)
    }

    ghost predicate Valid()
      reads this
    {
      Inv(Abs())
    }

    /** kheap_init, page region only */
    constructor (start: nat, max: nat)
      requires start <= max && Aligned(start) && Aligned(max)
      ensures Valid() && Empty(Abs()) && this.start == start && this.max == max
    {
      this.start, this.max := start, max;
      brk, free, alloc, mapped := start, [], [], {};
      new;
      EmptyInv(Abs());
    }

    /** insert_bulk_desc */
    method InsertBulkDesc(b: Bulk)
      modifies this`free
      ensures free == InsertDesc(old(free), b)
    {
      var i := 0;
      while i < |free| && free[i].size > b.size
        invariant 0 <= i <= |free|
        invariant forall j :: 0 <= j < i ==> free[j].size > b.size
      {
        i := i + 1;
      }
      InsertDescAt(free, b, i);
      free := free[..i] + [b] + free[i..];
    }

    /** remove_bulk */
    method RemoveBulk(b: Bulk)
      modifies this`free
      ensures free == Drop(old(free), {b})
    {
      free := Drop(free, {b});
    }

    /** map_frame_range; a missing frame halts the kernel inside allocate_frame */
    method MapFrameRange(vaStart: nat, size: nat)
      requires Aligned(vaStart) && Aligned(size)
      modifies this`mapped
      ensures mapped == old(mapped) + Pages(vaStart, size)
    {
      var va := vaStart;
      while va < vaStart + size
        invariant vaStart <= va <= vaStart + size && Aligned(va)
        invariant mapped == old(mapped) + Pages(vaStart, va - vaStart)
      {
        PageStep(vaStart, va, size);
        mapped := mapped + {va};
        va := va + PAGE_SIZE;
      }
    }

    /** The unmapping loop of kfree */
    method UnmapRange(vaStart: nat, size: nat)
      requires Aligned(vaStart) && Aligned(size)
      modifies this`mapped
      ensures mapped == old(mapped) - Pages(vaStart, size)
    {
      var va := vaStart;
      while va < vaStart + size
        invariant vaStart <= va <= vaStart + size && Aligned(va)
        invariant mapped == old(mapped) - Pages(vaStart, va - vaStart)
      {
        PageStep(vaStart, va, size);
        mapped := mapped - {va};
        va := va + PAGE_SIZE;
      }
    }

    /** Record an allocation at the head of bulks_allocated and map it. */
    method GrantRange(va: nat, n: nat)
      requires Aligned(va) && Aligned(n)
      modifies this`alloc, this`mapped
      ensures Abs() == Grant(old(Abs()), va, n)
    {
      MapFrameRange(va, n);
      alloc := [Bulk(va, n)] + alloc;
    }

    /** The exact-fit search, entered only if the head of the list is large enough */
    method FindExact(n: nat) returns (r: Option<Bulk>)
      ensures r == if free != [] && free[0].size >= n then FirstOfSize(free, n) else None
    {
      r := None;
      if |free| > 0 && free[0].size >= n {
        var i := 0;
        while i < |free|
          invariant 0 <= i <= |free|
          invariant forall j :: 0 <= j < i ==> free[j].size != n
        {
          if free[i].size == n {
            FirstOfSizeAt(free, n, i);
            return Some(free[i]);
          }
          i := i + 1;
        }
      }
    }

    /** The worst-fit branch: the head of the list gives its first n bytes */
    method SplitHead(n: nat)
      requires NoDup(free) && PageGranular(Abs()) && Aligned(n) && free != [] && free[0].size > n
      modifies this
      ensures Abs() == Grant(old(Abs()).(free := CustomFitSplit(old(Abs()), n)), old(free[0].start), n)
    {
      var bb := free[0];
      DropHead(free);
      RemoveBulk(bb);
      InsertBulkDesc(Bulk(bb.start + n, bb.size - n));
      GrantRange(bb.start, n);
    }

    /** page_alloc_custom_fit */
    method PageAllocCustomFit(n: nat) returns (r: Option<nat>)
      requires Valid() && Aligned(n)
      modifies this
      ensures (Abs(), r) == CustomFit(old(Abs()), n)
    {
      var exact := FindExact(n);
      if exact.Some? {
        RemoveBulk(exact.value);
        GrantRange(exact.value.start, n);
        return Some(exact.value.start);
      }
      if |free| > 0 && free[0].size > n {
        r := Some(free[0].start);
        SplitHead(n);
        return;
      }
      if brk < start {
        return None;
      }
      if n > max - brk {
        return None;
      }
      if brk + n > max {
        return None;
      }
      r := Some(brk);
      GrantRange(brk, n);
      brk := brk + n;
    }

    /** kmalloc */
    method Kmalloc(size: nat) returns (r: Outcome)
      requires Valid() && size < U32
      modifies this
      ensures size == 0 ==> r == Null && Abs() == old(Abs())
      ensures 0 < size <= MAX_BLOCK ==> r == FromBlocks && Abs() == old(Abs())
      ensures size > MAX_BLOCK ==>
        var (h', va) := CustomFit(old(Abs()), RoundUp32(size));
        Abs() == h' && r == if va.Some? then At(va.value) else Null
      ensures Valid() <==> size <= LARGEST
    {
      if size == 0 {
        return Null;
      }
      if size <= MAX_BLOCK {
        return FromBlocks;
      }
      KmallocKeepsInvIff(Abs(), size);
      RoundUpAligned(size);
      var va := PageAllocCustomFit(RoundUp32(size));
      r := if va.Some? then At(va.value) else Null;
    }

    /** The scan of merge_bulks for the free bulks that touch b */
    method FindNeighbours(b: Bulk) returns (before: Option<Bulk>, after: Option<Bulk>)
      ensures before == EndingAt(free, b.start) && after == StartingAt(free, b.End())
    {
      before, after := None, None;
      var i := 0;
      while i < |free|
        invariant 0 <= i <= |free|
        invariant before == EndingAt(free[..i], b.start)
        invariant after == StartingAt(free[..i], b.End())
      {
        assert free[..i + 1][..i] == free[..i];
        if free[i].End() == b.start { before := Some(free[i]); }
        if free[i].start == b.End() { after := Some(free[i]); }
        i := i + 1;
      }
      assert free[..i] == free;
    }

    /** merge_bulks */
    method MergeBulks(b: Bulk)
      modifies this`free
      ensures free == Merge(old(free), b)
    {
      var before, after := FindNeighbours(b);
      WithoutNeighbours(free, b, before, after);
      var bulk := b;
      if before.Some? && after.Some? {
        RemoveBulk(before.value);
        RemoveBulk(after.value);
        bulk := Bulk(before.value.start, before.value.size + b.size + after.value.size);
      } else if before.Some? {
        RemoveBulk(before.value);
        bulk := Bulk(before.value.start, before.value.size + b.size);
      } else if after.Some? {
        RemoveBulk(after.value);
        bulk := Bulk(b.start, after.value.size + b.size);
      }
      assert free == Drop(old(free), Neighbours(old(free), b)) && bulk == Joined(old(free), b);
      InsertBulkDesc(bulk);
    }

    /** Unmap an allocated bulk, unlink it and give its range to the free list */
    method ReleaseBulk(b: Bulk)
      requires Aligned(b.start) && Aligned(b.size)
      modifies this
      ensures Abs() == Released(old(Abs()), b)
    {
      UnmapRange(b.start, b.size);
      alloc := Drop(alloc, {b});
      MergeBulks(b);
    }

    /** The search for a free bulk that ends at the break */
    method FindTop() returns (top: Option<Bulk>)
      requires Tiled(Abs())
      ensures top == EndingAt(free, brk)
    {
      var i := 0;
      while i < |free|
        invariant 0 <= i <= |free|
        invariant forall j :: 0 <= j < i ==> free[j].End() != brk
      {
        if free[i].End() == brk {
          ghost var last := EndingAt(free, brk);
          assert free[i] in Elems(alloc) + Elems(free) && last.value in Elems(alloc) + Elems(free);
          UniqueEnds(Elems(alloc) + Elems(free), start, brk, free[i], last.value);
          return Some(free[i]);
        }
        i := i + 1;
      }
      top := None;
    }

    /** One turn of the break-lowering loop */
    method LowerOnce() returns (lowered: bool)
      requires Tiled(Abs())
      modifies this`free, this`brk
      ensures Abs() == Lowered(old(Abs())) && (lowered <==> EndingAt(old(free), old(brk)).Some?)
    {
      var top := FindTop();
      lowered := top.Some?;
      if lowered {
        RemoveBulk(top.value);
        brk := top.value.start;
      }
    }

    /** The break-lowering loop of kfree: it lowers the break at most once. */
    method LowerBreak() returns (times: nat)
      requires var h := Abs();
        Tiled(h) && PageGranular(h) && MappedIffAllocated(h) && Sorted(h.free) && Separated(Elems(h.free))
      modifies this`free, this`brk
      ensures Valid() && Abs() == Lowered(old(Abs()))
      ensures times <= 1 && (times == 1 <==> brk != old(brk))
    {
      ghost var h := Abs();
      LoweredKeepsInv(h);
      LoweredOnce(h);
      var lowered := true;
      times := 0;
      while lowered
        invariant times == 0 ==> Abs() == h
        invariant times > 0 ==> times == 1 && Abs() == Lowered(h) && brk != h.brk
        invariant !lowered ==> Abs() == Lowered(h)
        decreases 1 - times, lowered
      {
        lowered := LowerOnce();
        if lowered { times := times + 1; }
      }
    }

    /** The search of kfree through bulks_allocated */
    method FindAllocated(va: nat) returns (r: Option<Bulk>)
      ensures r.Some? ==> r.value in alloc && r.value.start == va
      ensures r.None? ==> forall b :: b in alloc ==> b.start != va
    {
      var i := 0;
      while i < |alloc|
        invariant 0 <= i <= |alloc|
        invariant forall j :: 0 <= j < i ==> alloc[j].start != va
      {
        if alloc[i].start == va {
          return Some(alloc[i]);
        }
        i := i + 1;
      }
      r := None;
    }

    method FreeBulk(b: Bulk)
      requires Valid() && b in alloc
      modifies this
      ensures Valid() && Abs() == PageHeap.Kfree(old(Abs()), b)
    {
      ReleasedOk(Abs(), b);
      ReleaseBulk(b);
      var _ := LowerBreak();
    }

    /** The page region of kfree; panics on an address that is not allocated */
    method KfreePages(va: nat) returns (panicked: bool, ghost b: Bulk)
      requires Valid() && start <= va < max
      modifies this
      ensures Valid()
      ensures panicked <==> forall x :: x in old(alloc) ==> x.start != va
      ensures panicked ==> Abs() == old(Abs())
      ensures !panicked ==> b in old(alloc) && b.start == va && Abs() == PageHeap.Kfree(old(Abs()), b)
    {
      var bulk := FindAllocated(va);
      if bulk.None? {
        panicked, b := true, Bulk(va, 0);
      } else {
        panicked, b := false, bulk.value;
        FreeBulk(bulk.value);
      }
    }

    /** kfree of any address, with the block region from heapStart to blockEnd below the page region */
    method Kfree(va: nat, heapStart: nat, blockEnd: nat) returns (r: Freeing, ghost b: Bulk)
      requires Valid() && 0 < heapStart <= blockEnd <= start <= max
      modifies this
      ensures Valid()
      ensures r == Nothing <==> va == 0
      ensures r == OutOfBounds <==> va != 0 && !(heapStart <= va < max)
      ensures r == ToBlocks <==> heapStart <= va < blockEnd
      ensures r == LockKept <==> blockEnd <= va < start
      ensures r == NotAllocated <==> start <= va < max && forall x :: x in old(alloc) ==> x.start != va
      ensures r != Freed ==> Abs() == old(Abs())
      ensures r == Freed ==> b in old(alloc) && b.start == va && Abs() == PageHeap.Kfree(old(Abs()), b)
    {
      b := Bulk(va, 0);
      if va == 0 {
        return Nothing, b;
      }
      if va < heapStart || va >= max {
        return OutOfBounds, b;
      }
      if va < blockEnd {
        return ToBlocks, b;
      }
      if va < start {
        return LockKept, b;
      }
      var panicked;
      panicked, b := KfreePages(va);
      r := if panicked then NotAllocated else Freed;
    }
  }

  /** Lowering happens when a free bulk ends at the break, moves the break, and not again. */
  lemma LoweredOnce(h: Heap)
    requires Tiled(h) && Inv(Lowered(h)) && Lowered(Lowered(h)) == Lowered(h)
    ensures EndingAt(h.free, h.brk).None? ==> Lowered(h) == h
    ensures EndingAt(h.free, h.brk).Some? ==> Lowered(h).brk != h.brk
    ensures EndingAt(Lowered(h).free, Lowered(h).brk).None?
  {
    var top := EndingAt(h.free, h.brk);
    if top.Some? { assert top.value in Elems(h.alloc) + Elems(h.free); }
  }

  /** The neighbours of b, taken off one after the other. */
  lemma WithoutNeighbours(q: seq<Bulk>, b: Bulk, before: Option<Bulk>, after: Option<Bulk>)
    requires before == EndingAt(q, b.start) && after == StartingAt(q, b.End())
    ensures before.Some? && after.Some? ==> Drop(Drop(q, {before.value}), {after.value}) == Drop(q, Neighbours(q, b))
    ensures before.Some? && after.None? ==> Drop(q, {before.value}) == Drop(q, Neighbours(q, b))
    ensures before.None? && after.Some? ==> Drop(q, {after.value}) == Drop(q, Neighbours(q, b))
    ensures before.None? && after.None? ==> q == Drop(q, Neighbours(q, b))
  {
    if before.Some? && after.Some? {
      DropTwice(q, {before.value}, {after.value});
    } else if before.Some? {
      assert Neighbours(q, b) == {before.value};
    } else if after.Some? {
      assert Neighbours(q, b) == {after.value};
    } else {
      assert Neighbours(q, b) == {};
      DropNone(q, {});
    }
  }

  lemma RoundUpAligned(size: nat)
    ensures Aligned(RoundUp32(size))
  {
    var s := (size + PAGE_SIZE - 1) % U32;
    assert s - s % PAGE_SIZE == PAGE_SIZE * (s / PAGE_SIZE);
  }

  lemma NextPage(start: nat, size: nat)
    requires Aligned(start) && Aligned(size)
    ensures Pages(start, size + PAGE_SIZE) == Pages(start, size) + {start + size}
  {
    forall p: nat
      ensures p in Pages(start, size + PAGE_SIZE) <==> p in Pages(start, size) || p == start + size
    {
      OnePageBetween(start + size, p);
    }
  }

  /** Only its first byte of a page is aligned. */
  lemma OnePageBetween(x: nat, p: nat)
    requires Aligned(x)
    ensures Aligned(p) && x <= p < x + PAGE_SIZE <==> p == x
  {}

  lemma AlignedParts(x: nat, y: nat)
    requires Aligned(x) && Aligned(y)
    ensures Aligned(x + y) && Aligned(x + PAGE_SIZE) && (x < y ==> x + PAGE_SIZE <= y) && (x <= y ==> Aligned(y - x))
  {
    var a, b := x / PAGE_SIZE, y / PAGE_SIZE;
    assert x == a * PAGE_SIZE && y == b * PAGE_SIZE;
    Multiple(a + b);
    Multiple(a + 1);
    if x <= y { Multiple(b - a); }
  }

  lemma Multiple(k: nat)
    ensures Aligned(k * PAGE_SIZE)
  {}

  /** One page further into an aligned range. */
  lemma PageStep(start: nat, va: nat, size: nat)
    requires Aligned(start) && Aligned(va) && Aligned(size) && start <= va < start + size
    ensures va + PAGE_SIZE <= start + size && Aligned(va + PAGE_SIZE)
    ensures Pages(start, va + PAGE_SIZE - start) == Pages(start, va - start) + {va}
  {
    AlignedParts(start, size);
    AlignedParts(start, va);
    AlignedParts(va, start + size);
    NextPage(start, va - start);
  }
}
