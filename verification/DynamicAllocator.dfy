/**
  lib/dynamic_allocator.c on its own lists and page table, with its loops, proved
  to do what BlockHeap describes.
 */
module DynamicAllocator {
  import opened SeqUtil
  import opened BlockHeap

  /** NULL, a block, or a kernel panic. */
  datatype Result = Null | At(b: Block) | Panic

  /** Blocks of a page that are among its first n. */
  lemma BlockSetNext(p: nat, n: nat)
    ensures BlockSet(p, n + 1) == BlockSet(p, n) + {Block(p, n)}
  {}

  class Allocator {
    var blockSize: seq<nat>
    var numFree: seq<nat>
    var freePages: seq<nat>
    var lists: seq<seq<Block>>

    ghost function Abs(): State
      reads this
    {
      State(blockSize, numFree, freePages, lists)
    }

    ghost predicate Valid()
      reads this
    {
      Inv(Abs())
    }

    /** initialize_dynamic_allocator */
    constructor (pages: nat)
      ensures Valid() && Init(Abs(), pages)
    {
      lists := seq(CLASSES, _ => []);
      var sizes: seq<nat>, counts: seq<nat>, free: seq<nat> := [], [], [];
      for i := 0 to pages
        invariant |sizes| == |counts| == |free| == i
        invariant forall j :: 0 <= j < i ==> sizes[j] == 0 && counts[j] == 0 && free[j] == j
      {
        sizes := sizes + [0];
        counts := counts + [0];
        free := free + [i];
      }
      blockSize, numFree, freePages := sizes, counts, free;
      new;
      assert freePages == seq(pages, i => i);
      InitInv(Abs(), pages);
    }

    /** The class search of alloc_block: doubling from 8 until the size fits */
    static method FindClass(size: nat) returns (idx: nat, bytes: nat)
      requires size <= MAX_BLOCK
      ensures idx == ClassFor(size) && bytes == Size(idx)
    {
      idx, bytes := 0, 8;
      while bytes < size && idx < CLASSES
        invariant idx < CLASSES && bytes == Size(idx)
        invariant idx > 0 ==> Size(idx - 1) < size
        decreases CLASSES - idx
      {
        idx := idx + 1;
        bytes := 2 * bytes;
      }
    }

    /** Unlink the first block of list j and count it down. */
    method Take(j: nat) returns (b: Block)
      requires Shape(Abs()) && j < CLASSES && lists[j] != []
      requires lists[j][0].page < |numFree| && numFree[lists[j][0].page] > 0
      modifies this
      ensures Abs() == TakeFirst(old(Abs()), j) && b == old(lists[j][0])
    {
      b := lists[j][0];
      lists := lists[j := lists[j][1..]];
      numFree := numFree[b.page := numFree[b.page] - 1];
    }

    /** Take the first free page and append its blocks to the list of class k. */
    method Carve(k: nat)
      requires Shape(Abs()) && k < CLASSES && freePages != []
      modifies this
      ensures Abs() == CarvePage(old(Abs()), k)
    {
      var p := freePages[0];
      assert p in freePages;
      freePages := freePages[1..];
      blockSize := blockSize[p := Size(k)];
      numFree := numFree[p := Cap(k)];
      ghost var l0 := lists;
      assert l0[k] + PageBlocks(p, 0) == l0[k] && l0[k := l0[k]] == l0;
      for i := 0 to Cap(k)
        invariant |lists| == CLASSES && lists == l0[k := l0[k] + PageBlocks(p, i)]
        invariant blockSize == old(blockSize)[p := Size(k)] && numFree == old(numFree)[p := Cap(k)]
        invariant freePages == old(freePages)[1..]
      {
        assert l0[k] + PageBlocks(p, i + 1) == l0[k] + PageBlocks(p, i) + [Block(p, i)];
        lists := lists[k := lists[k] + [Block(p, i)]];
      }
    }

    /** alloc_block; asserts the size limit, panics when nothing is left */
    method AllocBlock(size: nat) returns (r: Result)
      requires Valid()
      modifies this
      ensures size > MAX_BLOCK ==> r == Panic && Abs() == old(Abs())
      ensures size == 0 ==> r == Null && Abs() == old(Abs())
      ensures 0 < size <= MAX_BLOCK ==>
        var (t, b) := Alloc(old(Abs()), size);
        Abs() == t && r == if b.Some? then At(b.value) else Panic
      ensures Valid()
    {
      if size > MAX_BLOCK {
        return Panic;
      }
      if size == 0 {
        return Null;
      }
      ghost var s := Abs();
      AllocSpec(s, size);
      StockedOk(s, size);
      var idx, _ := FindClass(size);
      if |lists[idx]| > 0 {
        var b := Take(idx);
        return At(b);
      }
      if |freePages| > 0 {
        Carve(idx);
        var b := Take(idx);
        return At(b);
      }
      var i := FindStocked(idx);
      if i < CLASSES {
        var b := Take(i);
        return At(b);
      }
      r := Panic;
    }

    /** The search of alloc_block through the larger classes */
    method FindStocked(idx: nat) returns (i: nat)
      requires idx < CLASSES == |lists| && lists[idx] == []
      ensures i == FirstStocked(lists, idx)
    {
      i := idx + 1;
      while i < CLASSES
        invariant idx < i <= CLASSES
        invariant forall j :: idx <= j < i ==> lists[j] == []
      {
        if |lists[i]| > 0 {
          return;
        }
        i := i + 1;
      }
    }

    /** The class of a block size by repeated halving, as free_block finds it */
    static method HalvingClass(bytes: nat, ghost k: nat) returns (idx: nat)
      requires k < CLASSES && bytes == Size(k)
      ensures idx == k
    {
      var log2, tmp := 0, bytes;
      ghost var steps := k + 3;
      SizeIsPow2(k);
      while tmp > 1
        invariant 0 <= steps && tmp == Pow2(steps) && log2 + steps == k + 3
        decreases steps
      {
        tmp := tmp / 2;
        log2 := log2 + 1;
        steps := steps - 1;
      }
      idx := log2 - 3;
    }

    /** free_block of a live block */
    method FreeBlock(b: Block, ghost k: nat)
      requires Valid() && InClass(Abs(), b.page, k) && b.slot < Cap(k) && b !in lists[k]
      modifies this
      ensures Abs() == Free(old(Abs()), b, k) && Valid()
    {
      ghost var s := Abs();
      FreeSpec(s, b, k);
      PutBackOk(s, b, k);
      var page := b.page;
      var bytes := blockSize[page];
      var idx := HalvingClass(bytes, k);
      lists := lists[idx := [b] + lists[idx]];
      numFree := numFree[page := numFree[page] + 1];
      assert Abs() == PutBack(s, b, k);
      var perPage := PAGE_SIZE / bytes;
      assert perPage == Cap(k) by { CapIsQuotient(k); }
      if numFree[page] == perPage {
        ghost var l0 := lists;
        assert BlockSet(page, 0) == {};
        DropNone(l0[idx], BlockSet(page, 0));
        assert l0[idx := l0[idx]] == l0;
        for i := 0 to perPage
          invariant |lists| == CLASSES && lists == l0[idx := Drop(l0[idx], BlockSet(page, i))]
          invariant State(blockSize, numFree, freePages, l0) == PutBack(s, b, k)
        {
          BlockSetNext(page, i);
          DropTwice(l0[idx], BlockSet(page, i), {Block(page, i)});
          lists := lists[idx := Drop(lists[idx], {Block(page, i)})];
        }
        blockSize := blockSize[page := 0];
        numFree := numFree[page := 0];
        freePages := freePages + [page];
      }
    }

    /** get_block_size of an address relative to dynAllocStart; 0 outside the region */
    function GetBlockSize(offset: int): (n: nat)
      reads this
    {
      if offset < 0 || offset / PAGE_SIZE >= |blockSize| then 0 else blockSize[offset / PAGE_SIZE]
    }
  }

  /** get_block_size of any byte address of a live block is the size of that block. */
  lemma GetBlockSizeOfLive(a: Allocator, b: Block, d: nat)
    requires a.Valid() && Live(a.Abs(), b) && b.page < |a.blockSize| && d < a.blockSize[b.page]
    ensures a.GetBlockSize(Address(a.Abs(), b) + d) == BlockBytes(a.Abs(), b)
  {
    var s := a.Abs();
    LiveBlockPlace(s, b);
    var off := Address(s, b) + d - b.page * PAGE_SIZE;
    PageOfOffset(b.page, off);
  }

  function Pow2(n: nat): (r: nat)
    ensures r >= 1 && (n > 0 ==> r > 1)
  {
    if n == 0 then 1 else 2 * Pow2(n - 1)
  }

  lemma {:induction false} SizeIsPow2(k: nat)
    requires k < CLASSES
    ensures Size(k) == Pow2(k + 3)
  {
    if k == 0 {
      assert Pow2(2) == 4;
    } else {
      SizeIsPow2(k - 1);
    }
  }

  lemma CapIsQuotient(k: nat)
    ensures PAGE_SIZE / Size(k) == Cap(k)
  {}
}
