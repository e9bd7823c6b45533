/**
  The block allocator: pages cut into blocks of one power-of-two class each, one
  free list per class, and a list of free pages. A block is named by its page and
  its slot; Address gives the bytes it stands for.
 */
module BlockHeap {
  import opened SeqUtil

  const PAGE_SIZE: nat := 4096
  const CLASSES: nat := 9          // LOG2_MIN_SIZE 3 .. LOG2_MAX_SIZE 11
  const MAX_BLOCK: nat := 2048

  datatype Block = Block(page: nat, slot: nat)

  datatype State = State(
    blockSize: seq<nat>,           // pageBlockInfoArr[i].block_size, 0 for a free page
    numFree: seq<nat>,             // pageBlockInfoArr[i].num_of_free_blocks
    freePages: seq<nat>,           // freePagesList
    lists: seq<seq<Block>>)        // freeBlockLists

  /** Block size of class k: 8, 16, ..., 2048. */
  function Size(k: nat): (n: nat)
    ensures 8 <= n <= 2048
  {
    if k == 0 then 8 else if k == 1 then 16 else if k == 2 then 32 else if k == 3 then 64
    else if k == 4 then 128 else if k == 5 then 256 else if k == 6 then 512 else if k == 7 then 1024
    else 2048
  }

  /** Blocks in a page of class k: PAGE_SIZE / Size(k). */
  function Cap(k: nat): (n: nat)
    ensures 2 <= n <= 512 && n * Size(k) == PAGE_SIZE
  {
    if k == 0 then 512 else if k == 1 then 256 else if k == 2 then 128 else if k == 3 then 64
    else if k == 4 then 32 else if k == 5 then 16 else if k == 6 then 8 else if k == 7 then 4
    else 2
  }

  /** Page p is cut into blocks of class k. */
  predicate InClass(s: State, p: nat, k: nat) {
    p < |s.blockSize| && k < CLASSES && s.blockSize[p] == Size(k)
  }

  function FreeSlots(q: seq<Block>, p: nat, cap: nat): set<nat> {
    set i: nat | 0 <= i < cap && Block(p, i) in q
  }

  ghost predicate Shape(s: State) {
    && |s.numFree| == |s.blockSize| && |s.lists| == CLASSES
    && NoDup(s.freePages)
    && (forall p: nat :: p in s.freePages <==> p < |s.blockSize| && s.blockSize[p] == 0)
    && (forall p: nat :: p < |s.blockSize| && s.blockSize[p] == 0 ==> s.numFree[p] == 0)
    && (forall p: nat :: p < |s.blockSize| && s.blockSize[p] != 0 ==> exists k: nat :: InClass(s, p, k))
  }

  /** List k holds, once each, blocks of pages of class k. */
  ghost predicate ListOk(s: State, k: nat)
    requires k < |s.lists|
  {
    && NoDup(s.lists[k])
    && (forall b :: b in s.lists[k] ==> InClass(s, b.page, k) && b.slot < Cap(k))
  }

  /** The counter of a page is the number of its blocks in the list of its class. */
  ghost predicate CountOk(s: State, p: nat, k: nat)
    requires p < |s.numFree| && k < |s.lists|
  {
    s.numFree[p] == |FreeSlots(s.lists[k], p, Cap(k))|
  }

  /** The invariant, with the page `but` allowed to have all its blocks free. */
  ghost predicate InvBut(s: State, but: nat) {
    && Shape(s)
    && (forall k: nat :: k < CLASSES ==> ListOk(s, k))
    && (forall p: nat, k: nat :: InClass(s, p, k) ==> CountOk(s, p, k))
    && (forall p: nat, k: nat :: InClass(s, p, k) && p != but ==> s.numFree[p] < Cap(k))
  }

  ghost predicate Inv(s: State) {
    InvBut(s, |s.blockSize|)
  }

  predicate Init(s: State, pages: nat) {
    && |s.blockSize| == |s.numFree| == pages
    && (forall i :: 0 <= i < pages ==> s.blockSize[i] == 0 && s.numFree[i] == 0)
    && s.freePages == seq(pages, i => i) && s.lists == seq(CLASSES, _ => [])
  }

  // ---------- Live blocks ----------

  ghost predicate Live(s: State, b: Block) {
    |s.lists| == CLASSES && exists k: nat :: InClass(s, b.page, k) && b.slot < Cap(k) && b !in s.lists[k]
  }

  ghost function BlockBytes(s: State, b: Block): nat
    requires b.page < |s.blockSize|
  {
    s.blockSize[b.page]
  }

  /** First byte of a block, relative to dynAllocStart. */
  ghost function Address(s: State, b: Block): nat
    requires b.page < |s.blockSize|
  {
    b.page * PAGE_SIZE + b.slot * s.blockSize[b.page]
  }

  lemma ClassUnique(s: State, p: nat, j: nat, k: nat)
    requires InClass(s, p, j) && InClass(s, p, k)
    ensures j == k
  {}

  lemma MultipleOf(page: nat, i: nat, n: nat, c: nat)
    requires c * n == PAGE_SIZE
    ensures page * PAGE_SIZE + i * n == (page * c + i) * n
  {
    assert page * PAGE_SIZE == (page * c) * n;
  }

  lemma PlaceInPage(page: nat, i: nat, k: nat)
    requires k < CLASSES && i < Cap(k)
    ensures i * Size(k) + Size(k) <= PAGE_SIZE
    ensures page * PAGE_SIZE + i * Size(k) == (page * Cap(k) + i) * Size(k)
    ensures (page * PAGE_SIZE + i * Size(k)) / PAGE_SIZE == page
  {
    SlotsBelow(i, k);
    MultipleOf(page, i, Size(k), Cap(k));
    PageOfOffset(page, i * Size(k));
  }

  lemma SlotsBelow(i: nat, k: nat)
    requires i < Cap(k)
    ensures i * Size(k) + Size(k) <= PAGE_SIZE
  {
    if i + 1 < Cap(k) { SlotsApart(i + 1, Cap(k), k); }
    SlotsApart(i, i + 1, k);
  }

  lemma PageOfOffset(page: nat, off: nat)
    requires off < PAGE_SIZE
    ensures (page * PAGE_SIZE + off) / PAGE_SIZE == page
  {}

  lemma SlotsApart(i: nat, j: nat, k: nat)
    requires i < j
    ensures i * Size(k) + Size(k) <= j * Size(k)
  {}

  /** A live block lies in its page, starts at a multiple of its size, and is found by its address. */
  lemma LiveBlockPlace(s: State, b: Block)
    requires Inv(s) && Live(s, b)
    ensures b.page < |s.blockSize| && BlockBytes(s, b) > 0
    ensures b.page * PAGE_SIZE <= Address(s, b)
    ensures Address(s, b) + BlockBytes(s, b) <= (b.page + 1) * PAGE_SIZE
    ensures exists m: nat :: Address(s, b) == m * BlockBytes(s, b)
    ensures Address(s, b) / PAGE_SIZE == b.page
  {
    var k: nat :| InClass(s, b.page, k) && b.slot < Cap(k) && b !in s.lists[k];
    PlaceInPage(b.page, b.slot, k);
  }

  /** Two live blocks never share a byte. */
  lemma LiveBlocksDisjoint(s: State, a: Block, b: Block)
    requires Inv(s) && Live(s, a) && Live(s, b) && a != b
    ensures a.page < |s.blockSize| && b.page < |s.blockSize|
    ensures Address(s, a) + BlockBytes(s, a) <= Address(s, b) || Address(s, b) + BlockBytes(s, b) <= Address(s, a)
  {
    LiveBlockPlace(s, a);
    LiveBlockPlace(s, b);
    if a.page == b.page {
      var k: nat :| InClass(s, a.page, k);
      if a.slot < b.slot {
        SlotsApart(a.slot, b.slot, k);
      } else {
        SlotsApart(b.slot, a.slot, k);
      }
    }
  }

  /** When nothing is live every page is back in the list of free pages. */
  lemma NothingLiveAllFree(s: State)
    requires Inv(s) && forall b :: !Live(s, b)
    ensures forall p: nat :: p in s.freePages <==> p < |s.blockSize|
  {
    forall p: nat | p < |s.blockSize|
      ensures s.blockSize[p] == 0
    {
      if s.blockSize[p] != 0 {
        var k: nat :| InClass(s, p, k);
        assert CountOk(s, p, k);
        FullPage(s.lists[k], p, Cap(k));
        var i: nat :| i < Cap(k) && Block(p, i) !in s.lists[k];
        assert Live(s, Block(p, i));
      }
    }
  }

  /** A page whose count is below capacity has a block that is not listed, and conversely. */
  lemma FullPage(q: seq<Block>, p: nat, cap: nat)
    ensures |FreeSlots(q, p, cap)| <= cap
    ensures |FreeSlots(q, p, cap)| < cap <==> exists i: nat :: i < cap && Block(p, i) !in q
  {
    SubsetSize(FreeSlots(q, p, cap), Upto(cap));
    if i: nat :| i < cap && Block(p, i) !in q {
      assert i in Upto(cap) && i !in FreeSlots(q, p, cap);
    } else {
      assert FreeSlots(q, p, cap) == Upto(cap);
    }
  }

  // ---------- Steps of alloc_block and free_block ----------

  /** The blocks of a page, in address order. */
  function PageBlocks(p: nat, cap: nat): seq<Block> { seq(cap, i requires 0 <= i => Block(p, i)) }

  /** Unlink the first block of list k and count it down. */
  function TakeFirst(s: State, k: nat): State
    requires Shape(s) && k < CLASSES && s.lists[k] != []
    requires s.lists[k][0].page < |s.numFree| && s.numFree[s.lists[k][0].page] > 0
  {
    var p := s.lists[k][0].page;
    s.(lists := s.lists[k := s.lists[k][1..]], numFree := s.numFree[p := s.numFree[p] - 1])
  }

  /** Cut the first free page into blocks of class k, appended to list k. */
  function CarvePage(s: State, k: nat): (t: State)
    requires Shape(s) && k < CLASSES && s.freePages != []
    ensures |t.blockSize| == |s.blockSize| == |t.numFree| && |t.lists| == CLASSES
    ensures s.freePages[0] < |s.blockSize| && s.blockSize[s.freePages[0]] == 0
  {
    var p := s.freePages[0];
    assert p in s.freePages;
    s.(freePages := s.freePages[1..],
       blockSize := s.blockSize[p := Size(k)],
       numFree := s.numFree[p := Cap(k)],
       lists := s.lists[k := s.lists[k] + PageBlocks(p, Cap(k))])
  }

  /** Link a freed block at the head of its list and count it up. */
  function PutBack(s: State, b: Block, k: nat): State
    requires Shape(s) && k < CLASSES && b.page < |s.numFree|
  {
    s.(lists := s.lists[k := [b] + s.lists[k]], numFree := s.numFree[b.page := s.numFree[b.page] + 1])
  }

  /** Unlink every block of page p and give the page back. */
  function ReturnPage(s: State, p: nat, k: nat): State
    requires Shape(s) && k < CLASSES && p < |s.numFree|
  {
    s.(lists := s.lists[k := Drop(s.lists[k], BlockSet(p, Cap(k)))],
       blockSize := s.blockSize[p := 0],
       numFree := s.numFree[p := 0],
       freePages := s.freePages + [p])
  }

  function BlockSet(p: nat, cap: nat): set<Block> { set i | 0 <= i < cap :: Block(p, i) }

  lemma ListedCount(s: State, but: nat, k: nat, b: Block)
    requires InvBut(s, but) && k < CLASSES && b in s.lists[k]
    ensures b.page < |s.numFree| && s.numFree[b.page] > 0
  {
    assert ListOk(s, k) && InClass(s, b.page, k) && CountOk(s, b.page, k);
    assert b.slot in FreeSlots(s.lists[k], b.page, Cap(k));
  }

  /** Pages and classes are as before; only lists and counters moved. */
  lemma LiveByLists(s: State, t: State, b: Block)
    requires |s.lists| == |t.lists| == CLASSES && s.blockSize == t.blockSize
    requires forall k: nat :: k < CLASSES && InClass(s, b.page, k) ==> (b in s.lists[k] <==> b in t.lists[k])
    ensures Live(t, b) <==> Live(s, b)
  {
    if Live(s, b) {
      var k: nat :| InClass(s, b.page, k) && b.slot < Cap(k) && b !in s.lists[k];
      assert InClass(t, b.page, k);
    }
    if Live(t, b) {
      var k: nat :| InClass(t, b.page, k) && b.slot < Cap(k) && b !in t.lists[k];
      assert InClass(s, b.page, k);
    }
  }

  /** One more listed block is one more free slot of its own page. */
  lemma SlotsCons(b: Block, q: seq<Block>, p: nat, cap: nat)
    requires b !in q && b.slot < cap
    ensures |FreeSlots([b] + q, p, cap)| == |FreeSlots(q, p, cap)| + (if p == b.page then 1 else 0)
  {
    var before, after := FreeSlots(q, p, cap), FreeSlots([b] + q, p, cap);
    if p == b.page {
      assert after == before + {b.slot} && b.slot !in before;
    } else {
      assert after == before;
    }
  }

  lemma TakeFirstCounts(s: State, but: nat, k: nat)
    requires InvBut(s, but) && k < CLASSES && s.lists[k] != []
    requires s.lists[k][0].page < |s.numFree| && s.numFree[s.lists[k][0].page] > 0
    ensures var t := TakeFirst(s, k);
      forall p: nat, j: nat :: InClass(t, p, j) ==> CountOk(t, p, j)
  {
    var b, t := s.lists[k][0], TakeFirst(s, k);
    var q := s.lists[k][1..];
    assert s.lists[k] == [b] + q;
    assert b in s.lists[k] && ListOk(s, k) && InClass(s, b.page, k);
    forall p: nat, j: nat | InClass(t, p, j)
      ensures CountOk(t, p, j)
    {
      assert InClass(s, p, j) && CountOk(s, p, j);
      if j == k {
        SlotsCons(b, q, p, Cap(k));
      } else if p == b.page {
        ClassUnique(s, p, j, k);
      }
    }
  }

  lemma TakeFirstOk(s: State, k: nat, but: nat)
    requires k < CLASSES && s.blockSize != [] && InvBut(s, but) && s.lists[k] != []
    requires but == |s.blockSize| || but == s.lists[k][0].page
    ensures s.lists[k][0].page < |s.numFree| && s.numFree[s.lists[k][0].page] > 0
    ensures Inv(TakeFirst(s, k))
    ensures forall x :: Live(TakeFirst(s, k), x) <==> Live(s, x) || x == s.lists[k][0]
    ensures !Live(s, s.lists[k][0]) && InClass(s, s.lists[k][0].page, k)
  {
    var b := s.lists[k][0];
    assert b in s.lists[k] && ListOk(s, k) && InClass(s, b.page, k);
    ListedCount(s, but, k, b);
    var t := TakeFirst(s, k);
    TakeFirstCounts(s, but, k);
    assert s.lists[k] == [b] + t.lists[k];
    assert Shape(t) by {
      forall p: nat | p < |t.blockSize| && t.blockSize[p] != 0
        ensures exists j: nat :: InClass(t, p, j)
      {
        var j: nat :| InClass(s, p, j);
        assert InClass(t, p, j);
      }
    }
    forall j: nat | j < CLASSES
      ensures ListOk(t, j)
    {
      assert ListOk(s, j);
    }
    forall p: nat, j: nat | InClass(t, p, j)
      ensures t.numFree[p] < Cap(j)
    {
      assert InClass(s, p, j) && CountOk(s, p, j);
      FullPage(s.lists[j], p, Cap(j));
    }
    TakeFirstLive(s, k);
  }

  lemma TakeFirstLive(s: State, k: nat)
    requires Shape(s) && k < CLASSES && s.lists[k] != [] && ListOk(s, k)
    requires s.lists[k][0].page < |s.numFree| && s.numFree[s.lists[k][0].page] > 0
    ensures forall x :: Live(TakeFirst(s, k), x) <==> Live(s, x) || x == s.lists[k][0]
    ensures !Live(s, s.lists[k][0])
  {
    var b, t := s.lists[k][0], TakeFirst(s, k);
    assert b in s.lists[k] && InClass(s, b.page, k) && InClass(t, b.page, k);
    assert s.lists[k] == [b] + t.lists[k];
    assert Live(t, b);
    if Live(s, b) {
      var j: nat :| InClass(s, b.page, j) && b.slot < Cap(j) && b !in s.lists[j];
      ClassUnique(s, b.page, j, k);
    }
    forall x | x != b
      ensures Live(t, x) <==> Live(s, x)
    {
      LiveByLists(s, t, x);
    }
  }

  /** A freshly carved page: all its blocks are listed, nobody else changes. */
  lemma CarveMembers(s: State, k: nat, b: Block)
    requires Shape(s) && k < CLASSES && s.freePages != []
    ensures var p := s.freePages[0];
      b in s.lists[k] + PageBlocks(p, Cap(k)) <==> b in s.lists[k] || (b.page == p && b.slot < Cap(k))
  {
    var p := s.freePages[0];
    if b.page == p && b.slot < Cap(k) {
      assert PageBlocks(p, Cap(k))[b.slot] == b;
    }
  }

  lemma CarveCounts(s: State, k: nat)
    requires Inv(s) && k < CLASSES && s.freePages != []
    ensures var t := CarvePage(s, k);
      forall p: nat, j: nat :: InClass(t, p, j) ==> CountOk(t, p, j)
  {
    var p0, t := s.freePages[0], CarvePage(s, k);
    forall p: nat, j: nat | InClass(t, p, j)
      ensures CountOk(t, p, j)
    {
      forall i: nat
        ensures Block(p, i) in t.lists[k] <==> Block(p, i) in s.lists[k] || (p == p0 && i < Cap(k))
      {
        CarveMembers(s, k, Block(p, i));
      }
      if p == p0 {
        assert j == k;
        assert FreeSlots(t.lists[k], p, Cap(k)) == Upto(Cap(k));
      } else {
        assert InClass(s, p, j) && CountOk(s, p, j);
        assert FreeSlots(t.lists[j], p, Cap(j)) == FreeSlots(s.lists[j], p, Cap(j));
      }
    }
  }

  lemma CarveLists(s: State, k: nat)
    requires Inv(s) && k < CLASSES && s.freePages != []
    ensures var t := CarvePage(s, k); forall j: nat :: j < CLASSES ==> ListOk(t, j)
  {
    var p0, t := s.freePages[0], CarvePage(s, k);
    assert p0 in s.freePages;
    forall j: nat | j < CLASSES
      ensures ListOk(t, j)
    {
      assert ListOk(s, j);
      forall b | b in t.lists[j]
        ensures InClass(t, b.page, j) && b.slot < Cap(j)
      {
        if j == k { CarveMembers(s, k, b); }
        if b in s.lists[j] { assert InClass(s, b.page, j) && b.page != p0; }
      }
      if j == k {
        forall x | x in s.lists[k]
          ensures x !in PageBlocks(p0, Cap(k))
        {
          assert InClass(s, x.page, k);
        }
      }
    }
  }

  lemma CarveOk(s: State, k: nat)
    requires Inv(s) && k < CLASSES && s.freePages != []
    ensures InvBut(CarvePage(s, k), s.freePages[0])
    ensures forall x :: Live(CarvePage(s, k), x) <==> Live(s, x)
    ensures forall x :: Live(s, x) ==> x.page != s.freePages[0]
  {
    var p0, t := s.freePages[0], CarvePage(s, k);
    assert p0 in s.freePages;
    CarveCounts(s, k);
    CarveLists(s, k);
    TailMembers(s.freePages);
    assert Shape(t) by {
      forall p: nat | p < |t.blockSize| && t.blockSize[p] != 0
        ensures exists j: nat :: InClass(t, p, j)
      {
        if p == p0 {
          assert InClass(t, p, k);
        } else {
          var j: nat :| InClass(s, p, j);
          assert InClass(t, p, j);
        }
      }
    }
    forall p: nat, j: nat | InClass(t, p, j) && p != p0
      ensures t.numFree[p] < Cap(j)
    {
      assert InClass(s, p, j);
    }
    forall x
      ensures Live(t, x) <==> Live(s, x)
      ensures Live(s, x) ==> x.page != p0
    {
      CarveLive(s, k, x);
    }
  }

  lemma CarveLive(s: State, k: nat, x: Block)
    requires Inv(s) && k < CLASSES && s.freePages != []
    ensures Live(CarvePage(s, k), x) <==> Live(s, x)
    ensures Live(s, x) ==> x.page != s.freePages[0]
  {
    var p0, t := s.freePages[0], CarvePage(s, k);
    assert p0 in s.freePages;
    CarveMembers(s, k, x);
    if Live(s, x) {
      var j: nat :| InClass(s, x.page, j) && x.slot < Cap(j) && x !in s.lists[j];
      assert x.page != p0 && InClass(t, x.page, j);
      assert x !in t.lists[j];
    }
    if Live(t, x) {
      var j: nat :| InClass(t, x.page, j) && x.slot < Cap(j) && x !in t.lists[j];
      if x.page == p0 {
        assert InClass(t, p0, k);
        ClassUnique(t, p0, j, k);
      }
      assert x.page != p0 && InClass(s, x.page, j);
    }
  }

  lemma PutBackOk(s: State, b: Block, k: nat)
    requires Inv(s) && InClass(s, b.page, k) && b.slot < Cap(k) && b !in s.lists[k]
    ensures InvBut(PutBack(s, b, k), b.page)
    ensures PutBack(s, b, k).numFree[b.page] <= Cap(k)
    ensures forall x :: Live(PutBack(s, b, k), x) <==> Live(s, x) && x != b
  {
    var t := PutBack(s, b, k);
    assert Shape(t) by {
      forall p: nat | p < |t.blockSize| && t.blockSize[p] != 0
        ensures exists j: nat :: InClass(t, p, j)
      {
        var j: nat :| InClass(s, p, j);
        assert InClass(t, p, j);
      }
    }
    forall j: nat | j < CLASSES
      ensures ListOk(t, j)
    {
      assert ListOk(s, j);
    }
    forall p: nat, j: nat | InClass(t, p, j)
      ensures CountOk(t, p, j)
      ensures p != b.page ==> t.numFree[p] < Cap(j)
    {
      assert InClass(s, p, j) && CountOk(s, p, j);
      if j == k {
        SlotsCons(b, s.lists[k], p, Cap(k));
      } else if p == b.page {
        ClassUnique(s, p, j, k);
      }
    }
    assert InClass(t, b.page, k) && CountOk(t, b.page, k);
    FullPage(t.lists[k], b.page, Cap(k));
    PutBackLive(s, b, k);
  }

  lemma PutBackLive(s: State, b: Block, k: nat)
    requires Shape(s) && InClass(s, b.page, k) && b.slot < Cap(k) && b !in s.lists[k]
    ensures forall x :: Live(PutBack(s, b, k), x) <==> Live(s, x) && x != b
  {
    var t := PutBack(s, b, k);
    if Live(t, b) {
      var j: nat :| InClass(t, b.page, j) && b.slot < Cap(j) && b !in t.lists[j];
      ClassUnique(t, b.page, j, k);
    }
    forall x | x != b
      ensures Live(t, x) <==> Live(s, x)
    {
      LiveByLists(s, t, x);
    }
  }

  lemma ReturnMembers(s: State, p: nat, k: nat, x: Block)
    requires Shape(s) && k < CLASSES && ListOk(s, k)
    ensures x in Drop(s.lists[k], BlockSet(p, Cap(k))) <==> x in s.lists[k] && x.page != p
  {
    DropMembers(s.lists[k], BlockSet(p, Cap(k)));
    if x in s.lists[k] {
      assert x.slot < Cap(k);
      assert x in BlockSet(p, Cap(k)) <==> x.page == p;
    }
  }

  lemma ReturnPageLists(s: State, p: nat, k: nat)
    requires InvBut(s, p) && InClass(s, p, k)
    ensures var t := ReturnPage(s, p, k);
      && (forall j: nat :: j < CLASSES ==> ListOk(t, j))
      && (forall x: nat, j: nat :: InClass(t, x, j) ==> CountOk(t, x, j) && t.numFree[x] < Cap(j))
  {
    var t := ReturnPage(s, p, k);
    forall j: nat | j < CLASSES
      ensures ListOk(t, j)
    {
      assert ListOk(s, j);
      if j == k { DropNoDup(s.lists[k], BlockSet(p, Cap(k))); }
      forall b | b in t.lists[j]
        ensures InClass(t, b.page, j) && b.slot < Cap(j)
      {
        if j == k { ReturnMembers(s, p, k, b); }
        assert b in s.lists[j] && InClass(s, b.page, j);
        if b.page == p { ClassUnique(s, p, j, k); }
      }
    }
    forall x: nat, j: nat | InClass(t, x, j)
      ensures CountOk(t, x, j) && t.numFree[x] < Cap(j)
    {
      assert x != p && InClass(s, x, j) && CountOk(s, x, j);
      if j == k {
        forall i: nat
          ensures Block(x, i) in t.lists[k] <==> Block(x, i) in s.lists[k]
        {
          assert ListOk(s, k);
          ReturnMembers(s, p, k, Block(x, i));
        }
        assert FreeSlots(t.lists[k], x, Cap(k)) == FreeSlots(s.lists[k], x, Cap(k));
      }
    }
  }

  lemma ReturnPageOk(s: State, p: nat, k: nat)
    requires InvBut(s, p) && InClass(s, p, k) && s.numFree[p] == Cap(k)
    ensures Inv(ReturnPage(s, p, k))
    ensures forall x :: Live(ReturnPage(s, p, k), x) <==> Live(s, x)
    ensures forall x :: Live(s, x) ==> x.page != p
  {
    var t := ReturnPage(s, p, k);
    ReturnPageLists(s, p, k);
    assert Shape(t) by {
      assert forall x :: x in t.freePages <==> x in s.freePages || x == p;
      assert p !in s.freePages;
      forall x: nat | x < |t.blockSize| && t.blockSize[x] != 0
        ensures exists j: nat :: InClass(t, x, j)
      {
        var j: nat :| InClass(s, x, j);
        assert InClass(t, x, j);
      }
    }
    forall x
      ensures Live(t, x) <==> Live(s, x)
      ensures Live(s, x) ==> x.page != p
    {
      ReturnPageLive(s, p, k, x);
    }
  }

  lemma ReturnPageLive(s: State, p: nat, k: nat, x: Block)
    requires InvBut(s, p) && InClass(s, p, k) && s.numFree[p] == Cap(k)
    ensures Live(ReturnPage(s, p, k), x) <==> Live(s, x)
    ensures Live(s, x) ==> x.page != p
  {
    var t := ReturnPage(s, p, k);
    assert CountOk(s, p, k) && ListOk(s, k);
    FullPage(s.lists[k], p, Cap(k));
    ReturnMembers(s, p, k, x);
    if Live(s, x) {
      var j: nat :| InClass(s, x.page, j) && x.slot < Cap(j) && x !in s.lists[j];
      assert Block(x.page, x.slot) == x;
      if x.page == p { ClassUnique(s, p, j, k); }
      assert InClass(t, x.page, j) && x !in t.lists[j];
    }
    if Live(t, x) {
      var j: nat :| InClass(t, x.page, j) && x.slot < Cap(j) && x !in t.lists[j];
      assert x.page != p && InClass(s, x.page, j);
    }
  }

  // ---------- alloc_block and free_block ----------

  /** The least class whose blocks hold size bytes. */
  function ClassFor(size: nat): (k: nat)
    requires size <= MAX_BLOCK
    ensures k < CLASSES && Size(k) >= size && (k > 0 ==> Size(k - 1) < size)
  {
    if size <= 8 then 0 else if size <= 16 then 1 else if size <= 32 then 2 else if size <= 64 then 3
    else if size <= 128 then 4 else if size <= 256 then 5 else if size <= 512 then 6
    else if size <= 1024 then 7 else 8
  }

  /** The first non-empty list from class k on, or CLASSES. */
  function FirstStocked(lists: seq<seq<Block>>, k: nat): (j: nat)
    requires k <= |lists|
    ensures k <= j <= |lists| && (j < |lists| ==> lists[j] != [])
    ensures forall i :: k <= i < j ==> lists[i] == []
    decreases |lists| - k
  {
    if k == |lists| || lists[k] != [] then k else FirstStocked(lists, k + 1)
  }

  /** The state from which alloc_block takes the first block of the given list, if it succeeds. */
  ghost function Stocked(s: State, size: nat): (State, nat)
    requires Inv(s) && size <= MAX_BLOCK
  {
    var k := ClassFor(size);
    if s.lists[k] == [] && s.freePages != [] then (CarvePage(s, k), k)
    else (s, FirstStocked(s.lists, k))
  }

  ghost function Alloc(s: State, size: nat): (State, Option<Block>)
    requires Inv(s) && size <= MAX_BLOCK
  {
    StockedOk(s, size);
    var (t, j) := Stocked(s, size);
    if size == 0 || j == CLASSES then (s, None) else (TakeFirst(t, j), Some(t.lists[j][0]))
  }

  lemma StockedOk(s: State, size: nat)
    requires Inv(s) && size <= MAX_BLOCK
    ensures var (t, j) := Stocked(s, size);
      && Shape(t) && |t.blockSize| == |s.blockSize| && j <= CLASSES && (forall x :: Live(t, x) <==> Live(s, x))
      && (j == CLASSES <==> s.freePages == [] && forall i :: ClassFor(size) <= i < CLASSES ==> s.lists[i] == [])
      && (j < CLASSES ==>
            && t.lists[j] != [] && Size(j) >= size
            && t.lists[j][0].page < |t.numFree| && t.numFree[t.lists[j][0].page] > 0
            && Inv(TakeFirst(t, j)) && InClass(t, t.lists[j][0].page, j) && !Live(s, t.lists[j][0])
            && (forall x :: Live(TakeFirst(t, j), x) <==> Live(s, x) || x == t.lists[j][0])
            && (forall x :: Live(s, x) ==> x.page < |s.blockSize| && t.blockSize[x.page] == s.blockSize[x.page]))
  {
    var k := ClassFor(size);
    var (t, j) := Stocked(s, size);
    if s.lists[k] == [] && s.freePages != [] {
      var p := s.freePages[0];
      CarveOk(s, k);
      assert p in s.freePages;
      assert t.lists[k][0] == Block(p, 0);
      TakeFirstOk(t, k, p);
    } else if j < CLASSES {
      assert s.blockSize != [] by {
        assert ListOk(s, j) && s.lists[j][0] in s.lists[j] && InClass(s, s.lists[j][0].page, j);
      }
      TakeFirstOk(s, j, |s.blockSize|);
      SizeNotBelow(k, j);
    }
  }

  lemma SizeNotBelow(k: nat, j: nat)
    requires k <= j
    ensures Size(k) <= Size(j)
  {}

  /**
    alloc_block: the new block is large enough, was not live, and is the only
    change to what is live; no live block changes size. It fails exactly when there
    is no free page and no free block of a sufficient class.
   */
  lemma AllocSpec(s: State, size: nat)
    requires Inv(s) && 0 < size <= MAX_BLOCK
    ensures var (t, r) := Alloc(s, size);
      && Inv(t)
      && (r.None? <==> s.freePages == [] && forall j :: ClassFor(size) <= j < CLASSES ==> s.lists[j] == [])
      && (r.None? ==> t == s)
      && (r.Some? ==>
            && !Live(s, r.value) && r.value.page < |t.blockSize| && BlockBytes(t, r.value) >= size
            && (forall x :: Live(t, x) <==> Live(s, x) || x == r.value)
            && (forall x :: Live(s, x) ==>
                  x.page < |s.blockSize| == |t.blockSize| && BlockBytes(t, x) == BlockBytes(s, x)))
  {
    StockedOk(s, size);
  }

  /** free_block */
  ghost function Free(s: State, b: Block, k: nat): State
    requires Inv(s) && InClass(s, b.page, k) && b.slot < Cap(k) && b !in s.lists[k]
  {
    PutBackOk(s, b, k);
    var t := PutBack(s, b, k);
    if t.numFree[b.page] == Cap(k) then ReturnPage(t, b.page, k) else t
  }

  /** free_block: the block stops being live and nothing else changes. */
  lemma FreeSpec(s: State, b: Block, k: nat)
    requires Inv(s) && InClass(s, b.page, k) && b.slot < Cap(k) && b !in s.lists[k]
    ensures var t := Free(s, b, k);
      && Inv(t) && |t.blockSize| == |s.blockSize|
      && (forall x :: Live(t, x) <==> Live(s, x) && x != b)
      && (forall x :: Live(t, x) ==> x.page < |s.blockSize| && BlockBytes(t, x) == BlockBytes(s, x))
  {
    PutBackOk(s, b, k);
    var u := PutBack(s, b, k);
    if u.numFree[b.page] == Cap(k) {
      ReturnPageOk(u, b.page, k);
    } else {
      forall p: nat, j: nat | InClass(u, p, j)
        ensures u.numFree[p] < Cap(j)
      {
        if p == b.page { ClassUnique(u, p, j, k); }
      }
    }
    forall x | Live(Free(s, b, k), x)
      ensures x.page < |s.blockSize|
    {
      assert Live(u, x);
    }
  }

  // ---------- Which block is taken, and where a freed one goes ----------

  /** k is the class of the smallest blocks that hold size bytes. */
  ghost predicate LeastClass(k: nat, size: nat) {
    k < CLASSES && Size(k) >= size && forall j: nat :: j < CLASSES && Size(j) >= size ==> Size(k) <= Size(j)
  }

  lemma SizesGrow(j: nat, k: nat)
    requires j < k < CLASSES
    ensures 2 * Size(j) <= Size(k)
  {}

  lemma LeastClassIs(k: nat, size: nat)
    requires size <= MAX_BLOCK && LeastClass(k, size)
    ensures k == ClassFor(size)
  {
    var c := ClassFor(size);
    if c < k { SizesGrow(c, k); }
    if k < c { SizesGrow(k, c); }
  }

  /** With a listed block of the least class, the first of them is taken. */
  lemma AllocListed(s: State, size: nat, k: nat)
    requires Inv(s) && 0 < size <= MAX_BLOCK && LeastClass(k, size) && s.lists[k] != []
    ensures var (t, r) := Alloc(s, size);
      && r == Some(s.lists[k][0]) && t.lists == s.lists[k := s.lists[k][1..]]
      && t.freePages == s.freePages && t.blockSize == s.blockSize
  {
    LeastClassIs(k, size);
    StockedOk(s, size);
  }

  /** Else the first free page is cut into blocks of that class, and its first block is taken. */
  lemma AllocCarved(s: State, size: nat, k: nat)
    requires Inv(s) && 0 < size <= MAX_BLOCK && LeastClass(k, size) && s.lists[k] == [] && s.freePages != []
    ensures s.freePages[0] < |s.blockSize|
    ensures var (t, r) := Alloc(s, size);
      var p := s.freePages[0];
      && r == Some(Block(p, 0)) && t.freePages == s.freePages[1..] && t.blockSize == s.blockSize[p := Size(k)]
      && |t.lists| == |s.lists| && (forall j :: 0 <= j < |s.lists| && j != k ==> t.lists[j] == s.lists[j])
      && |t.lists[k]| == PAGE_SIZE / Size(k) - 1
      && (forall i :: 0 <= i < |t.lists[k]| ==> t.lists[k][i] == Block(p, i + 1))
  {
    LeastClassIs(k, size);
    StockedOk(s, size);
    assert s.freePages[0] in s.freePages;
    CarvedAndTaken(s, k);
  }

  /** The list of the class once a page is cut and its first block taken. */
  lemma CarvedAndTaken(s: State, k: nat)
    requires Shape(s) && k < CLASSES && s.lists[k] == [] && s.freePages != []
    ensures var p := s.freePages[0];
      var q := CarvePage(s, k).lists[k];
      && q != [] && q[0] == Block(p, 0) && |q[1..]| == PAGE_SIZE / Size(k) - 1
      && (forall i :: 0 <= i < |q[1..]| ==> q[1..][i] == Block(p, i + 1))
  {
    assert s.lists[k] + PageBlocks(s.freePages[0], Cap(k)) == PageBlocks(s.freePages[0], Cap(k));
    assert PAGE_SIZE / Size(k) == Cap(k);
  }

  /** Else, with no free page left, the first block of the smallest larger class that has one. */
  lemma AllocLarger(s: State, size: nat, k: nat, j: nat)
    requires Inv(s) && 0 < size <= MAX_BLOCK && LeastClass(k, size) && s.freePages == []
    requires k < j < CLASSES && s.lists[j] != [] && (forall i :: k <= i < j ==> s.lists[i] == [])
    ensures var (t, r) := Alloc(s, size);
      && r == Some(s.lists[j][0]) && t.lists == s.lists[j := s.lists[j][1..]]
      && t.freePages == [] && t.blockSize == s.blockSize
  {
    LeastClassIs(k, size);
    StockedOk(s, size);
    FirstStockedIs(s.lists, k, j);
  }

  lemma {:induction false} FirstStockedIs(lists: seq<seq<Block>>, k: nat, j: nat)
    requires k <= j < |lists| && lists[j] != [] && (forall i :: k <= i < j ==> lists[i] == [])
    ensures FirstStocked(lists, k) == j
    decreases j - k
  {
    if k < j { FirstStockedIs(lists, k + 1, j); }
  }

  /**
    The block is of the least size that fits, unless no such block is listed and no page is
    free: then it is of the least size that fits and is listed. A page is used up exactly
    when none is listed.
   */
  lemma AllocSizes(s: State, size: nat, k: nat)
    requires Inv(s) && 0 < size <= MAX_BLOCK && LeastClass(k, size) && Alloc(s, size).1.Some?
    ensures var (t, r) := Alloc(s, size);
      && r.value.page < |t.blockSize|
      && (s.lists[k] != [] || s.freePages != [] ==> BlockBytes(t, r.value) == Size(k))
      && (s.lists[k] == [] && s.freePages == [] ==>
            && (exists j: nat :: j < CLASSES && s.lists[j] != [] && BlockBytes(t, r.value) == Size(j) >= size)
            && (forall j: nat :: j < CLASSES && s.lists[j] != [] && Size(j) >= size ==> BlockBytes(t, r.value) <= Size(j)))
      && |t.freePages| == |s.freePages| - (if s.lists[k] == [] && s.freePages != [] then 1 else 0)
  {
    LeastClassIs(k, size);
    StockedOk(s, size);
    AllocSpec(s, size);
    var j := Stocked(s, size).1;
    if s.lists[k] == [] && s.freePages == [] {
      forall i: nat | i < CLASSES && s.lists[i] != [] && Size(i) >= size
        ensures Size(j) <= Size(i)
      {
        if i < k { SizesGrow(i, k); }
        if j < i { SizesGrow(j, i); }
      }
    }
  }

  /** A block whose page keeps live blocks becomes the first of its list. */
  lemma FreeListed(s: State, b: Block, k: nat)
    requires Inv(s) && InClass(s, b.page, k) && b.slot < Cap(k) && b !in s.lists[k]
    requires b.page < |s.numFree| && s.numFree[b.page] + 1 < Cap(k)
    ensures var t := Free(s, b, k);
      && t.lists == s.lists[k := [b] + s.lists[k]] && t.freePages == s.freePages && t.blockSize == s.blockSize
  {
    PutBackOk(s, b, k);
  }

  /** The last live block of a page takes the page's blocks off the list and gives the page back, last. */
  lemma FreeLast(s: State, b: Block, k: nat)
    requires Inv(s) && InClass(s, b.page, k) && b.slot < Cap(k) && b !in s.lists[k]
    requires b.page < |s.numFree| && s.numFree[b.page] + 1 == Cap(k)
    ensures var t := Free(s, b, k);
      && t.freePages == s.freePages + [b.page] && t.blockSize == s.blockSize[b.page := 0]
      && t.lists == s.lists[k := Drop([b] + s.lists[k], BlockSet(b.page, Cap(k)))]
  {
    PutBackOk(s, b, k);
  }

  /** Every page in use holds a live block. */
  lemma InUseHasLive(s: State, p: nat) returns (x: Block)
    requires Inv(s) && p < |s.blockSize| && s.blockSize[p] != 0
    ensures Live(s, x) && x.page == p
  {
    var k: nat :| InClass(s, p, k);
    assert CountOk(s, p, k);
    FullPage(s.lists[k], p, Cap(k));
    var i: nat :| i < Cap(k) && Block(p, i) !in s.lists[k];
    x := Block(p, i);
    assert InClass(s, x.page, k);
  }

  /** The page of a freed block is given back exactly when it was the page's only live block. */
  lemma PageReturnedIff(s: State, b: Block, k: nat)
    requires Inv(s) && InClass(s, b.page, k) && b.slot < Cap(k) && b !in s.lists[k]
    ensures b.page in Free(s, b, k).freePages <==> (forall x :: Live(s, x) && x.page == b.page ==> x == b)
  {
    FreeSpec(s, b, k);
    var t := Free(s, b, k);
    if b.page in t.freePages {
      forall x | Live(s, x) && x.page == b.page
        ensures x == b
      {
        assert x != b ==> Live(t, x);
      }
    } else {
      assert b.page < |t.blockSize| && t.blockSize[b.page] != 0;
      var x := InUseHasLive(t, b.page);
      assert Live(s, x) && x != b;
    }
  }

  // ---------- Runs ----------

  datatype Op = Allocate(size: nat) | Release(b: Block, k: nat)

  ghost predicate Allowed(s: State, op: Op)
    requires Inv(s)
  {
    match op
    case Allocate(size) => 0 < size <= MAX_BLOCK
    case Release(b, k) => InClass(s, b.page, k) && b.slot < Cap(k) && b !in s.lists[k]
  }

  ghost function Apply(s: State, op: Op): (t: State)
    requires Inv(s) && Allowed(s, op)
    ensures Inv(t)
  {
    match op
    case Allocate(size) => AllocSpec(s, size); Alloc(s, size).0
    case Release(b, k) => FreeSpec(s, b, k); Free(s, b, k)
  }

  ghost predicate Legal(s: State, ops: seq<Op>)
    requires Inv(s)
    decreases |ops|
  {
    ops == [] || (Allowed(s, ops[0]) && Legal(Apply(s, ops[0]), ops[1..]))
  }

  ghost function Exec(s: State, ops: seq<Op>): (t: State)
    requires Inv(s) && Legal(s, ops)
    ensures Inv(t)
    decreases |ops|
  {
    if ops == [] then s else Exec(Apply(s, ops[0]), ops[1..])
  }

  lemma InitInv(s: State, pages: nat)
    requires Init(s, pages)
    ensures Inv(s)
  {
    forall p: nat
      ensures p in s.freePages <==> p < pages
    {
      if p < pages { assert s.freePages[p] == p; }
    }
  }

  /** What was asked for at each live block, after one operation. */
  ghost function AskedNext(s: State, asked: map<Block, nat>, op: Op): map<Block, nat>
    requires Inv(s) && Allowed(s, op)
  {
    match op
    case Allocate(size) => if Alloc(s, size).1.Some? then asked[Alloc(s, size).1.value := size] else asked
    case Release(b, k) => asked - {b}
  }

  /** What was asked for at each live block, after a run. */
  ghost function Asked(s: State, asked: map<Block, nat>, ops: seq<Op>): map<Block, nat>
    requires Inv(s) && Legal(s, ops)
    decreases |ops|
  {
    if ops == [] then asked else Asked(Apply(s, ops[0]), AskedNext(s, asked, ops[0]), ops[1..])
  }

  /** The live blocks are the ones asked for and not given back, each large enough. */
  ghost predicate Served(s: State, asked: map<Block, nat>) {
    && (forall b :: b in asked <==> Live(s, b))
    && (forall b :: b in asked ==> b.page < |s.blockSize| && BlockBytes(s, b) >= asked[b])
  }

  lemma StepServed(s: State, asked: map<Block, nat>, op: Op)
    requires Inv(s) && Allowed(s, op) && Served(s, asked)
    ensures Served(Apply(s, op), AskedNext(s, asked, op))
  {
    match op
    case Allocate(size) => AllocSpec(s, size);
    case Release(b, k) => FreeSpec(s, b, k);
  }

  lemma {:induction false} RunServed(s: State, asked: map<Block, nat>, ops: seq<Op>)
    requires Inv(s) && Legal(s, ops) && Served(s, asked)
    ensures Served(Exec(s, ops), Asked(s, asked, ops))
    decreases |ops|
  {
    if ops != [] {
      StepServed(s, asked, ops[0]);
      RunServed(Apply(s, ops[0]), AskedNext(s, asked, ops[0]), ops[1..]);
    }
  }

  /** The start of every run. */
  ghost function Fresh(pages: nat): (s: State)
    ensures Init(s, pages) && Inv(s)
  {
    var s := State(seq(pages, _ => 0), seq(pages, _ => 0), seq(pages, i => i), seq(CLASSES, _ => []));
    InitInv(s, pages);
    s
  }

  /**
    Every run from the initial state: the live blocks are those asked for and not given
    back, each aligned and at least as large as asked, any two of them disjoint; and when
    the run has freed everything it allocated, every page is in the list of free pages.
   */
  lemma EveryRun(pages: nat, ops: seq<Op>, a: Block, b: Block)
    requires Legal(Fresh(pages), ops)
    ensures var t, asked := Exec(Fresh(pages), ops), Asked(Fresh(pages), map[], ops);
      && (Live(t, a) <==> a in asked)
      && (Live(t, a) ==>
            a.page < |t.blockSize| && BlockBytes(t, a) >= asked[a]
            && exists m: nat :: Address(t, a) == m * BlockBytes(t, a))
      && (Live(t, a) && Live(t, b) && a != b ==>
            a.page < |t.blockSize| && b.page < |t.blockSize| &&
            (Address(t, a) + BlockBytes(t, a) <= Address(t, b) || Address(t, b) + BlockBytes(t, b) <= Address(t, a)))
      && ((forall x :: !Live(t, x)) ==> forall p: nat :: p in t.freePages <==> p < |t.blockSize|)
  {
    var s := Fresh(pages);
    var t := Exec(s, ops);
    assert Served(s, map[]);
    RunServed(s, map[], ops);
    if Live(t, a) { LiveBlockPlace(t, a); }
    if Live(t, a) && Live(t, b) && a != b { LiveBlocksDisjoint(t, a, b); }
    if forall x :: !Live(t, x) { NothingLiveAllFree(t); }
  }
}
