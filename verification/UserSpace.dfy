/**
  free_user_mem and env_page_ws_invalidate on the lists and tables of a process.
 */
module UserSpace {
  import opened SeqUtil
  import F = Frames
  import opened MemoryManager
  import opened UserMemory

  /** A LIST_FOREACH search for the element of a page */
  method Find(q: seq<nat>, page: nat) returns (found: bool)
    ensures found <==> page in q
  {
    for i := 0 to |q|
      invariant page !in q[..i]
    {
      if q[i] == page {
        return true;
      }
    }
    found := false;
  }

  class Process {
    const mm: FrameTable
    const space: nat
    const lists: bool
    ghost const reserved: set<nat>
    var ws: seq<nat>
    var cursor: Option<nat>
    var active: seq<nat>
    var second: seq<nat>
    var file: set<nat>

    ghost function Abs(): Proc
      reads this, mm
    {
      Proc(mm.Abs(), ws, cursor, active, second, file)
    }

    ghost predicate Valid()
      reads this, mm
    {
      Inv(Abs(), space, reserved, lists)
    }

    /** A process with nothing in its working set or in the page file. */
    constructor (mm: FrameTable, space: nat, lists: bool, ghost reserved: set<nat>)
      requires F.Accounts(mm.Abs(), reserved, {})
      ensures Valid() && Abs() == Proc(mm.Abs(), [], None, [], [], {})
    {
      this.mm, this.space, this.lists, this.reserved := mm, space, lists, reserved;
      ws, cursor, active, second, file := [], None, [], [], {};
    }

    /** Unmap a page of this process that has a table */
    method UnmapPage(page: nat)
      requires Valid() && F.Loc(space, page) in mm.pte
      modifies mm
      ensures mm.Abs() == F.Unmap(old(mm.Abs()), F.Loc(space, page))
    {
      ghost var l := F.Loc(space, page);
      if F.HoldsFrame(mm.pte[F.Loc(space, page)]) {
        F.MappedFrame(mm.Abs(), reserved, {}, l);
      }
      mm.UnmapFrame(F.Loc(space, page));
    }

    /** env_page_ws_invalidate, Active and Second lists */
    method InvalidateInLists(page: nat)
      requires Valid() && lists && F.Loc(space, page) in mm.pte
      modifies this, mm
      ensures Abs() == InvalidateLists(old(Abs()), space, reserved, page)
    {
      var found := Find(active, page);
      if found {
        var refill := if |second| > 0 then Some(second[0]) else None;
        UnmapPage(page);
        active := Drop(active, {page});
        if refill.Some? {
          assert refill.value in second;
          second := second[1..];
          active := active + [refill.value];
          var m := F.Loc(space, refill.value);
          mm.pte := mm.pte[m := mm.pte[m].(present := true)];
        }
      } else {
        found := Find(second, page);
        if found {
          UnmapPage(page);
          second := Drop(second, {page});
        }
      }
    }

    /** env_page_ws_invalidate, single list */
    method InvalidateInWs(page: nat)
      requires Valid() && !lists && F.Loc(space, page) in mm.pte
      modifies this, mm
      ensures Abs() == InvalidateWs(old(Abs()), space, reserved, page)
    {
      var found := Find(ws, page);
      if found {
        UnmapPage(page);
        if cursor == Some(page) {
          cursor := NextIn(ws, page);
        }
        ws := Drop(ws, {page});
      }
    }

    /** The body of the loop in free_user_mem */
    method FreeOne(page: nat)
      requires Valid() && F.Loc(space, page) in mm.pte
      modifies this, mm
      ensures Valid() && Abs() == FreePage(old(Abs()), space, reserved, lists, page)
      ensures mm.pte.Keys == old(mm.pte).Keys && Freed(old(Abs()), Abs(), space, reserved, lists, page, 1)
    {
      ghost var p := Abs();
      var l := F.Loc(space, page);
      UnmarkOk(p, space, reserved, lists, page);
      FreePageOk(p, space, reserved, lists, page);
      mm.pte := mm.pte[l := mm.pte[l].(uheap := false)];
      file := file - {page};
      ghost var p1 := Abs();
      assert p1 == p.(s := Unmark(p.s, l), file := p.file - {page});
      InvalidateOk(p1, space, reserved, lists, page);
      if lists {
        InvalidateInLists(page);
      } else {
        InvalidateInWs(page);
      }
      UnmapPage(page);
    }

    /** One turn of the loop */
    method FreeNext(first: nat, ghost ps: seq<Proc>, i: nat) returns (ghost ps': seq<Proc>)
      requires Valid() && F.Loc(space, first + i) in mm.pte
      requires |ps| == i + 1 && ps[i] == Abs() && Chain(ps, space, reserved, lists, first)
      modifies this, mm
      ensures Valid() && mm.pte.Keys == old(mm.pte).Keys
      ensures |ps'| == i + 2 && ps'[0] == ps[0] && ps'[i + 1] == Abs() && Chain(ps', space, reserved, lists, first)
    {
      FreeOne(first + i);
      ChainMore(ps, Abs(), space, reserved, lists, first);
      ps' := ps + [Abs()];
    }

    /** The loop of free_user_mem over n pages; i of them are freed when it stops. */
    method FreePages(first: nat, n: nat) returns (i: nat, ghost ps: seq<Proc>)
      requires Valid()
      modifies this, mm
      ensures i <= n && HasTables(old(mm.pte).Keys, space, first, i)
      ensures i < n ==> F.Loc(space, first + i) !in old(mm.pte)
      ensures |ps| == i + 1 && ps[0] == old(Abs()) && ps[i] == Abs() && Chain(ps, space, reserved, lists, first)
    {
      ghost var keys := mm.pte.Keys;
      i, ps := 0, [Abs()];
      while i < n
        invariant i <= n && Valid() && mm.pte.Keys == keys && HasTables(keys, space, first, i)
        invariant |ps| == i + 1 && ps[0] == old(Abs()) && ps[i] == Abs() && Chain(ps, space, reserved, lists, first)
      {
        if F.Loc(space, first + i) !in mm.pte { return; }
        OneMoreTable(keys, space, first, i);
        ps := FreeNext(first, ps, i);
        i := i + 1;
      }
    }

    /** The whole loop, from a valid process */
    method FreeRange(first: nat, n: nat) returns (halted: bool)
      requires Valid()
      modifies this, mm
      ensures halted <==> !HasTables(old(mm.pte).Keys, space, first, n)
      ensures !halted ==> Freed(old(Abs()), Abs(), space, reserved, lists, first, n)
      ensures !halted ==> CountsDropped(old(mm.Abs()), mm.Abs(), space, first, n)
    {
      var i;
      ghost var ps;
      i, ps := FreePages(first, n);
      halted := i < n;
      if !halted {
        ChainFreed(ps, ps[0], ps[n], space, reserved, lists, first, n);
        FreedAllCounts(ps[0], ps[n], space, reserved, lists, first, n);
      }
    }

    /**
      free_user_mem. It halts, inside pt_set_page_permissions, exactly when some page of
      the range has no page table.
     */
    method FreeUserMem(va: nat, size: nat) returns (halted: bool)
      requires Valid() && va + size + PAGE_SIZE <= 0x1_0000_0000
      modifies this, mm
      ensures var first, end := va / PAGE_SIZE, (va + size + PAGE_SIZE - 1) / PAGE_SIZE;
        && (halted <==> !HasTables(old(mm.pte).Keys, space, first, end - first))
        && (!halted ==> Freed(old(Abs()), Abs(), space, reserved, lists, first, end - first))
        && (!halted ==> CountsDropped(old(mm.Abs()), mm.Abs(), space, first, end - first))
    {
      var first, end := va / PAGE_SIZE, (va + size + PAGE_SIZE - 1) / PAGE_SIZE;
      halted := FreeRange(first, end - first);
    }
  }
}
