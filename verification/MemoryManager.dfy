/**
  kern/mem/memory_manager.c on its own arrays and tables: each routine leaves the
  state that Frames describes.
 */
module MemoryManager {
  import opened SeqUtil
  import F = Frames
  import R = FrameRuns

  class FrameTable {
    var refs: seq<nat>
    var va: seq<nat>
    var free: seq<nat>
    var pte: map<F.Loc, F.Pte>

    ghost function Abs(): F.State
      reads this
    {
      F.State(refs, va, free, pte)
    }

    /** initialize_paging; the tables of the given pages exist and are empty */
    constructor (n: nat, kernelEnd: nat, pages: set<F.Loc>)
      requires R.EXTENDED_FRAME <= kernelEnd <= n
      ensures Abs() == R.Boot(n, kernelEnd, pages)
    {
      refs := seq(n, _ => 0)[0 := 1][1 := 1][2 := 1];
      va := seq(n, _ => 0);
      free := [];
      pte := map l | l in pages :: F.NoEntry;
      new;
      ListFrames(R.FIRST_FREE, R.IO_FRAME);
      PinFrames(R.IO_FRAME, R.EXTENDED_FRAME);
      PinFrames(R.EXTENDED_FRAME, kernelEnd);
      ListFrames(kernelEnd, n);
      assert free == R.DownTo(n, kernelEnd) + R.DownTo(R.IO_FRAME, R.FIRST_FREE);
      assert refs == R.Boot(n, kernelEnd, pages).refs;
    }

    /** The loops of initialize_paging over a range of free frames */
    method ListFrames(lo: nat, hi: nat)
      requires lo <= hi
      modifies this`free
      ensures free == R.DownTo(hi, lo) + old(free)
    {
      for i: nat := lo to hi
        invariant free == R.DownTo(i, lo) + old(free)
      {
        R.DownToNext(i, lo);
        free := [i] + free;
      }
    }

    /** Its loops over a range of frames in use */
    method PinFrames(lo: nat, hi: nat)
      requires lo <= hi <= |refs|
      modifies this`refs
      ensures |refs| == |old(refs)|
      ensures forall k :: 0 <= k < |refs| ==> refs[k] == if lo <= k < hi then 1 else old(refs)[k]
    {
      for i: nat := lo to hi
        invariant |refs| == |old(refs)|
        invariant forall k :: 0 <= k < |refs| ==> refs[k] == if lo <= k < i then 1 else old(refs)[k]
      {
        refs := refs[i := 1];
      }
    }

    /** allocate_frame; None stands for the panic when no frame is left */
    method AllocateFrame() returns (f: Option<nat>)
      requires F.Sized(Abs())
      modifies this
      ensures f.None? <==> old(free) == []
      ensures f.None? ==> Abs() == old(Abs())
      ensures f.Some? ==> f.value == old(free[0]) < |old(refs)| && Abs() == F.AllocateFrame(old(Abs()))
    {
      if |free| == 0 {
        return None;
      }
      var first := free[0];
      assert first in free;
      free := free[1..];
      refs := refs[first := 0];
      va := va[first := 0];
      f := Some(first);
    }

    /** free_frame */
    method FreeFrame(f: nat)
      requires f < |refs| == |va|
      modifies this
      ensures Abs() == F.FreeFrame(old(Abs()), f)
    {
      refs := refs[f := 0];
      va := va[f := 0];
      free := [f] + free;
    }

    /** decrement_references */
    method DecrementReferences(f: nat)
      requires f < |refs| == |va| && refs[f] < F.U16
      modifies this
      ensures Abs() == F.Decrement(old(Abs()), f)
    {
      refs := refs[f := if refs[f] == 0 then F.U16 - 1 else refs[f] - 1];
      if refs[f] == 0 {
        FreeFrame(f);
      }
    }

    /** unmap_frame; a page without a table is left alone */
    method UnmapFrame(l: F.Loc)
      requires F.Sized(Abs())
      requires l in pte && F.HoldsFrame(pte[l]) ==> refs[pte[l].frame] < F.U16
      modifies this
      ensures Abs() == if l in old(pte) then F.Unmap(old(Abs()), l) else old(Abs())
    {
      if l in pte && F.HoldsFrame(pte[l]) {
        var e := pte[l];
        DecrementReferences(e.frame);
        va := va[e.frame := 0];
        pte := pte[l := F.Available(e)];
      }
    }

    /** create_page_table, on the heap page that kmalloc answers; false stands for the panic without a frame */
    method CreatePageTable(l: F.Loc, heapPage: nat) returns (ok: bool)
      requires F.Sized(Abs()) && F.Loc(0, heapPage) in pte && !F.HoldsFrame(pte[F.Loc(0, heapPage)])
      modifies this
      ensures ok <==> old(free) != []
      ensures !ok ==> Abs() == old(Abs())
      ensures ok ==> old(free[0]) < |old(refs)| && Abs() == F.CreateTableFor(old(Abs()), l, heapPage)
    {
      var f := AllocateFrame();
      if f.None? {
        return false;
      }
      refs := refs[f.value := 1];
      va := va[f.value := heapPage];
      pte := pte[F.Loc(0, heapPage) := F.Available(pte[F.Loc(0, heapPage)]).(frame := f.value, present := true, writable := true)];
      pte := (map x | x in F.TablePages(l) :: F.NoEntry) + pte;
      ok := true;
    }

    /** map_frame: a missing table is created first, on the heap page that kmalloc answers */
    method MapFrame(l: F.Loc, f: nat, writable: bool, user: bool, heapPage: nat, ghost reserved: set<nat>, ghost flight: set<nat>)
      returns (ok: bool)
      requires F.Accounts(Abs(), reserved, flight) && f < |refs| && f !in reserved && f !in free && refs[f] + 1 < F.U16
      requires l in pte && F.HoldsFrame(pte[l]) ==> pte[l].present
      requires l !in pte ==> F.Loc(0, heapPage) in pte && !F.HoldsFrame(pte[F.Loc(0, heapPage)])
      modifies this
      ensures ok <==> l in old(pte) || old(free) != []
      ensures !ok ==> Abs() == old(Abs())
      ensures ok && l in old(pte) ==> Abs() == F.Map(old(Abs()), l, f, writable, user)
      ensures ok && l !in old(pte) ==>
        && old(free[0]) < |old(refs)|
        && (var t := F.CreateTableFor(old(Abs()), l, heapPage);
            && l in t.pte && f < |t.refs| == |t.va| && !t.pte[l].present
            && Abs() == F.Map(t, l, f, writable, user))
      ensures ok ==> F.Accounts(Abs(), reserved, if l in old(pte) && F.Names(old(pte)[l], f) then flight else flight - {f})
    {
      ok := true;
      if l !in pte {
        if |free| > 0 {
          F.CreateTableForOk(Abs(), reserved, flight, l, heapPage);
          F.CreateTableForEffect(Abs(), l, heapPage);
          assert f != free[0];
        }
        ok := CreatePageTable(l, heapPage);
        if !ok { return; }
      }
      F.MapKeepsAccounts(Abs(), reserved, flight, l, f, writable, user);
      if F.HoldsFrame(pte[l]) { F.MappedFrame(Abs(), reserved, flight, l); }
      InstallFrame(l, f, writable, user);
    }

    /** The part of map_frame that finds its table */
    method InstallFrame(l: F.Loc, f: nat, writable: bool, user: bool)
      requires F.Sized(Abs()) && l in pte && f < |refs| && refs[f] < F.U16
      requires F.HoldsFrame(pte[l]) ==> refs[pte[l].frame] < F.U16
      modifies this
      ensures Abs() == F.Map(old(Abs()), l, f, writable, user)
    {
      if pte[l].present {
        if pte[l].frame == f {
          return;
        }
        UnmapFrame(l);
      }
      refs := refs[f := if refs[f] + 1 == F.U16 then 0 else refs[f] + 1];
      va := va[f := l.page];
      pte := pte[l := F.Available(pte[l]).(frame := f, present := true, writable := writable, user := user)];
    }
  }
}
