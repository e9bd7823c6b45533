/**
  Frame accounting over whole runs: from the state initialize_paging leaves, through
  any sequence of allocations, mappings and unmappings, with frames in flight.
 */
module FrameRuns {
  import opened SeqUtil
  import opened Frames

  const FIRST_FREE: nat := 3            // frame 0, the zero page and the temporary page are pinned
  const IO_FRAME: nat := 0xA0           // PHYS_IO_MEM / PAGE_SIZE
  const EXTENDED_FRAME: nat := 0x100    // PHYS_EXTENDED_MEM / PAGE_SIZE

  // ---------- Boot ----------

  /** Frames pinned at boot: the first three, the I/O hole, and the kernel up to kernelEnd. */
  predicate Pinned(f: nat, kernelEnd: nat) { f < FIRST_FREE || IO_FRAME <= f < kernelEnd }

  ghost function Reserved(kernelEnd: nat): set<nat> { set f: nat | 0 <= f < kernelEnd && Pinned(f, kernelEnd) }

  /** hi - 1, .., lo: a range inserted at the head in ascending order. */
  function DownTo(hi: nat, lo: nat): (q: seq<nat>)
    requires lo <= hi
    ensures |q| == hi - lo && (forall i :: 0 <= i < |q| ==> q[i] == hi - 1 - i)
  {
    seq(hi - lo, i requires 0 <= i < hi - lo => hi - 1 - i)
  }

  lemma DownToMembers(hi: nat, lo: nat, f: nat)
    requires lo <= hi
    ensures f in DownTo(hi, lo) <==> lo <= f < hi
  {
    if lo <= f < hi { assert DownTo(hi, lo)[hi - 1 - f] == f; }
  }

  lemma DownToNext(hi: nat, lo: nat)
    requires lo <= hi
    ensures [hi] + DownTo(hi, lo) == DownTo(hi + 1, lo)
  {}

  /** initialize_paging over n frames; the tables of the given pages exist and are empty. */
  function Boot(n: nat, kernelEnd: nat, pages: set<Loc>): State
    requires EXTENDED_FRAME <= kernelEnd <= n
  {
    State(seq(n, i requires 0 <= i => if Pinned(i, kernelEnd) then 1 else 0),
          seq(n, _ => 0),
          DownTo(n, kernelEnd) + DownTo(IO_FRAME, FIRST_FREE),
          map l | l in pages :: NoEntry)
  }

  lemma BootFree(n: nat, kernelEnd: nat)
    requires EXTENDED_FRAME <= kernelEnd <= n
    ensures var q := DownTo(n, kernelEnd) + DownTo(IO_FRAME, FIRST_FREE);
      NoDup(q) && (forall f: nat :: f in q <==> f < n && !Pinned(f, kernelEnd))
  {
    var a, b := DownTo(n, kernelEnd), DownTo(IO_FRAME, FIRST_FREE);
    forall f: nat
      ensures f in a + b <==> f < n && !Pinned(f, kernelEnd)
    {
      DownToMembers(n, kernelEnd, f);
      DownToMembers(IO_FRAME, FIRST_FREE, f);
      assert f in a + b <==> f in a || f in b;
    }
  }

  /** At boot every frame is pinned or free, and no entry names one. */
  lemma BootAccounts(n: nat, kernelEnd: nat, pages: set<Loc>)
    requires EXTENDED_FRAME <= kernelEnd <= n
    ensures Accounts(Boot(n, kernelEnd, pages), Reserved(kernelEnd), {})
  {
    var s := Boot(n, kernelEnd, pages);
    BootFree(n, kernelEnd);
    forall f: nat | f < |s.refs|
      ensures FrameOk(s, Reserved(kernelEnd), {}, f)
    {
      assert Users(s.pte, f) == {};
    }
  }

  /** Pinned are the first three frames, the addresses from 640 KB to 1 MB, and the kernel behind them. */
  lemma PinnedAddresses(f: nat, kernelEnd: nat)
    requires EXTENDED_FRAME <= kernelEnd
    ensures Pinned(f, kernelEnd) <==>
      f * 4096 < 3 * 4096 || 640 * 1024 <= f * 4096 < 1024 * 1024 || 1024 * 1024 <= f * 4096 < kernelEnd * 4096
  {}

  // ---------- Events ----------

  datatype Event =
    | Allocate                                              // allocate_frame
    | Release(f: nat)                                       // free_frame of a frame that was never mapped
    | MapAt(l: Loc, f: nat, writable: bool, user: bool)     // map_frame
    | UnmapAt(l: Loc)                                       // unmap_frame
    | SetPresent(l: Loc, present: bool)                     // pt_set_page_permissions with PERM_PRESENT
    | Cover(pages: set<Loc>)                                // a new, cleared page table

  /** A state and the frames handed out and not mapped yet. */
  datatype Ledger = Ledger(s: State, flight: set<nat>)

  ghost predicate Ok(y: Ledger, reserved: set<nat>) { Accounts(y.s, reserved, y.flight) }

  /** What the caller of each routine must respect, and no more. */
  ghost predicate Enabled(y: Ledger, reserved: set<nat>, e: Event) {
    match e
    case Allocate => y.s.free != []
    case Release(f) => f in y.flight
    case MapAt(l, f, _, _) =>
      && l in y.s.pte && (HoldsFrame(y.s.pte[l]) ==> y.s.pte[l].present)
      && f < |y.s.refs| && f !in reserved && f !in y.s.free
      && (Names(y.s.pte[l], f) || y.s.refs[f] + 1 < U16)
    case UnmapAt(l) => true
    case SetPresent(l, _) => l in y.s.pte && y.s.pte[l].frame != 0
    case Cover(pages) => true
  }

  ghost function Next(y: Ledger, reserved: set<nat>, e: Event): Ledger
    requires Ok(y, reserved) && Enabled(y, reserved, e)
  {
    match e
    case Allocate =>
      AllocateKeepsAccounts(y.s, reserved, y.flight);
      Ledger(AllocateFrame(y.s), y.flight + {y.s.free[0]})
    case Release(f) => Ledger(FreeFrame(y.s, f), y.flight - {f})
    case MapAt(l, f, w, u) => Ledger(Map(y.s, l, f, w, u), if Names(y.s.pte[l], f) then y.flight else y.flight - {f})
    case UnmapAt(l) => if l in y.s.pte then y.(s := Unmap(y.s, l)) else y
    case SetPresent(l, b) => y.(s := y.s.(pte := y.s.pte[l := y.s.pte[l].(present := b)]))
    case Cover(pages) => y.(s := AddTable(y.s, pages))
  }

  // ---------- Every event keeps the accounts ----------

  /** Giving back a frame that was never mapped. */
  lemma ReleaseOk(s: State, reserved: set<nat>, flight: set<nat>, f: nat)
    requires Accounts(s, reserved, flight) && f in flight
    ensures Accounts(FreeFrame(s, f), reserved, flight - {f})
  {
    var t := FreeFrame(s, f);
    assert FrameOk(s, reserved, flight, f);
    ConsNoDup(f, s.free);
    forall g: nat | g < |t.refs|
      ensures FrameOk(t, reserved, flight - {f}, g)
    {
      assert FrameOk(s, reserved, flight, g);
    }
  }

  lemma MapOk(s: State, reserved: set<nat>, flight: set<nat>, l: Loc, f: nat, w: bool, u: bool)
    requires Accounts(s, reserved, flight) && Enabled(Ledger(s, flight), reserved, MapAt(l, f, w, u))
    ensures Accounts(Map(s, l, f, w, u), reserved, if Names(s.pte[l], f) then flight else flight - {f})
  {
    if !Names(s.pte[l], f) { MapKeepsAccounts(s, reserved, flight, l, f, w, u); }
  }

  lemma NextOk(y: Ledger, reserved: set<nat>, e: Event)
    requires Ok(y, reserved) && Enabled(y, reserved, e)
    ensures Ok(Next(y, reserved, e), reserved)
  {
    match e
    case Allocate => AllocateKeepsAccounts(y.s, reserved, y.flight);
    case Release(f) => ReleaseOk(y.s, reserved, y.flight, f);
    case MapAt(l, f, w, u) => MapOk(y.s, reserved, y.flight, l, f, w, u);
    case UnmapAt(l) => if l in y.s.pte { UnmapKeepsAccounts(y.s, reserved, y.flight, l); }
    case SetPresent(l, b) =>
      assert Plain(y.s.pte[l]);
      FlagKeepsAccounts(y.s, reserved, y.flight, l, y.s.pte[l].(present := b));
    case Cover(pages) => AddTableKeepsAccounts(y.s, reserved, y.flight, pages);
  }

  // ---------- Runs ----------

  ghost predicate Legal(y: Ledger, reserved: set<nat>, es: seq<Event>)
    requires Ok(y, reserved)
    decreases |es|
  {
    es == [] || (Enabled(y, reserved, es[0]) &&
                 (NextOk(y, reserved, es[0]); Legal(Next(y, reserved, es[0]), reserved, es[1..])))
  }

  ghost function Exec(y: Ledger, reserved: set<nat>, es: seq<Event>): (z: Ledger)
    requires Ok(y, reserved) && Legal(y, reserved, es)
    ensures Ok(z, reserved)
    decreases |es|
  {
    if es == [] then y
    else NextOk(y, reserved, es[0]); Exec(Next(y, reserved, es[0]), reserved, es[1..])
  }

  /** The start of every run: nothing is in flight. */
  ghost function Booted(n: nat, kernelEnd: nat, pages: set<Loc>): (y: Ledger)
    requires EXTENDED_FRAME <= kernelEnd <= n
    ensures Ok(y, Reserved(kernelEnd))
  {
    BootAccounts(n, kernelEnd, pages);
    Ledger(Boot(n, kernelEnd, pages), {})
  }

  lemma {:induction false} RunKeepsFrames(y: Ledger, reserved: set<nat>, es: seq<Event>)
    requires Ok(y, reserved) && Legal(y, reserved, es)
    ensures |Exec(y, reserved, es).s.refs| == |y.s.refs|
    decreases |es|
  {
    if es != [] {
      NextOk(y, reserved, es[0]);
      NextKeepsFrames(y, reserved, es[0]);
      RunKeepsFrames(Next(y, reserved, es[0]), reserved, es[1..]);
    }
  }

  lemma NextKeepsFrames(y: Ledger, reserved: set<nat>, e: Event)
    requires Ok(y, reserved) && Enabled(y, reserved, e)
    ensures |Next(y, reserved, e).s.refs| == |y.s.refs|
  {
    match e
    case MapAt(l, f, w, u) =>
      UnmapEffect(y.s, reserved, y.flight, l);
      assert |Map(y.s, l, f, w, u).refs| == |y.s.refs|;
    case UnmapAt(l) => if l in y.s.pte { UnmapEffect(y.s, reserved, y.flight, l); }
    case Allocate => AllocateKeepsAccounts(y.s, reserved, y.flight);
    case Release(f) => assert f < |y.s.refs|;
    case SetPresent(_, _) =>
    case Cover(_) =>
  }

  /**
    After every run from boot: a frame that is neither pinned nor in flight has as many
    references as entries name it, a free frame has none, and free, mapped, in-flight and
    pinned frames total the number of frames.
   */
  lemma EveryRun(n: nat, kernelEnd: nat, pages: set<Loc>, es: seq<Event>, f: nat)
    requires EXTENDED_FRAME <= kernelEnd <= n && f < n
    requires Legal(Booted(n, kernelEnd, pages), Reserved(kernelEnd), es)
    ensures var z := Exec(Booted(n, kernelEnd, pages), Reserved(kernelEnd), es);
      && |z.s.refs| == n
      && z.s.refs[f] == |Users(z.s.pte, f)| + (if f in Reserved(kernelEnd) then 1 else 0)
      && (f in z.s.free ==> Users(z.s.pte, f) == {} && f !in z.flight && f !in Reserved(kernelEnd))
      && |z.s.free| + |MappedFrames(z.s)| + |z.flight| + |Reserved(kernelEnd)| == n
  {
    var reserved := Reserved(kernelEnd);
    var y := Booted(n, kernelEnd, pages);
    var z := Exec(y, reserved, es);
    RunKeepsFrames(y, reserved, es);
    FramesConserved(z.s, reserved, z.flight);
    assert FrameOk(z.s, reserved, z.flight, f);
  }
}
