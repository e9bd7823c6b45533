/**
  Physical frames, their reference counts and the page-table entries that name
  them: allocate_frame, free_frame, map_frame and unmap_frame, and the va field
  that lets the kernel heap go from a physical to a virtual address in one step.
 */
module Frames {
  import opened SeqUtil

  const PAGE_SIZE: nat := 4096
  const ENTRIES: nat := 1024
  const U16: nat := 0x1_0000

  /**
    A page-table entry. `buffered`, `uheap` and `spare` are the software-available
    bits PERM_BUFFERED, PERM_UHPAGE and 0x800.
   */
  datatype Pte = Pte(frame: nat, present: bool, writable: bool, user: bool,
                     buffered: bool, uheap: bool, spare: bool)

  const NoEntry := Pte(0, false, false, false, false, false, false)

  /** What get_frame_info takes for an entry with a frame behind it. */
  predicate HoldsFrame(e: Pte) { e.frame != 0 || e.present || e.buffered }

  /** The entry with only its available bits. */
  function Available(e: Pte): Pte { NoEntry.(buffered := e.buffered, uheap := e.uheap, spare := e.spare) }

  /** A page of an address space. Space 0 is the kernel's. */
  datatype Loc = Loc(space: nat, page: nat)

  datatype State = State(
    refs: seq<nat>,            // FrameInfo.references, 16 bits
    va: seq<nat>,              // FrameInfo.va in pages, 0 when unset
    free: seq<nat>,            // free_frame_list
    pte: map<Loc, Pte>)        // entries of the existing page tables

  // ---------- Operations ----------

  /** allocate_frame: the first free frame, with its FrameInfo cleared */
  function AllocateFrame(s: State): State
    requires s.free != [] && s.free[0] < |s.refs| == |s.va|
  {
    s.(free := s.free[1..], refs := s.refs[s.free[0] := 0], va := s.va[s.free[0] := 0])
  }

  /** free_frame */
  function FreeFrame(s: State, f: nat): State
    requires f < |s.refs| == |s.va|
  {
    s.(free := [f] + s.free, refs := s.refs[f := 0], va := s.va[f := 0])
  }

  /** decrement_references, in 16-bit arithmetic */
  function Decrement(s: State, f: nat): State
    requires f < |s.refs| == |s.va|
  {
    var r := (s.refs[f] + U16 - 1) % U16;
    if r == 0 then FreeFrame(s, f) else s.(refs := s.refs[f := r])
  }

  /** unmap_frame of a page whose table exists */
  function Unmap(s: State, l: Loc): State
    requires l in s.pte && |s.refs| == |s.va| && (HoldsFrame(s.pte[l]) ==> s.pte[l].frame < |s.refs|)
  {
    var e := s.pte[l];
    if !HoldsFrame(e) then s
    else
      var t := Decrement(s, e.frame);
      t.(va := t.va[e.frame := 0], pte := t.pte[l := Available(e)])
  }

  /** map_frame into an existing table */
  function Map(s: State, l: Loc, f: nat, writable: bool, user: bool): State
    requires l in s.pte && f < |s.refs| == |s.va| && (s.pte[l].present ==> s.pte[l].frame < |s.refs|)
  {
    var e := s.pte[l];
    if e.present && e.frame == f then s
    else
      var t := if e.present then Unmap(s, l) else s;
      var bits := Available(t.pte[l]);
      t.(refs := t.refs[f := (t.refs[f] + 1) % U16],
         va := t.va[f := l.page],
         pte := t.pte[l := bits.(frame := f, present := true, writable := writable, user := user)])
  }

  /** A new, cleared page table covers these pages. */
  function AddTable(s: State, pages: set<Loc>): State {
    s.(pte := (map l | l in pages :: NoEntry) + s.pte)
  }

  /** The pages that the table of l covers. */
  function TablePages(l: Loc): (r: set<Loc>)
    ensures l in r
  {
    var base := l.page / ENTRIES * ENTRIES;
    set p: nat | base <= p < base + ENTRIES :: Loc(l.space, p)
  }

  /** create_page_table: kmalloc maps a fresh frame at a heap page, which then serves as a cleared table */
  function CreateTableFor(s: State, l: Loc, heapPage: nat): State
    requires s.free != [] && s.free[0] < |s.refs| == |s.va|
    requires Loc(0, heapPage) in s.pte && !s.pte[Loc(0, heapPage)].present
  {
    AddTable(Map(AllocateFrame(s), Loc(0, heapPage), s.free[0], true, false), TablePages(l))
  }

  // ---------- Accounting ----------

  /** The entries that name frame f. */
  function Users(pte: map<Loc, Pte>, f: nat): set<Loc> {
    set l | l in pte && HoldsFrame(pte[l]) && pte[l].frame == f
  }

  /** Not buffered, and never present with frame 0: there is a frame behind it iff it names one. */
  predicate Plain(e: Pte) { !e.buffered && (e.present ==> e.frame != 0) }

  ghost predicate Sized(s: State) {
    && |s.refs| == |s.va| && |s.refs| > 0
    && (forall l :: l in s.pte && HoldsFrame(s.pte[l]) ==> s.pte[l].frame < |s.refs|)
    && NoDup(s.free) && (forall f :: f in s.free ==> f < |s.refs|)
  }

  /**
    `reserved` are the frames pinned at boot, `flight` those handed out by
    allocate_frame and not mapped yet. Every other frame is free or mapped, and its
    count is the number of entries that name it.
   */
  ghost predicate FrameOk(s: State, reserved: set<nat>, flight: set<nat>, f: nat)
    requires f < |s.refs|
  {
    var users := Users(s.pte, f);
    if f in reserved then f !in flight && f !in s.free && users == {} && s.refs[f] == 1
    else if f in flight then f !in s.free && users == {} && s.refs[f] == 0
    else s.refs[f] == |users| < U16 && (f in s.free <==> users == {})
  }

  ghost predicate Accounts(s: State, reserved: set<nat>, flight: set<nat>) {
    && Sized(s) && 0 in reserved
    && (forall f :: f in reserved || f in flight ==> f < |s.refs|)
    && (forall f: nat :: f < |s.refs| ==> FrameOk(s, reserved, flight, f))
    && (forall l :: l in s.pte ==> Plain(s.pte[l]))
  }

  predicate Names(e: Pte, f: nat) { HoldsFrame(e) && e.frame == f }

  /** Changing one entry changes the users of the two frames it names, before and after. */
  lemma UsersUpdate(pte: map<Loc, Pte>, l: Loc, e: Pte, f: nat)
    requires l in pte
    ensures l in Users(pte, f) <==> Names(pte[l], f)
    ensures Users(pte[l := e], f) == if Names(e, f) then Users(pte, f) + {l} else Users(pte, f) - {l}
  {
    var u, v := Users(pte, f), Users(pte[l := e], f);
    forall x
      ensures x in v <==> if x == l then Names(e, f) else x in u
    {}
  }

  lemma UsersCount(pte: map<Loc, Pte>, l: Loc, e: Pte, f: nat)
    requires l in pte
    ensures |Users(pte[l := e], f)| ==
            |Users(pte, f)| - (if Names(pte[l], f) then 1 else 0) + (if Names(e, f) then 1 else 0)
    ensures !Names(pte[l], f) && !Names(e, f) ==> Users(pte[l := e], f) == Users(pte, f)
  {
    UsersUpdate(pte, l, e, f);
  }

  lemma AllocateKeepsAccounts(s: State, reserved: set<nat>, flight: set<nat>)
    requires Accounts(s, reserved, flight) && s.free != []
    ensures s.free[0] < |s.refs| && Accounts(AllocateFrame(s), reserved, flight + {s.free[0]})
    ensures Users(s.pte, s.free[0]) == {} && s.free[0] !in reserved && s.free[0] !in flight
  {
    var f := s.free[0];
    assert f in s.free && FrameOk(s, reserved, flight, f);
    var t := AllocateFrame(s);
    assert s.free == [f] + t.free;
    assert forall x :: x in t.free ==> x in s.free;
    forall g: nat | g < |t.refs|
      ensures FrameOk(t, reserved, flight + {f}, g)
    {
      assert FrameOk(s, reserved, flight, g);
    }
  }

  /** A frame a page-table entry names is neither reserved, nor in flight, nor free. */
  lemma MappedFrame(s: State, reserved: set<nat>, flight: set<nat>, l: Loc)
    requires Accounts(s, reserved, flight) && l in s.pte && HoldsFrame(s.pte[l])
    ensures var g := s.pte[l].frame;
      g < |s.refs| && g !in reserved && g !in flight && g !in s.free && l in Users(s.pte, g)
      && 1 <= |Users(s.pte, g)| == s.refs[g] < U16
  {
    var g := s.pte[l].frame;
    assert FrameOk(s, reserved, flight, g);
    assert l in Users(s.pte, g);
  }

  lemma UnmapKeepsAccounts(s: State, reserved: set<nat>, flight: set<nat>, l: Loc)
    requires Accounts(s, reserved, flight) && l in s.pte
    ensures Accounts(Unmap(s, l), reserved, flight)
  {
    var e, t := s.pte[l], Unmap(s, l);
    if HoldsFrame(e) {
      MappedFrame(s, reserved, flight, l);
      forall f: nat | f < |t.refs|
        ensures FrameOk(t, reserved, flight, f)
      {
        assert FrameOk(s, reserved, flight, f);
        UsersCount(s.pte, l, Available(e), f);
      }
      ConsNoDup(e.frame, s.free);
    }
  }

  /** What unmap_frame leaves of the entry, and of the counts. */
  lemma UnmapEffect(s: State, reserved: set<nat>, flight: set<nat>, l: Loc)
    requires Accounts(s, reserved, flight) && l in s.pte
    ensures var t := Unmap(s, l);
      && t.pte == (if HoldsFrame(s.pte[l]) then s.pte[l := Available(s.pte[l])] else s.pte)
      && !HoldsFrame(t.pte[l]) && |t.refs| == |s.refs|
      && (forall f: nat :: f < |s.refs| ==> t.refs[f] + (if Names(s.pte[l], f) then 1 else 0) == s.refs[f])
      && (forall f: nat :: f < |s.refs| ==> (f in t.free <==> f in s.free || (Names(s.pte[l], f) && s.refs[f] == 1)))
  {
    if HoldsFrame(s.pte[l]) {
      MappedFrame(s, reserved, flight, l);
    }
  }

  /** The whole of what it leaves: only the available bits of the entry, and a last reference frees the frame, next to be given out. */
  lemma UnmapLeaves(s: State, l: Loc, e: Pte)
    requires Sized(s) && l in s.pte && e == s.pte[l] && HoldsFrame(e) && 0 < s.refs[e.frame] < U16
    ensures var t := Unmap(s, l);
      && t.pte == s.pte[l := Pte(0, false, false, false, e.buffered, e.uheap, e.spare)]
      && t.refs == s.refs[e.frame := (s.refs[e.frame] as int) - 1] && t.va == s.va[e.frame := 0]
      && t.free == (if s.refs[e.frame] == 1 then [e.frame] + s.free else s.free)
  {}

  /** What map_frame leaves at a page that holds no frame: the caller's permissions and the entry's available bits. */
  lemma MapLeaves(s: State, l: Loc, f: nat, w: bool, u: bool, e: Pte)
    requires Sized(s) && l in s.pte && e == s.pte[l] && !e.present && f < |s.refs| && s.refs[f] + 1 < U16
    ensures var t := Map(s, l, f, w, u);
      && t.pte == s.pte[l := Pte(f, true, w, u, e.buffered, e.uheap, e.spare)]
      && t.refs == s.refs[f := s.refs[f] + 1] && t.va == s.va[f := l.page] && t.free == s.free
  {}

  /** Over another frame it is the unmapping and then the mapping; over the same frame, permissions and all, nothing. */
  lemma MapOver(s: State, l: Loc, f: nat, w: bool, u: bool, e: Pte)
    requires Sized(s) && l in s.pte && e == s.pte[l] && e.present && f < |s.refs|
    requires f != e.frame && 0 < s.refs[e.frame] < U16 && s.refs[f] + 1 < U16
    ensures var t := Map(s, l, f, w, u);
      && t.pte == s.pte[l := Pte(f, true, w, u, e.buffered, e.uheap, e.spare)]
      && t.refs == s.refs[e.frame := (s.refs[e.frame] as int) - 1][f := s.refs[f] + 1]
      && t.va == s.va[e.frame := 0][f := l.page]
      && t.free == (if s.refs[e.frame] == 1 then [e.frame] + s.free else s.free)
  {
    UnmapLeaves(s, l, e);
  }

  lemma MapSame(s: State, l: Loc, f: nat, w: bool, u: bool)
    requires Sized(s) && l in s.pte && s.pte[l].present && s.pte[l].frame == f
    ensures Map(s, l, f, w, u) == s
  {}

  /** The frame given out is the one at the head of the free list, and the one freed last is given out next. */
  lemma FreeThenAllocate(s: State, f: nat)
    requires Sized(s) && f < |s.refs|
    ensures var t := FreeFrame(s, f);
      && t.free == [f] + s.free && t.refs == s.refs[f := 0] && t.va == s.va[f := 0] && t.pte == s.pte
      && AllocateFrame(t) == t.(free := s.free)
  {
    assert ([f] + s.free)[1..] == s.free;
  }

  lemma AllocateLeaves(s: State)
    requires Sized(s) && s.free != [] && s.free[0] < |s.refs|
    ensures var f, t := s.free[0], AllocateFrame(s);
      s.free == [f] + t.free && t.refs == s.refs[f := 0] && t.va == s.va[f := 0] && t.pte == s.pte
  {}

  /** Mapping a frame in flight, or one already mapped elsewhere, at a page without a frame. */
  lemma MapFreshKeepsAccounts(s: State, reserved: set<nat>, flight: set<nat>, l: Loc, f: nat, w: bool, u: bool)
    requires Accounts(s, reserved, flight) && l in s.pte && !HoldsFrame(s.pte[l])
    requires f < |s.refs| && f !in reserved && f !in s.free && s.refs[f] + 1 < U16
    ensures Accounts(Map(s, l, f, w, u), reserved, flight - {f})
  {
    var t := Map(s, l, f, w, u);
    assert FrameOk(s, reserved, flight, f) && Plain(s.pte[l]);
    assert FrameOk(s, reserved, flight, 0);
    forall g: nat | g < |t.refs|
      ensures FrameOk(t, reserved, flight - {f}, g)
    {
      assert FrameOk(s, reserved, flight, g);
      UsersCount(s.pte, l, t.pte[l], g);
      assert l in Users(t.pte, f);
    }
  }

  /**
    map_frame of a live frame keeps the accounts: over an empty entry, over another
    frame (which is unmapped first) and over the same frame (nothing happens).
   */
  lemma MapKeepsAccounts(s: State, reserved: set<nat>, flight: set<nat>, l: Loc, f: nat, w: bool, u: bool)
    requires Accounts(s, reserved, flight) && l in s.pte && (HoldsFrame(s.pte[l]) ==> s.pte[l].present)
    requires f < |s.refs| && f !in reserved && f !in s.free && s.refs[f] + 1 < U16
    ensures Accounts(Map(s, l, f, w, u), reserved, if Names(s.pte[l], f) then flight else flight - {f})
    ensures Map(s, l, f, w, u).pte[l].present && Map(s, l, f, w, u).pte[l].frame == f
    ensures Map(s, l, f, w, u).pte.Keys == s.pte.Keys
    ensures forall x :: x in s.pte && x != l ==> Map(s, l, f, w, u).pte[x] == s.pte[x]
  {
    var e := s.pte[l];
    assert Plain(e);
    if e.present && e.frame != f {
      UnmapKeepsAccounts(s, reserved, flight, l);
      UnmapEffect(s, reserved, flight, l);
      var t := Unmap(s, l);
      assert Map(s, l, f, w, u) == Map(t, l, f, w, u);
      MapFreshKeepsAccounts(t, reserved, flight, l, f, w, u);
    } else if !e.present {
      MapFreshKeepsAccounts(s, reserved, flight, l, f, w, u);
    }
  }

  /** Changing flags of an entry that still holds its frame leaves every count alone. */
  lemma FlagKeepsAccounts(s: State, reserved: set<nat>, flight: set<nat>, l: Loc, e: Pte)
    requires Accounts(s, reserved, flight) && l in s.pte
    requires e.frame == s.pte[l].frame && Plain(e) && (HoldsFrame(e) <==> HoldsFrame(s.pte[l]))
    ensures Accounts(s.(pte := s.pte[l := e]), reserved, flight)
  {
    var t := s.(pte := s.pte[l := e]);
    forall f: nat | f < |t.refs|
      ensures FrameOk(t, reserved, flight, f)
    {
      assert FrameOk(s, reserved, flight, f);
      UsersUpdate(s.pte, l, e, f);
      assert Users(t.pte, f) == Users(s.pte, f);
    }
  }

  lemma AddTableKeepsAccounts(s: State, reserved: set<nat>, flight: set<nat>, pages: set<Loc>)
    requires Accounts(s, reserved, flight)
    ensures Accounts(AddTable(s, pages), reserved, flight)
  {
    var t := AddTable(s, pages);
    forall f: nat | f < |t.refs|
      ensures FrameOk(t, reserved, flight, f)
    {
      assert FrameOk(s, reserved, flight, f);
      assert Users(t.pte, f) == Users(s.pte, f);
    }
  }

  /** A page of the kernel's own: present, writable, not for users. */
  predicate SystemPage(e: Pte, f: nat) { e.present && e.frame == f && e.writable && !e.user }

  /** What making a missing table leaves of counts and entries: the price is one frame. */
  lemma CreateTableForEffect(s: State, l: Loc, heapPage: nat)
    requires Sized(s) && s.free != [] && s.free[0] < |s.refs| && l !in s.pte
    requires Loc(0, heapPage) in s.pte && !HoldsFrame(s.pte[Loc(0, heapPage)])
    ensures var t := CreateTableFor(s, l, heapPage);
      && l in t.pte && t.pte[l] == NoEntry && t.free == s.free[1..] && |t.va| == |s.va|
      && t.refs == s.refs[s.free[0] := 1] && t.va == s.va[s.free[0] := heapPage]
      && t.pte.Keys == s.pte.Keys + TablePages(l)
      && Loc(0, heapPage) in t.pte && SystemPage(t.pte[Loc(0, heapPage)], s.free[0])
      && (forall x :: x in s.pte && x != Loc(0, heapPage) ==> x in t.pte && t.pte[x] == s.pte[x])
      && (forall x :: x in t.pte && x !in s.pte ==> t.pte[x] == NoEntry)
  {}

  /** It keeps the accounts. */
  lemma CreateTableForOk(s: State, reserved: set<nat>, flight: set<nat>, l: Loc, heapPage: nat)
    requires Accounts(s, reserved, flight) && s.free != [] && l !in s.pte
    requires Loc(0, heapPage) in s.pte && !HoldsFrame(s.pte[Loc(0, heapPage)])
    ensures s.free[0] < |s.refs|
    ensures Accounts(CreateTableFor(s, l, heapPage), reserved, flight)
  {
    var f, h := s.free[0], Loc(0, heapPage);
    AllocateKeepsAccounts(s, reserved, flight);
    var a := AllocateFrame(s);
    MapFreshKeepsAccounts(a, reserved, flight + {f}, h, f, true, false);
    assert flight + {f} - {f} == flight;
    AddTableKeepsAccounts(Map(a, h, f, true, false), reserved, flight, TablePages(l));
  }

  // ---------- Conservation ----------

  ghost function MappedFrames(s: State): set<nat> {
    set f: nat | 0 <= f < |s.refs| && Users(s.pte, f) != {}
  }

  ghost function FreeFrames(s: State): set<nat> { ToSet(s.free) }

  /** Four sets that split the numbers below n. */
  lemma FourParts(a: set<nat>, b: set<nat>, c: set<nat>, d: set<nat>, n: nat)
    requires forall f: nat :: f < n <==> f in a || f in b || f in c || f in d
    requires forall f: nat :: f in a ==> f !in b && f !in c && f !in d
    requires forall f: nat :: f in b ==> f !in c && f !in d
    requires forall f: nat :: f in c ==> f !in d
    ensures |a| + |b| + |c| + |d| == n
  {
    assert a + b + c + d == Upto(n);
    assert |a + b| == |a| + |b|;
    assert |a + b + c| == |a + b| + |c|;
    assert |a + b + c + d| == |a + b + c| + |d|;
  }

  lemma FrameHasOneRole(s: State, reserved: set<nat>, flight: set<nat>, f: nat)
    requires Accounts(s, reserved, flight)
    ensures f < |s.refs| <==> f in FreeFrames(s) || f in MappedFrames(s) || f in flight || f in reserved
    ensures f in FreeFrames(s) ==> f !in MappedFrames(s) && f !in flight && f !in reserved
    ensures f in MappedFrames(s) ==> f !in flight && f !in reserved
    ensures f in flight ==> f !in reserved
  {
    if f < |s.refs| { assert FrameOk(s, reserved, flight, f); }
  }

  /** Free, mapped, in-flight and reserved frames are different frames, and together all of them. */
  lemma FramesConserved(s: State, reserved: set<nat>, flight: set<nat>)
    requires Accounts(s, reserved, flight)
    ensures |s.free| + |MappedFrames(s)| + |flight| + |reserved| == |s.refs|
  {
    var free, mapped := FreeFrames(s), MappedFrames(s);
    forall f: nat
      ensures f < |s.refs| <==> f in free || f in mapped || f in flight || f in reserved
      ensures f in free ==> f !in mapped && f !in flight && f !in reserved
      ensures f in mapped ==> f !in flight && f !in reserved
      ensures f in flight ==> f !in reserved
    {
      FrameHasOneRole(s, reserved, flight, f);
    }
    NoDupSize(s.free);
    FourParts(free, mapped, flight, reserved, |s.refs|);
  }

  // ---------- When map_frame keeps the counts ----------

  /** Counts alone, with entries of any kind. */
  ghost predicate Counted(s: State, reserved: set<nat>) {
    forall f: nat :: f < |s.refs| && f !in reserved ==> s.refs[f] == |Users(s.pte, f)| < U16
  }

  /** What map_frame does to the counts. */
  lemma MapRefs(s: State, reserved: set<nat>, l: Loc, f: nat, w: bool, u: bool)
    requires Sized(s) && Counted(s, reserved) && l in s.pte && f < |s.refs|
    requires HoldsFrame(s.pte[l]) ==> s.pte[l].frame !in reserved
    requires !(s.pte[l].present && s.pte[l].frame == f)
    ensures var e, t := s.pte[l], Map(s, l, f, w, u);
      && |t.refs| == |s.refs|
      && (forall g: nat :: g < |s.refs| ==>
            t.refs[g] == (if g == f then (s.refs[g] + 1) % U16 else if e.present && g == e.frame then (s.refs[g] as int) - 1 else s.refs[g]))
  {
    var e := s.pte[l];
    if HoldsFrame(e) {
      UsersUpdate(s.pte, l, e, e.frame);
      assert |Users(s.pte, e.frame)| >= 1;
    }
  }

  /** What it does to the entries that name each frame. */
  lemma MapUsers(s: State, l: Loc, f: nat, w: bool, u: bool, g: nat)
    requires Sized(s) && l in s.pte && f < |s.refs|
    requires !(s.pte[l].present && s.pte[l].frame == f)
    ensures |Users(Map(s, l, f, w, u).pte, g)| ==
            |Users(s.pte, g)| - (if Names(s.pte[l], g) then 1 else 0) + (if g == f then 1 else 0)
    ensures Names(s.pte[l], g) ==> |Users(s.pte, g)| >= 1
  {
    var t := Map(s, l, f, w, u);
    assert t.pte == s.pte[l := t.pte[l]] && Names(t.pte[l], f);
    UsersCount(s.pte, l, t.pte[l], g);
    UsersUpdate(s.pte, l, s.pte[l], g);
  }

  /**
    map_frame looks at the present bit only. Over an entry that holds a frame with
    the present bit cleared it forgets that frame's reference; at 65535 references
    the 16-bit count wraps. In every other case, and only then, the counts stay right.
   */
  lemma MapKeepsCountsIff(s: State, reserved: set<nat>, l: Loc, f: nat, w: bool, u: bool)
    requires Sized(s) && Counted(s, reserved) && l in s.pte && f < |s.refs| && f !in reserved
    requires !s.pte[l].buffered && (HoldsFrame(s.pte[l]) ==> s.pte[l].frame !in reserved && s.pte[l].frame != 0)
    requires f != 0
    ensures var e := s.pte[l];
      Counted(Map(s, l, f, w, u), reserved) <==>
        (e.present && e.frame == f) || ((e.present || !HoldsFrame(e)) && s.refs[f] + 1 < U16)
  {
    var e, t := s.pte[l], Map(s, l, f, w, u);
    if !(e.present && e.frame == f) {
      MapRefs(s, reserved, l, f, w, u);
      forall g: nat
        ensures |Users(t.pte, g)| == |Users(s.pte, g)| - (if Names(e, g) then 1 else 0) + (if g == f then 1 else 0)
        ensures Names(e, g) ==> |Users(s.pte, g)| >= 1
      {
        MapUsers(s, l, f, w, u, g);
      }
      if HoldsFrame(e) && !e.present {
        assert t.refs[e.frame] != |Users(t.pte, e.frame)|;
      }
    }
  }

  /** Page 7 of process 1 holds frame 1 with the present bit cleared, as in the Second list. */
  function ClearedScene(): State {
    State([1, 1, 0], [0, 7, 0], [2], map[Loc(1, 7) := NoEntry.(frame := 1)])
  }

  /** Mapping frame 2 there leaves frame 1 with a reference that no entry accounts for. */
  lemma LostReferenceExists()
    ensures var s := ClearedScene();
      && Sized(s) && Counted(s, {0}) && !Counted(Map(s, Loc(1, 7), 2, true, true), {0})
      && Users(Map(s, Loc(1, 7), 2, true, true).pte, 1) == {} && Map(s, Loc(1, 7), 2, true, true).refs[1] == 1
  {
    var s := ClearedScene();
    assert Users(s.pte, 1) == {Loc(1, 7)} && Users(s.pte, 2) == {};
    MapKeepsCountsIff(s, {0}, Loc(1, 7), 2, true, true);
  }

  /** The first n pages of process 1, all mapped to frame 1. */
  function ManyPages(n: nat): (pte: map<Loc, Pte>)
    ensures forall l :: l in pte <==> l.space == 1 && l.page < n
    ensures forall l :: l in pte ==> pte[l] == NoEntry.(frame := 1, present := true)
  {
    map l | l in Pages(n) :: NoEntry.(frame := 1, present := true)
  }

  function Pages(n: nat): (r: set<Loc>)
    ensures |r| == n && (forall l :: l in r <==> l.space == 1 && l.page < n)
    decreases n
  {
    if n == 0 then {} else Pages(n - 1) + {Loc(1, n - 1)}
  }

  /** Frame 1 is mapped by all of them, and page 0 of process 2 is empty. */
  function CrowdedScene(n: nat): State {
    State([1, n], [0, 0], [], ManyPages(n)[Loc(2, 0) := NoEntry])
  }

  lemma CrowdedCounted(n: nat)
    requires n < U16
    ensures Sized(CrowdedScene(n)) && Counted(CrowdedScene(n), {0})
  {
    assert Users(CrowdedScene(n).pte, 1) == Pages(n);
  }

  /** With 65535 mappings one more makes the count 0. */
  lemma WrappedCountExists(n: nat)
    requires n == U16 - 1
    ensures var s, l := CrowdedScene(n), Loc(2, 0);
      && Sized(s) && Counted(s, {0})
      && !Counted(Map(s, l, 1, true, true), {0}) && Map(s, l, 1, true, true).refs[1] == 0
  {
    CrowdedCounted(n);
    MapKeepsCountsIff(CrowdedScene(n), {0}, Loc(2, 0), 1, true, true);
  }
}
