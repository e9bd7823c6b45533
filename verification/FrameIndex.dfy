/**
  The one-step index from physical to virtual addresses of the kernel heap: the va
  field of a frame agrees with the kernel's page tables in every reachable state,
  so kheap_virtual_address and kheap_physical_address undo each other, and
  get_page_table finds the table that create_page_table installed.
 */
module FrameIndex {
  import opened SeqUtil
  import opened Frames
  import R = FrameRuns

  /** Pages of the kernel heap: the block region and the page region around the guard page. */
  datatype Region = Region(blockLo: nat, blockHi: nat, pageLo: nat, pageHi: nat)

  predicate InHeap(r: Region, v: nat) {
    v != 0 && (r.blockLo <= v < r.blockHi || r.pageLo <= v < r.pageHi)
  }

  predicate HeapLoc(r: Region, l: Loc) { l.space == 0 && InHeap(r, l.page) }

  /** Every mapped heap page is the only user of its frame, and the frame points back at it. */
  ghost predicate Forward(s: State, r: Region) {
    forall v: nat :: InHeap(r, v) && Loc(0, v) in s.pte && s.pte[Loc(0, v)].present ==>
      var f := s.pte[Loc(0, v)].frame;
      f < |s.va| && s.va[f] == v && Users(s.pte, f) == {Loc(0, v)}
  }

  /** A frame that points into the heap is mapped where it points. */
  ghost predicate Backward(s: State, r: Region) {
    forall f: nat :: f < |s.va| && InHeap(r, s.va[f]) ==>
      Loc(0, s.va[f]) in s.pte && s.pte[Loc(0, s.va[f])].present && s.pte[Loc(0, s.va[f])].frame == f
  }

  ghost predicate Index(s: State, r: Region) { Forward(s, r) && Backward(s, r) }

  // ---------- Address conversion ----------

  /** kheap_virtual_address; 0 for a frame that is not in the heap */
  function VirtualAddress(s: State, r: Region, pa: nat): nat
    requires pa / PAGE_SIZE < |s.va|
  {
    var v := s.va[pa / PAGE_SIZE];
    if InHeap(r, v) then v * PAGE_SIZE + pa % PAGE_SIZE else 0
  }

  /** kheap_physical_address; 0 for an address that is not mapped in the heap */
  function PhysicalAddress(s: State, r: Region, va: nat): nat {
    var l := Loc(0, va / PAGE_SIZE);
    if InHeap(r, va / PAGE_SIZE) && l in s.pte && s.pte[l].present
    then s.pte[l].frame * PAGE_SIZE + va % PAGE_SIZE else 0
  }

  lemma PageAndOffset(p: nat, d: nat)
    requires d < PAGE_SIZE
    ensures (p * PAGE_SIZE + d) / PAGE_SIZE == p && (p * PAGE_SIZE + d) % PAGE_SIZE == d
  {}

  /** kheap_virtual_address inverts kheap_physical_address on every mapped heap address. */
  lemma VirtualOfPhysical(s: State, r: Region, reserved: set<nat>, flight: set<nat>, va: nat)
    requires Accounts(s, reserved, flight) && Index(s, r) && PhysicalAddress(s, r, va) != 0
    ensures PhysicalAddress(s, r, va) / PAGE_SIZE < |s.va|
    ensures VirtualAddress(s, r, PhysicalAddress(s, r, va)) == va
  {
    var v := va / PAGE_SIZE;
    var f := s.pte[Loc(0, v)].frame;
    PageAndOffset(f, va % PAGE_SIZE);
    assert s.va[f] == v;
  }

  /** And the other way round, for every physical address it accepts. */
  lemma PhysicalOfVirtual(s: State, r: Region, pa: nat)
    requires Index(s, r) && pa / PAGE_SIZE < |s.va| && VirtualAddress(s, r, pa) != 0
    ensures PhysicalAddress(s, r, VirtualAddress(s, r, pa)) == pa
  {
    var f := pa / PAGE_SIZE;
    PageAndOffset(s.va[f], pa % PAGE_SIZE);
  }

  /** A heap address converts exactly when its page is mapped: frame 0 is never handed out. */
  lemma PhysicalIffMapped(s: State, r: Region, reserved: set<nat>, flight: set<nat>, va: nat)
    requires Accounts(s, reserved, flight)
    ensures PhysicalAddress(s, r, va) != 0 <==>
            InHeap(r, va / PAGE_SIZE) && Loc(0, va / PAGE_SIZE) in s.pte && s.pte[Loc(0, va / PAGE_SIZE)].present
  {
    var l := Loc(0, va / PAGE_SIZE);
    if l in s.pte { assert Plain(s.pte[l]); }
  }

  // ---------- What keeps the index ----------

  /** Unmapping any page, of the heap or of a process. */
  lemma UnmapKeepsIndex(s: State, r: Region, reserved: set<nat>, flight: set<nat>, l: Loc)
    requires Accounts(s, reserved, flight) && Index(s, r) && l in s.pte
    ensures Index(Unmap(s, l), r)
  {
    var e, t := s.pte[l], Unmap(s, l);
    UnmapEffect(s, reserved, flight, l);
    if HoldsFrame(e) {
      var g := e.frame;
      MappedFrame(s, reserved, flight, l);
      assert t.va == s.va[g := 0];
      forall v: nat | InHeap(r, v) && Loc(0, v) in t.pte && t.pte[Loc(0, v)].present
        ensures var f := t.pte[Loc(0, v)].frame; f < |t.va| && t.va[f] == v && Users(t.pte, f) == {Loc(0, v)}
      {
        var f := t.pte[Loc(0, v)].frame;
        assert Loc(0, v) != l && s.pte[Loc(0, v)] == t.pte[Loc(0, v)];
        assert f != g;
        UsersCount(s.pte, l, Available(e), f);
      }
      forall f: nat | f < |t.va| && InHeap(r, t.va[f])
        ensures Loc(0, t.va[f]) in t.pte && t.pte[Loc(0, t.va[f])].present && t.pte[Loc(0, t.va[f])].frame == f
      {
        assert f != g && t.va[f] == s.va[f];
        assert Loc(0, s.va[f]) != l;
      }
    }
  }

  /**
    When mapping f at l leaves the index right: at a heap page nobody else may use f, and
    elsewhere the page number must not look like a heap page and no heap page may map f.
   */
  ghost predicate IndexAllows(s: State, r: Region, l: Loc, f: nat) {
    if HeapLoc(r, l) then Users(s.pte, f) <= {l}
    else !InHeap(r, l.page) && !HeapMaps(s, r, f)
  }

  /** Some present heap page maps f. */
  ghost predicate HeapMaps(s: State, r: Region, f: nat) {
    exists v: nat :: InHeap(r, v) && Loc(0, v) in s.pte && s.pte[Loc(0, v)].present && s.pte[Loc(0, v)].frame == f
  }

  /** t is s with f newly mapped at l. */
  ghost predicate MappedAt(s: State, t: State, l: Loc, f: nat) {
    && l in s.pte && l in t.pte && !s.pte[l].present && f < |s.va|
    && t.va == s.va[f := l.page]
    && t.pte == s.pte[l := t.pte[l]] && t.pte[l].present && t.pte[l].frame == f
  }

  lemma AllowedKeepsForward(s: State, t: State, r: Region, l: Loc, f: nat)
    requires MappedAt(s, t, l, f) && Index(s, r) && IndexAllows(s, r, l, f)
    ensures Forward(t, r)
  {
    forall v: nat | InHeap(r, v) && Loc(0, v) in t.pte && t.pte[Loc(0, v)].present
      ensures var g := t.pte[Loc(0, v)].frame; g < |t.va| && t.va[g] == v && Users(t.pte, g) == {Loc(0, v)}
    {
      var g := t.pte[Loc(0, v)].frame;
      UsersUpdate(s.pte, l, t.pte[l], g);
      if Loc(0, v) != l {
        assert s.pte[Loc(0, v)] == t.pte[Loc(0, v)];
        assert Loc(0, v) in Users(s.pte, g);
        assert g != f;
      }
    }
  }

  lemma AllowedKeepsBackward(s: State, t: State, r: Region, l: Loc, f: nat)
    requires MappedAt(s, t, l, f) && Index(s, r) && IndexAllows(s, r, l, f)
    ensures Backward(t, r)
  {
    forall g: nat | g < |t.va| && InHeap(r, t.va[g])
      ensures Loc(0, t.va[g]) in t.pte && t.pte[Loc(0, t.va[g])].present && t.pte[Loc(0, t.va[g])].frame == g
    {
      if g != f { assert t.va[g] == s.va[g]; }
    }
  }

  lemma IndexNeedsAllowed(s: State, t: State, r: Region, l: Loc, f: nat)
    requires MappedAt(s, t, l, f) && Index(s, r) && Index(t, r)
    ensures IndexAllows(s, r, l, f)
  {
    UsersUpdate(s.pte, l, t.pte[l], f);
    assert l in Users(t.pte, f) && t.va[f] == l.page;
    if InHeap(r, l.page) {
      assert Users(t.pte, f) == {Loc(0, l.page)};
    }
  }

  lemma MapNewKeepsIndexIff(s: State, r: Region, l: Loc, f: nat, w: bool, u: bool)
    requires Sized(s) && Index(s, r) && l in s.pte && !s.pte[l].present && f < |s.refs|
    ensures Index(Map(s, l, f, w, u), r) <==> IndexAllows(s, r, l, f)
  {
    var t := Map(s, l, f, w, u);
    assert MappedAt(s, t, l, f);
    if IndexAllows(s, r, l, f) {
      AllowedKeepsForward(s, t, r, l, f);
      AllowedKeepsBackward(s, t, r, l, f);
    }
    if Index(t, r) { IndexNeedsAllowed(s, t, r, l, f); }
  }

  /** Unmapping another frame changes nothing about f. */
  lemma UnmapKeepsAllowed(s: State, r: Region, reserved: set<nat>, flight: set<nat>, l: Loc, f: nat)
    requires Accounts(s, reserved, flight) && l in s.pte && s.pte[l].present && s.pte[l].frame != f
    ensures IndexAllows(Unmap(s, l), r, l, f) <==> IndexAllows(s, r, l, f)
  {
    var t := Unmap(s, l);
    UnmapEffect(s, reserved, flight, l);
    UsersCount(s.pte, l, Available(s.pte[l]), f);
    assert Plain(s.pte[l]) && Users(t.pte, f) == Users(s.pte, f);
    forall v: nat
      ensures Loc(0, v) in t.pte && t.pte[Loc(0, v)].present && t.pte[Loc(0, v)].frame == f <==>
              Loc(0, v) in s.pte && s.pte[Loc(0, v)].present && s.pte[Loc(0, v)].frame == f
    {}
  }

  /**
    map_frame keeps the index exactly when it does nothing, or the frame is new to the
    heap in the sense above. This covers empty entries, entries with another frame, and
    entries whose present bit was cleared.
   */
  lemma MapKeepsIndexIff(s: State, r: Region, reserved: set<nat>, flight: set<nat>, l: Loc, f: nat, w: bool, u: bool)
    requires Accounts(s, reserved, flight) && Index(s, r) && l in s.pte && f < |s.refs|
    ensures Index(Map(s, l, f, w, u), r) <==>
            (s.pte[l].present && s.pte[l].frame == f) || IndexAllows(s, r, l, f)
  {
    var e := s.pte[l];
    if !e.present {
      MapNewKeepsIndexIff(s, r, l, f, w, u);
    } else if e.frame != f {
      UnmapKeepsAccounts(s, reserved, flight, l);
      UnmapKeepsIndex(s, r, reserved, flight, l);
      UnmapEffect(s, reserved, flight, l);
      UnmapKeepsAllowed(s, r, reserved, flight, l, f);
      assert Map(s, l, f, w, u) == Map(Unmap(s, l), l, f, w, u);
      MapNewKeepsIndexIff(Unmap(s, l), r, l, f, w, u);
    }
  }

  /**
    The price of the one-step index: mapping a heap page's frame a second time
    makes the frame point elsewhere, and the heap address no longer converts back.
   */
  lemma SecondMappingBreaksIndex(s: State, r: Region, reserved: set<nat>, flight: set<nat>, v: nat, l: Loc, w: bool, u: bool)
    requires Accounts(s, reserved, flight) && Index(s, r) && InHeap(r, v)
    requires Loc(0, v) in s.pte && s.pte[Loc(0, v)].present
    requires l in s.pte && !HoldsFrame(s.pte[l]) && l.page != v
    ensures var f := s.pte[Loc(0, v)].frame;
      && f < |s.refs| && !Index(Map(s, l, f, w, u), r)
      && VirtualAddress(Map(s, l, f, w, u), r, f * PAGE_SIZE) != v * PAGE_SIZE
  {
    var f := s.pte[Loc(0, v)].frame;
    MappedFrame(s, reserved, flight, Loc(0, v));
    var t := Map(s, l, f, w, u);
    PageAndOffset(f, 0);
    assert t.va[f] == l.page && t.pte[Loc(0, v)].present && t.pte[Loc(0, v)].frame == f;
    PageAndOffset(l.page, 0);
    PageAndOffset(v, 0);
  }

  /** Frame 1 is the only frame of the heap page 10; page 5 of process 1 is empty. */
  function HeapPageScene(): State {
    State([1, 1], [0, 10], [],
          map[Loc(0, 10) := NoEntry.(frame := 1, present := true), Loc(1, 5) := NoEntry])
  }

  /** Such a mapping exists: the index is right before it and wrong after it. */
  lemma SecondMappingExists(r: Region)
    requires r == Region(10, 11, 20, 21)
    ensures var s, l := HeapPageScene(), Loc(1, 5);
      && Accounts(s, {0}, {}) && Index(s, r) && !InHeap(r, l.page)
      && !Index(Map(s, l, 1, true, true), r)
      && VirtualAddress(Map(s, l, 1, true, true), r, PAGE_SIZE) != 10 * PAGE_SIZE
  {
    var s := HeapPageScene();
    assert Users(s.pte, 0) == {} && Users(s.pte, 1) == {Loc(0, 10)};
    forall f: nat | f < |s.refs|
      ensures FrameOk(s, {0}, {}, f)
    {
      assert f == 0 || f == 1;
    }
    assert Index(s, r);
    SecondMappingBreaksIndex(s, r, {0}, {}, 10, Loc(1, 5), true, true);
  }

  // ---------- Page tables of processes ----------

  /** Which table: directory and directory index. */
  datatype Key = Key(dir: nat, pdx: nat)

  /**
    pde records, per directory entry, the frame number stored there; `made` the
    heap page of the table create_page_table returned for it.
   */
  ghost predicate TablesOk(s: State, r: Region, pde: map<Key, nat>, made: map<Key, nat>) {
    && pde.Keys == made.Keys
    && (forall k :: k in pde ==>
          InHeap(r, made[k]) && Loc(0, made[k]) in s.pte && s.pte[Loc(0, made[k])].present
          && s.pte[Loc(0, made[k])].frame == pde[k])
  }

  /** get_page_table for a process address: the directory entry's frame, through the index */
  function GetPageTable(s: State, r: Region, pde: map<Key, nat>, k: Key): Option<nat> {
    if k in pde && pde[k] < |s.va| then Some(VirtualAddress(s, r, pde[k] * PAGE_SIZE)) else None
  }

  /** create_page_table: the directory entry takes the frame of the fresh heap page. */
  function CreateTable(s: State, r: Region, pde: map<Key, nat>, k: Key, page: nat): map<Key, nat> {
    pde[k := PhysicalAddress(s, r, page * PAGE_SIZE) / PAGE_SIZE]
  }

  lemma CreateTableOk(s: State, r: Region, pde: map<Key, nat>, made: map<Key, nat>, k: Key, page: nat)
    requires TablesOk(s, r, pde, made)
    requires InHeap(r, page) && Loc(0, page) in s.pte && s.pte[Loc(0, page)].present
    ensures TablesOk(s, r, CreateTable(s, r, pde, k, page), made[k := page])
  {
    PageAndOffset(page, 0);
    PageAndOffset(s.pte[Loc(0, page)].frame, 0);
  }

  /** get_page_table returns exactly the table that was created, and nothing otherwise. */
  lemma GetFindsCreated(s: State, r: Region, reserved: set<nat>, flight: set<nat>,
                        pde: map<Key, nat>, made: map<Key, nat>, k: Key)
    requires Accounts(s, reserved, flight) && Index(s, r) && TablesOk(s, r, pde, made)
    ensures GetPageTable(s, r, pde, k) == if k in made then Some(made[k] * PAGE_SIZE) else None
  {
    if k in pde {
      PageAndOffset(pde[k], 0);
      assert s.va[pde[k]] == made[k];
    }
  }

  // ---------- Runs ----------

  datatype Event =
    | Frame(e: R.Event)                   // allocate, map, unmap and the like
    | TableFor(k: Key, page: nat)         // create_page_table on a mapped heap page

  datatype Sys = Sys(y: R.Ledger, pde: map<Key, nat>, made: map<Key, nat>)

  ghost predicate SysOk(z: Sys, r: Region, reserved: set<nat>) {
    R.Ok(z.y, reserved) && Index(z.y.s, r) && TablesOk(z.y.s, r, z.pde, z.made)
  }

  /** A heap page that holds a live page table. */
  ghost predicate TablePage(z: Sys, l: Loc) { l.space == 0 && l.page in z.made.Values }

  /** Mapping keeps to what the index allows; live page tables stay mapped, heap pages stay present. */
  ghost predicate Enabled(z: Sys, r: Region, reserved: set<nat>, e: Event) {
    match e
    case Frame(e) =>
      R.Enabled(z.y, reserved, e) &&
      (match e
       case MapAt(l, f, _, _) =>
         (z.y.s.pte[l].present && z.y.s.pte[l].frame == f) || (!TablePage(z, l) && IndexAllows(z.y.s, r, l, f))
       case UnmapAt(l) => !TablePage(z, l)
       case SetPresent(l, _) => !HeapLoc(r, l)
       case _ => true)
    case TableFor(k, page) => InHeap(r, page) && Loc(0, page) in z.y.s.pte && z.y.s.pte[Loc(0, page)].present
  }

  ghost function Next(z: Sys, r: Region, reserved: set<nat>, e: Event): Sys
    requires SysOk(z, r, reserved) && Enabled(z, r, reserved, e)
  {
    match e
    case Frame(e) => z.(y := R.Next(z.y, reserved, e))
    case TableFor(k, page) => z.(pde := CreateTable(z.y.s, r, z.pde, k, page), made := z.made[k := page])
  }

  /** Tables stay where they are while only entry l changes, and l is not the page of one. */
  lemma TablesStay(z: Sys, t: State, r: Region, l: Loc)
    requires TablesOk(z.y.s, r, z.pde, z.made)
    requires t.pte.Keys == z.y.s.pte.Keys && (forall x :: x in z.y.s.pte && x != l ==> t.pte[x] == z.y.s.pte[x])
    requires !TablePage(z, l)
    ensures TablesOk(t, r, z.pde, z.made)
  {
    assert forall k :: k in z.made ==> z.made[k] in z.made.Values;
  }

  /** Clearing the va field of a frame that no entry names. */
  lemma UnnamedKeepsIndex(s: State, t: State, r: Region, f: nat)
    requires Index(s, r) && f < |s.va| && Users(s.pte, f) == {} && t.pte == s.pte && t.va == s.va[f := 0]
    ensures Index(t, r)
  {
    forall v: nat | InHeap(r, v) && Loc(0, v) in t.pte && t.pte[Loc(0, v)].present
      ensures var g := t.pte[Loc(0, v)].frame; g < |t.va| && t.va[g] == v && Users(t.pte, g) == {Loc(0, v)}
    {
      assert Loc(0, v) in Users(s.pte, s.pte[Loc(0, v)].frame);
    }
  }

  lemma AllocateIndexOk(z: Sys, r: Region, reserved: set<nat>)
    requires SysOk(z, r, reserved) && z.y.s.free != []
    ensures z.y.s.free[0] < |z.y.s.refs| && Index(AllocateFrame(z.y.s), r)
  {
    AllocateKeepsAccounts(z.y.s, reserved, z.y.flight);
    UnnamedKeepsIndex(z.y.s, AllocateFrame(z.y.s), r, z.y.s.free[0]);
  }

  lemma ReleaseIndexOk(z: Sys, r: Region, reserved: set<nat>, f: nat)
    requires SysOk(z, r, reserved) && f in z.y.flight
    ensures f < |z.y.s.refs| && Index(FreeFrame(z.y.s, f), r)
  {
    assert FrameOk(z.y.s, reserved, z.y.flight, f);
    UnnamedKeepsIndex(z.y.s, FreeFrame(z.y.s, f), r, f);
  }

  lemma MapEventOk(z: Sys, r: Region, reserved: set<nat>, l: Loc, f: nat, w: bool, u: bool)
    requires SysOk(z, r, reserved) && Enabled(z, r, reserved, Frame(R.MapAt(l, f, w, u)))
    ensures Index(Map(z.y.s, l, f, w, u), r) && TablesOk(Map(z.y.s, l, f, w, u), r, z.pde, z.made)
  {
    var s := z.y.s;
    MapKeepsIndexIff(s, r, reserved, z.y.flight, l, f, w, u);
    if !(s.pte[l].present && s.pte[l].frame == f) {
      MapKeepsAccounts(s, reserved, z.y.flight, l, f, w, u);
      TablesStay(z, Map(s, l, f, w, u), r, l);
    }
  }

  lemma UnmapEventOk(z: Sys, r: Region, reserved: set<nat>, l: Loc)
    requires SysOk(z, r, reserved) && l in z.y.s.pte && !TablePage(z, l)
    ensures Index(Unmap(z.y.s, l), r) && TablesOk(Unmap(z.y.s, l), r, z.pde, z.made)
  {
    UnmapKeepsIndex(z.y.s, r, reserved, z.y.flight, l);
    UnmapEffect(z.y.s, reserved, z.y.flight, l);
    TablesStay(z, Unmap(z.y.s, l), r, l);
  }

  lemma PresentEventOk(z: Sys, r: Region, reserved: set<nat>, l: Loc, b: bool)
    requires SysOk(z, r, reserved) && l in z.y.s.pte && z.y.s.pte[l].frame != 0 && !HeapLoc(r, l)
    ensures var t := z.y.s.(pte := z.y.s.pte[l := z.y.s.pte[l].(present := b)]);
      Index(t, r) && TablesOk(t, r, z.pde, z.made)
  {
    var s, e := z.y.s, z.y.s.pte[l].(present := b);
    var t := s.(pte := s.pte[l := e]);
    forall f: nat
      ensures Users(t.pte, f) == Users(s.pte, f)
    {
      UsersUpdate(s.pte, l, e, f);
    }
    assert forall v: nat :: InHeap(r, v) && Loc(0, v) in s.pte ==> t.pte[Loc(0, v)] == s.pte[Loc(0, v)];
    assert forall k :: k in z.made ==> InHeap(r, z.made[k]);
  }

  lemma CoverKeepsIndex(s: State, r: Region, pages: set<Loc>)
    requires Index(s, r)
    ensures Index(AddTable(s, pages), r)
    ensures forall l :: l in s.pte ==> l in AddTable(s, pages).pte && AddTable(s, pages).pte[l] == s.pte[l]
  {
    var t := AddTable(s, pages);
    assert forall l :: l in t.pte && t.pte[l].present ==> l in s.pte && s.pte[l] == t.pte[l];
    forall f: nat
      ensures Users(t.pte, f) == Users(s.pte, f)
    {}
  }

  lemma NextOk(z: Sys, r: Region, reserved: set<nat>, e: Event)
    requires SysOk(z, r, reserved) && Enabled(z, r, reserved, e)
    ensures SysOk(Next(z, r, reserved, e), r, reserved)
  {
    match e
    case TableFor(k, page) => CreateTableOk(z.y.s, r, z.pde, z.made, k, page);
    case Frame(e) =>
      R.NextOk(z.y, reserved, e);
      match e
      case Allocate => AllocateIndexOk(z, r, reserved);
      case Release(f) => ReleaseIndexOk(z, r, reserved, f);
      case MapAt(l, f, w, u) => MapEventOk(z, r, reserved, l, f, w, u);
      case UnmapAt(l) => if l in z.y.s.pte { UnmapEventOk(z, r, reserved, l); }
      case SetPresent(l, b) => PresentEventOk(z, r, reserved, l, b);
      case Cover(pages) => CoverKeepsIndex(z.y.s, r, pages);
  }

  ghost predicate Legal(z: Sys, r: Region, reserved: set<nat>, es: seq<Event>)
    requires SysOk(z, r, reserved)
    decreases |es|
  {
    es == [] || (Enabled(z, r, reserved, es[0]) &&
                 (NextOk(z, r, reserved, es[0]); Legal(Next(z, r, reserved, es[0]), r, reserved, es[1..])))
  }

  ghost function Exec(z: Sys, r: Region, reserved: set<nat>, es: seq<Event>): (z': Sys)
    requires SysOk(z, r, reserved) && Legal(z, r, reserved, es)
    ensures SysOk(z', r, reserved)
    decreases |es|
  {
    if es == [] then z
    else NextOk(z, r, reserved, es[0]); Exec(Next(z, r, reserved, es[0]), r, reserved, es[1..])
  }

  /** The start of every run: the state of initialize_paging, with no process table made. */
  ghost function Booted(n: nat, kernelEnd: nat, pages: set<Loc>, r: Region): (z: Sys)
    requires R.EXTENDED_FRAME <= kernelEnd <= n
    ensures SysOk(z, r, R.Reserved(kernelEnd))
  {
    Sys(R.Booted(n, kernelEnd, pages), map[], map[])
  }

  /** After every run from boot: conversion both ways, the right page table, and no frame lost. */
  lemma EveryRun(n: nat, kernelEnd: nat, pages: set<Loc>, r: Region, es: seq<Event>, va: nat, pa: nat, k: Key)
    requires R.EXTENDED_FRAME <= kernelEnd <= n
    requires Legal(Booted(n, kernelEnd, pages, r), r, R.Reserved(kernelEnd), es)
    ensures var z := Exec(Booted(n, kernelEnd, pages, r), r, R.Reserved(kernelEnd), es);
      var s := z.y.s;
      && (PhysicalAddress(s, r, va) != 0 ==>
            PhysicalAddress(s, r, va) / PAGE_SIZE < |s.va|
            && VirtualAddress(s, r, PhysicalAddress(s, r, va)) == va)
      && (pa / PAGE_SIZE < |s.va| && VirtualAddress(s, r, pa) != 0 ==>
            PhysicalAddress(s, r, VirtualAddress(s, r, pa)) == pa)
      && GetPageTable(s, r, z.pde, k) == (if k in z.made then Some(z.made[k] * PAGE_SIZE) else None)
      && |s.free| + |MappedFrames(s)| + |z.y.flight| + |R.Reserved(kernelEnd)| == |s.refs|
  {
    var reserved := R.Reserved(kernelEnd);
    var z := Exec(Booted(n, kernelEnd, pages, r), r, reserved, es);
    var s := z.y.s;
    if PhysicalAddress(s, r, va) != 0 { VirtualOfPhysical(s, r, reserved, z.y.flight, va); }
    if pa / PAGE_SIZE < |s.va| && VirtualAddress(s, r, pa) != 0 { PhysicalOfVirtual(s, r, pa); }
    GetFindsCreated(s, r, reserved, z.y.flight, z.pde, z.made, k);
    FramesConserved(s, reserved, z.y.flight);
  }
}
