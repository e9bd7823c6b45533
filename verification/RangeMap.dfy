/**
  Mapping a range of a process's pages one after the other, when some of the page tables
  may still be missing: map_frame then makes the table on a heap page that kmalloc answers.
 */
module RangeMap {
  import opened SeqUtil
  import F = Frames

  /** Page l is mapped to the given frame for the process, with the given permission. */
  predicate MapsTo(s: F.State, l: F.Loc, frame: nat, writable: bool) {
    l in s.pte && s.pte[l].present && s.pte[l].frame == frame && s.pte[l].writable == writable && s.pte[l].user
  }

  predicate InRange(l: F.Loc, space: nat, page: nat, n: nat) {
    l.space == space && page <= l.page < page + n
  }

  /** The n pages of a process from the given one hold no frame. */
  ghost predicate FreshRange(s: F.State, space: nat, page: nat, n: nat) {
    space != 0 && forall p: nat :: page <= p < page + n && F.Loc(space, p) in s.pte ==> !F.HoldsFrame(s.pte[F.Loc(space, p)])
  }

  /** Heap pages that kmalloc can answer: not mapped, and with a kernel page table. */
  ghost predicate Supply(s: F.State, heap: seq<nat>) {
    NoDup(heap) && forall h :: h in heap ==> F.Loc(0, h) in s.pte && !F.HoldsFrame(s.pte[F.Loc(0, h)])
  }

  /** 1 for a page whose table is missing. */
  function Missing(keys: set<F.Loc>, l: F.Loc): nat { if l in keys then 0 else 1 }

  /** The page tables that exist once l has one. */
  function WithTable(keys: set<F.Loc>, l: F.Loc): set<F.Loc> { if l in keys then keys else keys + F.TablePages(l) }

  /** How many page tables mapping the range will make. */
  function Need(keys: set<F.Loc>, space: nat, page: nat, n: nat): nat
    decreases n
  {
    if n == 0 then 0
    else Missing(keys, F.Loc(space, page)) + Need(WithTable(keys, F.Loc(space, page)), space, page + 1, n - 1)
  }

  /** The same once the first i pages are mapped. */
  function StillNeeded(keys: set<F.Loc>, space: nat, page: nat, n: nat, i: nat): nat
    requires i <= n
  {
    Need(keys, space, page + i, n - i)
  }

  lemma NeededStep(keys: set<F.Loc>, space: nat, page: nat, n: nat, i: nat)
    requires i < n
    ensures var l := F.Loc(space, page + i);
      StillNeeded(keys, space, page, n, i) == Missing(keys, l) + StillNeeded(WithTable(keys, l), space, page, n, i + 1)
  {}

  /** A page has an entry exactly when its whole table exists. */
  ghost predicate Tabled(keys: set<F.Loc>) {
    forall l :: l in keys ==> F.TablePages(l) <= keys
  }

  /** The tables, by directory index, that some page of the range lacks. */
  ghost function MissingTables(keys: set<F.Loc>, space: nat, page: nat, n: nat): set<nat> {
    set p: nat | page <= p < page + n && F.Loc(space, p) !in keys :: p / F.ENTRIES
  }

  /** The tables made are the missing ones, each once, however many pages of the range they cover. */
  lemma {:induction false} NeedCounts(keys: set<F.Loc>, space: nat, page: nat, n: nat)
    requires Tabled(keys)
    ensures Need(keys, space, page, n) == |MissingTables(keys, space, page, n)|
    decreases n
  {
    if n == 0 {
      assert MissingTables(keys, space, page, 0) == {};
    } else {
      var l := F.Loc(space, page);
      var keys' := WithTable(keys, l);
      var rest := MissingTables(keys', space, page + 1, n - 1);
      TabledWith(keys, l);
      NeedCounts(keys', space, page + 1, n - 1);
      MissingWith(keys, space, page, n);
    }
  }

  /** Two pages of a process share a table exactly when they share a directory index. */
  lemma SameTable(l: F.Loc, x: F.Loc)
    ensures x in F.TablePages(l) <==> x.space == l.space && x.page / F.ENTRIES == l.page / F.ENTRIES
  {}

  lemma OneTable(l: F.Loc, x: F.Loc)
    requires x in F.TablePages(l)
    ensures F.TablePages(x) == F.TablePages(l)
  {
    SameTable(l, x);
  }

  lemma TabledWith(keys: set<F.Loc>, l: F.Loc)
    requires Tabled(keys)
    ensures Tabled(WithTable(keys, l))
  {
    if l !in keys {
      forall x | x in keys + F.TablePages(l)
        ensures F.TablePages(x) <= keys + F.TablePages(l)
      {
        if x !in keys { OneTable(l, x); }
      }
    }
  }

  /** Making the table of the first page takes that table off the missing ones and no other. */
  lemma TableMade(keys: set<F.Loc>, space: nat, page: nat, n: nat, t: nat)
    requires Tabled(keys) && n > 0 && F.Loc(space, page) !in keys
    ensures var rest := MissingTables(keys + F.TablePages(F.Loc(space, page)), space, page + 1, n - 1);
      (t in MissingTables(keys, space, page, n) <==> t in rest || t == page / F.ENTRIES) && page / F.ENTRIES !in rest
  {
    var l := F.Loc(space, page);
    forall p: nat | page <= p < page + n
      ensures F.Loc(space, p) in F.TablePages(l) <==> p / F.ENTRIES == page / F.ENTRIES
    {
      SameTable(l, F.Loc(space, p));
    }
    TableListed(keys, space, page, n, t);
    TableListed(keys + F.TablePages(l), space, page + 1, n - 1, t);
    TableListed(keys + F.TablePages(l), space, page + 1, n - 1, page / F.ENTRIES);
    assert F.Loc(space, page) !in keys && page / F.ENTRIES == l.page / F.ENTRIES;
  }

  lemma TableListed(keys: set<F.Loc>, space: nat, page: nat, n: nat, t: nat)
    ensures t in MissingTables(keys, space, page, n) <==>
      exists p: nat :: page <= p < page + n && F.Loc(space, p) !in keys && p / F.ENTRIES == t
  {}

  /** Making the first page's table, if it is missing, takes it off the missing ones. */
  lemma MissingWith(keys: set<F.Loc>, space: nat, page: nat, n: nat)
    requires Tabled(keys) && n > 0
    ensures var l := F.Loc(space, page);
      var rest := MissingTables(WithTable(keys, l), space, page + 1, n - 1);
      |MissingTables(keys, space, page, n)| == |rest| + Missing(keys, l)
  {
    var l, d := F.Loc(space, page), page / F.ENTRIES;
    var all, rest := MissingTables(keys, space, page, n), MissingTables(WithTable(keys, l), space, page + 1, n - 1);
    if l in keys {
      assert all == rest;
    } else {
      forall t
        ensures (t in all <==> t in rest || t == d) && d !in rest
      {
        TableMade(keys, space, page, n, t);
      }
      assert all == rest + {d};
    }
  }

  /** From s to t only the n pages changed, and heap pages that became tables; new entries are empty. */
  ghost predicate OnlyRange(s: F.State, t: F.State, space: nat, page: nat, n: nat, heap: seq<nat>) {
    && s.pte.Keys <= t.pte.Keys
    && (forall l :: l in s.pte && !InRange(l, space, page, n) && !(l.space == 0 && l.page in heap) ==> t.pte[l] == s.pte[l])
    && (forall l :: l in t.pte && l !in s.pte && !InRange(l, space, page, n) ==> t.pte[l] == F.NoEntry)
  }

  /** From s to t the page l was mapped, on the first heap page if its table was missing. */
  ghost predicate PageMapped(s: F.State, t: F.State, l: F.Loc, f: nat, w: bool, heap: seq<nat>) {
    && MapsTo(t, l, f, w) && t.pte.Keys == WithTable(s.pte.Keys, l)
    && (l !in s.pte ==> heap != [])
    && (forall x :: x in s.pte && x != l && !(l !in s.pte && x == F.Loc(0, heap[0])) ==> t.pte[x] == s.pte[x])
    && (forall x :: x in t.pte && x !in s.pte && x != l ==> t.pte[x] == F.NoEntry)
  }

  /** The rest of the supply is still there. */
  lemma SupplyAfter(s: F.State, t: F.State, l: F.Loc, f: nat, w: bool, heap: seq<nat>)
    requires Supply(s, heap) && PageMapped(s, t, l, f, w, heap) && l.space != 0
    ensures Missing(s.pte.Keys, l) <= |heap| && Supply(t, heap[Missing(s.pte.Keys, l)..])
  {
    var rest := heap[Missing(s.pte.Keys, l)..];
    forall h | h in rest
      ensures F.Loc(0, h) in t.pte && !F.HoldsFrame(t.pte[F.Loc(0, h)])
    {
      assert h in heap && F.Loc(0, h) in s.pte;
      if l !in s.pte { TailMembers(heap); }
    }
  }

  /** So are the pages still to be mapped. */
  lemma FreshAfter(s: F.State, t: F.State, space: nat, page: nat, n: nat, heap: seq<nat>, i: nat)
    requires FreshRange(s, space, page, n) && OnlyRange(s, t, space, page, i, heap) && i <= n
    ensures FreshRange(t, space, page + i, n - i)
  {
    forall p: nat | page + i <= p < page + n && F.Loc(space, p) in t.pte
      ensures !F.HoldsFrame(t.pte[F.Loc(space, p)])
    {
      assert !InRange(F.Loc(space, p), space, page, i);
    }
  }

  lemma OnlyRangeNext(s: F.State, t: F.State, u: F.State, space: nat, page: nat, i: nat, f: nat, w: bool, heap: seq<nat>, rest: seq<nat>)
    requires OnlyRange(s, t, space, page, i, heap) && PageMapped(t, u, F.Loc(space, page + i), f, w, rest)
    requires (forall h :: h in rest ==> h in heap) && (forall h :: h in heap ==> F.Loc(0, h) in s.pte)
    ensures OnlyRange(s, u, space, page, i + 1, heap)
  {
    var l := F.Loc(space, page + i);
    assert t.pte.Keys <= u.pte.Keys;
    forall x | x in s.pte && !InRange(x, space, page, i + 1) && !(x.space == 0 && x.page in heap)
      ensures u.pte[x] == s.pte[x]
    {
      assert x != l && t.pte[x] == s.pte[x];
      if l !in t.pte { assert rest[0] in rest; }
    }
    forall x | x in u.pte && x !in s.pte && !InRange(x, space, page, i + 1)
      ensures u.pte[x] == F.NoEntry
    {
      assert x != l;
      if l !in t.pte { assert rest[0] in rest; }
    }
  }

  /** The frames mapped so far stay mapped. */
  lemma MapsToStays(t: F.State, u: F.State, l: F.Loc, f: nat, w: bool, heap: seq<nat>, x: F.Loc, g: nat, v: bool)
    requires PageMapped(t, u, l, f, w, heap) && Supply(t, heap) && MapsTo(t, x, g, v) && x != l
    ensures MapsTo(u, x, g, v)
  {
    if l !in t.pte { assert heap[0] in heap; }
  }

  // ---------- One page, on the frame table ----------

  /** map_frame at a page with a table. */
  lemma MapInTable(s: F.State, reserved: set<nat>, flight: set<nat>, l: F.Loc, f: nat, w: bool, heap: seq<nat>)
    requires F.Accounts(s, reserved, flight) && l in s.pte && !F.HoldsFrame(s.pte[l])
    requires f < |s.refs| && f !in reserved && f !in s.free && s.refs[f] + 1 < F.U16
    ensures var t := F.Map(s, l, f, w, true);
      && PageMapped(s, t, l, f, w, heap) && |t.free| == |s.free|
      && t.refs == s.refs[f := s.refs[f] + 1]
  {
    F.MapKeepsAccounts(s, reserved, flight, l, f, w, true);
  }

  /** map_frame at a page without one. */
  lemma MapMakingTable(s: F.State, reserved: set<nat>, flight: set<nat>, l: F.Loc, f: nat, w: bool, heap: seq<nat>)
    requires F.Accounts(s, reserved, flight) && l !in s.pte && l.space != 0 && s.free != []
    requires f < |s.refs| && f !in reserved && f !in s.free && s.refs[f] + 1 < F.U16
    requires heap != [] && Supply(s, heap)
    ensures s.free[0] < |s.refs| && F.Loc(0, heap[0]) in s.pte && !s.pte[F.Loc(0, heap[0])].present
    ensures var c := F.CreateTableFor(s, l, heap[0]);
      && l in c.pte && !c.pte[l].present && f < |c.refs| == |c.va|
      && PageMapped(s, F.Map(c, l, f, w, true), l, f, w, heap)
      && |F.Map(c, l, f, w, true).free| == |s.free| - 1
      && F.Map(c, l, f, w, true).refs == s.refs[s.free[0] := 1][f := s.refs[f] + 1]
  {
    assert heap[0] in heap && s.free[0] in s.free;
    F.CreateTableForOk(s, reserved, flight, l, heap[0]);
    F.CreateTableForEffect(s, l, heap[0]);
    var c := F.CreateTableFor(s, l, heap[0]);
    MapInTable(c, reserved, flight, l, f, w, heap);
    ThroughTable(s, c, F.Map(c, l, f, w, true), l, f, w, heap);
  }

  /** Making the table and mapping in it are one mapping. */
  lemma ThroughTable(s: F.State, c: F.State, t: F.State, l: F.Loc, f: nat, w: bool, heap: seq<nat>)
    requires heap != [] && l !in s.pte && l in c.pte && c.pte.Keys == s.pte.Keys + F.TablePages(l)
    requires forall x :: x in s.pte && x != F.Loc(0, heap[0]) ==> c.pte[x] == s.pte[x]
    requires forall x :: x in c.pte && x !in s.pte ==> c.pte[x] == F.NoEntry
    requires PageMapped(c, t, l, f, w, heap)
    ensures PageMapped(s, t, l, f, w, heap)
  {}

  // ---------- map_frame as one step ----------

  /** What map_frame leaves, with the first heap page for a missing table. */
  function Step(s: F.State, l: F.Loc, f: nat, w: bool, heap: seq<nat>): F.State
    requires f < |s.refs| == |s.va|
    requires l in s.pte ==> !s.pte[l].present
    requires l !in s.pte ==> heap != [] && s.free != [] && s.free[0] < |s.refs|
    requires l !in s.pte ==> F.Loc(0, heap[0]) in s.pte && !s.pte[F.Loc(0, heap[0])].present && l.space != 0
  {
    if l in s.pte then F.Map(s, l, f, w, true) else F.Map(F.CreateTableFor(s, l, heap[0]), l, f, w, true)
  }

  /** What has to be there for one page. */
  ghost predicate Ready(s: F.State, reserved: set<nat>, flight: set<nat>, l: F.Loc, f: nat, heap: seq<nat>) {
    && F.Accounts(s, reserved, flight) && l.space != 0 && (l in s.pte ==> !F.HoldsFrame(s.pte[l]))
    && f < |s.refs| && f !in reserved && f !in s.free && s.refs[f] + 1 < F.U16
    && Missing(s.pte.Keys, l) <= |s.free| && Supply(s, heap) && Missing(s.pte.Keys, l) <= |heap|
  }

  lemma ReadyFacts(s: F.State, reserved: set<nat>, flight: set<nat>, l: F.Loc, f: nat, heap: seq<nat>)
    requires Ready(s, reserved, flight, l, f, heap)
    ensures |s.refs| == |s.va|
    ensures l !in s.pte ==> heap != [] && s.free != [] && s.free[0] < |s.refs|
    ensures l !in s.pte ==> F.Loc(0, heap[0]) in s.pte && !F.HoldsFrame(s.pte[F.Loc(0, heap[0])])
  {
    if l !in s.pte { assert heap[0] in heap && s.free[0] in s.free; }
  }

  /** The step on entries, counts and free frames. */
  lemma StepOk(s: F.State, reserved: set<nat>, flight: set<nat>, l: F.Loc, f: nat, w: bool, heap: seq<nat>, t: F.State)
    requires Ready(s, reserved, flight, l, f, heap)
    requires (ReadyFacts(s, reserved, flight, l, f, heap); t == Step(s, l, f, w, heap))
    ensures PageMapped(s, t, l, f, w, heap) && |t.free| == |s.free| - Missing(s.pte.Keys, l) && |t.refs| == |s.refs|
    ensures forall g: nat :: g < |s.refs| && g != f && g !in s.free ==> t.refs[g] == s.refs[g]
  {
    ReadyFacts(s, reserved, flight, l, f, heap);
    if l in s.pte {
      MapInTable(s, reserved, flight, l, f, w, heap);
    } else {
      MapMakingTable(s, reserved, flight, l, f, w, heap);
      assert s.free[0] in s.free;
    }
  }
}
