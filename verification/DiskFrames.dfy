/**
  The page file without its tables: a finite map from (process, page) to disk frame
  and the list of free disk frames.  It refines a plain map from (process, page) to
  contents that has room for a fixed number of pages.
 */
module DiskFrames {
  import opened SeqUtil

  type Bytes = seq<nat>

  const PAGE_SIZE: nat := 4096
  const ENTRIES: nat := 1024
  const USER_PDX: nat := 955            // PDX(USER_TOP)
  const KERNEL_BASE: nat := 0xF000_0000
  const KERNEL_PAGE: nat := 983040      // KERNEL_BASE / PAGE_SIZE

  /** A page of a process. */
  datatype Key = Key(env: nat, page: nat)

  datatype Flat = Flat(
    disk: seq<Bytes>,       // contents of the disk frames
    free: seq<nat>,         // disk_free_frame_list
    used: map<Key, nat>)    // the frame of each stored page

  /** Frames are numbered from 1. */
  ghost predicate FreeOk(free: seq<nat>, n: nat) {
    NoDup(free) && (forall x :: x in free ==> 0 < x < n)
  }

  ghost predicate UsedOk(used: map<Key, nat>, free: seq<nat>, n: nat) {
    forall k :: k in used ==> 0 < used[k] < n && used[k] !in free
  }

  ghost predicate OneToOne(used: map<Key, nat>) {
    forall k, m :: k in used && m in used && used[k] == used[m] ==> k == m
  }

  /** No frame is both free and used, and none serves two pages. */
  ghost predicate Sound(f: Flat) {
    |f.disk| > 0 && FreeOk(f.free, |f.disk|) && UsedOk(f.used, f.free, |f.disk|) && OneToOne(f.used)
  }

  function Pdx(page: nat): nat { page / ENTRIES }

  function ZeroPage(): Bytes { seq(PAGE_SIZE, _ => 0) }

  // ---------- The plain store ----------

  /** What each page holds, and how many pages there is room for. */
  datatype Store = Store(pages: map<Key, Bytes>, room: nat)

  datatype Status = Done | NoSpace | Panic

  datatype Op =
    | AddOp(k: Key, data: Bytes)
    | AddEmptyOp(k: Key, zeroed: bool)
    | ReadOp(k: Key)
    | RemoveOp(k: Key)
    | FreeOp(env: nat)

  datatype Reply = Reply(status: Status) | Missing | Contents(data: Bytes)

  function Put(a: Store, k: Key, data: Bytes): (Store, Status) {
    if k.page >= KERNEL_PAGE then (a, Panic)
    else if k !in a.pages && |a.pages| >= a.room then (a, NoSpace)
    else (a.(pages := a.pages[k := data]), Done)
  }

  /** The pages of a process, and those of them that freeing the process does not give back. */
  ghost function Mine(keys: set<Key>, env: nat): set<Key> { set k | k in keys && k.env == env }

  ghost function Lost(keys: set<Key>, env: nat): set<Key> {
    set k | k in keys && k.env == env && Pdx(k.page) >= USER_PDX
  }

  /** The operations on the plain store; stale is what an unwritten new page happens to hold. */
  ghost function Plain(a: Store, op: Op, stale: Bytes): (Store, Reply) {
    match op
    case AddOp(k, data) => var (b, st) := Put(a, k, data); (b, Reply(st))
    case AddEmptyOp(k, zeroed) =>
      var data := if zeroed then ZeroPage() else if k in a.pages then a.pages[k] else stale;
      var (b, st) := Put(a, k, data); (b, Reply(st))
    case ReadOp(k) => (a, if k in a.pages then Contents(a.pages[k]) else Missing)
    case RemoveOp(k) => (a.(pages := a.pages - {k}), Reply(Done))
    case FreeOp(env) =>
      var lost := |Lost(a.pages.Keys, env)|;
      (Store(a.pages - Mine(a.pages.Keys, env), if lost <= a.room then a.room - lost else 0), Reply(Done))
  }

  ghost function Held(used: map<Key, nat>, disk: seq<Bytes>): map<Key, Bytes> {
    map k | k in used && used[k] < |disk| :: disk[used[k]]
  }

  function Room(f: Flat): nat { |f.free| + |f.used| }

  ghost function View(f: Flat): Store {
    Store(Held(f.used, f.disk), Room(f))
  }

  // ---------- Operations on frames ----------

  /** allocate_disk_frame for the page, unless it has a frame already */
  function Reserve(f: Flat, k: Key): (Flat, Status) {
    if k in f.used then (f, Done)
    else if f.free == [] then (f, NoSpace)
    else (f.(free := f.free[1..], used := f.used[k := f.free[0]]), Done)
  }

  function AddPage(f: Flat, k: Key, data: Bytes): (Flat, Status) {
    if k.page >= KERNEL_PAGE then (f, Panic)
    else
      var (t, st) := Reserve(f, k);
      if st != Done || t.used[k] >= |t.disk| then (t, st)
      else (t.(disk := t.disk[t.used[k] := data]), Done)
  }

  function AddEmpty(f: Flat, k: Key, zeroed: bool): (Flat, Status) {
    if zeroed then AddPage(f, k, ZeroPage())
    else if k.page >= KERNEL_PAGE then (f, Panic)
    else Reserve(f, k)
  }

  function Lookup(f: Flat, k: Key): Option<Bytes> {
    if k !in f.used || f.used[k] >= |f.disk| then None else Some(f.disk[f.used[k]])
  }

  function Remove(f: Flat, k: Key): Flat {
    if k !in f.used then f else f.(free := [f.used[k]] + f.free, used := f.used - {k})
  }

  /** Removing the first n pages of a process, lowest first. */
  function RemoveFirst(f: Flat, env: nat, n: nat): Flat
    decreases n, env
  {
    if n == 0 then f else Remove(RemoveFirst(f, env, n - 1), Key(env, n - 1))
  }

  /** Frames of pages at USER_TOP and above are neither given back nor kept. */
  ghost function FreeEnv(f: Flat, env: nat): Flat {
    var t := RemoveFirst(f, env, USER_PDX * ENTRIES);
    t.(used := t.used - Mine(t.used.Keys, env))
  }

  ghost function Apply(f: Flat, op: Op): (Flat, Reply) {
    match op
    case AddOp(k, data) => var (t, st) := AddPage(f, k, data); (t, Reply(st))
    case AddEmptyOp(k, zeroed) => var (t, st) := AddEmpty(f, k, zeroed); (t, Reply(st))
    case ReadOp(k) => (f, if Lookup(f, k).None? then Missing else Contents(Lookup(f, k).value))
    case RemoveOp(k) => (Remove(f, k), Reply(Done))
    case FreeOp(env) => (FreeEnv(f, env), Reply(Done))
  }

  // ---------- Every operation is the one on the plain store ----------

  lemma MapSize<V>(m: map<Key, V>, u: map<Key, nat>)
    requires m.Keys == u.Keys
    ensures |m| == |u|
  {
    assert |m| == |m.Keys|;
    assert |u| == |u.Keys|;
  }

  lemma HeldMinus(used: map<Key, nat>, disk: seq<Bytes>, keys: set<Key>)
    ensures Held(used - keys, disk) == Held(used, disk) - keys
  {}

  lemma HeldPlus(used: map<Key, nat>, disk: seq<Bytes>, k: Key, x: nat)
    requires x < |disk|
    ensures Held(used[k := x], disk) == Held(used, disk)[k := disk[x]]
  {}

  lemma HeldWrite(used: map<Key, nat>, disk: seq<Bytes>, k: Key, data: Bytes)
    requires k in used && used[k] < |disk| && OneToOne(used)
    ensures Held(used, disk[used[k] := data]) == Held(used, disk)[k := data]
  {}

  lemma Overwrite<V>(m: map<Key, V>, k: Key, a: V, b: V)
    ensures m[k := a][k := b] == m[k := b]
  {}

  lemma GrownSize(u: map<Key, nat>, k: Key, x: nat)
    requires k !in u
    ensures |u[k := x]| == |u| + 1
  {
    assert u[k := x].Keys == u.Keys + {k};
    assert |u| == |u.Keys|;
    assert |u[k := x]| == |u[k := x].Keys|;
  }

  lemma ShrunkSize(u: map<Key, nat>, k: Key)
    requires k in u
    ensures |u - {k}| == |u| - 1
  {
    assert (u - {k}).Keys == u.Keys - {k};
    assert |u| == |u.Keys|;
    assert |u - {k}| == |(u - {k}).Keys|;
  }

  /** Moving a frame from the free list to a page that had none. */
  lemma TakeSound(u: map<Key, nat>, k: Key, x: nat, rest: seq<nat>, n: nat)
    requires k !in u && FreeOk([x] + rest, n) && UsedOk(u, [x] + rest, n) && OneToOne(u)
    ensures FreeOk(rest, n) && UsedOk(u[k := x], rest, n) && OneToOne(u[k := x])
  {
    var all := [x] + rest;
    assert all[0] == x && all[1..] == rest;
    TailMembers(all);
    assert x in all && x !in rest && NoDup(rest);
    assert forall y :: y in rest ==> y in all;
  }

  /** Moving the frame of a page back to the free list. */
  lemma GiveSound(u: map<Key, nat>, k: Key, free: seq<nat>, n: nat)
    requires k in u && FreeOk(free, n) && UsedOk(u, free, n) && OneToOne(u)
    ensures FreeOk([u[k]] + free, n) && UsedOk(u - {k}, [u[k]] + free, n) && OneToOne(u - {k})
  {
    ConsNoDup(u[k], free);
    assert forall y :: y in [u[k]] + free <==> y == u[k] || y in free;
  }

  /** There is a free frame exactly while fewer pages are stored than there is room for. */
  lemma FreeIffRoom(f: Flat)
    requires Sound(f)
    ensures View(f).pages.Keys == f.used.Keys
    ensures f.free == [] <==> |View(f).pages| == Room(f)
    ensures |View(f).pages| <= Room(f)
  {
    assert View(f).pages.Keys == f.used.Keys;
    MapSize(View(f).pages, f.used);
  }

  lemma ReserveSound(f: Flat, k: Key)
    requires Sound(f)
    ensures Sound(Reserve(f, k).0) && Room(Reserve(f, k).0) == Room(f)
  {
    if k !in f.used && f.free != [] {
      var x, rest := f.free[0], f.free[1..];
      assert f.free == [x] + rest;
      TakeSound(f.used, k, x, rest, |f.disk|);
      GrownSize(f.used, k, x);
    }
  }

  /** Writing a page's frame changes that page only. */
  lemma WriteView(f: Flat, k: Key, data: Bytes)
    requires Sound(f) && k in f.used
    ensures var t := f.(disk := f.disk[f.used[k] := data]);
      Sound(t) && View(t) == View(f).(pages := View(f).pages[k := data])
  {
    HeldWrite(f.used, f.disk, k, data);
  }

  /** A reserved page holds what its frame held. */
  lemma ReserveView(f: Flat, k: Key)
    requires Sound(f)
    ensures View(Reserve(f, k).0).pages ==
      if k in f.used || f.free == [] then View(f).pages else View(f).pages[k := Stale(f)]
  {
    if k !in f.used && f.free != [] {
      assert f.free[0] in f.free;
      HeldPlus(f.used, f.disk, k, f.free[0]);
    }
  }

  lemma AddSound(f: Flat, k: Key, data: Bytes)
    requires Sound(f)
    ensures Sound(AddPage(f, k, data).0) && |AddPage(f, k, data).0.disk| == |f.disk|
  {
    ReserveSound(f, k);
    var (u, st) := Reserve(f, k);
    if st == Done { WriteView(u, k, data); }
  }

  lemma AddDone(f: Flat, k: Key, data: Bytes)
    requires Sound(f) && k.page < KERNEL_PAGE && Reserve(f, k).1 == Done
    ensures View(AddPage(f, k, data).0) == View(f).(pages := View(f).pages[k := data])
  {
    ReserveSound(f, k);
    ReserveView(f, k);
    WriteView(Reserve(f, k).0, k, data);
    Overwrite(View(f).pages, k, Stale(f), data);
  }

  lemma AddRefines(f: Flat, k: Key, data: Bytes)
    requires Sound(f)
    ensures var (t, st) := AddPage(f, k, data); (View(t), st) == Put(View(f), k, data)
  {
    FreeIffRoom(f);
    ReserveSound(f, k);
    if k.page < KERNEL_PAGE && Reserve(f, k).1 == Done { AddDone(f, k, data); }
  }

  /** What a page reserved without being written then holds. */
  function Stale(f: Flat): Bytes {
    if f.free != [] && f.free[0] < |f.disk| then f.disk[f.free[0]] else []
  }

  lemma AddEmptyRefines(f: Flat, k: Key)
    requires Sound(f)
    ensures var (t, st) := AddEmpty(f, k, false);
      && Sound(t)
      && (View(t), st) == Put(View(f), k, if k in View(f).pages then View(f).pages[k] else Stale(f))
  {
    ReserveSound(f, k);
    ReserveView(f, k);
    FreeIffRoom(f);
    if k in f.used {
      assert View(f).pages[k := View(f).pages[k]] == View(f).pages;
    }
  }

  lemma RemoveSound(f: Flat, k: Key)
    requires Sound(f)
    ensures Sound(Remove(f, k)) && Room(Remove(f, k)) == Room(f) && Remove(f, k).used == f.used - {k}
  {
    if k in f.used {
      GiveSound(f.used, k, f.free, |f.disk|);
      ShrunkSize(f.used, k);
    }
  }

  lemma RemoveRefines(f: Flat, k: Key)
    requires Sound(f)
    ensures Sound(Remove(f, k)) && View(Remove(f, k)) == View(f).(pages := View(f).pages - {k})
  {
    RemoveSound(f, k);
    HeldMinus(f.used, f.disk, {k});
  }

  /** The pages other than those of the process below n. */
  ghost function Rest(used: map<Key, nat>, env: nat, n: nat): map<Key, nat> {
    map k | k in used && !(k.env == env && k.page < n) :: used[k]
  }

  lemma RestStep(used: map<Key, nat>, env: nat, n: nat)
    ensures Rest(used, env, n) - {Key(env, n)} == Rest(used, env, n + 1)
  {}

  /** Removing page after page loses those pages and no other. */
  lemma {:induction false} RemoveFirstUsed(f: Flat, env: nat, n: nat)
    ensures RemoveFirst(f, env, n).used == Rest(f.used, env, n)
    ensures RemoveFirst(f, env, n).disk == f.disk
    decreases n, env
  {
    if n > 0 {
      RemoveFirstUsed(f, env, n - 1);
      RestStep(f.used, env, n - 1);
      var u := RemoveFirst(f, env, n - 1);
      assert Remove(u, Key(env, n - 1)).used == u.used - {Key(env, n - 1)};
    }
  }

  /** Their frames are all free again. */
  lemma {:induction false} RemoveFirstSound(f: Flat, env: nat, n: nat, t: Flat)
    requires Sound(f) && t == RemoveFirst(f, env, n)
    ensures Sound(t) && Room(t) == Room(f)
    decreases n, env
  {
    if n > 0 {
      var u := RemoveFirst(f, env, n - 1);
      RemoveFirstSound(f, env, n - 1, u);
      RemoveSound(u, Key(env, n - 1));
    }
  }

  /** Forgetting pages keeps the rest sound. */
  lemma ForgetSound(f: Flat, keys: set<Key>)
    requires Sound(f)
    ensures Sound(f.(used := f.used - keys))
  {}

  lemma FreeEnvSound(f: Flat, env: nat)
    requires Sound(f)
    ensures Sound(FreeEnv(f, env))
  {
    var u := RemoveFirst(f, env, USER_PDX * ENTRIES);
    RemoveFirstSound(f, env, USER_PDX * ENTRIES, u);
    ForgetSound(u, Mine(u.used.Keys, env));
  }

  lemma FreeEnvUsed(f: Flat, env: nat)
    ensures FreeEnv(f, env).disk == f.disk
    ensures FreeEnv(f, env).used == f.used - Mine(f.used.Keys, env)
  {
    RemoveFirstUsed(f, env, USER_PDX * ENTRIES);
  }

  lemma RestSize(used: map<Key, nat>, env: nat)
    ensures |Rest(used, env, USER_PDX * ENTRIES)| == |used - Mine(used.Keys, env)| + |Lost(used.Keys, env)|
  {
    var a, b := Rest(used, env, USER_PDX * ENTRIES), used - Mine(used.Keys, env);
    assert a.Keys == b.Keys + Lost(used.Keys, env);
    assert |a| == |a.Keys|;
    assert |b| == |b.Keys|;
  }

  lemma FreeEnvRoom(f: Flat, env: nat)
    requires Sound(f)
    ensures Room(FreeEnv(f, env)) + |Lost(f.used.Keys, env)| == Room(f)
  {
    var u := RemoveFirst(f, env, USER_PDX * ENTRIES);
    RemoveFirstUsed(f, env, USER_PDX * ENTRIES);
    RemoveFirstSound(f, env, USER_PDX * ENTRIES, u);
    FreeEnvUsed(f, env);
    RestSize(f.used, env);
  }

  lemma FreeEnvHeld(f: Flat, env: nat)
    requires Sound(f)
    ensures View(FreeEnv(f, env)).pages == View(f).pages - Mine(View(f).pages.Keys, env)
  {
    FreeEnvUsed(f, env);
    FreeIffRoom(f);
    HeldMinus(f.used, f.disk, Mine(f.used.Keys, env));
  }

  lemma PlainFree(a: Store, b: Store, env: nat, stale: Bytes)
    requires b.pages == a.pages - Mine(a.pages.Keys, env) && b.room + |Lost(a.pages.Keys, env)| == a.room
    ensures (b, Reply(Done)) == Plain(a, FreeOp(env), stale)
  {}

  lemma FreeRefines(f: Flat, env: nat)
    requires Sound(f)
    ensures (View(FreeEnv(f, env)), Reply(Done)) == Plain(View(f), FreeOp(env), Stale(f))
  {
    FreeEnvHeld(f, env);
    FreeEnvRoom(f, env);
    FreeIffRoom(f);
    PlainFree(View(f), View(FreeEnv(f, env)), env, Stale(f));
  }

  /** One operation on frames is that operation on the plain store. */
  lemma Refines(f: Flat, op: Op)
    requires Sound(f)
    ensures var (t, reply) := Apply(f, op);
      Sound(t) && |t.disk| == |f.disk| && (View(t), reply) == Plain(View(f), op, Stale(f))
  {
    match op
    case AddOp(k, data) => AddSound(f, k, data); AddRefines(f, k, data);
    case AddEmptyOp(k, zeroed) => AddEmptyOpRefines(f, k, zeroed);
    case ReadOp(k) =>
    case RemoveOp(k) => RemoveRefines(f, k);
    case FreeOp(env) => FreeEnvSound(f, env); FreeEnvUsed(f, env); FreeRefines(f, env);
  }

  lemma AddEmptyOpRefines(f: Flat, k: Key, zeroed: bool)
    requires Sound(f)
    ensures var (t, reply) := Apply(f, AddEmptyOp(k, zeroed));
      Sound(t) && |t.disk| == |f.disk| && (View(t), reply) == Plain(View(f), AddEmptyOp(k, zeroed), Stale(f))
  {
    if zeroed {
      AddSound(f, k, ZeroPage());
      AddRefines(f, k, ZeroPage());
    } else {
      AddEmptyRefines(f, k);
    }
  }

  // ---------- What the operations do to every page ----------

  /** Adding panics for a kernel address and fails when the page has no frame and no frame is free. */
  predicate AddStatus(f: Flat, k: Key, st: Status) {
    st == if k.page * 4096 >= KERNEL_BASE then Panic
          else if Lookup(f, k).None? && f.free == [] then NoSpace
          else Done
  }

  lemma AddStores(f: Flat, k: Key, data: Bytes, m: Key)
    requires Sound(f)
    ensures var (t, st) := AddPage(f, k, data);
      && AddStatus(f, k, st)
      && Lookup(t, m) == if m == k && st == Done then Some(data) else Lookup(f, m)
  {
    AddSound(f, k, data);
    assert f.free != [] ==> f.free[0] in f.free;
  }

  /** A page added empty reads as 4096 zeros if that was asked for; otherwise a stored page keeps its contents. */
  lemma AddEmptyStores(f: Flat, k: Key, zeroed: bool, m: Key)
    requires Sound(f)
    ensures var (t, st) := AddEmpty(f, k, zeroed);
      && AddStatus(f, k, st)
      && (m != k || st != Done ==> Lookup(t, m) == Lookup(f, m))
      && (st == Done ==> Lookup(t, k).Some?)
      && (st == Done && zeroed ==> |Lookup(t, k).value| == 4096 && forall i :: 0 <= i < 4096 ==> Lookup(t, k).value[i] == 0)
      && (st == Done && !zeroed && Lookup(f, k).Some? ==> Lookup(t, k) == Lookup(f, k))
  {
    if zeroed {
      AddStores(f, k, ZeroPage(), m);
      AddStores(f, k, ZeroPage(), k);
    } else {
      assert f.free != [] ==> f.free[0] in f.free;
    }
  }

  /** A removed page does not exist any more, and its frame is the next to be given out. */
  lemma RemoveStores(f: Flat, k: Key, m: Key)
    requires Sound(f)
    ensures Lookup(Remove(f, k), m) == if m == k then None else Lookup(f, m)
    ensures Remove(f, k).free == if k in f.used then [f.used[k]] + f.free else f.free
  {}

  /** After freeing a process none of its pages exists, and everybody else's are untouched. */
  lemma FreeEnvStores(f: Flat, env: nat, m: Key)
    requires Sound(f)
    ensures Lookup(FreeEnv(f, env), m) == if m.env == env then None else Lookup(f, m)
  {
    FreeEnvUsed(f, env);
  }

  // ---------- No frame is lost ----------

  /** Every frame is free or used. */
  ghost predicate Complete(f: Flat) {
    forall x: nat :: 0 < x < |f.disk| ==> x in f.free || x in f.used.Values
  }

  lemma {:induction false} ValuesSize(used: map<Key, nat>)
    requires OneToOne(used)
    ensures |used.Values| == |used|
  {
    if used.Keys == {} {
      assert used == map[];
    } else {
      var k :| k in used.Keys;
      var rest := used - {k};
      ShrunkSize(used, k);
      ValuesSize(rest);
      assert used.Values == rest.Values + {used[k]} by {
        forall v | v in used.Values
          ensures v in rest.Values + {used[k]}
        {
          var m :| m in used && used[m] == v;
          assert m != k ==> m in rest && rest[m] == v;
        }
      }
    }
  }

  /** Two disjoint sets of frames fill the file exactly when their sizes do. */
  lemma Filled(a: set<nat>, b: set<nat>, n: nat)
    requires n > 0 && a !! b && (forall x :: x in a || x in b ==> 0 < x < n)
    ensures |a| + |b| <= n - 1
    ensures |a| + |b| == n - 1 <==> (forall x: nat :: 0 < x < n ==> x in a || x in b)
  {
    var all := Upto(n) - {0};
    assert |all| == n - 1;
    assert |a + b| == |a| + |b|;
    SubsetSize(a + b, all);
  }

  /** Free and stored pages total the frames of the file exactly when none is lost. */
  lemma FramesConserved(f: Flat)
    requires Sound(f)
    ensures Room(f) <= |f.disk| - 1
    ensures Room(f) == |f.disk| - 1 <==> Complete(f)
  {
    NoDupSize(f.free);
    ValuesSize(f.used);
    Filled(ToSet(f.free), f.used.Values, |f.disk|);
  }

  /** Freeing a process loses a frame exactly when the process stored a page at USER_TOP or above. */
  lemma FreeEnvCompleteIff(f: Flat, env: nat)
    requires Sound(f) && Complete(f)
    ensures Complete(FreeEnv(f, env)) <==> (forall k :: k in f.used && k.env == env ==> Pdx(k.page) < USER_PDX)
  {
    FreeEnvSound(f, env);
    FreeEnvUsed(f, env);
    FreeEnvRoom(f, env);
    FramesConserved(f);
    FramesConserved(FreeEnv(f, env));
    LostNone(f.used.Keys, env);
  }

  lemma LostNone(keys: set<Key>, env: nat)
    ensures |Lost(keys, env)| == 0 <==> (forall k :: k in keys && k.env == env ==> Pdx(k.page) < USER_PDX)
  {
    if |Lost(keys, env)| == 0 { assert Lost(keys, env) == {}; }
    if exists k :: k in keys && k.env == env && Pdx(k.page) >= USER_PDX {
      var k :| k in keys && k.env == env && Pdx(k.page) >= USER_PDX;
      assert k in Lost(keys, env);
    } else {
      assert Lost(keys, env) == {};
    }
  }

  /** The frames given back are exactly those of the process's pages below USER_TOP. */
  lemma {:induction false} FreedFrames(f: Flat, env: nat, n: nat)
    ensures forall x :: x in RemoveFirst(f, env, n).free <==>
      x in f.free || exists k :: k in f.used && k.env == env && k.page < n && f.used[k] == x
    decreases n, env
  {
    if n > 0 {
      FreedFrames(f, env, n - 1);
      RemoveFirstUsed(f, env, n - 1);
      var u := RemoveFirst(f, env, n - 1);
      var k := Key(env, n - 1);
      assert k in u.used <==> k in f.used;
      if k in f.used { FreedStep(f, env, n - 1, u.free); }
    }
  }

  lemma FreedStep(f: Flat, env: nat, n: nat, free: seq<nat>)
    requires Key(env, n) in f.used
    requires forall x :: x in free <==> x in f.free || exists k :: k in f.used && k.env == env && k.page < n && f.used[k] == x
    ensures forall x :: x in [f.used[Key(env, n)]] + free <==>
      x in f.free || exists k :: k in f.used && k.env == env && k.page < n + 1 && f.used[k] == x
  {
    forall x
      ensures x in [f.used[Key(env, n)]] + free <==>
        x in f.free || exists k :: k in f.used && k.env == env && k.page < n + 1 && f.used[k] == x
    {
      if k :| k in f.used && k.env == env && k.page < n + 1 && f.used[k] == x {
        assert k.page < n || k == Key(env, n);
      }
    }
  }

  // ---------- Runs ----------

  ghost function Run(f: Flat, ops: seq<Op>): (Flat, seq<Reply>)
    decreases |ops|
  {
    if ops == [] then (f, [])
    else
      var (t, reply) := Apply(f, ops[0]);
      var (u, replies) := Run(t, ops[1..]);
      (u, [reply] + replies)
  }

  /** The same run on the plain store, given what its unwritten pages hold. */
  ghost function PlainRun(a: Store, ops: seq<Op>, stales: seq<Bytes>): (Store, seq<Reply>)
    requires |stales| == |ops|
    decreases |ops|
  {
    if ops == [] then (a, [])
    else
      var (b, reply) := Plain(a, ops[0], stales[0]);
      var (c, replies) := PlainRun(b, ops[1..], stales[1..]);
      (c, [reply] + replies)
  }

  ghost function Stales(f: Flat, ops: seq<Op>): (r: seq<Bytes>)
    ensures |r| == |ops|
    decreases |ops|
  {
    if ops == [] then [] else [Stale(f)] + Stales(Apply(f, ops[0]).0, ops[1..])
  }

  /** Every run answers as the plain store does. */
  lemma {:induction false} EveryRun(f: Flat, ops: seq<Op>)
    requires Sound(f)
    ensures Sound(Run(f, ops).0) && |Run(f, ops).0.disk| == |f.disk|
    ensures (View(Run(f, ops).0), Run(f, ops).1) == PlainRun(View(f), ops, Stales(f, ops))
    decreases |ops|
  {
    if ops != [] {
      Refines(f, ops[0]);
      EveryRun(Apply(f, ops[0]).0, ops[1..]);
      assert Stales(f, ops)[1..] == Stales(Apply(f, ops[0]).0, ops[1..]);
    }
  }

  /** The operations that may change what page k holds. */
  predicate Touches(op: Op, k: Key) {
    match op
    case AddOp(m, _) => m == k
    case AddEmptyOp(m, zeroed) => m == k && zeroed
    case ReadOp(_) => false
    case RemoveOp(m) => m == k
    case FreeOp(env) => env == k.env
  }

  lemma PlainKeeps(a: Store, op: Op, stale: Bytes, k: Key)
    requires k in a.pages && !Touches(op, k)
    ensures k in Plain(a, op, stale).0.pages && Plain(a, op, stale).0.pages[k] == a.pages[k]
  {}

  lemma {:induction false} UntouchedKeeps(f: Flat, ops: seq<Op>, k: Key)
    requires Sound(f) && k in View(f).pages
    requires forall i :: 0 <= i < |ops| ==> !Touches(ops[i], k)
    ensures var t := Run(f, ops).0;
      Sound(t) && k in View(t).pages && View(t).pages[k] == View(f).pages[k]
    decreases |ops|
  {
    if ops != [] {
      Refines(f, ops[0]);
      var t := Apply(f, ops[0]).0;
      PlainKeeps(View(f), ops[0], Stale(f), k);
      UntouchedKeeps(t, ops[1..], k);
    }
  }

  /** A read answers with the contents last added for that process and page. */
  lemma ReadsLastAdded(f: Flat, k: Key, data: Bytes, ops: seq<Op>)
    requires Sound(f) && AddPage(f, k, data).1 == Done
    requires forall i :: 0 <= i < |ops| ==> !Touches(ops[i], k)
    ensures Lookup(Run(AddPage(f, k, data).0, ops).0, k) == Some(data)
  {
    AddSound(f, k, data);
    AddRefines(f, k, data);
    UntouchedKeeps(AddPage(f, k, data).0, ops, k);
  }

  // ---------- The total over a run ----------

  /** Frames that one operation gives up for good. */
  ghost function LostBy(f: Flat, op: Op): nat {
    if op.FreeOp? then |Lost(f.used.Keys, op.env)| else 0
  }

  ghost function LostIn(f: Flat, ops: seq<Op>): nat
    decreases |ops|
  {
    if ops == [] then 0 else LostBy(f, ops[0]) + LostIn(Apply(f, ops[0]).0, ops[1..])
  }

  lemma AddRoom(f: Flat, k: Key, data: Bytes)
    requires Sound(f)
    ensures Room(AddPage(f, k, data).0) == Room(f)
  {
    ReserveSound(f, k);
  }

  lemma StepRoom(f: Flat, op: Op)
    requires Sound(f)
    ensures Room(Apply(f, op).0) + LostBy(f, op) == Room(f)
  {
    match op
    case AddOp(k, data) => AddRoom(f, k, data);
    case AddEmptyOp(k, zeroed) => if zeroed { AddRoom(f, k, ZeroPage()); } else { ReserveSound(f, k); }
    case ReadOp(k) =>
    case RemoveOp(k) => RemoveSound(f, k);
    case FreeOp(env) => FreeEnvRoom(f, env);
  }

  lemma {:induction false} RunRoom(f: Flat, ops: seq<Op>)
    requires Sound(f)
    ensures Room(Run(f, ops).0) + LostIn(f, ops) == Room(f)
    decreases |ops|
  {
    if ops != [] {
      Refines(f, ops[0]);
      StepRoom(f, ops[0]);
      RunRoom(Apply(f, ops[0]).0, ops[1..]);
    }
  }

  /** No process is freed while it stores a page at USER_TOP or above. */
  ghost predicate NeverLoses(f: Flat, ops: seq<Op>)
    decreases |ops|
  {
    ops == [] ||
    ((ops[0].FreeOp? ==> forall k :: k in f.used && k.env == ops[0].env ==> Pdx(k.page) < USER_PDX)
      && NeverLoses(Apply(f, ops[0]).0, ops[1..]))
  }

  lemma {:induction false} LostInNone(f: Flat, ops: seq<Op>)
    ensures LostIn(f, ops) == 0 <==> NeverLoses(f, ops)
    decreases |ops|
  {
    if ops != [] {
      LostInNone(Apply(f, ops[0]).0, ops[1..]);
      if ops[0].FreeOp? { LostNone(f.used.Keys, ops[0].env); }
    }
  }

  /**
    Free and stored frames total PAGES_PER_FILE - 1 after a run exactly when no process
    was freed while it stored a page at USER_TOP or above.
   */
  lemma RunConservesIff(f: Flat, ops: seq<Op>)
    requires Sound(f) && Complete(f)
    ensures var t := Run(f, ops).0;
      && |t.free| + |t.used| + LostIn(f, ops) == |f.disk| - 1
      && (|t.free| + |t.used| == |f.disk| - 1 <==> NeverLoses(f, ops))
      && (Complete(t) <==> NeverLoses(f, ops))
  {
    EveryRun(f, ops);
    RunRoom(f, ops);
    FramesConserved(f);
    FramesConserved(Run(f, ops).0);
    LostInNone(f, ops);
  }

  /** Every page stored, or asked to be stored, lies below USER_TOP, or is refused. */
  predicate LowOp(op: Op) {
    op.AddOp? || op.AddEmptyOp? ==> Pdx(op.k.page) < USER_PDX || op.k.page >= KERNEL_PAGE
  }

  ghost predicate LowPages(f: Flat) { forall k :: k in f.used ==> Pdx(k.page) < USER_PDX }

  lemma StepLow(f: Flat, op: Op)
    requires Sound(f) && LowPages(f) && LowOp(op)
    ensures LowPages(Apply(f, op).0)
  {
    if op.FreeOp? { FreeEnvUsed(f, op.env); }
  }

  /** A run that only adds pages below USER_TOP loses no frame. */
  lemma {:induction false} LowRunConserves(f: Flat, ops: seq<Op>)
    requires Sound(f) && LowPages(f) && (forall i :: 0 <= i < |ops| ==> LowOp(ops[i]))
    ensures NeverLoses(f, ops)
    decreases |ops|
  {
    if ops != [] {
      Refines(f, ops[0]);
      StepLow(f, ops[0]);
      LowRunConserves(Apply(f, ops[0]).0, ops[1..]);
    }
  }

  /** A page at USER_TOP is stored and its process freed: the only frame of the file is lost. */
  lemma LossExists(k: Key)
    requires k.page == USER_PDX * ENTRIES
    ensures var f := Flat([[], []], [1], map[]);
      var ops := [AddOp(k, []), FreeOp(k.env)];
      Sound(f) && Complete(f) && !NeverLoses(f, ops) && !Complete(Run(f, ops).0)
  {
    var f := Flat([[], []], [1], map[]);
    var ops := [AddOp(k, []), FreeOp(k.env)];
    var t := Apply(f, ops[0]).0;
    assert k in t.used;
    assert ops[1..] == [FreeOp(k.env)];
    assert !NeverLoses(t, ops[1..]);
    RunConservesIff(f, ops);
  }
}
