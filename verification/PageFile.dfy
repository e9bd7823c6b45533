/**
  The page file's two-level tables.  Every operation is proved to be the one on the
  flat map of disk frames.
 */
module PageFile {
  import opened SeqUtil
  import D = DiskFrames
  import opened DiskFrames

  /** Process -> directory index -> table of frame numbers, 0 for none. */
  type Dirs = map<nat, map<nat, seq<nat>>>

  function Ptx(page: nat): (i: nat)
    ensures i < ENTRIES
  {
    page % ENTRIES
  }

  ghost predicate Shape(dirs: Dirs) {
    forall e, d :: e in dirs && d in dirs[e] ==> |dirs[e][d]| == ENTRIES
  }

  /** The disk frame of a page, 0 when it has none. */
  function Entry(dirs: Dirs, k: Key): nat
    requires Shape(dirs)
  {
    if k.env in dirs && Pdx(k.page) in dirs[k.env] then dirs[k.env][Pdx(k.page)][Ptx(k.page)] else 0
  }

  lemma Indices(d: nat, i: nat)
    requires i < ENTRIES
    ensures Pdx(d * ENTRIES + i) == d && Ptx(d * ENTRIES + i) == i
  {}

  /** Directory and table index determine the page. */
  lemma SamePage(a: nat, b: nat)
    requires Pdx(a) == Pdx(b) && Ptx(a) == Ptx(b)
    ensures a == b
  {}

  /** The pages that have a disk frame. */
  ghost function Stored(dirs: Dirs): (r: set<Key>)
    requires Shape(dirs)
    ensures forall k :: k in r <==> Entry(dirs, k) != 0
  {
    var r := set e, d, i | e in dirs && d in dirs[e] && 0 <= i < ENTRIES && dirs[e][d][i] != 0 :: Key(e, d * ENTRIES + i);
    StoredExact(dirs, r);
    r
  }

  lemma StoredExact(dirs: Dirs, r: set<Key>)
    requires Shape(dirs)
    requires r == set e, d, i | e in dirs && d in dirs[e] && 0 <= i < ENTRIES && dirs[e][d][i] != 0 :: Key(e, d * ENTRIES + i)
    ensures forall k :: k in r <==> Entry(dirs, k) != 0
  {
    forall k: Key
      ensures k in r <==> Entry(dirs, k) != 0
    {
      if k in r {
        var e, d, i :| e in dirs && d in dirs[e] && 0 <= i < ENTRIES && dirs[e][d][i] != 0 && k == Key(e, d * ENTRIES + i);
        Indices(d, i);
      }
      if Entry(dirs, k) != 0 {
        assert k.page == Pdx(k.page) * ENTRIES + Ptx(k.page);
        assert dirs[k.env][Pdx(k.page)][Ptx(k.page)] != 0;
      }
    }
  }

  /** The tables as one map from page to frame. */
  ghost function Used(dirs: Dirs): (u: map<Key, nat>)
    requires Shape(dirs)
    ensures forall k :: k in u <==> Entry(dirs, k) != 0
    ensures forall k :: k in u ==> u[k] == Entry(dirs, k)
  {
    map k | k in Stored(dirs) :: Entry(dirs, k)
  }

  /** Two sets of tables with the same entries are the same map. */
  lemma SameUsed(a: Dirs, b: Dirs)
    requires Shape(a) && Shape(b) && (forall k :: Entry(a, k) == Entry(b, k))
    ensures Used(a) == Used(b)
  {}

  lemma UsedSet(a: Dirs, b: Dirs, k: Key, f: nat)
    requires Shape(a) && Shape(b) && (forall m :: Entry(b, m) == if m == k then f else Entry(a, m))
    ensures Used(b) == if f == 0 then Used(a) - {k} else Used(a)[k := f]
  {}

  // ---------- Changes to the tables ----------

  function WithDir(dirs: Dirs, env: nat): Dirs {
    if env in dirs then dirs else dirs[env := map[]]
  }

  function WithTable(dirs: Dirs, env: nat, d: nat): Dirs
    requires env in dirs
  {
    if d in dirs[env] then dirs else
      var table: seq<nat> := seq(ENTRIES, _ => 0);
      SetTable(dirs, env, d, table)
  }

  function SetTable(dirs: Dirs, env: nat, d: nat, table: seq<nat>): Dirs
    requires env in dirs
  {
    var dir: map<nat, seq<nat>> := dirs[env][d := table];
    dirs[env := dir]
  }

  lemma WithDirOk(dirs: Dirs, env: nat)
    requires Shape(dirs)
    ensures Shape(WithDir(dirs, env)) && Used(WithDir(dirs, env)) == Used(dirs)
  {
    var t := WithDir(dirs, env);
    assert Shape(t);
    assert forall k :: Entry(t, k) == Entry(dirs, k);
    SameUsed(t, dirs);
  }

  lemma WithTableOk(dirs: Dirs, env: nat, d: nat)
    requires Shape(dirs) && env in dirs
    ensures Shape(WithTable(dirs, env, d)) && Used(WithTable(dirs, env, d)) == Used(dirs)
  {
    var t := WithTable(dirs, env, d);
    assert Shape(t);
    assert forall k :: Entry(t, k) == Entry(dirs, k);
    SameUsed(t, dirs);
  }

  lemma SetEntryOk(dirs: Dirs, k: Key, f: nat)
    requires Shape(dirs) && k.env in dirs && Pdx(k.page) in dirs[k.env]
    ensures var t := SetTable(dirs, k.env, Pdx(k.page), dirs[k.env][Pdx(k.page)][Ptx(k.page) := f]);
      Shape(t) && Used(t) == if f == 0 then Used(dirs) - {k} else Used(dirs)[k := f]
  {
    var t := SetTable(dirs, k.env, Pdx(k.page), dirs[k.env][Pdx(k.page)][Ptx(k.page) := f]);
    assert Shape(t);
    forall m: Key
      ensures Entry(t, m) == if m == k then f else Entry(dirs, m)
    {
      if m.env == k.env && Pdx(m.page) == Pdx(k.page) && Ptx(m.page) == Ptx(k.page) {
        SamePage(m.page, k.page);
      }
    }
    UsedSet(dirs, t, k, f);
  }

  /** Dropping a table that holds no frame. */
  lemma DropTableOk(dirs: Dirs, env: nat, d: nat)
    requires Shape(dirs) && env in dirs && d in dirs[env]
    requires forall k :: k in Used(dirs) && k.env == env ==> Pdx(k.page) != d
    ensures Shape(dirs[env := dirs[env] - {d}]) && Used(dirs[env := dirs[env] - {d}]) == Used(dirs)
  {
    var t := dirs[env := dirs[env] - {d}];
    assert Shape(t);
    forall k: Key
      ensures Entry(t, k) == Entry(dirs, k)
    {
      if k.env == env && Pdx(k.page) == d { assert k !in Used(dirs); }
    }
    SameUsed(t, dirs);
  }

  lemma DropDirOk(dirs: Dirs, env: nat)
    requires Shape(dirs)
    ensures Shape(dirs - {env}) && Used(dirs - {env}) == Used(dirs) - Mine(Used(dirs).Keys, env)
  {
    var t := dirs - {env};
    assert Shape(t);
    assert forall k: Key :: Entry(t, k) == if k.env == env then 0 else Entry(dirs, k);
    UsedWithout(dirs, t, env);
  }

  lemma UsedWithout(a: Dirs, b: Dirs, env: nat)
    requires Shape(a) && Shape(b) && (forall k: Key :: Entry(b, k) == if k.env == env then 0 else Entry(a, k))
    ensures Used(b) == Used(a) - Mine(Used(a).Keys, env)
  {}

  // ---------- Freeing a process walks its tables ----------

  /** A range of pages without frames adds nothing to the walk. */
  lemma {:induction false} SkipPages(f: Flat, env: nat, n: nat, m: nat)
    requires forall p: nat :: n <= p < n + m ==> Key(env, p) !in f.used
    ensures RemoveFirst(f, env, n + m) == RemoveFirst(f, env, n)
    decreases m
  {
    if m > 0 {
      SkipPages(f, env, n, m - 1);
      RemoveFirstUsed(f, env, n + m - 1);
    }
  }

  /** Number of stored pages of the process below n. */
  function Counted(dirs: Dirs, env: nat, n: nat): nat
    requires Shape(dirs)
    decreases n, env
  {
    if n == 0 then 0 else Counted(dirs, env, n - 1) + if Entry(dirs, Key(env, n - 1)) != 0 then 1 else 0
  }

  lemma CountedStep(dirs: Dirs, env: nat, d: nat, i: nat, n: nat)
    requires Shape(dirs) && env in dirs && d in dirs[env] && i < ENTRIES && n == d * ENTRIES + i
    ensures Counted(dirs, env, n + 1) == Counted(dirs, env, n) + if dirs[env][d][i] != 0 then 1 else 0
  {
    Indices(d, i);
    assert Entry(dirs, Key(env, n)) == dirs[env][d][i];
  }

  lemma RemoveStep(f: Flat, env: nat, n: nat)
    ensures RemoveFirst(f, env, n + 1) == Remove(RemoveFirst(f, env, n), Key(env, n))
  {}

  lemma {:induction false} CountedSkip(dirs: Dirs, env: nat, n: nat, m: nat)
    requires Shape(dirs) && (forall p: nat :: n <= p < n + m ==> Entry(dirs, Key(env, p)) == 0)
    ensures Counted(dirs, env, n + m) == Counted(dirs, env, n)
    decreases m
  {
    if m > 0 { CountedSkip(dirs, env, n, m - 1); }
  }

  ghost function StoredBelow(used: map<Key, nat>, env: nat, n: nat): set<Key> {
    set k | k in used && k.env == env && k.page < n
  }

  lemma {:induction false} CountedIsSize(dirs: Dirs, used: map<Key, nat>, env: nat, n: nat)
    requires Shape(dirs) && (forall k :: k in used <==> Entry(dirs, k) != 0)
    ensures Counted(dirs, env, n) == |StoredBelow(used, env, n)|
    decreases n, env
  {
    if n == 0 {
      NoneStored(used, env);
    } else {
      CountedIsSize(dirs, used, env, n - 1);
      OneMoreStored(used, env, n - 1);
    }
  }

  lemma NoneStored(used: map<Key, nat>, env: nat)
    ensures |StoredBelow(used, env, 0)| == 0
  {
    assert StoredBelow(used, env, 0) == {};
  }

  lemma OneMoreStored(used: map<Key, nat>, env: nat, n: nat)
    ensures |StoredBelow(used, env, n + 1)| == |StoredBelow(used, env, n)| + if Key(env, n) in used then 1 else 0
  {
    var k := Key(env, n);
    assert StoredBelow(used, env, n + 1) == StoredBelow(used, env, n) + if k in used then {k} else {};
  }

  /** Clearing an entry and freeing its frame removes the page. */
  lemma ClearedFlat(disk: seq<Bytes>, free: seq<nat>, dirs: Dirs, k: Key)
    requires Shape(dirs) && k.env in dirs && Pdx(k.page) in dirs[k.env]
    ensures var t := SetTable(dirs, k.env, Pdx(k.page), dirs[k.env][Pdx(k.page)][Ptx(k.page) := 0]);
      && Shape(t)
      && D.Flat(disk, if Entry(dirs, k) == 0 then free else [Entry(dirs, k)] + free, Used(t)) == Remove(D.Flat(disk, free, Used(dirs)), k)
  {
    SetEntryOk(dirs, k, 0);
    if k !in Used(dirs) { assert Used(dirs) - {k} == Used(dirs); }
  }

  // ---------- The page file ----------

  class PageFile {
    var disk: seq<Bytes>
    var free: seq<nat>
    var dirs: Dirs

    ghost predicate Valid() reads this { Shape(dirs) && D.Sound(Flat()) }

    ghost function Flat(): Flat
      requires Shape(dirs)
      reads this
    {
      D.Flat(disk, free, Used(dirs))
    }

    /** initialize_disk_page_file */
    constructor (contents: seq<Bytes>)
      requires |contents| > 0
      ensures Valid() && disk == contents && Flat().used == map[]
      ensures Complete(Flat())
    {
      disk, free, dirs := contents, [], map[];
      new;
      var i := 1;
      while i < |disk|
        invariant 1 <= i <= |disk| && disk == contents && dirs == map[]
        invariant FreeOk(free, i) && (forall x: nat :: 0 < x < i ==> x in free)
      {
        ConsNoDup(i, free);
        ghost var was := free;
        free := [i] + free;
        assert forall x: nat :: x in free <==> x == i || x in was;
        i := i + 1;
      }
    }

    method AllocateDiskFrame() returns (frame: nat, st: Status)
      modifies this`free
      ensures old(free) == [] ==> free == [] && st == NoSpace
      ensures old(free) != [] ==> st == Done && old(free) == [frame] + free
    {
      if free == [] {
        frame, st := 0, NoSpace;
      } else {
        frame, st := free[0], Done;
        free := free[1..];
      }
    }

    method FreeDiskFrame(frame: nat)
      modifies this`free
      ensures free == if frame == 0 then old(free) else [frame] + old(free)
    {
      if frame != 0 { free := [frame] + free; }
    }

    /** get_disk_page_directory and get_disk_page_table with create set */
    method CreateTable(k: Key)
      requires Shape(dirs)
      modifies this`dirs
      ensures Shape(dirs) && Flat() == old(Flat()) && k.env in dirs && Pdx(k.page) in dirs[k.env]
    {
      WithDirOk(dirs, k.env);
      dirs := WithDir(dirs, k.env);
      WithTableOk(dirs, k.env, Pdx(k.page));
      dirs := WithTable(dirs, k.env, Pdx(k.page));
    }

    /** The part of adding a page that gives it a frame. */
    method ReserveFrame(k: Key) returns (frame: nat, st: Status)
      requires Shape(dirs) && 0 !in free
      modifies this`free, this`dirs
      ensures Shape(dirs) && (Flat(), st) == Reserve(old(Flat()), k)
      ensures st == Done ==> k in Used(dirs) && Used(dirs)[k] == frame
    {
      CreateTable(k);
      frame, st := dirs[k.env][Pdx(k.page)][Ptx(k.page)], Done;
      if frame == 0 {
        frame, st := AllocateDiskFrame();
        if st == NoSpace { return; }
        SetEntryOk(dirs, k, frame);
        dirs := SetTable(dirs, k.env, Pdx(k.page), dirs[k.env][Pdx(k.page)][Ptx(k.page) := frame]);
      }
    }

    /** pf_add_env_page */
    method AddEnvPage(k: Key, data: Bytes) returns (st: Status)
      requires Valid()
      modifies this
      ensures Valid() && (Flat(), st) == D.AddPage(old(Flat()), k, data)
    {
      if k.page >= KERNEL_PAGE { return Panic; }
      AddSound(Flat(), k, data);
      var frame;
      frame, st := ReserveFrame(k);
      if st == Done { disk := disk[frame := data]; }
    }

    /** pf_add_empty_env_page */
    method AddEmptyEnvPage(k: Key, zeroed: bool) returns (st: Status)
      requires Valid()
      modifies this
      ensures Valid() && (Flat(), st) == AddEmpty(old(Flat()), k, zeroed)
    {
      if zeroed {
        st := AddEnvPage(k, ZeroPage());
        return;
      }
      if k.page >= KERNEL_PAGE { return Panic; }
      ReserveSound(Flat(), k);
      var frame;
      frame, st := ReserveFrame(k);
    }

    /** pf_read_env_page */
    method ReadEnvPage(k: Key) returns (r: Option<Bytes>)
      requires Valid()
      ensures r == Lookup(Flat(), k)
    {
      if k.env !in dirs { return None; }
      if Pdx(k.page) !in dirs[k.env] { return None; }
      var frame := dirs[k.env][Pdx(k.page)][Ptx(k.page)];
      if frame == 0 { return None; }
      assert k in Used(dirs);
      return Some(disk[frame]);
    }

    /** pf_remove_env_page */
    method RemoveEnvPage(k: Key)
      requires Valid()
      modifies this`free, this`dirs
      ensures Valid() && Flat() == Remove(old(Flat()), k)
    {
      RemoveSound(Flat(), k);
      if k.env !in dirs { return; }
      if Pdx(k.page) !in dirs[k.env] { return; }
      ClearEntry(k);
    }

    method ClearEntry(k: Key)
      requires Shape(dirs) && k.env in dirs && Pdx(k.page) in dirs[k.env]
      modifies this`free, this`dirs
      ensures Shape(dirs) && Flat() == Remove(old(Flat()), k)
      ensures dirs.Keys == old(dirs).Keys && dirs[k.env].Keys == old(dirs[k.env]).Keys
    {
      ClearedFlat(disk, free, dirs, k);
      var frame := dirs[k.env][Pdx(k.page)][Ptx(k.page)];
      dirs := SetTable(dirs, k.env, Pdx(k.page), dirs[k.env][Pdx(k.page)][Ptx(k.page) := 0]);
      FreeDiskFrame(frame);
    }

    /** The inner loop of pf_free_env */
    method EmptyTable(env: nat, d: nat, ghost f: Flat)
      requires Shape(dirs) && env in dirs && d in dirs[env]
      requires Flat() == RemoveFirst(f, env, d * ENTRIES)
      modifies this`free, this`dirs
      ensures Shape(dirs) && Flat() == RemoveFirst(f, env, (d + 1) * ENTRIES)
      ensures dirs.Keys == old(dirs).Keys && dirs[env].Keys == old(dirs[env]).Keys
    {
      var i: nat := 0;
      while i < ENTRIES
        invariant i <= ENTRIES && Shape(dirs)
        invariant dirs.Keys == old(dirs).Keys && dirs[env].Keys == old(dirs[env]).Keys
        invariant Flat() == RemoveFirst(f, env, d * ENTRIES + i)
      {
        Indices(d, i);
        RemoveStep(f, env, d * ENTRIES + i);
        ClearEntry(Key(env, d * ENTRIES + i));
        i := i + 1;
      }
    }

    method FreeTable(env: nat, d: nat, ghost f: Flat)
      requires Shape(dirs) && env in dirs && d in dirs[env]
      requires Flat() == RemoveFirst(f, env, d * ENTRIES)
      modifies this`free, this`dirs
      ensures Shape(dirs) && Flat() == RemoveFirst(f, env, (d + 1) * ENTRIES)
      ensures dirs.Keys == old(dirs).Keys && dirs[env].Keys == old(dirs[env]).Keys - {d}
    {
      EmptyTable(env, d, f);
      TableEmptied(f, env, d);
      DropTableOk(dirs, env, d);
      dirs := dirs[env := dirs[env] - {d}];
    }

    /** pf_free_env */
    method FreeEnvPages(env: nat)
      requires Valid() && env in dirs
      modifies this`free, this`dirs
      ensures Valid() && Flat() == FreeEnv(old(Flat()), env) && env !in dirs
    {
      ghost var f := Flat();
      var d: nat := 0;
      while d < USER_PDX
        invariant d <= USER_PDX && Shape(dirs) && env in dirs
        invariant Flat() == RemoveFirst(f, env, d * ENTRIES)
      {
        if d in dirs[env] {
          FreeTable(env, d, f);
        } else {
          NoTable(f, dirs, env, d);
        }
        d := d + 1;
      }
      FreeEnvSound(f, env);
      DropDirOk(dirs, env);
      dirs := dirs - {env};
    }

    /** The inner loop of pf_calculate_allocated_pages */
    method CountTable(env: nat, d: nat) returns (n: nat)
      requires Shape(dirs) && env in dirs && d in dirs[env]
      ensures Counted(dirs, env, (d + 1) * ENTRIES) == Counted(dirs, env, d * ENTRIES) + n
    {
      n := 0;
      var i: nat := 0;
      while i < ENTRIES
        invariant i <= ENTRIES && Counted(dirs, env, d * ENTRIES + i) == Counted(dirs, env, d * ENTRIES) + n
      {
        CountedStep(dirs, env, d, i, d * ENTRIES + i);
        if dirs[env][d][i] != 0 { n := n + 1; }
        i := i + 1;
      }
    }

    /** pf_calculate_allocated_pages */
    method CalculateAllocatedPages(env: nat) returns (counter: nat)
      requires Shape(dirs) && env in dirs
      ensures counter == |StoredBelow(Flat().used, env, USER_PDX * ENTRIES)|
    {
      counter := 0;
      var d: nat := 0;
      while d < USER_PDX
        invariant d <= USER_PDX && counter == Counted(dirs, env, d * ENTRIES)
      {
        if d in dirs[env] {
          var n := CountTable(env, d);
          counter := counter + n;
        } else {
          CountedSkip(dirs, env, d * ENTRIES, ENTRIES);
        }
        d := d + 1;
      }
      CountedIsSize(dirs, Used(dirs), env, USER_PDX * ENTRIES);
    }

    /** pf_calculate_free_frames */
    method CalculateFreeFrames() returns (n: nat)
      requires Valid()
      ensures n + |Flat().used| <= |disk| - 1
      ensures n + |Flat().used| == |disk| - 1 <==> Complete(Flat())
    {
      FramesConserved(Flat());
      n := |free|;
    }
  }

  lemma TableEmptied(f: Flat, env: nat, d: nat)
    ensures forall k :: k in RemoveFirst(f, env, (d + 1) * ENTRIES).used && k.env == env ==> Pdx(k.page) != d
  {
    RemoveFirstUsed(f, env, (d + 1) * ENTRIES);
  }

  lemma NoTable(f: Flat, dirs: Dirs, env: nat, d: nat)
    requires Shape(dirs) && env in dirs && d !in dirs[env] && Used(dirs) == RemoveFirst(f, env, d * ENTRIES).used
    ensures RemoveFirst(f, env, (d + 1) * ENTRIES) == RemoveFirst(f, env, d * ENTRIES)
  {
    RemoveFirstUsed(f, env, d * ENTRIES);
    forall p: nat | d * ENTRIES <= p < d * ENTRIES + ENTRIES
      ensures Key(env, p) !in f.used
    {
      assert Pdx(p) == d;
      assert Entry(dirs, Key(env, p)) == 0;
    }
    SkipPages(f, env, d * ENTRIES, ENTRIES);
  }
}
