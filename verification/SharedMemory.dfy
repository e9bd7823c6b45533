/**
  Shared objects: creating one maps fresh frames into its owner, getting one maps
  the same frames into another process.
 */
module SharedMemory {
  import opened SeqUtil
  import F = Frames
  import opened MemoryManager
  import opened RangeMap

  const PAGE_SIZE: nat := 4096
  const NAME_LIMIT: nat := 64

  datatype Share = Share(owner: nat, name: string, size: nat, writable: bool, references: nat,
                         frames: seq<nat>, id: nat)

  /** A process that looks at the object called (owner, name) from a page of its own. */
  datatype View = View(owner: nat, name: string, space: nat, page: nat, writable: bool, creator: bool)

  datatype Result = Id(id: nat) | AlreadyExists | NotExists | NoShare | Halted

  function PageCount(size: nat): nat { (size + PAGE_SIZE - 1) / PAGE_SIZE }

  predicate SameKey(x: Share, owner: nat, name: string) { x.owner == owner && x.name == name }

  predicate KeysUnique(shares: seq<Share>) {
    forall i, j :: 0 <= i < j < |shares| ==> !SameKey(shares[i], shares[j].owner, shares[j].name)
  }

  /** Page i of the view is mapped to frame i of the object, with the view's permission. */
  ghost predicate Shows(s: F.State, frames: seq<nat>, v: View) {
    forall i :: 0 <= i < |frames| ==> MapsTo(s, F.Loc(v.space, v.page + i), frames[i], v.writable)
  }

  /** How often the object called (owner, name) has been got. */
  function Gets(views: seq<View>, owner: nat, name: string): nat {
    if views == [] then 0
    else (if views[0].owner == owner && views[0].name == name && !views[0].creator then 1 else 0)
         + Gets(views[1..], owner, name)
  }

  /** One share and the views of it. */
  ghost predicate ShareOk(s: F.State, x: Share, views: seq<View>) {
    && |x.frames| == PageCount(x.size) && x.size > 0 && NoDup(x.frames)
    && (exists v :: v in views && SameKey(x, v.owner, v.name) && v.creator)
    && x.references == 1 + Gets(views, x.owner, x.name)
    && (forall v :: v in views && SameKey(x, v.owner, v.name) ==> Shows(s, x.frames, v))
  }

  /** A view belongs to an object; its creator may write, a getter may write iff the object is writable. */
  ghost predicate ViewOk(shares: seq<Share>, v: View) {
    exists x :: x in shares && SameKey(x, v.owner, v.name) && v.writable == (v.creator || x.writable)
  }

  ghost predicate Inv(s: F.State, reserved: set<nat>, shares: seq<Share>, views: seq<View>) {
    && F.Accounts(s, reserved, {})
    && KeysUnique(shares)
    && (forall x :: x in shares ==> ShareOk(s, x, views))
    && (forall v :: v in views ==> ViewOk(shares, v))
  }

  /**
    What holds of every object: sharers look at the same frames, page by page, getters can
    write iff the object is writable, and the object counts its owner and its getters.
   */
  lemma SharersSeeSameFrames(s: F.State, reserved: set<nat>, shares: seq<Share>, views: seq<View>,
                             x: Share, v: View, w: View, i: nat)
    requires Inv(s, reserved, shares, views) && x in shares && v in views && w in views
    requires SameKey(x, v.owner, v.name) && SameKey(x, w.owner, w.name) && i < PageCount(x.size)
    ensures i < |x.frames|
    ensures MapsTo(s, F.Loc(v.space, v.page + i), x.frames[i], v.writable)
    ensures MapsTo(s, F.Loc(w.space, w.page + i), x.frames[i], w.writable)
    ensures v.writable <==> v.creator || x.writable
    ensures x.references == 1 + Gets(views, x.owner, x.name)
    ensures forall y :: y in shares && SameKey(y, x.owner, x.name) ==> y == x
  {
    assert ShareOk(s, x, views);
    assert Shows(s, x.frames, v) && Shows(s, x.frames, w);
    assert ViewOk(shares, v);
  }

  /**
    Byte by byte: every byte of an object lies in a page that all its sharers map to the same
    frame, and the object has no frame that none of its bytes needs.
   */
  lemma SharersSeeSameBytes(s: F.State, reserved: set<nat>, shares: seq<Share>, views: seq<View>, x: Share, v: View, d: nat)
    requires Inv(s, reserved, shares, views) && x in shares && v in views && SameKey(x, v.owner, v.name) && d < x.size
    ensures d / PAGE_SIZE < |x.frames|
    ensures MapsTo(s, F.Loc(v.space, v.page + d / PAGE_SIZE), x.frames[d / PAGE_SIZE], v.writable)
    ensures (|x.frames| - 1) * PAGE_SIZE < x.size
  {
    assert ShareOk(s, x, views);
    assert Shows(s, x.frames, v);
    RoundedUp(x.size, d);
  }

  /** The pages of an object are as many as its bytes need. */
  lemma RoundedUp(size: nat, d: nat)
    requires d < size
    ensures d / PAGE_SIZE < PageCount(size) && (PageCount(size) - 1) * PAGE_SIZE < size <= PageCount(size) * PAGE_SIZE
  {}

  /** What the pages of a fresh range, and unmapped heap pages, were given to leaves every view alone. */
  ghost predicate Elsewhere(s: F.State, t: F.State, space: nat, page: nat, n: nat, heap: seq<nat>) {
    FreshRange(s, space, page, n) && Supply(s, heap) && OnlyRange(s, t, space, page, n, heap)
  }

  lemma ShowsSurvives(s: F.State, t: F.State, frames: seq<nat>, v: View, space: nat, page: nat, n: nat, heap: seq<nat>)
    requires Shows(s, frames, v) && Elsewhere(s, t, space, page, n, heap)
    ensures Shows(t, frames, v)
  {
    forall i | 0 <= i < |frames|
      ensures MapsTo(t, F.Loc(v.space, v.page + i), frames[i], v.writable)
    {
      assert MapsTo(s, F.Loc(v.space, v.page + i), frames[i], v.writable);
    }
  }

  lemma CreatorStays(x: Share, views: seq<View>, v: View)
    requires exists w :: w in views && SameKey(x, w.owner, w.name) && w.creator
    ensures exists w :: w in [v] + views && SameKey(x, w.owner, w.name) && w.creator
  {
    var w :| w in views && SameKey(x, w.owner, w.name) && w.creator;
    assert w in [v] + views;
  }

  /** The frames of a share are live: its creator's view names them. */
  lemma FramesMapped(s: F.State, reserved: set<nat>, shares: seq<Share>, views: seq<View>, x: Share)
    requires Inv(s, reserved, shares, views) && x in shares
    ensures NoDup(x.frames)
    ensures forall i :: 0 <= i < |x.frames| ==>
      x.frames[i] < |s.refs| && x.frames[i] !in reserved && 0 < s.refs[x.frames[i]]
  {
    assert ShareOk(s, x, views);
    var v :| v in views && SameKey(x, v.owner, v.name) && v.creator;
    assert Shows(s, x.frames, v);
    forall i | 0 <= i < |x.frames|
      ensures x.frames[i] < |s.refs| && x.frames[i] !in reserved && 0 < s.refs[x.frames[i]]
    {
      var l := F.Loc(v.space, v.page + i);
      assert MapsTo(s, l, x.frames[i], v.writable);
      F.MappedFrame(s, reserved, {}, l);
    }
  }

  /** A share keeps its views when a view of another share is added. */
  lemma ShareSurvives(s: F.State, t: F.State, y: Share, views: seq<View>, v: View, n: nat, heap: seq<nat>)
    requires ShareOk(s, y, views) && !SameKey(y, v.owner, v.name)
    requires Elsewhere(s, t, v.space, v.page, n, heap)
    ensures ShareOk(t, y, [v] + views)
  {
    assert ([v] + views)[1..] == views;
    CreatorStays(y, views, v);
    forall w | w in [v] + views && SameKey(y, w.owner, w.name)
      ensures Shows(t, y.frames, w)
    {
      assert w in views;
      ShowsSurvives(s, t, y.frames, w, v.space, v.page, n, heap);
    }
  }

  /** Recording a share and its creator's view keeps the invariant. */
  lemma CreateKeepsInv(s: F.State, t: F.State, reserved: set<nat>, shares: seq<Share>, views: seq<View>,
                       x: Share, v: View, heap: seq<nat>)
    requires Inv(s, reserved, shares, views) && F.Accounts(t, reserved, {})
    requires forall y :: y in shares ==> !SameKey(y, x.owner, x.name)
    requires x.size > 0 && x.references == 1 && |x.frames| == PageCount(x.size) && NoDup(x.frames)
    requires v.owner == x.owner && v.name == x.name && v.writable && v.creator
    requires Elsewhere(s, t, v.space, v.page, |x.frames|, heap) && Shows(t, x.frames, v)
    ensures Inv(t, reserved, [x] + shares, [v] + views)
  {
    var shares', views' := [x] + shares, [v] + views;
    ConsUnique(x, shares);
    forall y | y in shares'
      ensures ShareOk(t, y, views')
    {
      if y in shares {
        ShareSurvives(s, t, y, views, v, |x.frames|, heap);
      } else {
        FirstViewOk(t, shares, views, x, v);
      }
    }
    FirstViewed(x, shares, v);
    forall w | w in views'
      ensures ViewOk(shares', w)
    {
      if w != v { ViewStaysBehind(x, shares, w); }
    }
  }

  lemma ConsUnique(x: Share, shares: seq<Share>)
    requires KeysUnique(shares) && (forall y :: y in shares ==> !SameKey(y, x.owner, x.name))
    ensures KeysUnique([x] + shares)
  {
    assert forall i :: 0 <= i < |shares| ==> shares[i] in shares;
  }

  lemma FirstViewed(x: Share, shares: seq<Share>, v: View)
    requires v.owner == x.owner && v.name == x.name && v.writable && v.creator
    ensures ViewOk([x] + shares, v)
  {
    assert x in [x] + shares;
  }

  lemma ViewStaysBehind(x: Share, shares: seq<Share>, w: View)
    requires ViewOk(shares, w)
    ensures ViewOk([x] + shares, w)
  {
    var y :| y in shares && SameKey(y, w.owner, w.name) && w.writable == (w.creator || y.writable);
    assert y in [x] + shares;
  }

  lemma FirstViewOk(t: F.State, shares: seq<Share>, views: seq<View>, x: Share, v: View)
    requires forall w :: w in views ==> ViewOk(shares, w)
    requires forall y :: y in shares ==> !SameKey(y, x.owner, x.name)
    requires x.size > 0 && x.references == 1 && |x.frames| == PageCount(x.size) && NoDup(x.frames)
    requires v.owner == x.owner && v.name == x.name && v.writable && v.creator && Shows(t, x.frames, v)
    ensures ShareOk(t, x, [v] + views)
  {
    assert ([v] + views)[1..] == views && v in [v] + views;
    NoViewsWithoutShare(shares, views, x.owner, x.name);
    forall w | w in [v] + views && SameKey(x, w.owner, w.name)
      ensures Shows(t, x.frames, w)
    {
      assert w in views ==> ViewOk(shares, w);
    }
  }

  lemma {:induction false} NoViewsWithoutShare(shares: seq<Share>, views: seq<View>, owner: nat, name: string)
    requires forall v :: v in views ==> ViewOk(shares, v)
    requires forall y :: y in shares ==> !SameKey(y, owner, name)
    ensures Gets(views, owner, name) == 0
  {
    if views != [] {
      assert ViewOk(shares, views[0]);
      assert forall v :: v in views[1..] ==> v in views;
      NoViewsWithoutShare(shares, views[1..], owner, name);
    }
  }

  /** The share that was got: one more view, one more reference. */
  lemma ShareGains(s: F.State, t: F.State, x: Share, views: seq<View>, v: View, heap: seq<nat>)
    requires ShareOk(s, x, views) && SameKey(x, v.owner, v.name) && !v.creator && Shows(t, x.frames, v)
    requires Elsewhere(s, t, v.space, v.page, |x.frames|, heap)
    ensures ShareOk(t, x.(references := x.references + 1), [v] + views)
  {
    var x' := x.(references := x.references + 1);
    assert ([v] + views)[1..] == views;
    CreatorStays(x', views, v) by {
      var w :| w in views && SameKey(x, w.owner, w.name) && w.creator;
      assert SameKey(x', w.owner, w.name);
    }
    forall w | w in [v] + views && SameKey(x', w.owner, w.name)
      ensures Shows(t, x'.frames, w)
    {
      if w in views { ShowsSurvives(s, t, x.frames, w, v.space, v.page, |x.frames|, heap); }
    }
  }

  lemma ViewStays(shares: seq<Share>, k: nat, w: View)
    requires k < |shares| && ViewOk(shares, w)
    ensures ViewOk(shares[k := shares[k].(references := shares[k].references + 1)], w)
  {
    var shares' := shares[k := shares[k].(references := shares[k].references + 1)];
    var y :| y in shares && SameKey(y, w.owner, w.name) && w.writable == (w.creator || y.writable);
    var j :| 0 <= j < |shares| && shares[j] == y;
    assert shares'[j] in shares' && SameKey(shares'[j], w.owner, w.name);
  }

  lemma OtherKey(shares: seq<Share>, j: nat, k: nat)
    requires KeysUnique(shares) && j < |shares| && k < |shares| && j != k
    ensures !SameKey(shares[j], shares[k].owner, shares[k].name)
  {
    if k < j { assert !SameKey(shares[k], shares[j].owner, shares[j].name); }
  }

  /** One more reference to share k. */
  function Referenced(shares: seq<Share>, k: nat): seq<Share>
    requires k < |shares|
  {
    shares[k := shares[k].(references := shares[k].references + 1)]
  }

  lemma ShareAfterGet(s: F.State, t: F.State, shares: seq<Share>, views: seq<View>, k: nat, v: View, heap: seq<nat>, j: nat)
    requires KeysUnique(shares) && j < |shares| && k < |shares| && ShareOk(s, shares[j], views)
    requires SameKey(shares[k], v.owner, v.name) && !v.creator && Shows(t, shares[k].frames, v)
    requires Elsewhere(s, t, v.space, v.page, |shares[k].frames|, heap)
    ensures ShareOk(t, Referenced(shares, k)[j], [v] + views)
  {
    if j == k {
      ShareGains(s, t, shares[k], views, v, heap);
    } else {
      OtherKey(shares, j, k);
      ShareSurvives(s, t, shares[j], views, v, |shares[k].frames|, heap);
    }
  }

  /** Recording one more view of an existing share keeps the invariant. */
  lemma GetKeepsInv(s: F.State, t: F.State, reserved: set<nat>, shares: seq<Share>, views: seq<View>,
                    k: nat, v: View, heap: seq<nat>)
    requires Inv(s, reserved, shares, views) && F.Accounts(t, reserved, {}) && k < |shares|
    requires SameKey(shares[k], v.owner, v.name) && v.writable == shares[k].writable && !v.creator
    requires Elsewhere(s, t, v.space, v.page, |shares[k].frames|, heap) && Shows(t, shares[k].frames, v)
    ensures Inv(t, reserved, Referenced(shares, k), [v] + views)
  {
    var shares', views' := Referenced(shares, k), [v] + views;
    forall y | y in shares'
      ensures ShareOk(t, y, views')
    {
      var j :| 0 <= j < |shares'| && shares'[j] == y;
      assert shares[j] in shares;
      ShareAfterGet(s, t, shares, views, k, v, heap, j);
    }
    forall w | w in views'
      ensures ViewOk(shares', w)
    {
      if w == v {
        assert shares[k] in shares && ViewOk(shares, v);
      }
      ViewStays(shares, k, w);
    }
  }

  lemma UsedNotFree(s: F.State, reserved: set<nat>)
    requires F.Accounts(s, reserved, {})
    ensures forall g: nat :: g < |s.refs| && 0 < s.refs[g] ==> g !in s.free
  {
    forall g: nat | g < |s.refs| && 0 < s.refs[g]
      ensures g !in s.free
    {
      assert F.FrameOk(s, reserved, {}, g);
    }
  }

  /** A frame no entry names is none of the frames already mapped. */
  lemma FreshFrame(s: F.State, frames: seq<nat>, space: nat, page: nat, f: nat)
    requires forall j :: 0 <= j < |frames| ==> MapsTo(s, F.Loc(space, page + j), frames[j], true)
    requires F.Users(s.pte, f) == {}
    ensures f !in frames
  {
    forall j | 0 <= j < |frames|
      ensures frames[j] != f
    {
      assert MapsTo(s, F.Loc(space, page + j), frames[j], true);
      assert F.Loc(space, page + j) !in F.Users(s.pte, f);
    }
  }

  /** t is s with the first i of the n pages mapped, to frames, and the heap pages rest still unused. */
  ghost predicate Mapped(s: F.State, t: F.State, reserved: set<nat>, frames: seq<nat>, v: View, n: nat, i: nat,
                         heap: seq<nat>, rest: seq<nat>)
    requires i <= |frames| && i <= n
  {
    && F.Accounts(t, reserved, {}) && |t.refs| == |s.refs|
    && OnlyRange(s, t, v.space, v.page, i, heap)
    && Supply(t, rest) && (forall h :: h in rest ==> h in heap)
    && StillNeeded(t.pte.Keys, v.space, v.page, n, i) <= |rest|
    && (forall j :: 0 <= j < i ==> MapsTo(t, F.Loc(v.space, v.page + j), frames[j], v.writable))
  }

  /** The first i frames were used by nobody in s. */
  ghost predicate Fresh(s: F.State, frames: seq<nat>) {
    forall f :: f in frames ==> F.Users(s.pte, f) == {}
  }

  /** A frame nobody uses part-way was used by nobody at the start. */
  lemma StillFresh(s: F.State, t: F.State, frames: seq<nat>, v: View, n: nat, i: nat, heap: seq<nat>, f: nat)
    requires Fresh(s, frames) && F.Users(t.pte, f) == {} && i <= n
    requires FreshRange(s, v.space, v.page, n) && Supply(s, heap) && OnlyRange(s, t, v.space, v.page, i, heap)
    ensures Fresh(s, frames + [f])
  {
    forall x | x in F.Users(s.pte, f)
      ensures x in F.Users(t.pte, f)
    {
      assert F.HoldsFrame(s.pte[x]);
    }
  }

  lemma MappedStart(s: F.State, reserved: set<nat>, frames: seq<nat>, v: View, n: nat, heap: seq<nat>)
    requires F.Accounts(s, reserved, {}) && Supply(s, heap) && Need(s.pte.Keys, v.space, v.page, n) <= |heap|
    ensures Mapped(s, s, reserved, frames, v, n, 0, heap, heap)
  {}

  /** The frame of a page still to be mapped does not matter. */
  lemma MappedPrefix(s: F.State, t: F.State, reserved: set<nat>, frames: seq<nat>, f: nat, v: View, n: nat, i: nat,
                     heap: seq<nat>, rest: seq<nat>)
    requires i == |frames| <= n && Mapped(s, t, reserved, frames, v, n, i, heap, rest)
    ensures Mapped(s, t, reserved, frames + [f], v, n, i, heap, rest)
  {}

  /** One page more. */
  lemma MappedNext(s: F.State, t: F.State, u: F.State, reserved: set<nat>, frames: seq<nat>, v: View, n: nat, i: nat,
                   heap: seq<nat>, rest: seq<nat>, f: nat)
    requires i < n && i < |frames| && frames[i] == f && v.space != 0
    requires Mapped(s, t, reserved, frames, v, n, i, heap, rest) && Supply(s, heap)
    requires F.Accounts(u, reserved, {}) && |u.refs| == |t.refs|
    requires PageMapped(t, u, F.Loc(v.space, v.page + i), f, v.writable, rest)
    ensures var m := Missing(t.pte.Keys, F.Loc(v.space, v.page + i));
      m <= |rest| && Mapped(s, u, reserved, frames, v, n, i + 1, heap, rest[m..])
  {
    var l := F.Loc(v.space, v.page + i);
    NeededStep(t.pte.Keys, v.space, v.page, n, i);
    SupplyAfter(t, u, l, f, v.writable, rest);
    OnlyRangeNext(s, t, u, v.space, v.page, i, f, v.writable, heap, rest);
    ShownNext(t, u, frames, v, i, rest);
  }

  lemma ShownNext(t: F.State, u: F.State, frames: seq<nat>, v: View, i: nat, rest: seq<nat>)
    requires i < |frames| && Supply(t, rest)
    requires PageMapped(t, u, F.Loc(v.space, v.page + i), frames[i], v.writable, rest)
    requires forall j :: 0 <= j < i ==> MapsTo(t, F.Loc(v.space, v.page + j), frames[j], v.writable)
    ensures forall j :: 0 <= j < i + 1 ==> MapsTo(u, F.Loc(v.space, v.page + j), frames[j], v.writable)
  {
    forall j | 0 <= j < i
      ensures MapsTo(u, F.Loc(v.space, v.page + j), frames[j], v.writable)
    {
      MapsToStays(t, u, F.Loc(v.space, v.page + i), frames[i], v.writable, rest,
                  F.Loc(v.space, v.page + j), frames[j], v.writable);
    }
  }

  /** One page more, on a frame nobody used. */
  lemma CreatedNext(s: F.State, t: F.State, u: F.State, reserved: set<nat>, frames: seq<nat>, v: View, n: nat, i: nat,
                    heap: seq<nat>, rest: seq<nat>, f: nat)
    requires i < n && i == |frames| && NoDup(frames) && v.space != 0 && v.writable
    requires Mapped(s, t, reserved, frames, v, n, i, heap, rest) && Supply(s, heap)
    requires F.Accounts(u, reserved, {}) && |u.refs| == |t.refs| && F.Users(t.pte, f) == {}
    requires PageMapped(t, u, F.Loc(v.space, v.page + i), f, v.writable, rest)
    ensures NoDup(frames + [f])
    ensures var m := Missing(t.pte.Keys, F.Loc(v.space, v.page + i));
      m <= |rest| && Mapped(s, u, reserved, frames + [f], v, n, i + 1, heap, rest[m..])
  {
    FreshFrame(t, frames, v.space, v.page, f);
    MappedPrefix(s, t, reserved, frames, f, v, n, i, heap, rest);
    MappedNext(s, t, u, reserved, frames + [f], v, n, i, heap, rest, f);
  }

  /** The frames from i on are live and can take one more mapping. */
  ghost predicate Mappable(s: F.State, reserved: set<nat>, frames: seq<nat>, i: nat) {
    forall j :: 0 <= i <= j < |frames| ==>
      frames[j] < |s.refs| && frames[j] !in reserved && 0 < s.refs[frames[j]] && s.refs[frames[j]] + 1 < F.U16
  }

  /** What get_shared_object may assume of its caller: a range without mappings, and no frame with 65535 of them. */
  ghost predicate Gettable(s: F.State, x: Share, space: nat, page: nat, heap: seq<nat>) {
    && FreshRange(s, space, page, |x.frames|) && Supply(s, heap)
    && (forall f :: f in x.frames && f < |s.refs| ==> s.refs[f] + 1 < F.U16)
  }

  class ShareManager {
    const mm: FrameTable
    var shares: seq<Share>              // shares_list, head first
    ghost const reserved: set<nat>
    ghost var views: seq<View>

    ghost predicate Valid()
      reads this, mm
    {
      Inv(mm.Abs(), reserved, shares, views)
    }

    /** sharing_init */
    constructor (mm: FrameTable, ghost reserved: set<nat>)
      requires F.Accounts(mm.Abs(), reserved, {})
      ensures Valid() && shares == [] && views == [] && this.mm == mm && this.reserved == reserved
    {
      this.mm, this.reserved, shares, views := mm, reserved, [], [];
    }

    /** find_share: position in the list, or its length */
    method FindShare(owner: nat, name: string) returns (k: nat)
      ensures k <= |shares| && (k < |shares| ==> SameKey(shares[k], owner, name))
      ensures k == |shares| ==> forall x :: x in shares ==> !SameKey(x, owner, name)
    {
      k := 0;
      while k < |shares|
        invariant 0 <= k <= |shares|
        invariant forall j :: 0 <= j < k ==> !SameKey(shares[j], owner, name)
      {
        if SameKey(shares[k], owner, name) {
          return;
        }
        k := k + 1;
      }
    }

    /** map_frame at one page, on the first heap page if a table is missing */
    method MapOne(l: F.Loc, f: nat, writable: bool, heap: seq<nat>, ghost flight: set<nat>)
      requires Ready(mm.Abs(), reserved, flight, l, f, heap)
      modifies mm
      ensures F.Accounts(mm.Abs(), reserved, flight - {f})
      ensures PageMapped(old(mm.Abs()), mm.Abs(), l, f, writable, heap)
      ensures |mm.free| == |old(mm.free)| - Missing(old(mm.pte).Keys, l) && |mm.refs| == |old(mm.refs)|
      ensures forall g: nat :: g < |mm.refs| && g != f && g !in old(mm.free) ==> mm.refs[g] == old(mm.refs)[g]
    {
      ghost var s := mm.Abs();
      ReadyFacts(s, reserved, flight, l, f, heap);
      var _ := mm.MapFrame(l, f, writable, true, if l in mm.pte then 0 else heap[0], reserved, flight);
      StepOk(s, reserved, flight, l, f, writable, heap, mm.Abs());
    }

    /** One page: allocate_frame, then map_frame, which may need a frame for the table too */
    method CreatePage(l: F.Loc, heap: seq<nat>) returns (f: nat)
      requires F.Accounts(mm.Abs(), reserved, {}) && l.space != 0 && (l in mm.pte ==> !F.HoldsFrame(mm.pte[l]))
      requires 1 + Missing(mm.pte.Keys, l) <= |mm.free| && Supply(mm.Abs(), heap) && Missing(mm.pte.Keys, l) <= |heap|
      modifies mm
      ensures F.Accounts(mm.Abs(), reserved, {}) && |mm.refs| == |old(mm.refs)|
      ensures |mm.free| == |old(mm.free)| - 1 - Missing(old(mm.pte).Keys, l)
      ensures F.Users(old(mm.pte), f) == {}
      ensures PageMapped(old(mm.Abs()), mm.Abs(), l, f, true, heap)
    {
      F.AllocateKeepsAccounts(mm.Abs(), reserved, {});
      var fo := mm.AllocateFrame();
      f := fo.value;
      assert F.FrameOk(mm.Abs(), reserved, {} + {f}, f);
      assert {} + {f} - {f} == {};
      MapOne(l, f, true, heap, {} + {f});
    }

    /** The loop of create_shared_object: a fresh frame for each page */
    method CreatePages(v: View, n: nat, heap: seq<nat>) returns (frames: seq<nat>)
      requires F.Accounts(mm.Abs(), reserved, {}) && FreshRange(mm.Abs(), v.space, v.page, n) && v.writable
      requires n + Need(mm.pte.Keys, v.space, v.page, n) <= |mm.free|
      requires Supply(mm.Abs(), heap) && Need(mm.pte.Keys, v.space, v.page, n) <= |heap|
      modifies mm
      ensures F.Accounts(mm.Abs(), reserved, {}) && |frames| == n && NoDup(frames) && Fresh(old(mm.Abs()), frames)
      ensures OnlyRange(old(mm.Abs()), mm.Abs(), v.space, v.page, n, heap) && Shows(mm.Abs(), frames, v)
    {
      frames := [];
      var rest := heap;
      ghost var s0 := mm.Abs();
      MappedStart(s0, reserved, frames, v, n, heap);
      for i := 0 to n
        invariant |frames| == i && NoDup(frames) && Fresh(s0, frames)
        invariant Mapped(s0, mm.Abs(), reserved, frames, v, n, i, heap, rest)
        invariant n - i + StillNeeded(mm.pte.Keys, v.space, v.page, n, i) <= |mm.free|
      {
        frames, rest := CreateNext(v, n, i, heap, rest, frames, s0);
      }
    }

    /** One turn of that loop */
    method CreateNext(v: View, n: nat, i: nat, ghost heap: seq<nat>, rest: seq<nat>, frames: seq<nat>, ghost s0: F.State)
      returns (frames': seq<nat>, rest': seq<nat>)
      requires i < n && |frames| == i && NoDup(frames) && Fresh(s0, frames) && v.writable
      requires FreshRange(s0, v.space, v.page, n) && Supply(s0, heap)
      requires Mapped(s0, mm.Abs(), reserved, frames, v, n, i, heap, rest)
      requires n - i + StillNeeded(mm.pte.Keys, v.space, v.page, n, i) <= |mm.free|
      modifies mm
      ensures |frames'| == i + 1 && NoDup(frames') && Fresh(s0, frames')
      ensures Mapped(s0, mm.Abs(), reserved, frames', v, n, i + 1, heap, rest')
      ensures n - (i + 1) + StillNeeded(mm.pte.Keys, v.space, v.page, n, i + 1) <= |mm.free|
    {
      var l := F.Loc(v.space, v.page + i);
      ghost var t := mm.Abs();
      FreshAfter(s0, t, v.space, v.page, n, heap, i);
      NeededStep(t.pte.Keys, v.space, v.page, n, i);
      var m := if l in mm.pte then 0 else 1;
      var f := CreatePage(l, rest);
      StillFresh(s0, t, frames, v, n, i, heap, f);
      CreatedNext(s0, t, mm.Abs(), reserved, frames, v, n, i, heap, rest, f);
      frames' := frames + [f];
      rest' := rest[m..];
    }

    /** create_shared_object; heap lists the pages that kmalloc would answer for missing page tables */
    method CreateSharedObject(owner: nat, name: string, size: nat, writable: bool, space: nat, page: nat, heap: seq<nat>)
      returns (r: Result)
      requires Valid() && |name| < NAME_LIMIT && FreshRange(mm.Abs(), space, page, PageCount(size)) && Supply(mm.Abs(), heap)
      modifies this, mm
      ensures Valid()
      ensures (exists x :: x in old(shares) && SameKey(x, owner, name)) ==>
                r == AlreadyExists && shares == old(shares) && mm.Abs() == old(mm.Abs())
      ensures (forall x :: x in old(shares) ==> !SameKey(x, owner, name)) ==>
        var n := PageCount(size);
        var tables := Need(old(mm.pte).Keys, space, page, n);
        && (size == 0 ==> r == NoShare && shares == old(shares) && mm.Abs() == old(mm.Abs()))
        && (size > 0 && (n + tables > |old(mm.free)| || tables > |heap|) ==> r == Halted)
        && (size > 0 && n + tables <= |old(mm.free)| && tables <= |heap| ==>
              r == Id((page * PAGE_SIZE) % 0x8000_0000) && |shares| == |old(shares)| + 1 && shares[1..] == old(shares)
              && shares[0] == Share(owner, name, size, writable, 1, shares[0].frames, r.id)
              && views == [View(owner, name, space, page, true, true)] + old(views))
    {
      var k := FindShare(owner, name);
      if k < |shares| {
        return AlreadyExists;
      }
      if size == 0 {
        return NoShare;               // kmalloc(0) gives the storage array no memory
      }
      var n := PageCount(size);
      var tables := Need(mm.pte.Keys, space, page, n);
      if n + tables > |mm.free| || tables > |heap| {
        return Halted;                // allocate_frame or create_page_table panics on the way
      }
      ghost var s0 := mm.Abs();
      var id := (page * PAGE_SIZE) % 0x8000_0000;
      var v := View(owner, name, space, page, true, true);
      var frames := CreatePages(v, n, heap);
      var x := Share(owner, name, size, writable, 1, frames, id);
      ghost var t := mm.Abs();
      CreateKeepsInv(s0, t, reserved, shares, views, x, v, heap);
      shares, views := [x] + shares, [v] + views;
      assert mm.Abs() == t;
      r := Id(id);
    }

    /** One page of the loop of get_shared_object: map_frame of a frame that is mapped elsewhere */
    method MapPage(l: F.Loc, f: nat, writable: bool, heap: seq<nat>)
      requires F.Accounts(mm.Abs(), reserved, {}) && l.space != 0 && (l in mm.pte ==> !F.HoldsFrame(mm.pte[l]))
      requires f < |mm.refs| && f !in reserved && 0 < mm.refs[f] && mm.refs[f] + 1 < F.U16
      requires Missing(mm.pte.Keys, l) <= |mm.free| && Supply(mm.Abs(), heap) && Missing(mm.pte.Keys, l) <= |heap|
      modifies mm
      ensures F.Accounts(mm.Abs(), reserved, {}) && |mm.refs| == |old(mm.refs)|
      ensures |mm.free| == |old(mm.free)| - Missing(old(mm.pte).Keys, l)
      ensures forall g: nat :: g < |mm.refs| && g != f && 0 < old(mm.refs)[g] ==> mm.refs[g] == old(mm.refs)[g]
      ensures PageMapped(old(mm.Abs()), mm.Abs(), l, f, writable, heap)
    {
      assert F.FrameOk(mm.Abs(), reserved, {}, f);
      assert forall g: nat :: g < |mm.refs| && 0 < mm.refs[g] ==> g !in mm.free by { UsedNotFree(mm.Abs(), reserved); }
      assert {} - {f} == {};
      MapOne(l, f, writable, heap, {});
    }

    /** The loop of get_shared_object: the object's frames, page by page */
    method MapPages(frames: seq<nat>, v: View, heap: seq<nat>)
      requires F.Accounts(mm.Abs(), reserved, {}) && FreshRange(mm.Abs(), v.space, v.page, |frames|)
      requires Mappable(mm.Abs(), reserved, frames, 0) && NoDup(frames)
      requires Need(mm.pte.Keys, v.space, v.page, |frames|) <= |mm.free|
      requires Supply(mm.Abs(), heap) && Need(mm.pte.Keys, v.space, v.page, |frames|) <= |heap|
      modifies mm
      ensures F.Accounts(mm.Abs(), reserved, {})
      ensures OnlyRange(old(mm.Abs()), mm.Abs(), v.space, v.page, |frames|, heap) && Shows(mm.Abs(), frames, v)
    {
      var n, rest := |frames|, heap;
      ghost var s0 := mm.Abs();
      MappedStart(s0, reserved, frames, v, n, heap);
      for i := 0 to n
        invariant Mapped(s0, mm.Abs(), reserved, frames, v, n, i, heap, rest) && Mappable(mm.Abs(), reserved, frames, i)
        invariant StillNeeded(mm.pte.Keys, v.space, v.page, n, i) <= |mm.free|
      {
        rest := MapNext(frames, v, i, heap, rest, s0);
      }
    }

    /** One turn of that loop */
    method MapNext(frames: seq<nat>, v: View, i: nat, ghost heap: seq<nat>, rest: seq<nat>, ghost s0: F.State)
      returns (rest': seq<nat>)
      requires i < |frames| && NoDup(frames) && FreshRange(s0, v.space, v.page, |frames|) && Supply(s0, heap)
      requires Mapped(s0, mm.Abs(), reserved, frames, v, |frames|, i, heap, rest) && Mappable(mm.Abs(), reserved, frames, i)
      requires StillNeeded(mm.pte.Keys, v.space, v.page, |frames|, i) <= |mm.free|
      modifies mm
      ensures Mapped(s0, mm.Abs(), reserved, frames, v, |frames|, i + 1, heap, rest') && Mappable(mm.Abs(), reserved, frames, i + 1)
      ensures StillNeeded(mm.pte.Keys, v.space, v.page, |frames|, i + 1) <= |mm.free|
    {
      var l := F.Loc(v.space, v.page + i);
      ghost var t := mm.Abs();
      FreshAfter(s0, t, v.space, v.page, |frames|, heap, i);
      NeededStep(t.pte.Keys, v.space, v.page, |frames|, i);
      var m := if l in mm.pte then 0 else 1;
      MapPage(l, frames[i], v.writable, rest);
      rest' := rest[m..];
      MappedNext(s0, t, mm.Abs(), reserved, frames, v, |frames|, i, heap, rest, frames[i]);
    }

    /** The pages of a found object are mapped for one more sharer. */
    method MapShare(k: nat, v: View, heap: seq<nat>)
      requires Valid() && k < |shares|
      requires v == View(shares[k].owner, shares[k].name, v.space, v.page, shares[k].writable, false)
      requires Gettable(mm.Abs(), shares[k], v.space, v.page, heap)
      requires Need(mm.pte.Keys, v.space, v.page, |shares[k].frames|) <= |mm.free|
      requires Need(mm.pte.Keys, v.space, v.page, |shares[k].frames|) <= |heap|
      modifies mm
      ensures Inv(mm.Abs(), reserved, Referenced(shares, k), [v] + views)
    {
      ghost var s0 := mm.Abs();
      assert shares[k] in shares;
      FramesMapped(s0, reserved, shares, views, shares[k]);
      MapPages(shares[k].frames, v, heap);
      GetKeepsInv(s0, mm.Abs(), reserved, shares, views, k, v, heap);
    }

    /** What get_shared_object does with the object it found */
    method Attach(k: nat, space: nat, page: nat, heap: seq<nat>)
      requires Valid() && k < |shares| && Gettable(mm.Abs(), shares[k], space, page, heap)
      requires Need(mm.pte.Keys, space, page, |shares[k].frames|) <= |mm.free|
      requires Need(mm.pte.Keys, space, page, |shares[k].frames|) <= |heap|
      modifies this, mm
      ensures Valid()
      ensures var x := old(shares)[k];
        shares == Referenced(old(shares), k)
        && views == [View(x.owner, x.name, space, page, x.writable, false)] + old(views)
    {
      var v := View(shares[k].owner, shares[k].name, space, page, shares[k].writable, false);
      MapShare(k, v, heap);
      ghost var t := mm.Abs();
      shares, views := Referenced(shares, k), [v] + views;
      assert mm.Abs() == t;
    }

    /** get_shared_object; heap as for create_shared_object */
    method GetSharedObject(owner: nat, name: string, space: nat, page: nat, heap: seq<nat>) returns (r: Result, ghost k: nat)
      requires Valid()
      requires forall x :: x in shares && SameKey(x, owner, name) ==> Gettable(mm.Abs(), x, space, page, heap)
      modifies this, mm
      ensures Valid()
      ensures (forall x :: x in old(shares) ==> !SameKey(x, owner, name)) ==>
                r == NotExists && shares == old(shares) && mm.Abs() == old(mm.Abs())
      ensures (exists x :: x in old(shares) && SameKey(x, owner, name)) ==>
        k < |old(shares)| && var x := old(shares)[k];
          var tables := Need(old(mm.pte).Keys, space, page, |x.frames|);
          && SameKey(x, owner, name)
          && (tables > |old(mm.free)| || tables > |heap| ==> r == Halted)
          && (tables <= |old(mm.free)| && tables <= |heap| ==>
                r == Id(x.id) && shares == Referenced(old(shares), k)
                && views == [View(owner, name, space, page, x.writable, false)] + old(views))
    {
      var at := FindShare(owner, name);
      k := at;
      if at == |shares| {
        r := NotExists;
        return;
      }
      assert shares[at] in shares;
      var tables := Need(mm.pte.Keys, space, page, |shares[at].frames|);
      if tables > |mm.free| || tables > |heap| {
        return Halted, k;             // create_page_table panics on the way
      }
      r := Id(shares[at].id);
      Attach(at, space, page, heap);
    }
  }
}
