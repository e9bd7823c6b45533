/**
  free_user_mem: every page of a range leaves four structures at once, the heap
  mark, the working set, the page file and the page table, although each page is
  unmapped twice on the way.
 */
module UserMemory {
  import opened SeqUtil
  import F = Frames

  const PAGE_SIZE: nat := 4096

  /** What free_user_mem touches of a process. Pages stand for working-set elements. */
  datatype Proc = Proc(
    s: F.State,
    ws: seq<nat>,              // page_WS_list
    cursor: Option<nat>,       // page_last_WS_element
    active: seq<nat>,          // ActiveList of the LRU-lists policy
    second: seq<nat>,          // SecondList, pages held with the present bit cleared
    file: set<nat>)            // pages with a frame in the page file

  /** `lists` is isPageReplacmentAlgorithmLRU(PG_REP_LRU_LISTS_APPROX). */
  ghost predicate Inv(p: Proc, space: nat, reserved: set<nat>, lists: bool) {
    && F.Accounts(p.s, reserved, {})
    && (if lists then p.ws == [] && p.cursor == None else p.active == [] && p.second == [])
    && NoDup(p.ws) && NoDup(p.active + p.second)
    && (p.cursor.Some? ==> p.cursor.value in p.ws)
    && (forall q :: q in p.active ==> F.Loc(space, q) in p.s.pte && p.s.pte[F.Loc(space, q)].present)
    && (forall q :: q in p.second ==>
          F.Loc(space, q) in p.s.pte && F.HoldsFrame(p.s.pte[F.Loc(space, q)]) && !p.s.pte[F.Loc(space, q)].present)
  }

  // ---------- Steps ----------

  /** pt_set_page_permissions(.., 0, PERM_UHPAGE) */
  function Unmark(s: F.State, l: F.Loc): F.State
    requires l in s.pte
  {
    s.(pte := s.pte[l := s.pte[l].(uheap := false)])
  }

  /** pt_set_page_permissions(.., PERM_PRESENT, 0) */
  function MakePresent(s: F.State, l: F.Loc): F.State
    requires l in s.pte
  {
    s.(pte := s.pte[l := s.pte[l].(present := true)])
  }

  /** The node after page q in a list. */
  function NextIn(ws: seq<nat>, q: nat): (r: Option<nat>)
    ensures r.Some? ==> r.value in ws
  {
    if |ws| < 2 then None
    else if ws[0] == q then Some(ws[1])
    else NextIn(ws[1..], q)
  }

  /** env_page_ws_invalidate with the Active and Second lists */
  ghost function InvalidateLists(p: Proc, space: nat, reserved: set<nat>, page: nat): Proc
    requires Inv(p, space, reserved, true) && F.Loc(space, page) in p.s.pte
  {
    var l := F.Loc(space, page);
    if page in p.active then
      var t := F.Unmap(p.s, l);
      var rest := Drop(p.active, {page});
      if p.second == [] then p.(s := t, active := rest)
      else
        assert p.second[0] in p.second;
        p.(s := MakePresent(t, F.Loc(space, p.second[0])), active := rest + [p.second[0]], second := p.second[1..])
    else if page in p.second then p.(s := F.Unmap(p.s, l), second := Drop(p.second, {page}))
    else p
  }

  /** env_page_ws_invalidate with the single working-set list */
  ghost function InvalidateWs(p: Proc, space: nat, reserved: set<nat>, page: nat): Proc
    requires Inv(p, space, reserved, false) && F.Loc(space, page) in p.s.pte
  {
    if page in p.ws then
      p.(s := F.Unmap(p.s, F.Loc(space, page)),
         cursor := if p.cursor == Some(page) then NextIn(p.ws, page) else p.cursor,
         ws := Drop(p.ws, {page}))
    else p
  }

  ghost function Invalidate(p: Proc, space: nat, reserved: set<nat>, lists: bool, page: nat): Proc
    requires Inv(p, space, reserved, lists) && F.Loc(space, page) in p.s.pte
  {
    if lists then InvalidateLists(p, space, reserved, page) else InvalidateWs(p, space, reserved, page)
  }

  // ---------- Where the cursor and the border between the lists end up ----------

  /** The first page of the list that is not gone. */
  function FirstLeft(ws: seq<nat>, gone: set<nat>): Option<nat> {
    if ws == [] then None else if ws[0] !in gone then Some(ws[0]) else FirstLeft(ws[1..], gone)
  }

  /** The same from page c on. */
  function LeftFrom(ws: seq<nat>, c: nat, gone: set<nat>): Option<nat> {
    if ws == [] then None else if ws[0] == c then FirstLeft(ws, gone) else LeftFrom(ws[1..], c, gone)
  }

  /** The cursor moves on past the pages that are gone, and ends as None past the last. */
  function CursorAfter(ws: seq<nat>, cursor: Option<nat>, gone: set<nat>): Option<nat> {
    if cursor.None? then None else LeftFrom(ws, cursor.value, gone)
  }

  lemma {:induction false} CursorStays(ws: seq<nat>, c: nat)
    requires c in ws
    ensures LeftFrom(ws, c, {}) == Some(c)
  {
    if ws[0] != c { CursorStays(ws[1..], c); }
  }

  /** One page gone: its successor, or the cursor itself. */
  lemma {:induction false} CursorPastOne(ws: seq<nat>, c: nat, page: nat)
    requires NoDup(ws) && c in ws
    ensures LeftFrom(ws, c, {page}) == if c == page then NextIn(ws, page) else Some(c)
  {
    if ws[0] == c {
      if |ws| > 1 {
        assert FirstLeft(ws[1..], {ws[0]}) == Some(ws[1]);
      } else {
        assert FirstLeft(ws[1..], {ws[0]}) == None;
      }
    } else {
      assert ws == [ws[0]] + ws[1..];
      CursorPastOne(ws[1..], c, page);
    }
  }

  lemma {:induction false} FirstLeftMember(ws: seq<nat>, gone: set<nat>)
    ensures FirstLeft(ws, gone).Some? ==> FirstLeft(ws, gone).value in Drop(ws, gone)
    ensures FirstLeft(ws, gone).None? ==> Drop(ws, gone) == []
    ensures FirstLeft(ws, gone).Some? ==> Drop(ws, gone) != [] && Drop(ws, gone)[0] == FirstLeft(ws, gone).value
  {
    if ws != [] { FirstLeftMember(ws[1..], gone); }
  }

  lemma {:induction false} FirstLeftTwice(ws: seq<nat>, a: set<nat>, b: set<nat>)
    ensures FirstLeft(Drop(ws, a), b) == FirstLeft(ws, a + b)
  {
    if ws != [] {
      FirstLeftTwice(ws[1..], a, b);
      if ws[0] !in a { assert Drop(ws, a)[1..] == Drop(ws[1..], a); }
    }
  }

  lemma {:induction false} LeftFromMember(ws: seq<nat>, c: nat, gone: set<nat>)
    ensures LeftFrom(ws, c, gone).Some? ==> LeftFrom(ws, c, gone).value in Drop(ws, gone)
  {
    if ws != [] {
      if ws[0] == c {
        FirstLeftMember(ws, gone);
      } else {
        LeftFromMember(ws[1..], c, gone);
      }
    }
  }

  /** Losing some pages and then others moves the cursor as losing all of them does. */
  lemma {:induction false} CursorTwice(ws: seq<nat>, c: nat, a: set<nat>, b: set<nat>)
    requires NoDup(ws)
    ensures CursorAfter(Drop(ws, a), LeftFrom(ws, c, a), b) == LeftFrom(ws, c, a + b)
  {
    if ws != [] {
      if ws[0] == c {
        FirstLeftTwice(ws, a, b);
        FirstLeftMember(ws, a);
        if FirstLeft(ws, a) == None { assert FirstLeft(Drop(ws, a), b) == None; }
      } else {
        CursorTwice(ws[1..], c, a, b);
        LeftFromMember(ws[1..], c, a);
        DropMembers(ws[1..], a);
        if ws[0] !in a { assert Drop(ws, a)[1..] == Drop(ws[1..], a); }
      }
    }
  }

  function Min(a: nat, b: nat): nat { if a <= b then a else b }

  /** The Active list is refilled from the Second list as long as that lasts. */
  predicate Refilled(p: Proc, p': Proc) {
    |p'.active| == Min(|p.active|, |p'.active| + |p'.second|)
  }

  // ---------- Small facts ----------

  lemma {:induction false} NextInOther(ws: seq<nat>, q: nat)
    requires NoDup(ws)
    ensures NextIn(ws, q).Some? ==> NextIn(ws, q).value != q
  {
    if |ws| >= 2 && ws[0] != q { NextInOther(ws[1..], q); }
  }

  /** Page x moved from the Second list to the Active list on the way from p to p'. */
  predicate MadeActive(p: Proc, p': Proc, space: nat, lists: bool, x: F.Loc) {
    lists && x.space == space && x.page in p.second && x.page in p'.active
  }

  /** The entry of x is as it was, but for the present bit of a refilled page. */
  predicate Kept(p: Proc, p': Proc, space: nat, lists: bool, x: F.Loc)
    requires x in p.s.pte && x in p'.s.pte
  {
    || p'.s.pte[x] == p.s.pte[x]
    || (MadeActive(p, p', space, lists, x) && p'.s.pte[x] == p.s.pte[x].(present := true))
  }

  /**
    From p to p' the page is out of every working-set list and, if it was in one,
    unmapped; other entries are kept and the lists keep their order.
   */
  ghost predicate Invalidated(p: Proc, p': Proc, space: nat, reserved: set<nat>, lists: bool, page: nat) {
    && Inv(p', space, reserved, lists)
    && p'.s.pte.Keys == p.s.pte.Keys && |p'.s.refs| == |p.s.refs| && F.Loc(space, page) in p.s.pte
    && (forall q :: q in p'.second ==> q in p.second)
    && p'.ws == Drop(p.ws, {page}) && p'.cursor == CursorAfter(p.ws, p.cursor, {page})
    && p'.active + p'.second == Drop(p.active + p.second, {page}) && Refilled(p, p')
    && p'.file == p.file
    && (forall x :: x in p.s.pte && x != F.Loc(space, page) ==> Kept(p, p', space, lists, x))
    && (p'.s.pte[F.Loc(space, page)] == p.s.pte[F.Loc(space, page)] || !F.HoldsFrame(p'.s.pte[F.Loc(space, page)]))
    && p'.s.pte[F.Loc(space, page)].uheap == p.s.pte[F.Loc(space, page)].uheap
  }

  lemma DropAbsent(q: seq<nat>, page: nat)
    requires page !in q
    ensures Drop(q, {page}) == q
  {
    DropNone(q, {page});
  }

  lemma UnmapShape(s: F.State, reserved: set<nat>, l: F.Loc)
    requires F.Accounts(s, reserved, {}) && l in s.pte
    ensures var t := F.Unmap(s, l);
      && F.Accounts(t, reserved, {}) && t.pte.Keys == s.pte.Keys && |t.refs| == |s.refs| && !F.HoldsFrame(t.pte[l])
      && t.pte[l].uheap == s.pte[l].uheap && !t.pte[l].buffered
      && (forall x :: x in s.pte && x != l ==> t.pte[x] == s.pte[x])
  {
    F.UnmapKeepsAccounts(s, reserved, {}, l);
    F.UnmapEffect(s, reserved, {}, l);
    assert F.Plain(s.pte[l]);
  }

  lemma WsOk(p: Proc, space: nat, reserved: set<nat>, page: nat)
    requires Inv(p, space, reserved, false) && F.Loc(space, page) in p.s.pte
    ensures Invalidated(p, InvalidateWs(p, space, reserved, page), space, reserved, false, page)
  {
    DropAbsent(p.active + p.second, page);
    if p.cursor.Some? { CursorPastOne(p.ws, p.cursor.value, page); }
    if page in p.ws {
      UnmapShape(p.s, reserved, F.Loc(space, page));
      WsAfter(p.ws, p.cursor, page);
    } else {
      DropAbsent(p.ws, page);
    }
  }

  /** The list and the cursor once the page is out. */
  lemma WsAfter(ws: seq<nat>, cursor: Option<nat>, page: nat)
    requires NoDup(ws) && (cursor.Some? ==> cursor.value in ws)
    ensures NoDup(Drop(ws, {page}))
    ensures var c := if cursor == Some(page) then NextIn(ws, page) else cursor;
      c.Some? ==> c.value in Drop(ws, {page})
  {
    DropNoDup(ws, {page});
    DropMembers(ws, {page});
    NextInOther(ws, page);
  }

  lemma DropOneSize(q: seq<nat>, page: nat)
    requires NoDup(q) && page in q
    ensures |Drop(q, {page})| == |q| - 1
  {
    var k :| 0 <= k < |q| && q[k] == page;
    DropAt(q, k);
  }

  /** The lists when the page was active: the head of the Second list moves to the Active tail. */
  lemma RefillLists(active: seq<nat>, second: seq<nat>, page: nat)
    requires NoDup(active + second) && page in active
    ensures page !in second && Drop(active + second, {page}) == Drop(active, {page}) + second
    ensures NoDup(Drop(active, {page}) + second)
    ensures second != [] ==> Drop(active, {page}) + [second[0]] + second[1..] == Drop(active, {page}) + second
  {
    Apart(active, second, page);
    DropConcat(active, second, {page});
    DropAbsent(second, page);
    DropNoDup(active + second, {page});
  }

  /** Setting the present bit of a page held in the Second list. */
  lemma RefillState(t: F.State, reserved: set<nat>, m: F.Loc)
    requires F.Accounts(t, reserved, {}) && m in t.pte && F.HoldsFrame(t.pte[m])
    ensures F.Accounts(MakePresent(t, m), reserved, {}) && MakePresent(t, m).pte.Keys == t.pte.Keys
  {
    assert F.Plain(t.pte[m]);
    F.FlagKeepsAccounts(t, reserved, {}, m, t.pte[m].(present := true));
  }

  lemma ActiveAloneOk(p: Proc, space: nat, reserved: set<nat>, page: nat)
    requires Inv(p, space, reserved, true) && F.Loc(space, page) in p.s.pte && page in p.active && p.second == []
    ensures Invalidated(p, InvalidateLists(p, space, reserved, page), space, reserved, true, page)
  {
    UnmapShape(p.s, reserved, F.Loc(space, page));
    RefillLists(p.active, p.second, page);
    assert Drop(p.active, {page}) + p.second == Drop(p.active, {page});
    ActiveMembers(p.active, p.second, page);
  }

  /** The Active list without the page. */
  lemma ActiveMembers(active: seq<nat>, second: seq<nat>, page: nat)
    requires NoDup(active + second) && page in active
    ensures |Drop(active, {page})| == |active| - 1
    ensures forall q :: q in Drop(active, {page}) <==> q in active && q != page
  {
    assert active == (active + second)[..|active|];
    DropOneSize(active, page);
    DropMembers(active, {page});
  }

  /** The state after the page is unmapped and the first page of the Second list made present. */
  lemma RefilledState(p: Proc, space: nat, reserved: set<nat>, page: nat)
    requires Inv(p, space, reserved, true) && F.Loc(space, page) in p.s.pte && page in p.active && p.second != []
    ensures var p', l, m := InvalidateLists(p, space, reserved, page), F.Loc(space, page), F.Loc(space, p.second[0]);
      && F.Accounts(p'.s, reserved, {}) && p'.s.pte.Keys == p.s.pte.Keys && |p'.s.refs| == |p.s.refs|
      && m != l && !F.HoldsFrame(p'.s.pte[l]) && p'.s.pte[l].uheap == p.s.pte[l].uheap
      && (forall x :: x in p.s.pte && x != l ==>
            p'.s.pte[x] == if x == m then p.s.pte[x].(present := true) else p.s.pte[x])
  {
    UnmapShape(p.s, reserved, F.Loc(space, page));
    Apart(p.active, p.second, page);
    assert p.second[0] in p.second;
    RefillState(F.Unmap(p.s, F.Loc(space, page)), reserved, F.Loc(space, p.second[0]));
  }

  lemma SecondMembers(active: seq<nat>, second: seq<nat>)
    requires NoDup(active + second) && second != []
    ensures second[0] in second && second[0] !in active
    ensures forall q :: q in second[1..] ==> q in second && q != second[0]
  {
    assert second == (active + second)[|active|..];
    TailMembers(second);
    assert (active + second)[|active|] == second[0];
    forall i | 0 <= i < |active|
      ensures active[i] != second[0]
    {
      assert (active + second)[i] == active[i];
    }
  }

  lemma ActiveOk(p: Proc, space: nat, reserved: set<nat>, page: nat)
    requires Inv(p, space, reserved, true) && F.Loc(space, page) in p.s.pte && page in p.active
    ensures Invalidated(p, InvalidateLists(p, space, reserved, page), space, reserved, true, page)
  {
    if p.second == [] {
      ActiveAloneOk(p, space, reserved, page);
    } else {
      var p' := InvalidateLists(p, space, reserved, page);
      RefilledState(p, space, reserved, page);
      RefillLists(p.active, p.second, page);
      BorderMoves(p.active, p.second, page, p'.active);
    }
  }

  /** Who is active and who is not once the head of the Second list replaces the page. */
  lemma BorderMoves(active: seq<nat>, second: seq<nat>, page: nat, active': seq<nat>)
    requires NoDup(active + second) && page in active && second != [] && active' == Drop(active, {page}) + [second[0]]
    ensures |active'| == |active| && second[0] in active' && second[0] in second
    ensures forall q :: q in active' <==> (q in active && q != page) || q == second[0]
    ensures forall q :: q in second[1..] ==> q in second && q != second[0] && q !in active
    ensures second[0] !in active
  {
    ActiveMembers(active, second, page);
    SecondMembers(active, second);
    forall q | q in second[1..]
      ensures q !in active
    {
      if q in active { Apart(active, second, q); }
    }
  }

  lemma Apart(a: seq<nat>, b: seq<nat>, x: nat)
    requires NoDup(a + b) && x in a
    ensures x !in b
  {
    var i :| 0 <= i < |a| && a[i] == x;
    assert forall j :: 0 <= j < |b| ==> (a + b)[|a| + j] == b[j] && (a + b)[i] == x;
  }

  lemma SecondOk(p: Proc, space: nat, reserved: set<nat>, page: nat)
    requires Inv(p, space, reserved, true) && F.Loc(space, page) in p.s.pte && page !in p.active
    ensures Invalidated(p, InvalidateLists(p, space, reserved, page), space, reserved, true, page)
  {
    var l, p' := F.Loc(space, page), InvalidateLists(p, space, reserved, page);
    DropConcat(p.active, p.second, {page});
    DropAbsent(p.active, page);
    DropAbsent(p.ws, page);
    DropNoDup(p.active + p.second, {page});
    if page in p.second {
      UnmapShape(p.s, reserved, l);
      DropMembers(p.second, {page});
    } else {
      DropAbsent(p.second, page);
    }
  }

  /** Exactly the head of the Second list replaces an active page, while there is one. */
  lemma RefillExactly(p: Proc, space: nat, reserved: set<nat>, page: nat)
    requires Inv(p, space, reserved, true) && F.Loc(space, page) in p.s.pte && page in p.active
    ensures var p' := InvalidateLists(p, space, reserved, page);
      && |p'.active| == (if p.second == [] then |p.active| - 1 else |p.active|)
      && p'.second == (if p.second == [] then [] else p.second[1..])
      && (p.second != [] ==>
            && p'.active[|p'.active| - 1] == p.second[0]
            && F.Loc(space, p.second[0]) in p'.s.pte && p'.s.pte[F.Loc(space, p.second[0])].present)
  {
    ActiveMembers(p.active, p.second, page);
    if p.second != [] { RefilledState(p, space, reserved, page); }
    assert p.second != [] ==> p.second[0] in p.second;
  }

  lemma InvalidateOk(p: Proc, space: nat, reserved: set<nat>, lists: bool, page: nat)
    requires Inv(p, space, reserved, lists) && F.Loc(space, page) in p.s.pte
    ensures Invalidated(p, Invalidate(p, space, reserved, lists, page), space, reserved, lists, page)
  {
    if !lists {
      WsOk(p, space, reserved, page);
    } else if page in p.active {
      ActiveOk(p, space, reserved, page);
    } else {
      SecondOk(p, space, reserved, page);
    }
  }

  // ---------- One page ----------

  /** The body of the loop in free_user_mem. */
  ghost function FreePage(p: Proc, space: nat, reserved: set<nat>, lists: bool, page: nat): Proc
    requires Inv(p, space, reserved, lists) && F.Loc(space, page) in p.s.pte
  {
    var l := F.Loc(space, page);
    var p1 := p.(s := Unmark(p.s, l), file := p.file - {page});
    UnmarkOk(p, space, reserved, lists, page);
    var p2 := Invalidate(p1, space, reserved, lists, page);
    InvalidateOk(p1, space, reserved, lists, page);
    p2.(s := F.Unmap(p2.s, l))
  }

  lemma UnmarkOk(p: Proc, space: nat, reserved: set<nat>, lists: bool, page: nat)
    requires Inv(p, space, reserved, lists) && F.Loc(space, page) in p.s.pte
    ensures Inv(p.(s := Unmark(p.s, F.Loc(space, page)), file := p.file - {page}), space, reserved, lists)
  {
    var l := F.Loc(space, page);
    assert F.Plain(p.s.pte[l]);
    F.FlagKeepsAccounts(p.s, reserved, {}, l, p.s.pte[l].(uheap := false));
  }

  /** Where the pages of a range are. */
  predicate InRange(l: F.Loc, space: nat, first: nat, n: nat) {
    l.space == space && first <= l.page < first + n
  }

  /** The entries of the range hold neither a frame nor the heap mark. */
  ghost predicate Emptied(p: Proc, p': Proc, space: nat, first: nat, n: nat)
    requires p'.s.pte.Keys == p.s.pte.Keys
  {
    forall x :: x in p.s.pte && InRange(x, space, first, n) ==> !p'.s.pte[x].uheap && !F.HoldsFrame(p'.s.pte[x])
  }

  /** The entries outside the range, of this process and of all others, are kept. */
  ghost predicate Undisturbed(p: Proc, p': Proc, space: nat, lists: bool, first: nat, n: nat)
    requires p'.s.pte.Keys == p.s.pte.Keys
  {
    forall x :: x in p.s.pte && !InRange(x, space, first, n) ==> Kept(p, p', space, lists, x)
  }

  /** The n pages from first are in none of the four structures; everything else is kept. */
  ghost predicate Freed(p: Proc, p': Proc, space: nat, reserved: set<nat>, lists: bool, first: nat, n: nat) {
    && Inv(p', space, reserved, lists)
    && p'.s.pte.Keys == p.s.pte.Keys && |p'.s.refs| == |p.s.refs|
    && (forall q :: q in p'.second ==> q in p.second)
    && Emptied(p, p', space, first, n) && Undisturbed(p, p', space, lists, first, n)
    && p'.file == p.file - PageSet(first, n)
    && p'.ws == Drop(p.ws, PageSet(first, n)) && p'.cursor == CursorAfter(p.ws, p.cursor, PageSet(first, n))
    && p'.active + p'.second == Drop(p.active + p.second, PageSet(first, n)) && Refilled(p, p')
  }

  function PageSet(first: nat, n: nat): (r: set<nat>)
    ensures forall q: nat :: q in r <==> first <= q < first + n
  {
    if n == 0 then {} else PageSet(first, n - 1) + {first + n - 1}
  }

  /** After the last unmap the invariant still holds. */
  lemma LastUnmapOk(p: Proc, space: nat, reserved: set<nat>, lists: bool, page: nat)
    requires Inv(p, space, reserved, lists) && F.Loc(space, page) in p.s.pte && page !in p.active + p.second
    ensures Inv(p.(s := F.Unmap(p.s, F.Loc(space, page))), space, reserved, lists)
  {
    UnmapShape(p.s, reserved, F.Loc(space, page));
    assert forall q :: q in p.active || q in p.second ==> q in p.active + p.second;
  }

  lemma FreePageOk(p: Proc, space: nat, reserved: set<nat>, lists: bool, page: nat)
    requires Inv(p, space, reserved, lists) && F.Loc(space, page) in p.s.pte
    ensures Freed(p, FreePage(p, space, reserved, lists, page), space, reserved, lists, page, 1)
  {
    var l := F.Loc(space, page);
    var p1 := p.(s := Unmark(p.s, l), file := p.file - {page});
    UnmarkOk(p, space, reserved, lists, page);
    var p2 := Invalidate(p1, space, reserved, lists, page);
    InvalidateOk(p1, space, reserved, lists, page);
    DropMembers(p.active + p.second, {page});
    assert page !in p2.active + p2.second;
    assert forall q :: q in p2.second ==> q in p2.active + p2.second;
    LastUnmapOk(p2, space, reserved, lists, page);
    UnmapShape(p2.s, reserved, l);
    assert PageSet(page, 1) == {page};
    FreePageUndisturbed(p, p1, p2, FreePage(p, space, reserved, lists, page), space, lists, page);
  }

  lemma FreePageUndisturbed(p: Proc, p1: Proc, p2: Proc, p': Proc, space: nat, lists: bool, page: nat)
    requires p.s.pte.Keys == p1.s.pte.Keys == p2.s.pte.Keys == p'.s.pte.Keys
    requires p1.second == p.second && p'.active == p2.active
    requires forall x :: x in p.s.pte && x != F.Loc(space, page) ==>
      p1.s.pte[x] == p.s.pte[x] && Kept(p1, p2, space, lists, x) && p'.s.pte[x] == p2.s.pte[x]
    ensures Undisturbed(p, p', space, lists, page, 1)
  {}

  // ---------- The range ----------

  lemma FreedNothing(p: Proc, space: nat, reserved: set<nat>, lists: bool, first: nat)
    requires Inv(p, space, reserved, lists)
    ensures Freed(p, p, space, reserved, lists, first, 0)
  {
    DropNone(p.ws, {});
    DropNone(p.active + p.second, {});
    if p.cursor.Some? { CursorStays(p.ws, p.cursor.value); }
  }

  /** One page more: the pages freed before stay out. */
  lemma StepEmptied(p: Proc, m: Proc, p': Proc, space: nat, lists: bool, first: nat, n: nat)
    requires n > 0 && p.s.pte.Keys == m.s.pte.Keys == p'.s.pte.Keys
    requires Emptied(p, m, space, first, n - 1) && Emptied(m, p', space, first + n - 1, 1)
    requires Undisturbed(m, p', space, lists, first + n - 1, 1)
    requires forall x :: x in p'.s.pte ==> F.Plain(p'.s.pte[x])
    ensures Emptied(p, p', space, first, n)
  {
    forall x | x in p.s.pte && InRange(x, space, first, n)
      ensures !p'.s.pte[x].uheap && !F.HoldsFrame(p'.s.pte[x])
    {
      if !InRange(x, space, first + n - 1, 1) {
        assert Kept(m, p', space, lists, x) && F.Plain(p'.s.pte[x]);
      }
    }
  }

  /** One page more: a page refilled before the last step is still in the Active list after it. */
  lemma StepUndisturbed(p: Proc, m: Proc, p': Proc, space: nat, lists: bool, first: nat, n: nat)
    requires n > 0 && p.s.pte.Keys == m.s.pte.Keys == p'.s.pte.Keys
    requires Undisturbed(p, m, space, lists, first, n - 1) && Undisturbed(m, p', space, lists, first + n - 1, 1)
    requires NoDup(m.active + m.second) && p'.active + p'.second == Drop(m.active + m.second, PageSet(first + n - 1, 1))
    requires (forall q :: q in p'.second ==> q in m.second) && (forall q :: q in m.second ==> q in p.second)
    ensures Undisturbed(p, p', space, lists, first, n)
  {
    forall x | x in p.s.pte && !InRange(x, space, first, n)
      ensures Kept(p, p', space, lists, x)
    {
      assert Kept(p, m, space, lists, x) && Kept(m, p', space, lists, x);
      if m.s.pte[x] != p.s.pte[x] {
        Apart(m.active, m.second, x.page);
        DropMembers(m.active + m.second, PageSet(first + n - 1, 1));
        assert x.page in m.active + m.second;
        assert x.page in p'.active + p'.second;
      }
    }
  }

  lemma StepPages(p: Proc, m: Proc, p': Proc, first: nat, n: nat)
    requires n > 0
    requires m.file == p.file - PageSet(first, n - 1) && p'.file == m.file - PageSet(first + n - 1, 1)
    requires m.ws == Drop(p.ws, PageSet(first, n - 1)) && p'.ws == Drop(m.ws, PageSet(first + n - 1, 1))
    requires m.active + m.second == Drop(p.active + p.second, PageSet(first, n - 1))
    requires p'.active + p'.second == Drop(m.active + m.second, PageSet(first + n - 1, 1))
    ensures p'.file == p.file - PageSet(first, n) && p'.ws == Drop(p.ws, PageSet(first, n))
    ensures p'.active + p'.second == Drop(p.active + p.second, PageSet(first, n))
  {
    var a, b := PageSet(first, n - 1), PageSet(first + n - 1, 1);
    assert b == {first + n - 1} && PageSet(first, n) == a + b;
    DropTwice(p.ws, a, b);
    DropTwice(p.active + p.second, a, b);
  }

  /** The cursor and the border after one page more. */
  lemma StepLists(p: Proc, m: Proc, p': Proc, first: nat, n: nat)
    requires n > 0 && NoDup(p.ws) && m.ws == Drop(p.ws, PageSet(first, n - 1))
    requires m.cursor == CursorAfter(p.ws, p.cursor, PageSet(first, n - 1))
    requires p'.cursor == CursorAfter(m.ws, m.cursor, PageSet(first + n - 1, 1))
    requires Refilled(p, m) && Refilled(m, p') && (forall q :: q in p'.second ==> q in m.second)
    ensures p'.cursor == CursorAfter(p.ws, p.cursor, PageSet(first, n)) && Refilled(p, p')
  {
    var a, b := PageSet(first, n - 1), PageSet(first + n - 1, 1);
    assert b == {first + n - 1} && PageSet(first, n) == a + b;
    if p.cursor.Some? { CursorTwice(p.ws, p.cursor.value, a, b); }
    assert |p'.second| > 0 ==> p'.second[0] in m.second;
  }

  /** One page more. */
  lemma FreedStep(p: Proc, m: Proc, p': Proc, space: nat, reserved: set<nat>, lists: bool, first: nat, n: nat)
    requires n > 0 && NoDup(p.ws) && Freed(p, m, space, reserved, lists, first, n - 1)
    requires Freed(m, p', space, reserved, lists, first + n - 1, 1)
    ensures Freed(p, p', space, reserved, lists, first, n)
  {
    StepPages(p, m, p', first, n);
    StepLists(p, m, p', first, n);
    StepEmptied(p, m, p', space, lists, first, n);
    StepUndisturbed(p, m, p', space, lists, first, n);
  }

  /** The pages first .. first + n - 1 all have a page table. */
  ghost predicate HasTables(keys: set<F.Loc>, space: nat, first: nat, n: nat) {
    forall q: nat :: first <= q < first + n ==> F.Loc(space, q) in keys
  }

  lemma OneMoreTable(keys: set<F.Loc>, space: nat, first: nat, n: nat)
    requires HasTables(keys, space, first, n) && F.Loc(space, first + n) in keys
    ensures HasTables(keys, space, first, n + 1)
  {}

  /** Each state frees one page more than the one before it. */
  ghost predicate Chain(ps: seq<Proc>, space: nat, reserved: set<nat>, lists: bool, first: nat) {
    |ps| > 0 && forall j, k :: 0 <= j < |ps| && 0 <= k < |ps| && k == j + 1 ==>
      Freed(ps[j], ps[k], space, reserved, lists, first + j, 1)
  }

  lemma ChainMore(ps: seq<Proc>, p: Proc, space: nat, reserved: set<nat>, lists: bool, first: nat)
    requires Chain(ps, space, reserved, lists, first)
    requires Freed(ps[|ps| - 1], p, space, reserved, lists, first + |ps| - 1, 1)
    ensures Chain(ps + [p], space, reserved, lists, first)
  {
    var qs := ps + [p];
    forall j, k | 0 <= j < |qs| && 0 <= k < |qs| && k == j + 1
      ensures Freed(qs[j], qs[k], space, reserved, lists, first + j, 1)
    {
      assert qs[j] == ps[j] && (k < |ps| ==> qs[k] == ps[k]);
    }
  }

  /** The chain without its last state, and the last link. */
  lemma ChainLess(ps: seq<Proc>, space: nat, reserved: set<nat>, lists: bool, first: nat, n: nat)
    requires Chain(ps, space, reserved, lists, first) && n == |ps| - 1 > 0
    ensures Chain(ps[..n], space, reserved, lists, first) && ps[..n][0] == ps[0] && ps[..n][n - 1] == ps[n - 1]
    ensures Freed(ps[n - 1], ps[n], space, reserved, lists, first + n - 1, 1)
  {
    var qs := ps[..n];
    forall j, k | 0 <= j < |qs| && 0 <= k < |qs| && k == j + 1
      ensures Freed(qs[j], qs[k], space, reserved, lists, first + j, 1)
    {
      assert qs[j] == ps[j] && qs[k] == ps[k];
    }
  }

  lemma {:induction false} ChainFreed(ps: seq<Proc>, p: Proc, p': Proc, space: nat, reserved: set<nat>, lists: bool, first: nat, n: nat)
    requires Chain(ps, space, reserved, lists, first) && Inv(p, space, reserved, lists)
    requires n == |ps| - 1 && p == ps[0] && p' == ps[n]
    ensures Freed(p, p', space, reserved, lists, first, n)
    decreases n
  {
    if n == 0 {
      FreedNothing(p, space, reserved, lists, first);
    } else {
      ChainLess(ps, space, reserved, lists, first, n);
      ChainFreed(ps[..n], p, ps[n - 1], space, reserved, lists, first, n - 1);
      FreedStep(p, ps[n - 1], p', space, reserved, lists, first, n);
    }
  }

  /** The entries of the range that name frame f. */
  ghost function Gone(pte: map<F.Loc, F.Pte>, f: nat, space: nat, first: nat, n: nat): set<F.Loc> {
    set l | l in F.Users(pte, f) && InRange(l, space, first, n)
  }

  /**
    Each mapping in the range is given up exactly once: a frame's count drops by the
    number of pages of the range that named it.
   */
  lemma FreedCounts(p: Proc, p': Proc, space: nat, reserved: set<nat>, lists: bool, first: nat, n: nat, f: nat)
    requires Inv(p, space, reserved, lists) && Freed(p, p', space, reserved, lists, first, n) && f < |p.s.refs|
    ensures |p'.s.refs| == |p.s.refs| && p'.s.refs[f] == p.s.refs[f] - |Gone(p.s.pte, f, space, first, n)|
  {
    assert F.FrameOk(p.s, reserved, {}, f) && F.FrameOk(p'.s, reserved, {}, f);
    FreedUsers(p, p', space, reserved, lists, first, n, f);
  }

  /** Every frame has lost one reference for each entry of the range that named it, and no other. */
  ghost predicate CountsDropped(s: F.State, t: F.State, space: nat, first: nat, n: nat) {
    && |t.refs| == |s.refs|
    && (forall f: nat :: f < |s.refs| ==> t.refs[f] == s.refs[f] - |Gone(s.pte, f, space, first, n)|)
  }

  lemma FreedAllCounts(p: Proc, p': Proc, space: nat, reserved: set<nat>, lists: bool, first: nat, n: nat)
    requires Inv(p, space, reserved, lists) && Freed(p, p', space, reserved, lists, first, n)
    ensures CountsDropped(p.s, p'.s, space, first, n)
  {
    forall f: nat | f < |p.s.refs|
      ensures p'.s.refs[f] == p.s.refs[f] - |Gone(p.s.pte, f, space, first, n)|
    {
      FreedCounts(p, p', space, reserved, lists, first, n, f);
    }
  }

  /** The entries that still name f are those outside the range. */
  lemma FreedUsers(p: Proc, p': Proc, space: nat, reserved: set<nat>, lists: bool, first: nat, n: nat, f: nat)
    requires Inv(p, space, reserved, lists) && Freed(p, p', space, reserved, lists, first, n)
    ensures var gone := Gone(p.s.pte, f, space, first, n);
      gone <= F.Users(p.s.pte, f) && F.Users(p'.s.pte, f) == F.Users(p.s.pte, f) - gone
  {
    var before, after := F.Users(p.s.pte, f), F.Users(p'.s.pte, f);
    var gone := Gone(p.s.pte, f, space, first, n);
    forall l
      ensures l in after <==> l in before && l !in gone
    {
      if l in p.s.pte && !InRange(l, space, first, n) {
        assert Kept(p, p', space, lists, l) && F.Plain(p'.s.pte[l]) && F.Plain(p.s.pte[l]);
      }
    }
    assert after == before - gone;
  }

  // ---------- The second unmap ----------

  /**
    The second unmap of a page does nothing exactly when its entry is not buffered.
    PERM_BUFFERED is one of the available bits that unmap_frame keeps, so a buffered
    entry still looks as if it held a frame, and that frame is frame 0.
   */
  lemma SecondUnmapIff(s: F.State, l: F.Loc)
    requires F.Sized(s) && l in s.pte && F.HoldsFrame(s.pte[l])
    requires forall f: nat :: f < |s.refs| ==> s.refs[f] < F.U16
    ensures var t := F.Unmap(s, l);
      (F.HoldsFrame(t.pte[l]) ==> t.pte[l].frame < |t.refs|) && (F.Unmap(t, l) == t <==> !s.pte[l].buffered)
  {
    var t := F.Unmap(s, l);
    if s.pte[l].buffered {
      var u := F.Unmap(t, l);
      assert t.pte[l].frame == 0;
      if t.refs[0] == 1 {
        assert u.free == [0] + t.free;
      } else {
        assert u.refs[0] != t.refs[0];
      }
    }
  }

  /** With frame 0 pinned by one reference, as it is at boot, that frees frame 0. */
  lemma BufferedFreesFrameZero(s: F.State, l: F.Loc)
    requires F.Sized(s) && l in s.pte && s.pte[l].buffered && s.pte[l].frame != 0 && s.refs[0] == 1
    ensures var t := F.Unmap(s, l); |t.refs| > 0 && t.pte[l].frame == 0 && 0 in F.Unmap(t, l).free
  {
    var t := F.Unmap(s, l);
    assert t.refs[0] == 1;
  }

  /** Page 7 of process 1 is buffered in frame 1, and frame 0 is pinned. */
  function BufferedScene(): F.State {
    F.State([1, 1], [0, 7], [], map[F.Loc(1, 7) := F.NoEntry.(frame := 1, buffered := true)])
  }

  lemma BufferedExists()
    ensures var s, l := BufferedScene(), F.Loc(1, 7);
      && F.Sized(s) && 0 !in s.free && 0 !in F.Unmap(s, l).free
      && F.Unmap(s, l).pte[l].frame < |F.Unmap(s, l).refs| && 0 in F.Unmap(F.Unmap(s, l), l).free
  {
    BufferedFreesFrameZero(BufferedScene(), F.Loc(1, 7));
  }
}
