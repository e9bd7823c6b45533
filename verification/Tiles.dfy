/**
  Bulks of consecutive bytes that tile an interval: non-empty, pairwise disjoint
  and covering it. Splitting, joining, extending and shrinking keep a tiling.
 */
module Tiles {

  datatype Bulk = Bulk(start: nat, size: nat) {
    function End(): nat { start + size }
  }

  predicate Disjoint(a: Bulk, b: Bulk) { a.End() <= b.start || b.End() <= a.start }

  predicate Holds(b: Bulk, x: nat) { b.start <= x < b.End() }

  ghost predicate Covered(t: set<Bulk>, x: nat) {
    exists b :: b in t && Holds(b, x)
  }

  ghost predicate Tiling(t: set<Bulk>, lo: nat, hi: nat) {
    && lo <= hi
    && (forall b :: b in t ==> b.size > 0 && lo <= b.start && b.End() <= hi)
    && (forall a, b :: a in t && b in t ==> a == b || Disjoint(a, b))
    && (forall x: nat :: lo <= x < hi ==> Covered(t, x))
  }

  lemma Split(t: set<Bulk>, lo: nat, hi: nat, b: Bulk, n: nat)
    requires Tiling(t, lo, hi) && b in t && 0 < n < b.size
    ensures Tiling(t - {b} + {Bulk(b.start, n), Bulk(b.start + n, b.size - n)}, lo, hi)
  {
    var u, v := Bulk(b.start, n), Bulk(b.start + n, b.size - n);
    var t' := t - {b} + {u, v};
    forall x: nat | lo <= x < hi
      ensures Covered(t', x)
    {
      assert Covered(t, x);
      var c :| c in t && Holds(c, x);
      if c == b {
        assert u in t' && v in t' && (Holds(u, x) || Holds(v, x));
      } else {
        assert c in t';
      }
    }
  }

  lemma Join(t: set<Bulk>, lo: nat, hi: nat, a: Bulk, b: Bulk)
    requires Tiling(t, lo, hi) && a in t && b in t && a.End() == b.start
    ensures Tiling(t - {a, b} + {Bulk(a.start, a.size + b.size)}, lo, hi)
  {
    var m := Bulk(a.start, a.size + b.size);
    var t' := t - {a, b} + {m};
    forall x: nat | lo <= x < hi
      ensures Covered(t', x)
    {
      assert Covered(t, x);
      var c :| c in t && Holds(c, x);
      if c == a || c == b {
        assert m in t' && Holds(m, x);
      } else {
        assert c in t';
      }
    }
    forall c | c in t && c != a && c != b
      ensures Disjoint(c, m)
    {
      assert Disjoint(c, a) && Disjoint(c, b);
    }
  }

  lemma Extend(t: set<Bulk>, lo: nat, hi: nat, n: nat)
    requires Tiling(t, lo, hi) && n > 0
    ensures Tiling(t + {Bulk(hi, n)}, lo, hi + n)
  {
    var m := Bulk(hi, n);
    var t' := t + {m};
    forall x: nat | lo <= x < hi + n
      ensures Covered(t', x)
    {
      if x < hi {
        assert Covered(t, x);
        var c :| c in t && Holds(c, x);
        assert c in t';
      } else {
        assert m in t' && Holds(m, x);
      }
    }
  }

  lemma Shrink(t: set<Bulk>, lo: nat, hi: nat, b: Bulk)
    requires Tiling(t, lo, hi) && b in t && b.End() == hi
    ensures Tiling(t - {b}, lo, b.start)
  {
    var t' := t - {b};
    forall c | c in t'
      ensures c.End() <= b.start
    {
      assert Disjoint(c, b);
    }
    forall x: nat | lo <= x < b.start
      ensures Covered(t', x)
    {
      assert Covered(t, x);
      var c :| c in t && Holds(c, x);
      assert c in t';
    }
  }

  /** The tile that holds x. */
  lemma TileAt(t: set<Bulk>, lo: nat, hi: nat, x: nat) returns (b: Bulk)
    requires Tiling(t, lo, hi) && lo <= x < hi
    ensures b in t && Holds(b, x)
  {
    assert Covered(t, x);
    b :| b in t && Holds(b, x);
  }

  /** Without one of its tiles a part of a tiling covers just what that tile does not hold. */
  lemma CoveredWithout(t: set<Bulk>, lo: nat, hi: nat, a: set<Bulk>, b: Bulk, x: nat)
    requires Tiling(t, lo, hi) && a <= t && b in a
    ensures Covered(a - {b}, x) <==> Covered(a, x) && !Holds(b, x)
  {
    if Covered(a - {b}, x) {
      var c :| c in a - {b} && Holds(c, x);
      assert c in a && Disjoint(c, b);
    }
    if Covered(a, x) && !Holds(b, x) {
      var c :| c in a && Holds(c, x);
      assert c in a - {b};
    }
  }
}
