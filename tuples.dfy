/**
 The values a ladder-cut engine stores, and Python's built-in comparison of
 them. A cut-point is the tuple `(y, x)`; a stored ladder cut is the tuple
 `(significance, outerhull, cutpoints)`. Tuples and lists compare
 lexicographically: the first position where the two differ decides, and a
 list that is a proper prefix of another is the smaller one.
 */
module Tuples {
  import opened Sorting

  /** A cut-point `(y, x)`: it accepts the events with `x > xcut AND y > ycut`. */
  datatype CutPoint = CutPoint(y: real, x: real)

  /** One ladder cut as stored by `add`: `(significance, outerhull, cutpoints)`. */
  datatype Entry = Entry(significance: real, outerhull: seq<CutPoint>, cutpoints: seq<CutPoint>)

  /** Tuple `a < b`. */
  predicate PointLt(a: CutPoint, b: CutPoint)
  {
    a.y < b.y || (a.y == b.y && a.x < b.x)
  }

  /** Tuple `a <= b`. */
  predicate PointLe(a: CutPoint, b: CutPoint)
  {
    a.y < b.y || (a.y == b.y && a.x <= b.x)
  }

  /** List `a <= b` for lists of cut-points. */
  predicate PointsLe(a: seq<CutPoint>, b: seq<CutPoint>)
  {
    if a == [] then true
    else if b == [] then false
    else if a[0] != b[0] then PointLt(a[0], b[0])
    else PointsLe(a[1..], b[1..])
  }

  /** Tuple `e <= f` for stored ladder cuts. */
  predicate EntryLe(e: Entry, f: Entry)
  {
    if e.significance != f.significance then e.significance < f.significance
    else if e.outerhull != f.outerhull then PointsLe(e.outerhull, f.outerhull)
    else PointsLe(e.cutpoints, f.cutpoints)
  }

  lemma PointLeIsTotalOrder()
    ensures TotalOrder(PointLe)
  {
  }

  lemma {:induction false} PointsLeReflexive(a: seq<CutPoint>)
    ensures PointsLe(a, a)
  {
    if a != [] {
      PointsLeReflexive(a[1..]);
    }
  }

  lemma {:induction false} PointsLeAntisymmetric(a: seq<CutPoint>, b: seq<CutPoint>)
    requires PointsLe(a, b) && PointsLe(b, a)
    ensures a == b
  {
    if a != [] && b != [] && a[0] == b[0] {
      PointsLeAntisymmetric(a[1..], b[1..]);
      assert a == [a[0]] + a[1..];
      assert b == [b[0]] + b[1..];
    }
  }

  lemma {:induction false} PointsLeTransitive(a: seq<CutPoint>, b: seq<CutPoint>, c: seq<CutPoint>)
    requires PointsLe(a, b) && PointsLe(b, c)
    ensures PointsLe(a, c)
  {
    if a != [] && a[0] == b[0] && b[0] == c[0] {
      PointsLeTransitive(a[1..], b[1..], c[1..]);
    }
  }

  lemma {:induction false} PointsLeTotal(a: seq<CutPoint>, b: seq<CutPoint>)
    ensures PointsLe(a, b) || PointsLe(b, a)
  {
    if a != [] && b != [] && a[0] == b[0] {
      PointsLeTotal(a[1..], b[1..]);
    }
  }

  /** Python's list comparison is a total order on lists of cut-points. */
  lemma PointsLeIsTotalOrder()
    ensures TotalOrder(PointsLe)
  {
    forall a {
      PointsLeReflexive(a);
    }
    forall a, b | PointsLe(a, b) && PointsLe(b, a) {
      PointsLeAntisymmetric(a, b);
    }
    forall a, b, c | PointsLe(a, b) && PointsLe(b, c) {
      PointsLeTransitive(a, b, c);
    }
    forall a, b {
      PointsLeTotal(a, b);
    }
  }

  /** Python's tuple comparison is a total order on stored ladder cuts, so
      sorting `cuts` has exactly one outcome. */
  lemma EntryLeIsTotalOrder()
    ensures TotalOrder(EntryLe)
  {
    PointsLeIsTotalOrder();
  }
}
