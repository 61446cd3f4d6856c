/**
 The outer hull of a ladder cut. A ladder cut is the OR of its cut-points,
 each accepting `x > xcut AND y > ycut`. Scanning the cut-points in order, a
 point joins the hull exactly when its `x` is strictly below the `x` of the
 last point kept. On cut-points sorted by `(y, x)` this keeps the
 staircase of points that no other point covers, and the hull accepts the
 same events as the whole ladder cut.
 */
module Staircase {
  import opened Sorting
  import opened Tuples

  /** The hull the scan has built after reading all of `s`. */
  function OuterHull(s: seq<CutPoint>): (h: seq<CutPoint>)
    requires |s| >= 1
    ensures 1 <= |h| <= |s|
    ensures h[0] == s[0]
    decreases |s|
  {
    if |s| == 1 then [s[0]]
    else
      var h := OuterHull(s[..|s| - 1]);
      if s[|s| - 1].x < h[|h| - 1].x then h + [s[|s| - 1]] else h
  }

  /** The smallest `x` among the cut-points of `s`. */
  function MinX(s: seq<CutPoint>): (m: real)
    requires |s| >= 1
    ensures forall i :: 0 <= i < |s| ==> m <= s[i].x
    ensures exists i :: 0 <= i < |s| && m == s[i].x
    decreases |s|
  {
    if |s| == 1 then s[0].x
    else
      var m := MinX(s[..|s| - 1]);
      assert forall i :: 0 <= i < |s| - 1 ==> s[..|s| - 1][i] == s[i];
      if s[|s| - 1].x < m then s[|s| - 1].x else m
  }

  /** `p` covers `q`: the events `q` accepts are among those `p` accepts. */
  predicate Covers(p: CutPoint, q: CutPoint)
  {
    p.y <= q.y && p.x <= q.x
  }

  /** Some point of `pts` covers `q`. */
  ghost predicate CoveredBy(pts: seq<CutPoint>, q: CutPoint)
  {
    exists k :: 0 <= k < |pts| && Covers(pts[k], q)
  }

  /** Some cut-point of `pts` accepts the event `(ex, ey)`. */
  ghost predicate Accepts(pts: seq<CutPoint>, ex: real, ey: real)
  {
    exists i :: 0 <= i < |pts| && ex > pts[i].x && ey > pts[i].y
  }

  /** `idx` lists, in increasing order, positions of `b` that spell out `a`. */
  ghost predicate Embedding(a: seq<CutPoint>, b: seq<CutPoint>, idx: seq<int>)
  {
    && |idx| == |a|
    && (forall k :: 0 <= k < |idx| ==> 0 <= idx[k] < |b| && a[k] == b[idx[k]])
    && (forall k, l :: 0 <= k < l < |idx| ==> idx[k] < idx[l])
  }

  ghost predicate IsSubsequence(a: seq<CutPoint>, b: seq<CutPoint>)
  {
    exists idx :: Embedding(a, b, idx)
  }

  /** The scan's running minimum: the last hull point holds the smallest `x`
      read so far. */
  lemma {:induction false} OuterHullLastIsMinX(s: seq<CutPoint>)
    requires |s| >= 1
    ensures OuterHull(s)[|OuterHull(s)| - 1].x == MinX(s)
    decreases |s|
  {
    if |s| > 1 {
      OuterHullLastIsMinX(s[..|s| - 1]);
    }
  }

  /** One step of the scan: the next cut-point is appended exactly when its
      `x` is below the `x` of the last point kept. */
  lemma OuterHullStep(s: seq<CutPoint>, n: nat)
    requires 1 <= n < |s|
    ensures var h := OuterHull(s[..n]);
      OuterHull(s[..n + 1]) == if s[n].x < h[|h| - 1].x then h + [s[n]] else h
  {
    assert s[..n + 1][..n] == s[..n];
  }

  /** Along the hull, `x` strictly decreases. */
  lemma {:induction false} OuterHullDecreasingX(s: seq<CutPoint>)
    requires |s| >= 1
    ensures forall k, l :: 0 <= k < l < |OuterHull(s)| ==> OuterHull(s)[l].x < OuterHull(s)[k].x
    decreases |s|
  {
    if |s| > 1 {
      OuterHullDecreasingX(s[..|s| - 1]);
    }
  }

  /** Reading a prefix builds a prefix of the hull: a point once kept stays kept. */
  lemma {:induction false} OuterHullOfPrefix(s: seq<CutPoint>, n: nat)
    requires 1 <= n <= |s|
    ensures OuterHull(s[..n]) <= OuterHull(s)
    decreases |s|
  {
    if n < |s| {
      assert s[..|s| - 1][..n] == s[..n];
      OuterHullOfPrefix(s[..|s| - 1], n);
    } else {
      assert s[..n] == s;
    }
  }

  /** The hull is a subsequence of the cut-points, in their order. */
  lemma {:induction false} OuterHullIsSubsequence(s: seq<CutPoint>)
    requires |s| >= 1
    ensures IsSubsequence(OuterHull(s), s)
    decreases |s|
  {
    if |s| == 1 {
      assert Embedding(OuterHull(s), s, [0]);
    } else {
      var t := s[..|s| - 1];
      OuterHullIsSubsequence(t);
      var idx :| Embedding(OuterHull(t), t, idx);
      assert Embedding(OuterHull(t), s, idx);
      if OuterHull(s) != OuterHull(t) {
        assert Embedding(OuterHull(s), s, idx + [|s| - 1]);
      }
    }
  }

  /** On cut-points sorted by `(y, x)`, `y` strictly increases along the hull. */
  lemma OuterHullIncreasingY(s: seq<CutPoint>)
    requires |s| >= 1 && SortedBy(s, PointLe)
    ensures forall k, l :: 0 <= k < l < |OuterHull(s)| ==> OuterHull(s)[k].y < OuterHull(s)[l].y
  {
    var h := OuterHull(s);
    OuterHullIsSubsequence(s);
    OuterHullDecreasingX(s);
    var idx :| Embedding(h, s, idx);
    forall k, l | 0 <= k < l < |h|
      ensures h[k].y < h[l].y
    {
      assert PointLe(s[idx[k]], s[idx[l]]);
    }
  }

  /** No hull point covers another: the hull is free of dominated points. */
  lemma OuterHullNoneCovered(s: seq<CutPoint>)
    requires |s| >= 1 && SortedBy(s, PointLe)
    ensures forall k, l :: 0 <= k < |OuterHull(s)| && 0 <= l < |OuterHull(s)| && k != l ==>
              !Covers(OuterHull(s)[k], OuterHull(s)[l])
  {
    OuterHullIncreasingY(s);
    OuterHullDecreasingX(s);
  }

  /** The last point of the hull covers the last cut-point read: its `x` is
      the running minimum, and it was read no later, so its `y` is no larger. */
  lemma OuterHullLastCovers(s: seq<CutPoint>)
    requires |s| >= 1 && SortedBy(s, PointLe)
    ensures Covers(OuterHull(s)[|OuterHull(s)| - 1], s[|s| - 1])
  {
    var h := OuterHull(s);
    var last := h[|h| - 1];
    OuterHullLastIsMinX(s);
    assert last.x <= s[|s| - 1].x;
    OuterHullIsSubsequence(s);
    var idx :| Embedding(h, s, idx);
    var j := idx[|h| - 1];
    assert last == s[j];
    if j < |s| - 1 {
      assert PointLe(s[j], s[|s| - 1]);
    }
  }

  /** Every cut-point, kept or discarded, is covered by a hull point: the one
      that was last in the hull when the scan read it. */
  lemma {:induction false} OuterHullCoversAll(s: seq<CutPoint>)
    requires |s| >= 1 && SortedBy(s, PointLe)
    ensures forall i :: 0 <= i < |s| ==> CoveredBy(OuterHull(s), s[i])
  {
    forall i | 0 <= i < |s|
      ensures CoveredBy(OuterHull(s), s[i])
    {
      var p := s[..i + 1];
      assert p[i] == s[i];
      assert SortedBy(p, PointLe);
      OuterHullLastCovers(p);
      OuterHullOfPrefix(s, i + 1);
      var k := |OuterHull(p)| - 1;
      assert 0 <= k < |OuterHull(s)|;
      assert OuterHull(s)[k] == OuterHull(p)[k];
      assert Covers(OuterHull(s)[k], s[i]);
    }
  }

  /** An event the hull accepts is accepted by the ladder cut: the hull's
      points are cut-points of it. */
  lemma OuterHullAcceptsOnlyLadder(s: seq<CutPoint>, ex: real, ey: real)
    requires |s| >= 1
    requires Accepts(OuterHull(s), ex, ey)
    ensures Accepts(s, ex, ey)
  {
    var h := OuterHull(s);
    var k :| 0 <= k < |h| && ex > h[k].x && ey > h[k].y;
    OuterHullIsSubsequence(s);
    var idx :| Embedding(h, s, idx);
    var i := idx[k];
    assert 0 <= i < |s| && s[i] == h[k];
    assert ex > s[i].x && ey > s[i].y;
  }

  /** An event the ladder cut accepts is accepted by its hull: the cut-point
      that accepts it is covered by a hull point. */
  lemma OuterHullAcceptsAllLadder(s: seq<CutPoint>, ex: real, ey: real)
    requires |s| >= 1 && SortedBy(s, PointLe)
    requires Accepts(s, ex, ey)
    ensures Accepts(OuterHull(s), ex, ey)
  {
    var h := OuterHull(s);
    OuterHullCoversAll(s);
    var i :| 0 <= i < |s| && ex > s[i].x && ey > s[i].y;
    var k :| 0 <= k < |h| && Covers(h[k], s[i]);
    assert ex > h[k].x && ey > h[k].y;
  }

  /** The hull accepts exactly the events the whole ladder cut accepts. */
  lemma OuterHullAcceptsSame(s: seq<CutPoint>)
    requires |s| >= 1 && SortedBy(s, PointLe)
    ensures forall ex, ey :: Accepts(s, ex, ey) <==> Accepts(OuterHull(s), ex, ey)
  {
    forall ex, ey
      ensures Accepts(s, ex, ey) <==> Accepts(OuterHull(s), ex, ey)
    {
      if Accepts(s, ex, ey) {
        OuterHullAcceptsAllLadder(s, ex, ey);
      }
      if Accepts(OuterHull(s), ex, ey) {
        OuterHullAcceptsOnlyLadder(s, ex, ey);
      }
    }
  }

  /** A worked scan: of four cut-points sorted by `y`, the third is dropped
      because its `x` (95) is not below the last kept `x` (90). */
  lemma OuterHullExample()
    ensures OuterHull([CutPoint(0.1, 100.0), CutPoint(0.2, 90.0), CutPoint(0.3, 95.0), CutPoint(0.4, 80.0)])
         == [CutPoint(0.1, 100.0), CutPoint(0.2, 90.0), CutPoint(0.4, 80.0)]
  {
    var ps := [CutPoint(0.1, 100.0), CutPoint(0.2, 90.0), CutPoint(0.3, 95.0), CutPoint(0.4, 80.0)];
    assert ps[..1] == [ps[0]];
    assert ps[..2][..1] == ps[..1];
    assert OuterHull(ps[..2]) == [ps[0], ps[1]];
    assert ps[..3][..2] == ps[..2];
    assert OuterHull(ps[..3]) == [ps[0], ps[1]];
    assert ps[..3] == ps[..4][..3];
  }
}
