/**
 The ladder-cut engine: it accumulates one stored ladder cut
 `(significance, outerhull, cutpoints)` per `add` call, and on a call with a
 rank it orders what it holds by descending tuple order (significance first)
 and returns the ladder cut at that rank.
 */
module LadderCuts {
  import opened Sorting
  import opened Tuples
  import opened Staircase

  datatype Option<T> = None | Some(value: T)

  /** The one exception the core can raise: indexing past the end of a list. */
  datatype Error = IndexError

  datatype Outcome = Pass | Fail(error: Error)

  /** The tuples `(y[i], x[i])` for every index of `y`. */
  function Pairs(y: seq<real>, x: seq<real>): seq<CutPoint>
    requires |x| >= |y|
  {
    seq(|y|, i requires 0 <= i < |y| => CutPoint(y[i], x[i]))
  }

  /** The ladder cut that `add(significance, y, x)` appends, when it succeeds. */
  function LadderEntry(significance: real, y: seq<real>, x: seq<real>): Entry
    requires |y| >= 1 && |x| >= |y|
  {
    PointLeIsTotalOrder();
    var cutpoints := Sort(Pairs(y, x), PointLe);
    Entry(significance, OuterHull(cutpoints), cutpoints)
  }

  /** The order `cuts` is left in by `cuts.sort(); cuts.reverse()`. */
  function Ranked(cuts: seq<Entry>): seq<Entry>
  {
    EntryLeIsTotalOrder();
    Reversed(Sort(cuts, EntryLe))
  }

  /** The stored cut-points are the input pairs, each kept as often as it was
      given, sorted ascending by `(y, x)`; the first is the lowest. */
  lemma LadderEntryCutPoints(significance: real, y: seq<real>, x: seq<real>)
    requires |y| >= 1 && |x| >= |y|
    ensures LadderEntry(significance, y, x).significance == significance
    ensures multiset(LadderEntry(significance, y, x).cutpoints) == multiset(Pairs(y, x))
    ensures SortedBy(LadderEntry(significance, y, x).cutpoints, PointLe)
    ensures forall i :: 0 <= i < |y| ==> CutPoint(y[i], x[i]) in LadderEntry(significance, y, x).cutpoints
    ensures forall p :: p in LadderEntry(significance, y, x).cutpoints ==> exists i :: 0 <= i < |y| && p == CutPoint(y[i], x[i])
  {
    var cutpoints := LadderEntry(significance, y, x).cutpoints;
    var pairs := Pairs(y, x);
    forall i | 0 <= i < |y|
      ensures CutPoint(y[i], x[i]) in cutpoints
    {
      assert pairs[i] in multiset(pairs);
    }
    forall p | p in cutpoints
      ensures exists i :: 0 <= i < |y| && p == CutPoint(y[i], x[i])
    {
      assert p in multiset(pairs);
      var i :| 0 <= i < |pairs| && pairs[i] == p;
    }
  }

  /** The stored outer hull starts at the lowest cut-point, is a subsequence
      of the stored cut-points with strictly decreasing `x` and strictly
      increasing `y`, and accepts exactly the events the ladder cut accepts. */
  lemma LadderEntryOuterHull(significance: real, y: seq<real>, x: seq<real>)
    requires |y| >= 1 && |x| >= |y|
    ensures var e := LadderEntry(significance, y, x);
      && 1 <= |e.outerhull| <= |e.cutpoints|
      && e.outerhull[0] == e.cutpoints[0]
      && IsSubsequence(e.outerhull, e.cutpoints)
      && (forall k, l :: 0 <= k < l < |e.outerhull| ==>
            e.outerhull[l].x < e.outerhull[k].x && e.outerhull[k].y < e.outerhull[l].y)
      && (forall ex, ey :: Accepts(e.cutpoints, ex, ey) <==> Accepts(e.outerhull, ex, ey))
  {
    var e := LadderEntry(significance, y, x);
    LadderEntryCutPoints(significance, y, x);
    OuterHullIsSubsequence(e.cutpoints);
    OuterHullDecreasingX(e.cutpoints);
    OuterHullIncreasingY(e.cutpoints);
    OuterHullAcceptsSame(e.cutpoints);
  }

  /** A single coordinate pair gives a one-point hull equal to that point. */
  lemma LadderEntrySinglePoint(significance: real, y: seq<real>, x: seq<real>)
    requires |y| == 1 && |x| >= 1
    ensures LadderEntry(significance, y, x).outerhull == [CutPoint(y[0], x[0])]
    ensures LadderEntry(significance, y, x).cutpoints == [CutPoint(y[0], x[0])]
  {
    PointLeIsTotalOrder();
    assert Pairs(y, x) == [CutPoint(y[0], x[0])];
  }

  /** The same four cut-points given to `add`: already in `(y, x)` order, so
      they are stored as given, and the hull drops the third. */
  lemma LadderEntryExample()
    ensures LadderEntry(1.0, [0.1, 0.2, 0.3, 0.4], [100.0, 90.0, 95.0, 80.0]).cutpoints
         == [CutPoint(0.1, 100.0), CutPoint(0.2, 90.0), CutPoint(0.3, 95.0), CutPoint(0.4, 80.0)]
    ensures LadderEntry(1.0, [0.1, 0.2, 0.3, 0.4], [100.0, 90.0, 95.0, 80.0]).outerhull
         == [CutPoint(0.1, 100.0), CutPoint(0.2, 90.0), CutPoint(0.4, 80.0)]
  {
    var y := [0.1, 0.2, 0.3, 0.4];
    var x := [100.0, 90.0, 95.0, 80.0];
    var ps := [CutPoint(0.1, 100.0), CutPoint(0.2, 90.0), CutPoint(0.3, 95.0), CutPoint(0.4, 80.0)];
    assert Pairs(y, x) == ps;
    PointLeIsTotalOrder();
    assert SortedBy(ps, PointLe);
    SortedUnique(Sort(ps, PointLe), ps, PointLe);
    OuterHullExample();
  }

  /** Ranking keeps every stored ladder cut, as often as it was stored. */
  lemma RankedIsPermutation(cuts: seq<Entry>)
    ensures |Ranked(cuts)| == |cuts|
    ensures multiset(Ranked(cuts)) == multiset(cuts)
  {
    EntryLeIsTotalOrder();
    ReversedPermutation(Sort(cuts, EntryLe));
  }

  /** Ranked ladder cuts are in descending tuple order, so their
      significances never increase with the rank. */
  lemma RankedIsDescending(cuts: seq<Entry>)
    ensures forall i, j :: 0 <= i < j < |Ranked(cuts)| ==>
              EntryLe(Ranked(cuts)[j], Ranked(cuts)[i]) &&
              Ranked(cuts)[j].significance <= Ranked(cuts)[i].significance
  {
    EntryLeIsTotalOrder();
    var sorted := Sort(cuts, EntryLe);
    var n := |cuts|;
    forall i, j | 0 <= i < j < n
      ensures EntryLe(Ranked(cuts)[j], Ranked(cuts)[i])
    {
      assert Ranked(cuts)[i] == sorted[n - 1 - i];
      assert Ranked(cuts)[j] == sorted[n - 1 - j];
    }
  }

  /** Rank 0 holds a ladder cut that is greatest in tuple order among all
      that are stored, hence one of maximal significance. */
  lemma RankZeroIsBest(cuts: seq<Entry>)
    requires |cuts| >= 1
    ensures Ranked(cuts)[0] in cuts
    ensures forall e :: e in cuts ==> EntryLe(e, Ranked(cuts)[0]) && e.significance <= Ranked(cuts)[0].significance
  {
    RankedIsPermutation(cuts);
    RankedIsDescending(cuts);
    EntryLeIsTotalOrder();
    var r := Ranked(cuts);
    assert r[0] in multiset(cuts);
    forall e | e in cuts
      ensures EntryLe(e, r[0])
    {
      assert e in multiset(r);
      var j :| 0 <= j < |r| && r[j] == e;
    }
  }

  /** Ranking what is already ranked changes nothing. */
  lemma RankedIdempotent(cuts: seq<Entry>)
    ensures Ranked(Ranked(cuts)) == Ranked(cuts)
  {
    EntryLeIsTotalOrder();
    var sorted := Sort(cuts, EntryLe);
    var again := Sort(Reversed(sorted), EntryLe);
    ReversedPermutation(sorted);
    SortedUnique(again, sorted, EntryLe);
  }

  /** The scan of `add`: starting from the lowest cut-point, keep each
      cut-point whose `x` is strictly below the `x` of the last one kept. */
  method ScanOuterHull(cutpoints: seq<CutPoint>) returns (outerhull: seq<CutPoint>)
    requires |cutpoints| >= 1
    ensures outerhull == OuterHull(cutpoints)
    ensures outerhull[|outerhull| - 1].x == MinX(cutpoints)
  {
    outerhull := [cutpoints[0]];
    for ii := 1 to |cutpoints|
      invariant outerhull == OuterHull(cutpoints[..ii])
      invariant outerhull[|outerhull| - 1].x == MinX(cutpoints[..ii])
    {
      OuterHullStep(cutpoints, ii);
      var x0 := outerhull[|outerhull| - 1].x;
      var x1 := cutpoints[ii].x;
      if x1 < x0 {
        outerhull := outerhull + [cutpoints[ii]];
      }
      OuterHullLastIsMinX(cutpoints[..ii + 1]);
    }
    assert cutpoints[..|cutpoints|] == cutpoints;
  }

  /** The engine. Besides its ladder cuts it keeps the axis bounds, which only
      drawing uses. */
  class LadderCut {
    var cuts: seq<Entry>
    var xmin: real
    var xmax: real
    var ymin: real
    var ymax: real

    constructor (xmin: real, xmax: real, ymin: real, ymax: real)
      ensures cuts == []
      ensures this.xmin == xmin && this.xmax == xmax && this.ymin == ymin && this.ymax == ymax
    {
      cuts := [];
      this.xmin, this.xmax, this.ymin, this.ymax := xmin, xmax, ymin, ymax;
    }

    /** Pairs, sorts and reduces the cut-points of one ladder cut and appends
        `(significance, outerhull, cutpoints)`. An empty `y`, or an `x`
        shorter than `y`, raises IndexError before anything is appended. */
    method Add(significance: real, y: seq<real>, x: seq<real>) returns (outcome: Outcome)
      modifies this`cuts
      ensures outcome == if |y| >= 1 && |x| >= |y| then Pass else Fail(IndexError)
      ensures outcome.Pass? ==> cuts == old(cuts) + [LadderEntry(significance, y, x)]
      ensures outcome.Fail? ==> cuts == old(cuts)
    {
      var buffer := new CutPoint[|y|];
      for ii := 0 to |y|
        invariant ii <= |x|
        invariant cuts == old(cuts)
        invariant forall k :: 0 <= k < ii ==> buffer[k] == CutPoint(y[k], x[k])
      {
        if ii >= |x| {
          return Fail(IndexError);
        }
        buffer[ii] := CutPoint(y[ii], x[ii]);
      }
      assert buffer[..] == Pairs(y, x);
      PointLeIsTotalOrder();
      var cutpoints := Sort(buffer[..], PointLe);
      if |cutpoints| == 0 {
        return Fail(IndexError);
      }

      var outerhull := ScanOuterHull(cutpoints);
      cuts := cuts + [Entry(significance, outerhull, cutpoints)];
      return Pass;
    }

    /** The ladder cut at rank `point`, or None when no ladder cut has that
        rank. An in-range call first reorders `cuts` by descending tuple
        order; an out-of-range call leaves it alone. */
    method Call(point: int := 0) returns (r: Option<Entry>)
      modifies this`cuts
      ensures (point < 0 || point > |old(cuts)| - 1) ==> r == None && cuts == old(cuts)
      ensures 0 <= point < |old(cuts)| ==> cuts == Ranked(old(cuts)) && r == Some(cuts[point])
      ensures multiset(cuts) == multiset(old(cuts))
      ensures forall i, j :: 0 <= i < j < |cuts| && 0 <= point < |old(cuts)| ==>
                cuts[j].significance <= cuts[i].significance
    {
      if point < 0 {
        return None;
      }
      if point > |cuts| - 1 {
        return None;
      }
      RankedIsPermutation(cuts);
      RankedIsDescending(cuts);
      EntryLeIsTotalOrder();
      cuts := Sort(cuts, EntryLe);
      cuts := Reversed(cuts);
      return Some(cuts[point]);
    }
  }
}
