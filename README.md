# Ladder-cut outer hulls

A model, in Dafny, of the `LadderCut` class of the RGS examples
(`examples/example2/LadderCut.py`). Cut-points are thresholds `(y, x)` that
accept an event when `x > xcut AND y > ycut`; a ladder cut is the OR of many
cut-points. The class does two things:

- `add(significance, y, x)` pairs the coordinates into tuples `(y[i], x[i])`,
  sorts them ascending in tuple order, keeps the outer hull by one scan (a
  cut-point is kept when its `x` is strictly below the `x` of the last point
  kept) and appends `(significance, outerhull, cutpoints)` to the list `cuts`;
- calling the object with a rank `point` returns `None` for a rank outside
  `cuts`; otherwise it sorts `cuts` in place, reverses it (descending tuple
  order, significance first) and returns the entry at that rank.

Layout:

- `sorting.dfy` (module `Sorting`): `list.sort()` and `list.reverse()` as
  functions over a total order, and the fact that a sorted permutation is
  unique, so the sort algorithm is unobservable.
- `tuples.dfy` (module `Tuples`): the stored values (`CutPoint`, `Entry`) and
  Python's lexicographic comparison of tuples and lists, proved to be total
  orders.
- `staircase.dfy` (module `Staircase`): the outer hull as a function of the
  scanned cut-points and its properties: running minimum, strictly
  decreasing `x`, strictly increasing `y` on sorted input, subsequence, no
  point covering another, every cut-point covered, and the same accepted
  events as the whole ladder cut.
- `laddercut.dfy` (module `LadderCuts`): the class `LadderCut` with `Add`
  and `Call` (the object's call operator), the scan loop `ScanOuterHull`,
  the functions `LadderEntry` (what `add` appends) and `Ranked` (the order a
  call leaves `cuts` in), and the lemmas about them.

Coordinates and significances are `real`: the class only compares them.

`add` takes exactly three arguments and handles only the `x > xcut AND
y > ycut` case. There are no direction parameters, no dedicated error value
and no size accessor. Bad input surfaces as Python's IndexError. `cuts` is
ordered only when the object is called, by full tuple order (ties in
significance are broken by the hull list, then the cut-point list).

## Model

| member | source | states |
|---|---|---|
| `Sorting.Sort` | examples/example2/LadderCut.py:36 | the result of sorting has the same length and the same elements with the same multiplicities as the input, and is ascending in the given total order |
| `Sorting.SortedUnique` | examples/example2/LadderCut.py:60 | two lists that are both sorted by a total order and are permutations of each other are equal, so any sort produces the same list |
| `Sorting.Reversed` | examples/example2/LadderCut.py:61 | `reverse()` leaves a list of the same length whose element k is the old element n-1-k |
| `Sorting.ReversedPermutation` | examples/example2/LadderCut.py:61 | reversing keeps every element with its multiplicity |
| `Tuples.PointLeIsTotalOrder` | examples/example2/LadderCut.py:36 | tuple comparison of cut-points `(y, x)` is a total order |
| `Tuples.PointsLeIsTotalOrder` | examples/example2/LadderCut.py:60 | Python's lexicographic comparison of lists of cut-points (a proper prefix is smaller) is a total order |
| `Tuples.EntryLeIsTotalOrder` | examples/example2/LadderCut.py:60 | comparison of stored tuples `(significance, outerhull, cutpoints)` is a total order, so sorting `cuts` has one outcome |
| `Staircase.OuterHull` | examples/example2/LadderCut.py:40-47 | the hull is never empty, is no longer than the scanned cut-points, and starts with the first cut-point |
| `Staircase.MinX` | examples/example2/LadderCut.py:42-46 | the smallest `x` among the cut-points: at most every `x` and equal to one of them |
| `Staircase.OuterHullLastIsMinX` | examples/example2/LadderCut.py:42-47 | after each step of the scan, the last kept point holds the minimum `x` scanned so far |
| `Staircase.OuterHullDecreasingX` | examples/example2/LadderCut.py:44-47 | along the hull, `x` strictly decreases |
| `Staircase.OuterHullOfPrefix` | examples/example2/LadderCut.py:41-47 | the hull of the first n cut-points is a prefix of the full hull: a kept point is never removed |
| `Staircase.OuterHullIsSubsequence` | examples/example2/LadderCut.py:41-47 | the hull is a subsequence of the cut-points (strictly increasing positions) |
| `Staircase.OuterHullIncreasingY` | examples/example2/LadderCut.py:31-47 | on cut-points sorted by `(y, x)`, `y` strictly increases along the hull |
| `Staircase.OuterHullNoneCovered` | examples/example2/LadderCut.py:38-47 | on sorted cut-points, no hull point has both `y` and `x` at most those of another hull point |
| `Staircase.OuterHullLastCovers` | examples/example2/LadderCut.py:42-47 | on sorted cut-points, the last kept point has `y` and `x` at most those of the cut-point just read, whether that one was kept or discarded |
| `Staircase.OuterHullCoversAll` | examples/example2/LadderCut.py:42-47 | on sorted cut-points, every cut-point, including each discarded one, has a hull point with `y' <= y` and `x' <= x` |
| `Staircase.OuterHullAcceptsOnlyLadder` | examples/example2/LadderCut.py:3-5 | an event `(x, y)` that some hull point accepts is accepted by some cut-point of the ladder cut |
| `Staircase.OuterHullAcceptsAllLadder` | examples/example2/LadderCut.py:3-5 | on sorted cut-points, an event that some cut-point accepts is accepted by some hull point |
| `Staircase.OuterHullAcceptsSame` | examples/example2/LadderCut.py:3-5 | on sorted cut-points, the hull and the full ladder cut accept exactly the same events |
| `Staircase.OuterHullExample` | examples/example2/LadderCut.py:40-47 | scanning (0.1,100), (0.2,90), (0.3,95), (0.4,80) keeps the first, second and fourth |
| `LadderCuts.ScanOuterHull` | examples/example2/LadderCut.py:40-47 | the scan loop returns the outer hull of the sorted cut-points and its last point holds their minimum `x` |
| `LadderCuts.LadderEntryCutPoints` | examples/example2/LadderCut.py:33-36 | the stored cut-points are a permutation of the pairs `(y[i], x[i])` for `i < len(y)`, sorted ascending by `(y, x)`; every pair is stored and nothing else; the significance is stored as given |
| `LadderCuts.LadderEntryOuterHull` | examples/example2/LadderCut.py:38-47 | the stored hull is non-empty, starts at the lowest cut-point, is a subsequence of the stored cut-points with strictly decreasing `x` and strictly increasing `y`, and accepts the same events as the ladder cut |
| `LadderCuts.LadderEntrySinglePoint` | examples/example2/LadderCut.py:33-47 | one coordinate pair gives a one-point hull and a one-point cut-point list, both that pair |
| `LadderCuts.LadderEntryExample` | examples/example2/LadderCut.py:33-47 | `add` with y = 0.1..0.4 and x = 100, 90, 95, 80 stores the four pairs in that order and the hull without (0.3, 95) |
| `LadderCuts.RankedIsPermutation` | examples/example2/LadderCut.py:60-61 | ordering `cuts` keeps every stored ladder cut with its multiplicity |
| `LadderCuts.RankedIsDescending` | examples/example2/LadderCut.py:59-61 | after ordering, each entry is at least every later one in tuple order, so significance never increases with the rank |
| `LadderCuts.RankZeroIsBest` | examples/example2/LadderCut.py:59-62 | rank 0 holds a stored entry that is greatest in tuple order, hence of maximal significance |
| `LadderCuts.RankedIdempotent` | examples/example2/LadderCut.py:60-61 | ordering an already ordered `cuts` changes nothing, so a repeated call returns the same entry |
| `LadderCuts.LadderCut.constructor` | examples/example2/LadderCut.py:19-24 | a new engine holds no ladder cuts and keeps the given axis bounds |
| `LadderCuts.LadderCut.Add` | examples/example2/LadderCut.py:30-51 | with `len(y) >= 1` and `len(x) >= len(y)`, appends exactly one entry, `LadderEntry(significance, y, x)`, after the unchanged earlier entries; otherwise fails with IndexError and leaves `cuts` unchanged |
| `LadderCuts.LadderCut.Call` | examples/example2/LadderCut.py:54-62 | the rank defaults to 0; a rank below 0 or above `len(cuts)-1` gives None and leaves `cuts` unchanged; an in-range rank reorders `cuts` into `Ranked(cuts)`, a permutation in non-increasing significance, and returns the entry at that rank |

## Left out

- `LadderCut.plot` and `LadderCut.draw` (LadderCut.py:64-112) and the fields
  `color`, `hullcolor`, `hullwidth` and `plots`: they build and draw ROOT
  poly-lines, a foreign drawing library.
- The significance formula of `examples/example2/analysis.py:122-127`: it is
  floating-point `log`/`sqrt` arithmetic outside the class; the model takes
  the significance as a number supplied by the caller.
- Floating-point details: coordinates and significances are exact reals, so
  NaN (which breaks the sort's total order) and `-0.0 == 0.0` are not modelled.
- Python's sort algorithm (Timsort): modelled by an insertion sort;
  `Sorting.SortedUnique` shows the result does not depend on the algorithm.
- Argument types: `y` and `x` are modelled as sequences of reals and `point`
  as an integer; a `point` that is not an integer (a TypeError at
  LadderCut.py:62) is not modelled.
- The in-place `sort()`/`reverse()` on `cuts` is modelled by reassigning the
  field, and returned entries are values: no caller in the shown code holds
  `cuts` or changes a returned entry, so the sharing of lists between a
  returned tuple and the stored one is not modelled.
- `include/RGS.h` and `examples/Higgs/HO1/train.py`: the grid search that
  produces cut-points and its file I/O are not part of this model.
