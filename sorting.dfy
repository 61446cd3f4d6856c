/**
 This module models Python's `list.sort()` and `list.reverse()` on lists whose
 elements compare by a total order (the built-in comparison of tuples and
 lists of real numbers is one, see module Tuples).
 */
module Sorting {

  /** Any two elements are comparable (so `le` is also reflexive). */
  ghost predicate Connex<T(!new)>(le: (T, T) -> bool)
  {
    forall a, b :: le(a, b) || le(b, a)
  }

  ghost predicate Antisymmetric<T(!new)>(le: (T, T) -> bool)
  {
    forall a, b :: le(a, b) && le(b, a) ==> a == b
  }

  ghost predicate Transitive<T(!new)>(le: (T, T) -> bool)
  {
    forall a, b, c :: le(a, b) && le(b, c) ==> le(a, c)
  }

  /** `le` is a total order. */
  ghost predicate TotalOrder<T(!new)>(le: (T, T) -> bool)
  {
    Connex(le) && Antisymmetric(le) && Transitive(le)
  }

  /** Every element is `le` every later element. */
  ghost predicate SortedBy<T>(s: seq<T>, le: (T, T) -> bool)
  {
    forall i, j :: 0 <= i < j < |s| ==> le(s[i], s[j])
  }

  /** Inserts `x` into the sorted list `s`, before the first element it is `le`. */
  function Insert<T(!new)>(x: T, s: seq<T>, le: (T, T) -> bool): (r: seq<T>)
    requires Connex(le) && Transitive(le) && SortedBy(s, le)
    ensures |r| == |s| + 1
    ensures multiset(r) == multiset(s) + multiset{x}
    ensures SortedBy(r, le)
  {
    if s == [] then [x]
    else if le(x, s[0]) then
      assert forall e :: e in s ==> le(x, e) by {
        forall e | e in s ensures le(x, e) {
          var j :| 0 <= j < |s| && s[j] == e;
          if j > 0 {
            assert le(x, s[0]) && le(s[0], s[j]);
          }
        }
      }
      ConsSorted(x, s, le);
      [x] + s
    else
      var t := Insert(x, s[1..], le);
      assert s == [s[0]] + s[1..];
      assert le(s[0], x);
      assert forall e :: e in t ==> le(s[0], e) by {
        forall e | e in t ensures le(s[0], e) {
          assert e in multiset(t);
          if e != x {
            assert e in multiset(s[1..]);
            var j :| 0 <= j < |s[1..]| && s[1..][j] == e;
            assert le(s[0], s[j + 1]);
          }
        }
      }
      ConsSorted(s[0], t, le);
      [s[0]] + t
  }

  /** Putting in front of a sorted list an element `le` all of it keeps it sorted. */
  lemma ConsSorted<T>(h: T, t: seq<T>, le: (T, T) -> bool)
    requires SortedBy(t, le)
    requires forall e :: e in t ==> le(h, e)
    ensures SortedBy([h] + t, le)
  {
    var r := [h] + t;
    forall i, j | 0 <= i < j < |r|
      ensures le(r[i], r[j])
    {
      assert r[j] == t[j - 1];
      if i > 0 {
        assert r[i] == t[i - 1];
      }
    }
  }

  /** The ascending sort of `s`: what `s.sort()` leaves in `s`. */
  function Sort<T(!new)>(s: seq<T>, le: (T, T) -> bool): (r: seq<T>)
    requires Connex(le) && Transitive(le)
    ensures |r| == |s|
    ensures multiset(r) == multiset(s)
    ensures SortedBy(r, le)
  {
    if s == [] then []
    else
      assert s == [s[0]] + s[1..];
      Insert(s[0], Sort(s[1..], le), le)
  }

  /** The first element of a sorted list is `le` each of its elements. */
  lemma SortedFirstIsLeast<T(!new)>(a: seq<T>, e: T, le: (T, T) -> bool)
    requires Connex(le) && SortedBy(a, le)
    requires e in a
    ensures le(a[0], e)
  {
    var i :| 0 <= i < |a| && a[i] == e;
    if i == 0 {
      assert le(e, e) || le(e, e);
    }
  }

  /** Two sorted permutations of one multiset are the same list: sorting by a
      total order has exactly one possible outcome, whatever the algorithm. */
  lemma {:induction false} SortedUnique<T(!new)>(a: seq<T>, b: seq<T>, le: (T, T) -> bool)
    requires Connex(le) && Antisymmetric(le)
    requires SortedBy(a, le) && SortedBy(b, le)
    requires multiset(a) == multiset(b)
    ensures a == b
  {
    assert |a| == |b| by { assert |multiset(a)| == |multiset(b)|; }
    if a != [] {
      assert a[0] in multiset(b) && b[0] in multiset(a);
      SortedFirstIsLeast(a, b[0], le);
      SortedFirstIsLeast(b, a[0], le);
      assert a[0] == b[0];
      assert a == [a[0]] + a[1..];
      assert b == [b[0]] + b[1..];
      assert multiset(a[1..]) == multiset(a) - multiset{a[0]} == multiset(b[1..]);
      SortedUnique(a[1..], b[1..], le);
    }
  }

  /** What `s.reverse()` leaves in `s`. */
  function Reversed<T>(s: seq<T>): (r: seq<T>)
    ensures |r| == |s|
    ensures forall k :: 0 <= k < |s| ==> r[k] == s[|s| - 1 - k]
  {
    if s == [] then [] else Reversed(s[1..]) + [s[0]]
  }

  /** Reversing keeps the elements and their multiplicities. */
  lemma {:induction false} ReversedPermutation<T>(s: seq<T>)
    ensures multiset(Reversed(s)) == multiset(s)
  {
    if s != [] {
      ReversedPermutation(s[1..]);
      assert s == [s[0]] + s[1..];
    }
  }
}
