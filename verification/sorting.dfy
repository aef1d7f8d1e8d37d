/** The stable sort behind `Array.prototype.sort` with a comparator.  The
    language requires the sort to be stable, so for a consistent comparator
    its result is the unique stable ordering; insertion sort computes
    exactly that ordering.  `before(a, b)` is "the comparator returns a
    negative number for (a, b)". */
module Sorting {

  import opened Seqs

  /** A comparator the sort can rely on: `before` is asymmetric and
      "not before" is transitive, so incomparable elements form classes
      (equal ids, equal areas) that are ordered as blocks. */
  ghost predicate StrictWeakOrder<T(!new)>(before: (T, T) -> bool) {
    && (forall a, b :: before(a, b) ==> !before(b, a))
    && (forall a, b, c :: !before(a, b) && !before(b, c) ==> !before(a, c))
  }

  /** No element is strictly before an element that precedes it. */
  predicate SortedBy<T>(s: seq<T>, before: (T, T) -> bool) {
    forall i, j :: 0 <= i < j < |s| ==> !before(s[j], s[i])
  }

  /** Places `x` ahead of the first element of `t` it is not after, that is
      after the elements strictly before it and ahead of its equals. */
  function Insert<T>(x: T, t: seq<T>, before: (T, T) -> bool): (r: seq<T>)
    ensures multiset(r) == multiset(t) + multiset{x}
    ensures |r| == |t| + 1
  {
    if |t| == 0 || !before(t[0], x) then [x] + t
    else
      assert t == [t[0]] + t[1..];
      [t[0]] + Insert(x, t[1..], before)
  }

  /** The stable sort: a permutation of `s`. */
  function SortBy<T>(s: seq<T>, before: (T, T) -> bool): (r: seq<T>)
    ensures multiset(r) == multiset(s)
    ensures |r| == |s|
  {
    if |s| == 0 then []
    else
      assert s == [s[0]] + s[1..];
      Insert(s[0], SortBy(s[1..], before), before)
  }

  lemma {:induction false} InsertSorted<T(!new)>(x: T, t: seq<T>, before: (T, T) -> bool)
    requires StrictWeakOrder(before)
    requires SortedBy(t, before)
    ensures SortedBy(Insert(x, t, before), before)
  {
    if |t| == 0 || !before(t[0], x) {
      var r := [x] + t;
      forall i, j | 0 <= i < j < |r|
        ensures !before(r[j], r[i])
      {
        if i == 0 {
          assert r[j] == t[j - 1];
          if j > 1 {
            assert !before(t[j - 1], t[0]);
          }
        } else {
          assert r[i] == t[i - 1] && r[j] == t[j - 1];
        }
      }
    } else {
      var rest := Insert(x, t[1..], before);
      InsertSorted(x, t[1..], before);
      var r := [t[0]] + rest;
      forall i, j | 0 <= i < j < |r|
        ensures !before(r[j], r[i])
      {
        if i == 0 {
          assert r[j] in multiset(rest);
          assert r[j] == x || r[j] in multiset(t[1..]);
          if r[j] != x {
            var k :| 0 <= k < |t[1..]| && t[1..][k] == r[j];
            assert t[k + 1] == r[j];
          }
        } else {
          assert r[i] == rest[i - 1] && r[j] == rest[j - 1];
        }
      }
    }
  }

  /** `SortBy` orders its result whenever the comparator is consistent. */
  lemma {:induction false} SortBySorted<T(!new)>(s: seq<T>, before: (T, T) -> bool)
    requires StrictWeakOrder(before)
    ensures SortedBy(SortBy(s, before), before)
  {
    if |s| > 0 {
      SortBySorted(s[1..], before);
      InsertSorted(s[0], SortBy(s[1..], before), before);
    }
  }

  lemma {:induction false} InsertStable<T>(x: T, t: seq<T>, before: (T, T) -> bool, p: T -> bool)
    requires forall a, b :: p(a) && p(b) ==> !before(a, b)
    ensures Filter(Insert(x, t, before), p) == (if p(x) then [x] else []) + Filter(t, p)
  {
    if |t| == 0 || !before(t[0], x) {
      assert ([x] + t)[1..] == t;
    } else {
      InsertStable(x, t[1..], before, p);
      assert ([t[0]] + Insert(x, t[1..], before))[1..] == Insert(x, t[1..], before);
      assert !(p(t[0]) && p(x));
    }
  }

  /** Stability: elements the comparator cannot tell apart keep their
      relative input order, so the sorted sequence restricted to any such
      class is the input restricted to it. */
  lemma {:induction false} SortByStable<T>(s: seq<T>, before: (T, T) -> bool, p: T -> bool)
    requires forall a, b :: p(a) && p(b) ==> !before(a, b)
    ensures Filter(SortBy(s, before), p) == Filter(s, p)
  {
    if |s| > 0 {
      SortByStable(s[1..], before, p);
      InsertStable(s[0], SortBy(s[1..], before), before, p);
    }
  }
}
