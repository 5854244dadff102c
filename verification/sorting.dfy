/** The `ORDER BY` of a query, as one insertion sort under a strict weak
    order `before` (`before(a, b)`: `a` must come ahead of `b`).  Each
    query supplies its own order and proves it is one. */
module Sorting {

  /** `before` is asymmetric and "not before" is transitive, as the order
      of an `ORDER BY` list of keys is. */
  ghost predicate StrictWeakOrder<T(!new)>(before: (T, T) -> bool)
  {
    && (forall a, b :: before(a, b) ==> !before(b, a))
    && (forall a, b, c :: !before(a, b) && !before(b, c) ==> !before(a, c))
  }

  /** No element is preceded by one that should come after it. */
  ghost predicate Ordered<T>(s: seq<T>, before: (T, T) -> bool)
  {
    forall i, j :: 0 <= i < j < |s| ==> !before(s[j], s[i])
  }

  /** Inserts `x` in front of the first element it does not come after. */
  function Insert<T>(x: T, s: seq<T>, before: (T, T) -> bool): (r: seq<T>)
    ensures multiset(r) == multiset(s) + multiset{x}
    ensures |r| == |s| + 1
  {
    if s == [] || !before(s[0], x) then [x] + s
    else
      assert s == [s[0]] + s[1..];
      [s[0]] + Insert(x, s[1..], before)
  }

  /** Insertion sort: a permutation of `s`. */
  function Sort<T>(s: seq<T>, before: (T, T) -> bool): (r: seq<T>)
    ensures multiset(r) == multiset(s)
    ensures |r| == |s|
  {
    if s == [] then []
    else
      assert s == [s[0]] + s[1..];
      Insert(s[0], Sort(s[1..], before), before)
  }

  /** An element that neither `x` nor any element of `s` comes before is
      not preceded by any element of the insertion either. */
  lemma InsertKeepsBound<T>(x: T, s: seq<T>, y: T, before: (T, T) -> bool)
    requires forall k :: 0 <= k < |s| ==> !before(s[k], y)
    requires !before(x, y)
    ensures forall j :: 0 <= j < |Insert(x, s, before)| ==> !before(Insert(x, s, before)[j], y)
  {
    var r := Insert(x, s, before);
    forall j | 0 <= j < |r| ensures !before(r[j], y) {
      assert r[j] in multiset(r);
      if r[j] != x {
        assert r[j] in multiset(s);
        assert r[j] in s;
      }
    }
  }

  lemma {:induction false} InsertOrdered<T(!new)>(x: T, s: seq<T>, before: (T, T) -> bool)
    requires StrictWeakOrder(before)
    requires Ordered(s, before)
    ensures Ordered(Insert(x, s, before), before)
  {
    if s == [] {
    } else if before(s[0], x) {
      var rest := Insert(x, s[1..], before);
      InsertOrdered(x, s[1..], before);
      InsertKeepsBound(x, s[1..], s[0], before);
      var r := [s[0]] + rest;
      assert Insert(x, s, before) == r;
      forall i, j | 0 <= i < j < |r| ensures !before(r[j], r[i]) {
        if i > 0 {
          assert r[i] == rest[i - 1] && r[j] == rest[j - 1];
        }
      }
    } else {
      var r := [x] + s;
      forall i, j | 0 <= i < j < |r| ensures !before(r[j], r[i]) {
        if i == 0 && j > 1 {
          assert !before(s[j - 1], s[0]);
        }
      }
    }
  }

  /** The sort leaves no element before an earlier one. */
  lemma {:induction false} SortOrdered<T(!new)>(s: seq<T>, before: (T, T) -> bool)
    requires StrictWeakOrder(before)
    ensures Ordered(Sort(s, before), before)
  {
    if s != [] {
      SortOrdered(s[1..], before);
      InsertOrdered(s[0], Sort(s[1..], before), before);
    }
  }
}
