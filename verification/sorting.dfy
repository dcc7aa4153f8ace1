/** Python's `sorted(...)`, as a stable insertion sort over an ordering function
    `le` ("may come first"). */
module Sorting {
  import opened Common

  predicate SortedBy<T>(xs: seq<T>, le: (T, T) -> bool) {
    forall i, j :: 0 <= i < j < |xs| ==> le(xs[i], xs[j])
  }

  ghost predicate TotalPreorder<T(!new)>(le: (T, T) -> bool) {
    && (forall a, b :: le(a, b) || le(b, a))
    && (forall a, b, c :: le(a, b) && le(b, c) ==> le(a, c))
  }

  /** Inserts `x` before the first element it may precede. */
  function Insert<T>(x: T, xs: seq<T>, le: (T, T) -> bool): (r: seq<T>)
    ensures multiset(r) == multiset(xs) + multiset{x}
    ensures |r| == |xs| + 1
  {
    if xs == [] then [x]
    else if le(x, xs[0]) then [x] + xs
    else
      assert xs == [xs[0]] + xs[1..];
      [xs[0]] + Insert(x, xs[1..], le)
  }

  function SortBy<T>(xs: seq<T>, le: (T, T) -> bool): (r: seq<T>)
    ensures multiset(r) == multiset(xs)
    ensures |r| == |xs|
  {
    if xs == [] then []
    else
      assert xs == [xs[0]] + xs[1..];
      Insert(xs[0], SortBy(xs[1..], le), le)
  }

  lemma {:induction false} InsertSorted<T(!new)>(x: T, xs: seq<T>, le: (T, T) -> bool)
    requires TotalPreorder(le)
    requires SortedBy(xs, le)
    ensures SortedBy(Insert(x, xs, le), le)
  {
    if xs != [] && !le(x, xs[0]) {
      InsertSorted(x, xs[1..], le);
      var r := Insert(x, xs, le);
      var tail := Insert(x, xs[1..], le);
      assert r == [xs[0]] + tail;
      forall j | 0 < j < |r| ensures le(xs[0], r[j]) {
        assert r[j] in multiset(tail);
        assert r[j] in multiset(xs[1..]) + multiset{x};
        if r[j] != x {
          assert r[j] in xs[1..];
          var k :| 0 <= k < |xs[1..]| && xs[1..][k] == r[j];
          assert xs[k + 1] == r[j];
        }
      }
    }
  }

  /** The result of `SortBy` is ordered whenever `le` is a total preorder. */
  lemma {:induction false} SortBySorted<T(!new)>(xs: seq<T>, le: (T, T) -> bool)
    requires TotalPreorder(le)
    ensures SortedBy(SortBy(xs, le), le)
  {
    if xs != [] {
      SortBySorted(xs[1..], le);
      InsertSorted(xs[0], SortBy(xs[1..], le), le);
    }
  }

  predicate NonIncreasing<T>(xs: seq<T>, m: T -> int) {
    forall i, j :: 0 <= i < j < |xs| ==> m(xs[i]) >= m(xs[j])
  }

  lemma {:induction false} InsertNonIncreasing<T(!new)>(x: T, xs: seq<T>, le: (T, T) -> bool, m: T -> int)
    requires forall a, b :: le(a, b) ==> m(a) >= m(b)
    requires forall a, b :: !le(a, b) ==> m(b) >= m(a)
    requires NonIncreasing(xs, m)
    ensures NonIncreasing(Insert(x, xs, le), m)
  {
    if xs != [] && !le(x, xs[0]) {
      InsertNonIncreasing(x, xs[1..], le, m);
      var r := Insert(x, xs, le);
      var tail := Insert(x, xs[1..], le);
      assert r == [xs[0]] + tail;
      forall j | 0 < j < |r| ensures m(xs[0]) >= m(r[j]) {
        assert r[j] in multiset(tail);
        assert r[j] in multiset(xs[1..]) + multiset{x};
        if r[j] != x {
          assert r[j] in xs[1..];
          var k :| 0 <= k < |xs[1..]| && xs[1..][k] == r[j];
          assert xs[k + 1] == r[j];
        }
      }
    }
  }

  /** An ordering that compares a measure first (larger first) leaves the measure
      non-increasing, whatever it does on ties. */
  lemma {:induction false} SortByNonIncreasing<T(!new)>(xs: seq<T>, le: (T, T) -> bool, m: T -> int)
    requires forall a, b :: le(a, b) ==> m(a) >= m(b)
    requires forall a, b :: !le(a, b) ==> m(b) >= m(a)
    ensures NonIncreasing(SortBy(xs, le), m)
  {
    if xs != [] {
      SortByNonIncreasing(xs[1..], le, m);
      InsertNonIncreasing(xs[0], SortBy(xs[1..], le), le, m);
    }
  }

  /** Sorting keeps exactly the elements it was given. */
  lemma SortByMembership<T>(xs: seq<T>, le: (T, T) -> bool)
    ensures forall x :: x in SortBy(xs, le) <==> x in xs
  {
    forall x ensures x in SortBy(xs, le) <==> x in xs {
      assert x in SortBy(xs, le) <==> x in multiset(SortBy(xs, le));
      assert x in xs <==> x in multiset(xs);
    }
  }

  /** Sorting a sequence that is already sorted leaves it as it is. */
  lemma {:induction false} SortBySortedInput<T>(xs: seq<T>, le: (T, T) -> bool)
    requires SortedBy(xs, le)
    ensures SortBy(xs, le) == xs
  {
    if xs != [] {
      SortBySortedInput(xs[1..], le);
      if |xs| > 1 {
        assert le(xs[0], xs[1]);
      }
      assert xs == [xs[0]] + xs[1..];
    }
  }

  /** Filtering keeps the order of what remains. */
  lemma {:induction false} FilterSortedBy<T>(xs: seq<T>, p: T -> bool, le: (T, T) -> bool)
    requires SortedBy(xs, le)
    ensures SortedBy(Filter(xs, p), le)
  {
    if xs != [] {
      FilterSortedBy(xs[1..], p, le);
      var rest := Filter(xs[1..], p);
      forall j | 0 <= j < |rest| ensures le(xs[0], rest[j]) {
        FilterMembership(xs[1..], p, rest[j]);
        var k :| 0 <= k < |xs[1..]| && xs[1..][k] == rest[j];
        assert xs[k + 1] == rest[j];
      }
    }
  }

  predicate StrictlyAscending(xs: seq<string>) {
    forall i, j :: 0 <= i < j < |xs| ==> StrLess(xs[i], xs[j])
  }

  /** Sorted by `<=` and without repeats: strictly ascending strings. */
  lemma SortStringsAscending(xs: seq<string>)
    requires Distinct(xs)
    ensures StrictlyAscending(SortBy(xs, StrLessEq))
  {
    forall a, b, c ensures StrLessEq(a, b) || StrLessEq(b, a)
                   ensures StrLessEq(a, b) && StrLessEq(b, c) ==> StrLessEq(a, c) {
      StrLessEqTotalPreorder(a, b, c);
    }
    var r := SortBy(xs, StrLessEq);
    SortBySorted(xs, StrLessEq);
    DistinctPermutation(xs, r);
    forall i, j | 0 <= i < j < |r| ensures StrLess(r[i], r[j]) {
      StrLessTrichotomy(r[i], r[j]);
    }
  }
}
