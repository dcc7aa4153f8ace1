/** Python dictionaries filled in a loop (`if k not in d: d[k] = ... else: ...`):
    their keys come out in first-seen order, and each key's entry gathers the
    items with that key. */
module Grouping {
  import opened Common

  /** The distinct keys of `ks` in order of first appearance. */
  function FirstSeen<K(==)>(ks: seq<K>): (r: seq<K>)
    ensures Distinct(r)
  {
    if ks == [] then []
    else
      var init := ks[..|ks| - 1];
      var d := FirstSeen(init);
      if ks[|ks| - 1] in d then d else d + [ks[|ks| - 1]]
  }

  /** `FirstSeen` keeps every key and adds none. */
  lemma {:induction false} FirstSeenMembership<K>(ks: seq<K>, x: K)
    ensures x in FirstSeen(ks) <==> x in ks
  {
    if ks != [] {
      var init := ks[..|ks| - 1];
      FirstSeenMembership(init, x);
      assert ks == init + [ks[|ks| - 1]];
    }
  }

  /** A list of one repeated key has that key alone. */
  lemma {:induction false} FirstSeenConst<K>(ks: seq<K>, k: K)
    requires ks != []
    requires forall i :: 0 <= i < |ks| ==> ks[i] == k
    ensures FirstSeen(ks) == [k]
  {
    var init := ks[..|ks| - 1];
    if init != [] {
      FirstSeenConst(init, k);
    }
  }

  /** The items whose key is `k`, in input order. */
  function Select<T(==), K(==)>(xs: seq<T>, key: T -> K, k: K): seq<T> {
    Filter(xs, x => key(x) == k)
  }

  lemma SelectNone<T, K>(xs: seq<T>, key: T -> K, k: K)
    requires k !in Map(xs, key)
    ensures Select(xs, key, k) == []
  {
  }

  lemma SelectMembership<T, K>(xs: seq<T>, key: T -> K, k: K, x: T)
    ensures x in Select(xs, key, k) <==> x in xs && key(x) == k
  {
    FilterMembership(xs, y => key(y) == k, x);
  }

  lemma SelectAppend<T, K>(xs: seq<T>, ys: seq<T>, key: T -> K, k: K)
    ensures Select(xs + ys, key, k) == Select(xs, key, k) + Select(ys, key, k)
  {
    FilterAppend(xs, ys, y => key(y) == k);
  }

  /** When every item has key `k`, selecting `k` keeps them all. */
  lemma {:induction false} SelectAll<T, K>(xs: seq<T>, key: T -> K, k: K)
    requires forall i :: 0 <= i < |xs| ==> key(xs[i]) == k
    ensures Select(xs, key, k) == xs
  {
    if xs != [] {
      SelectAll(xs[1..], key, k);
    }
  }

  lemma SelectSnoc<T, K>(xs: seq<T>, i: nat, key: T -> K, k: K)
    requires i < |xs|
    ensures Select(xs[..i + 1], key, k) == Select(xs[..i], key, k) + (if key(xs[i]) == k then [xs[i]] else [])
  {
    FilterSnoc(xs, i, x => key(x) == k);
  }

  lemma MapPrefix<T, U>(xs: seq<T>, i: nat, f: T -> U)
    requires i < |xs|
    ensures Map(xs[..i + 1], f) == Map(xs[..i], f) + [f(xs[i])]
    ensures Map(xs[..i + 1], f)[..i] == Map(xs[..i], f)
  {
  }

  lemma FirstSeenSnoc<K>(ks: seq<K>, k: K)
    ensures FirstSeen(ks + [k]) == if k in FirstSeen(ks) then FirstSeen(ks) else FirstSeen(ks) + [k]
  {
    assert (ks + [k])[..|ks|] == ks;
  }

  lemma SelectSnocOne<T, K>(xs: seq<T>, x: T, key: T -> K, k: K)
    ensures Select(xs + [x], key, k) == Select(xs, key, k) + (if key(x) == k then [x] else [])
  {
    SelectAppend(xs, [x], key, k);
    assert [x][1..] == [];
  }

  /** The loop of `_variableInfosToOutputResult` (analyseJs.py) and of the
      `results[tag.name].append(...)` checks (analyseHtml.py): a dictionary from
      key to the list of items with that key. */
  method GroupBy<T(==), K(==)>(xs: seq<T>, key: T -> K) returns (keys: seq<K>, groups: map<K, seq<T>>)
    ensures keys == FirstSeen(Map(xs, key))
    ensures forall k :: k in groups <==> k in keys
    ensures forall k :: k in groups ==> groups[k] == Select(xs, key, k)
  {
    keys, groups := [], map[];
    for i := 0 to |xs|
      invariant keys == FirstSeen(Map(xs[..i], key))
      invariant forall k :: k in groups <==> k in keys
      invariant forall k :: k in groups ==> groups[k] == Select(xs[..i], key, k)
    {
      var k := key(xs[i]);
      MapPrefix(xs, i, key);
      FirstSeenSnoc(Map(xs[..i], key), k);
      ghost var before := groups;
      if k in groups {
        groups := groups[k := groups[k] + [xs[i]]];
      } else {
        FirstSeenMembership(Map(xs[..i], key), k);
        SelectNone(xs[..i], key, k);
        keys := keys + [k];
        groups := groups[k := [xs[i]]];
      }
      forall k' | k' in groups ensures groups[k'] == Select(xs[..i + 1], key, k') {
        SelectSnoc(xs, i, key, k');
        if k' != k {
          assert k' in before;
        }
      }
    }
    assert xs[..|xs|] == xs;
  }

  /** The `d[k] += 1` counting loops (analyseHtml.py): a dictionary from key to
      the number of items with that key. */
  method Tally<T(==), K(==)>(xs: seq<T>, key: T -> K) returns (keys: seq<K>, counts: map<K, nat>)
    ensures keys == FirstSeen(Map(xs, key))
    ensures forall k :: k in counts <==> k in keys
    ensures forall k :: k in counts ==> counts[k] == |Select(xs, key, k)|
  {
    keys, counts := [], map[];
    for i := 0 to |xs|
      invariant keys == FirstSeen(Map(xs[..i], key))
      invariant forall k :: k in counts <==> k in keys
      invariant forall k :: k in counts ==> counts[k] == |Select(xs[..i], key, k)|
    {
      var k := key(xs[i]);
      MapPrefix(xs, i, key);
      FirstSeenSnoc(Map(xs[..i], key), k);
      ghost var before := counts;
      if k in counts {
        counts := counts[k := counts[k] + 1];
      } else {
        FirstSeenMembership(Map(xs[..i], key), k);
        SelectNone(xs[..i], key, k);
        keys := keys + [k];
        counts := counts[k := 1];
      }
      forall k' | k' in counts ensures counts[k'] == |Select(xs[..i + 1], key, k')| {
        SelectSnoc(xs, i, key, k');
        if k' != k {
          assert k' in before;
        }
      }
    }
    assert xs[..|xs|] == xs;
  }

  /** Number of items that fall under the listed keys. */
  function SumSizes<T(==), K(==)>(keys: seq<K>, xs: seq<T>, key: T -> K): nat {
    if keys == [] then 0
    else SumSizes(keys[..|keys| - 1], xs, key) + |Select(xs, key, keys[|keys| - 1])|
  }

  function Occurrences<K(==)>(ks: seq<K>, k: K): nat {
    if ks == [] then 0 else Occurrences(ks[..|ks| - 1], k) + (if ks[|ks| - 1] == k then 1 else 0)
  }

  lemma {:induction false} OccurrencesDistinct<K>(ks: seq<K>, k: K)
    requires Distinct(ks)
    ensures Occurrences(ks, k) == if k in ks then 1 else 0
  {
    if ks != [] {
      var init := ks[..|ks| - 1];
      OccurrencesDistinct(init, k);
      assert ks == init + [ks[|ks| - 1]];
      if ks[|ks| - 1] == k {
        assert k !in init;
      }
    }
  }

  lemma {:induction false} SumSizesSnoc<T, K>(keys: seq<K>, xs: seq<T>, x: T, key: T -> K)
    ensures SumSizes(keys, xs + [x], key) == SumSizes(keys, xs, key) + Occurrences(keys, key(x))
  {
    if keys != [] {
      var k := keys[|keys| - 1];
      SumSizesSnoc(keys[..|keys| - 1], xs, x, key);
      FilterAppend(xs, [x], y => key(y) == k);
    }
  }

  /** Every item falls under exactly one of the first-seen keys, so the group
      sizes add up to the number of items. */
  lemma {:induction false} GroupSizesSum<T, K>(xs: seq<T>, key: T -> K)
    ensures SumSizes(FirstSeen(Map(xs, key)), xs, key) == |xs|
  {
    if xs != [] {
      var n := |xs| - 1;
      var ys, x := xs[..n], xs[n];
      assert xs == ys + [x];
      GroupSizesSum(ys, key);
      MapPrefix(xs, n, key);
      assert xs[..n + 1] == xs;
      var d := FirstSeen(Map(ys, key));
      FirstSeenSnoc(Map(ys, key), key(x));
      SumSizesSnoc(d, ys, x, key);
      OccurrencesDistinct(d, key(x));
      if key(x) !in d {
        var d' := d + [key(x)];
        assert d'[..|d'| - 1] == d;
        FirstSeenMembership(Map(ys, key), key(x));
        SelectNone(ys, key, key(x));
        FilterAppend(ys, [x], y => key(y) == key(x));
      }
    }
  }

  /** The distinct values of the items with key `k`, in order of first
      appearance. */
  function Entry<T(==), K(==), V(==)>(xs: seq<T>, key: T -> K, val: T -> V, k: K): seq<V> {
    FirstSeen(Map(Select(xs, key, k), val))
  }

  lemma EntrySnoc<T, K, V>(xs: seq<T>, x: T, key: T -> K, val: T -> V, k: K)
    ensures Entry(xs + [x], key, val, k)
            == if key(x) != k then Entry(xs, key, val, k)
               else if val(x) in Entry(xs, key, val, k) then Entry(xs, key, val, k)
               else Entry(xs, key, val, k) + [val(x)]
  {
    SelectSnocOne(xs, x, key, k);
    if key(x) == k {
      var sel := Select(xs, key, k);
      MapAppend(sel, [x], val);
      assert Map([x], val) == [val(x)];
      FirstSeenSnoc(Map(sel, val), val(x));
    } else {
      assert Select(xs, key, k) + [] == Select(xs, key, k);
    }
  }

  /** A dictionary from key to a list without repeats, after the items `done`. */
  ghost predicate EntryState<T, K(!new), V>(done: seq<T>, key: T -> K, val: T -> V, keys: seq<K>, groups: map<K, seq<V>>) {
    && keys == FirstSeen(Map(done, key))
    && (forall k :: k in groups <==> k in keys)
    && (forall k :: k in groups ==> groups[k] == Entry(done, key, val, k))
  }

  /** `if k in d: if v not in d[k]: d[k].append(v)` / `else: d[k] = [v]` */
  method AddDistinct<T(==), K(==,!new), V(==)>(x: T, key: T -> K, val: T -> V, ghost done: seq<T>, keys0: seq<K>, groups0: map<K, seq<V>>)
    returns (keys: seq<K>, groups: map<K, seq<V>>)
    requires EntryState(done, key, val, keys0, groups0)
    ensures EntryState(done + [x], key, val, keys, groups)
  {
    var k, v := key(x), val(x);
    MapAppend(done, [x], key);
    FirstSeenSnoc(Map(done, key), k);
    keys, groups := keys0, groups0;
    if k in groups {
      if !(v in groups[k]) {
        groups := groups[k := groups[k] + [v]];
      }
    } else {
      FirstSeenMembership(Map(done, key), k);
      SelectNone(done, key, k);
      keys := keys + [k];
      groups := groups[k := [v]];
    }
    forall k' | k' in groups ensures groups[k'] == Entry(done + [x], key, val, k') {
      EntrySnoc(done, x, key, val, k');
      if k' != k {
        assert k' in groups0;
      }
    }
  }

  /** The sum of the weights of `xs`. */
  function Total<T>(xs: seq<T>, w: T -> nat): nat {
    if xs == [] then 0 else Total(xs[..|xs| - 1], w) + w(xs[|xs| - 1])
  }

  lemma TotalSnoc<T>(xs: seq<T>, x: T, w: T -> nat)
    ensures Total(xs + [x], w) == Total(xs, w) + w(x)
  {
    assert (xs + [x])[..|xs|] == xs;
  }

  lemma TotalSingle<T>(x: T, w: T -> nat)
    ensures Total([x], w) == w(x)
  {
    assert [x][..0] == [];
  }

  /** Adding up a weight that is the size of each key's group gives the group
      sizes' sum. */
  lemma {:induction false} TotalOfSizes<T, K, U>(ks: seq<K>, g: K -> U, w: U -> nat, xs: seq<T>, key: T -> K)
    requires forall k :: w(g(k)) == |Select(xs, key, k)|
    ensures Total(Map(ks, g), w) == SumSizes(ks, xs, key)
  {
    if ks != [] {
      var n := |ks| - 1;
      TotalOfSizes(ks[..n], g, w, xs, key);
      assert ks == ks[..n] + [ks[n]];
      MapAppend(ks[..n], [ks[n]], g);
      TotalSnoc(Map(ks[..n], g), g(ks[n]), w);
    }
  }

  lemma TotalSelectSnoc<T, K>(xs: seq<T>, i: nat, key: T -> K, w: T -> nat, k: K)
    requires i < |xs|
    ensures Total(Select(xs[..i + 1], key, k), w)
            == Total(Select(xs[..i], key, k), w) + (if key(xs[i]) == k then w(xs[i]) else 0)
  {
    SelectSnoc(xs, i, key, k);
    if key(xs[i]) == k {
      TotalSnoc(Select(xs[..i], key, k), xs[i], w);
    } else {
      assert Select(xs[..i], key, k) + [] == Select(xs[..i], key, k);
    }
  }

  /** The `d[k] += n` summing loops: a dictionary from key to the sum of the
      weights of the items with that key. */
  method TallySum<T(==), K(==)>(xs: seq<T>, key: T -> K, w: T -> nat) returns (keys: seq<K>, sums: map<K, nat>)
    ensures keys == FirstSeen(Map(xs, key))
    ensures forall k :: k in sums <==> k in keys
    ensures forall k :: k in sums ==> sums[k] == Total(Select(xs, key, k), w)
  {
    keys, sums := [], map[];
    for i := 0 to |xs|
      invariant keys == FirstSeen(Map(xs[..i], key))
      invariant forall k :: k in sums <==> k in keys
      invariant forall k :: k in sums ==> sums[k] == Total(Select(xs[..i], key, k), w)
    {
      var k := key(xs[i]);
      MapPrefix(xs, i, key);
      FirstSeenSnoc(Map(xs[..i], key), k);
      ghost var before := sums;
      if k in sums {
        sums := sums[k := sums[k] + w(xs[i])];
      } else {
        FirstSeenMembership(Map(xs[..i], key), k);
        SelectNone(xs[..i], key, k);
        keys := keys + [k];
        sums := sums[k := w(xs[i])];
      }
      forall k' | k' in sums ensures sums[k'] == Total(Select(xs[..i + 1], key, k'), w) {
        TotalSelectSnoc(xs, i, key, w, k');
        if k' != k {
          assert k' in before;
        }
      }
    }
    assert xs[..|xs|] == xs;
  }

  /** Over keys without repeats that cover every item, the group sizes add up
      to the number of items, whatever the order of the keys. */
  lemma {:induction false} SumSizesCover<T, K>(keys: seq<K>, xs: seq<T>, key: T -> K)
    requires Distinct(keys)
    requires forall i :: 0 <= i < |xs| ==> key(xs[i]) in keys
    ensures SumSizes(keys, xs, key) == |xs|
  {
    if xs == [] {
      SumSizesEmpty(keys, key);
    } else {
      var n := |xs| - 1;
      assert xs == xs[..n] + [xs[n]];
      SumSizesCover(keys, xs[..n], key);
      SumSizesSnoc(keys, xs[..n], xs[n], key);
      OccurrencesDistinct(keys, key(xs[n]));
    }
  }

  lemma {:induction false} SumSizesEmpty<T, K>(keys: seq<K>, key: T -> K)
    ensures SumSizes(keys, [], key) == 0
  {
    if keys != [] {
      SumSizesEmpty(keys[..|keys| - 1], key);
    }
  }

  /** Keys already without repeats are their own first-seen order. */
  lemma {:induction false} FirstSeenDistinct<K>(ks: seq<K>)
    requires Distinct(ks)
    ensures FirstSeen(ks) == ks
  {
    if ks != [] {
      var n := |ks| - 1;
      assert ks == ks[..n] + [ks[n]];
      FirstSeenDistinct(ks[..n]);
      FirstSeenSnoc(ks[..n], ks[n]);
      assert ks[n] !in ks[..n];
    }
  }

  /** When the keys of the items are all different, the group of `key(xs[i])`
      is `xs[i]` alone. */
  lemma {:induction false} SelectDistinctKey<T, K>(xs: seq<T>, key: T -> K, i: nat)
    requires i < |xs|
    requires Distinct(Map(xs, key))
    ensures Select(xs, key, key(xs[i])) == [xs[i]]
  {
    var k := key(xs[i]);
    var pre, post := xs[..i], xs[i + 1..];
    assert xs == pre + [xs[i]] + post;
    SelectAppend(pre + [xs[i]], post, key, k);
    SelectSnocOne(pre, xs[i], key, k);
    forall j | 0 <= j < |pre| ensures Map(pre, key)[j] != k {
      assert Map(xs, key)[j] != Map(xs, key)[i];
    }
    forall j | 0 <= j < |post| ensures Map(post, key)[j] != k {
      assert Map(xs, key)[i + 1 + j] != Map(xs, key)[i];
    }
    SelectNone(pre, key, k);
    SelectNone(post, key, k);
  }
}
