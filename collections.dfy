/**
 * Counting and grouping over sequences of records: what `value_counts`,
 * `groupby(...).size()`, `crosstab` and a `defaultdict(int)` compute.
 */
module Tally {

  predicate Distinct<K(==)>(ks: seq<K>) {
    forall i, j :: 0 <= i < j < |ks| ==> ks[i] != ks[j]
  }

  predicate StrictlyIncreasing(ks: seq<int>) {
    forall i, j :: 0 <= i < j < |ks| ==> ks[i] < ks[j]
  }

  /** Number of occurrences of `k` in `xs`. */
  function CountOf<K(==)>(xs: seq<K>, k: K): (n: nat)
    ensures n <= |xs|
    ensures n > 0 <==> k in xs
  {
    if xs == [] then 0
    else CountOf(xs[..|xs| - 1], k) + (if xs[|xs| - 1] == k then 1 else 0)
  }

  lemma CountOfAppend<K>(xs: seq<K>, ys: seq<K>, k: K)
    ensures CountOf(xs + ys, k) == CountOf(xs, k) + CountOf(ys, k)
    decreases |ys|
  {
    if ys != [] {
      assert (xs + ys)[..|xs + ys| - 1] == xs + ys[..|ys| - 1];
      CountOfAppend(xs, ys[..|ys| - 1], k);
    } else {
      assert xs + ys == xs;
    }
  }

  /** The distinct keys of `ks` in order of first appearance: the key order of a dict filled from `ks`. */
  function FirstSeen<K(==)>(ks: seq<K>): seq<K> {
    if ks == [] then []
    else
      var init := ks[..|ks| - 1];
      var last := ks[|ks| - 1];
      FirstSeen(init) + (if last in FirstSeen(init) then [] else [last])
  }

  /** Each key of `ks` appears once in `FirstSeen(ks)`, and nothing else does. */
  lemma FirstSeenMeaning<K>(ks: seq<K>)
    ensures Distinct(FirstSeen(ks))
    ensures forall i :: 0 <= i < |ks| ==> ks[i] in FirstSeen(ks)
    ensures forall k :: k in FirstSeen(ks) ==> k in ks
  {
    FirstSeenDistinct(ks);
    FirstSeenKeys(ks);
  }

  lemma {:induction false} FirstSeenDistinct<K>(ks: seq<K>)
    ensures Distinct(FirstSeen(ks))
  {
    if ks != [] {
      FirstSeenDistinct(ks[..|ks| - 1]);
    }
  }

  lemma {:induction false} FirstSeenKeys<K>(ks: seq<K>)
    ensures forall i :: 0 <= i < |ks| ==> ks[i] in FirstSeen(ks)
    ensures forall k :: k in FirstSeen(ks) ==> k in ks
  {
    if ks != [] {
      var init := ks[..|ks| - 1];
      FirstSeenKeys(init);
      assert forall i :: 0 <= i < |init| ==> init[i] == ks[i];
    }
  }

  /** A key of a distinct sequence occurs there exactly once. */
  lemma {:induction false} CountOfDistinct<K>(ks: seq<K>, k: K)
    requires Distinct(ks) && k in ks
    ensures CountOf(ks, k) == 1
  {
    var n := |ks| - 1;
    if ks[n] == k {
      assert k !in ks[..n];
    } else {
      assert k in ks[..n];
      CountOfDistinct(ks[..n], k);
    }
  }

  /** The distinct values of `xs` in ascending order: the index of a `groupby` or `value_counts().sort_index()`. */
  function Ascending(xs: seq<int>): (ks: seq<int>)
    ensures StrictlyIncreasing(ks)
    ensures forall k :: k in ks <==> k in xs
  {
    if xs == [] then [] else InsertSorted(Ascending(xs[..|xs| - 1]), xs[|xs| - 1])
  }

  function InsertSorted(ks: seq<int>, x: int): (r: seq<int>)
    requires StrictlyIncreasing(ks)
    ensures StrictlyIncreasing(r)
    ensures forall k :: k in r <==> k in ks || k == x
  {
    if ks == [] then [x]
    else if x < ks[0] then [x] + ks
    else if x == ks[0] then ks
    else
      var rest := InsertSorted(ks[1..], x);
      TailAbove(ks);
      ConsIncreasing(ks[0], rest);
      [ks[0]] + rest
  }

  /** Every later key of an increasing sequence is above its first. */
  lemma TailAbove(ks: seq<int>)
    requires StrictlyIncreasing(ks) && ks != []
    ensures forall k :: k in ks[1..] ==> ks[0] < k
  {
    forall k | k in ks[1..] ensures ks[0] < k {
      var i :| 0 <= i < |ks[1..]| && ks[1..][i] == k;
      assert ks[i + 1] == k;
    }
  }

  /** A key below every key of an increasing sequence can go in front of it. */
  lemma ConsIncreasing(h: int, rest: seq<int>)
    requires StrictlyIncreasing(rest) && forall k :: k in rest ==> h < k
    ensures StrictlyIncreasing([h] + rest)
  {
    var r := [h] + rest;
    forall i, j | 0 <= i < j < |r| ensures r[i] < r[j] {
      assert r[j] == rest[j - 1];
      if i == 0 { assert r[j] in rest; } else { assert r[i] == rest[i - 1]; }
    }
  }

  /** Sum of `CountOf(xs, k)` over the keys `ks`. */
  function SumCounts<K(==)>(ks: seq<K>, xs: seq<K>): nat {
    if ks == [] then 0 else SumCounts(ks[..|ks| - 1], xs) + CountOf(xs, ks[|ks| - 1])
  }

  lemma {:induction false} SumCountsSnoc<K>(ks: seq<K>, xs: seq<K>, y: K)
    ensures SumCounts(ks, xs + [y]) == SumCounts(ks, xs) + CountOf(ks, y)
  {
    if ks != [] {
      var n := |ks| - 1;
      SumCountsSnoc(ks[..n], xs, y);
      CountOfAppend(xs, [y], ks[n]);
    }
  }

  /**
   * The counts of distinct keys that cover every element add up to the number
   * of elements: the counts of a `value_counts` sum to the number of rows.
   */
  lemma {:induction false} SumCountsAll<K>(ks: seq<K>, xs: seq<K>)
    requires Distinct(ks)
    requires forall x :: x in xs ==> x in ks
    ensures SumCounts(ks, xs) == |xs|
  {
    if xs == [] {
      SumCountsNone(ks, xs);
    } else {
      var n := |xs| - 1;
      assert xs == xs[..n] + [xs[n]];
      SumCountsAll(ks, xs[..n]);
      SumCountsSnoc(ks, xs[..n], xs[n]);
      CountOfDistinct(ks, xs[n]);
    }
  }

  lemma {:induction false} SumCountsNone<K>(ks: seq<K>, xs: seq<K>)
    requires xs == []
    ensures SumCounts(ks, xs) == 0
  {
    if ks != [] { SumCountsNone(ks[..|ks| - 1], xs); }
  }

  /** The first components of the pairs whose second component is `b`: one column of a crosstab. */
  function Column<A(==), B(==)>(xs: seq<(A, B)>, b: B): (col: seq<A>)
    ensures |col| <= |xs|
  {
    if xs == [] then []
    else Column(xs[..|xs| - 1], b) + (if xs[|xs| - 1].1 == b then [xs[|xs| - 1].0] else [])
  }

  function Seconds<A, B>(xs: seq<(A, B)>): (ys: seq<B>)
    ensures |ys| == |xs|
    ensures forall i :: 0 <= i < |xs| ==> ys[i] == xs[i].1
  {
    seq(|xs|, i requires 0 <= i < |xs| => xs[i].1)
  }

  function Firsts<A, B>(xs: seq<(A, B)>): (ys: seq<A>)
    ensures |ys| == |xs|
    ensures forall i :: 0 <= i < |xs| ==> ys[i] == xs[i].0
  {
    seq(|xs|, i requires 0 <= i < |xs| => xs[i].0)
  }

  /** A crosstab cell counted directly equals the count within its column. */
  lemma {:induction false} CountPairInColumn<A, B>(xs: seq<(A, B)>, a: A, b: B)
    ensures CountOf(xs, (a, b)) == CountOf(Column(xs, b), a)
  {
    if xs != [] {
      var n := |xs| - 1;
      CountPairInColumn(xs[..n], a, b);
      var extra := if xs[n].1 == b then [xs[n].0] else [];
      CountOfAppend(Column(xs[..n], b), extra, a);
    }
  }

  /** A column holds as many entries as there are records carrying its key, and only row keys. */
  lemma {:induction false} ColumnSize<A, B>(xs: seq<(A, B)>, b: B)
    ensures |Column(xs, b)| == CountOf(Seconds(xs), b)
    ensures forall x :: x in Column(xs, b) ==> x in Firsts(xs)
  {
    if xs != [] {
      var n := |xs| - 1;
      ColumnSize(xs[..n], b);
      assert Seconds(xs)[..n] == Seconds(xs[..n]);
      assert Firsts(xs)[..n] == Firsts(xs[..n]);
      forall x | x in Column(xs, b) ensures x in Firsts(xs) {
        if x in Column(xs[..n], b) {
          assert x in Firsts(xs[..n]);
        } else {
          assert x == xs[n].0 && Firsts(xs)[n] == x;
        }
      }
    }
  }

  /**
   * Each column of a crosstab sums to the number of records in that column,
   * when the row keys are distinct and cover every record.
   */
  lemma ColumnSum<A, B>(ks: seq<A>, xs: seq<(A, B)>, b: B)
    requires Distinct(ks)
    requires forall x :: x in Firsts(xs) ==> x in ks
    ensures SumCounts(ks, Column(xs, b)) == CountOf(Seconds(xs), b)
  {
    ColumnSize(xs, b);
    SumCountsAll(ks, Column(xs, b));
  }
}

/** Python's `sorted(xs, key=...)`: a stable sort, here an insertion sort on a real-valued key. */
module Sorting {

  predicate SortedBy<T>(xs: seq<T>, key: T -> real) {
    forall i, j :: 0 <= i < j < |xs| ==> key(xs[i]) <= key(xs[j])
  }

  /** The elements whose key is `v`, in their order. */
  function Having<T>(xs: seq<T>, key: T -> real, v: real): seq<T> {
    if xs == [] then []
    else Having(xs[..|xs| - 1], key, v) + (if key(xs[|xs| - 1]) == v then [xs[|xs| - 1]] else [])
  }

  lemma {:induction false} HavingAppend<T>(xs: seq<T>, ys: seq<T>, key: T -> real, v: real)
    ensures Having(xs + ys, key, v) == Having(xs, key, v) + Having(ys, key, v)
    decreases |ys|
  {
    if ys == [] {
      assert xs + ys == xs;
    } else {
      var n := |ys| - 1;
      assert (xs + ys)[..|xs + ys| - 1] == xs + ys[..n];
      HavingAppend(xs, ys[..n], key, v);
    }
  }

  /** Places `x` after every element whose key is not larger. */
  function Insert<T>(xs: seq<T>, x: T, key: T -> real): (r: seq<T>)
    ensures |r| == |xs| + 1
  {
    if xs == [] || key(xs[|xs| - 1]) <= key(x) then xs + [x]
    else Insert(xs[..|xs| - 1], x, key) + [xs[|xs| - 1]]
  }

  /** Inserting adds exactly `x`. */
  lemma {:induction false} InsertPerm<T>(xs: seq<T>, x: T, key: T -> real)
    ensures multiset(Insert(xs, x, key)) == multiset(xs) + multiset{x}
  {
    if xs != [] && key(xs[|xs| - 1]) > key(x) {
      var n := |xs| - 1;
      InsertPerm(xs[..n], x, key);
      assert xs == xs[..n] + [xs[n]];
    }
  }

  /** A bound on every key survives insertion of an element within it. */
  lemma {:induction false} InsertBounded<T>(xs: seq<T>, x: T, key: T -> real, b: real)
    requires forall i :: 0 <= i < |xs| ==> key(xs[i]) <= b
    requires key(x) <= b
    ensures forall i :: 0 <= i < |xs| + 1 ==> key(Insert(xs, x, key)[i]) <= b
  {
    if xs != [] && key(xs[|xs| - 1]) > key(x) {
      var n := |xs| - 1;
      InsertBounded(xs[..n], x, key, b);
    }
  }

  /** Inserting keeps a sorted sequence sorted. */
  lemma {:induction false} InsertSorted<T>(xs: seq<T>, x: T, key: T -> real)
    requires SortedBy(xs, key)
    ensures SortedBy(Insert(xs, x, key), key)
  {
    var r := Insert(xs, x, key);
    if xs == [] || key(xs[|xs| - 1]) <= key(x) {
      forall i, j | 0 <= i < j < |r| ensures key(r[i]) <= key(r[j]) {
        if j == |xs| && i < |xs| {
          assert key(xs[i]) <= key(xs[|xs| - 1]);
        }
      }
    } else {
      var n := |xs| - 1;
      var front := Insert(xs[..n], x, key);
      assert SortedBy(xs[..n], key);
      InsertSorted(xs[..n], x, key);
      InsertBounded(xs[..n], x, key, key(xs[n]));
      assert r == front + [xs[n]];
      forall i, j | 0 <= i < j < |r| ensures key(r[i]) <= key(r[j]) {
        if j < n + 1 {
          assert r[i] == front[i] && r[j] == front[j];
        }
      }
    }
  }

  /** `sorted(xs, key=key)` */
  function SortBy<T>(xs: seq<T>, key: T -> real): (r: seq<T>)
    ensures |r| == |xs|
  {
    if xs == [] then []
    else Insert(SortBy(xs[..|xs| - 1], key), xs[|xs| - 1], key)
  }

  /** The sort returns a sorted permutation of its input. */
  lemma {:induction false} SortByMeaning<T>(xs: seq<T>, key: T -> real)
    ensures SortedBy(SortBy(xs, key), key)
    ensures multiset(SortBy(xs, key)) == multiset(xs)
  {
    if xs != [] {
      var n := |xs| - 1;
      SortByMeaning(xs[..n], key);
      InsertPerm(SortBy(xs[..n], key), xs[n], key);
      InsertSorted(SortBy(xs[..n], key), xs[n], key);
      assert xs == xs[..n] + [xs[n]];
    }
  }

  lemma HavingSingle<T>(x: T, key: T -> real, v: real)
    ensures Having([x], key, v) == if key(x) == v then [x] else []
  {
    assert [x][..0] == [];
  }

  /** Inserting never moves `x` past an element with the same key, so each key's elements keep their order. */
  lemma {:induction false} HavingInsert<T>(xs: seq<T>, x: T, key: T -> real, v: real)
    ensures Having(Insert(xs, x, key), key, v) == Having(xs, key, v) + Having([x], key, v)
  {
    if xs == [] || key(xs[|xs| - 1]) <= key(x) {
      HavingAppend(xs, [x], key, v);
    } else {
      var n := |xs| - 1;
      var init := xs[..n];
      var front := Insert(init, x, key);
      HavingInsert(init, x, key, v);
      HavingAppend(front, [xs[n]], key, v);
      assert xs == init + [xs[n]];
      HavingAppend(init, [xs[n]], key, v);
      HavingSingle(x, key, v);
      HavingSingle(xs[n], key, v);
      var a, hx, hy := Having(init, key, v), Having([x], key, v), Having([xs[n]], key, v);
      if hx == [] {
        assert a + hx + hy == a + hy + hx;
      } else {
        assert hy == [];
        assert a + hx + hy == a + hy + hx;
      }
    }
  }

  /** The sort is stable: elements with equal keys keep their relative order. */
  lemma {:induction false} SortByStable<T>(xs: seq<T>, key: T -> real, v: real)
    ensures Having(SortBy(xs, key), key, v) == Having(xs, key, v)
  {
    if xs != [] {
      var n := |xs| - 1;
      SortByStable(xs[..n], key, v);
      HavingInsert(SortBy(xs[..n], key), xs[n], key, v);
      assert xs == xs[..n] + [xs[n]];
      HavingAppend(xs[..n], [xs[n]], key, v);
    }
  }

  /** `[f(x) for x in xs]` */
  function MapSeq<A, B>(xs: seq<A>, f: A -> B): (ys: seq<B>)
    ensures |ys| == |xs|
    ensures forall i :: 0 <= i < |xs| ==> ys[i] == f(xs[i])
  {
    seq(|xs|, i requires 0 <= i < |xs| => f(xs[i]))
  }

  /** Every key of `order` has an entry in `m`. */
  predicate Covers<K>(order: seq<K>, m: map<K, real>) {
    forall i :: 0 <= i < |order| ==> order[i] in m
  }

  /** `m.items()` for a dict whose keys were inserted in the order `order`. */
  function Items<K>(order: seq<K>, m: map<K, real>): (items: seq<(K, real)>)
    requires Covers(order, m)
    ensures |items| == |order|
    ensures forall i :: 0 <= i < |order| ==> items[i] == (order[i], m[order[i]])
  {
    seq(|order|, i requires 0 <= i < |order| => (order[i], m[order[i]]))
  }

  /** The sort key of an item: its value. */
  function Value<K>(item: (K, real)): real { item.1 }

  lemma {:induction false} InsertMap<A, B>(xs: seq<A>, x: A, f: A -> B, ka: A -> real, kb: B -> real)
    requires forall i :: 0 <= i < |xs| ==> kb(f(xs[i])) == ka(xs[i])
    requires kb(f(x)) == ka(x)
    ensures MapSeq(Insert(xs, x, ka), f) == Insert(MapSeq(xs, f), f(x), kb)
  {
    var ys := MapSeq(xs, f);
    if xs == [] || ka(xs[|xs| - 1]) <= ka(x) {
      assert MapSeq(xs + [x], f) == ys + [f(x)];
    } else {
      var n := |xs| - 1;
      assert ys[..n] == MapSeq(xs[..n], f);
      InsertMap(xs[..n], x, f, ka, kb);
      assert MapSeq(Insert(xs[..n], x, ka) + [xs[n]], f) == MapSeq(Insert(xs[..n], x, ka), f) + [f(xs[n])];
    }
  }

  /**
   * Sorting and then mapping is mapping and then sorting, when the new
   * key of each mapped element is the old key of the element.
   */
  lemma {:induction false} SortByMap<A, B>(xs: seq<A>, f: A -> B, ka: A -> real, kb: B -> real)
    requires forall i :: 0 <= i < |xs| ==> kb(f(xs[i])) == ka(xs[i])
    ensures MapSeq(SortBy(xs, ka), f) == SortBy(MapSeq(xs, f), kb)
  {
    if xs != [] {
      var n := |xs| - 1;
      var init := xs[..n];
      SortByMap(init, f, ka, kb);
      var sorted := SortBy(init, ka);
      SortByMeaning(init, ka);
      forall i | 0 <= i < |sorted|
        ensures kb(f(sorted[i])) == ka(sorted[i])
      {
        assert sorted[i] in multiset(init);
        var j :| 0 <= j < n && init[j] == sorted[i];
      }
      InsertMap(sorted, xs[n], f, ka, kb);
      assert MapSeq(xs, f)[..n] == MapSeq(init, f);
    }
  }
}
