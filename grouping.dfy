/**
 * The grouping idiom the dashboard writes out again and again:
 *
 *   xs.reduce((acc, x) => { if (!acc[key(x)]) acc[key(x)] = ...; acc[key(x)]... ; return acc }, {})
 *
 * A JavaScript object used as a dictionary enumerates its (non-integer-like) keys in
 * insertion order, so the accumulator is modelled as an association list of
 * (key, bucket) pairs in order of first occurrence. Sums are left folds, as `reduce`
 * computes them.
 */
module Grouping {

  /** `xs.reduce((total, x) => total + w(x), 0)` on integers. */
  function Sum<V>(xs: seq<V>, w: V -> int): int
  {
    if xs == [] then 0 else Sum(xs[..|xs| - 1], w) + w(xs[|xs| - 1])
  }

  /** `xs.reduce((total, x) => total + w(x), 0)` on exact reals. */
  function RealSum<V>(xs: seq<V>, w: V -> real): real
  {
    if xs == [] then 0.0 else RealSum(xs[..|xs| - 1], w) + w(xs[|xs| - 1])
  }

  lemma {:induction false} SumAppend<V>(xs: seq<V>, ys: seq<V>, w: V -> int)
    ensures Sum(xs + ys, w) == Sum(xs, w) + Sum(ys, w)
  {
    if ys != [] {
      assert (xs + ys)[..|xs + ys| - 1] == xs + ys[..|ys| - 1];
      SumAppend(xs, ys[..|ys| - 1], w);
    } else {
      assert xs + ys == xs;
    }
  }

  lemma {:induction false} RealSumAppend<V>(xs: seq<V>, ys: seq<V>, w: V -> real)
    ensures RealSum(xs + ys, w) == RealSum(xs, w) + RealSum(ys, w)
  {
    if ys != [] {
      assert (xs + ys)[..|xs + ys| - 1] == xs + ys[..|ys| - 1];
      RealSumAppend(xs, ys[..|ys| - 1], w);
    } else {
      assert xs + ys == xs;
    }
  }

  /** No key occurs twice. */
  predicate Distinct<K(==)>(ks: seq<K>) {
    forall i, j :: 0 <= i < j < |ks| ==> ks[i] != ks[j]
  }

  lemma {:induction false} DistinctCounts<K>(ks: seq<K>, k: K)
    requires Distinct(ks)
    ensures multiset(ks)[k] <= 1
  {
    if ks != [] {
      var init := ks[..|ks| - 1];
      assert ks == init + [ks[|ks| - 1]];
      DistinctCounts(init, k);
      if k == ks[|ks| - 1] {
        assert k !in init;
      }
    }
  }

  /** A sequence without repetitions is no longer than any set holding its elements. */
  lemma {:induction false} DistinctWithin<K>(ks: seq<K>, within: set<K>)
    requires Distinct(ks)
    requires forall k :: k in ks ==> k in within
    ensures |ks| <= |within|
  {
    if ks != [] {
      var last := ks[|ks| - 1];
      var init := ks[..|ks| - 1];
      forall k | k in init ensures k in within - {last} {
        var i :| 0 <= i < |init| && init[i] == k;
        assert ks[i] == k;
      }
      DistinctWithin(init, within - {last});
    }
  }

  /** A rearrangement of a sequence without repetitions has none either. */
  lemma DistinctPermutation<K>(a: seq<K>, b: seq<K>)
    requires Distinct(a) && multiset(a) == multiset(b)
    ensures Distinct(b)
  {
    forall i, j | 0 <= i < j < |b| ensures b[i] != b[j] {
      if b[i] == b[j] {
        assert b == b[..j] + b[j..];
        assert b[i] in multiset(b[..j]) && b[j] in multiset(b[j..]);
        assert multiset(b)[b[i]] >= 2;
        DistinctCounts(a, b[i]);
      }
    }
  }

  /** The keys of an association list, in order. */
  function Keys<K, V>(g: seq<(K, seq<V>)>): (ks: seq<K>)
    ensures |ks| == |g|
    ensures forall i :: 0 <= i < |g| ==> ks[i] == g[i].0
  {
    if g == [] then [] else Keys(g[..|g| - 1]) + [g[|g| - 1].0]
  }

  /** The position of `k` in `ks`, or -1 when it is absent (`acc[k]` is undefined). */
  function IndexOf<K(==)>(ks: seq<K>, k: K): (i: int)
    ensures -1 <= i < |ks|
    ensures i >= 0 ==> ks[i] == k
    ensures i == -1 <==> k !in ks
    ensures Distinct(ks) && k in ks ==> forall j :: 0 <= j < |ks| && ks[j] == k ==> j == i
  {
    if ks == [] then -1
    else if ks[|ks| - 1] == k then |ks| - 1
    else IndexOf(ks[..|ks| - 1], k)
  }

  /** One step of the reduce: append `v` to the bucket of `k`, creating it at the end if new. */
  function Insert<K(==), V>(g: seq<(K, seq<V>)>, k: K, v: V): seq<(K, seq<V>)>
  {
    var i := IndexOf(Keys(g), k);
    if i >= 0 then g[i := (k, g[i].1 + [v])] else g + [(k, [v])]
  }

  /** The whole reduce: every element of `xs`, in order, inserted under `key`. */
  function GroupBy<K(==), V>(xs: seq<V>, key: V -> K): seq<(K, seq<V>)>
  {
    if xs == [] then [] else Insert(GroupBy(xs[..|xs| - 1], key), key(xs[|xs| - 1]), xs[|xs| - 1])
  }

  /** The keys of `xs`, one per element. */
  function MapKey<K, V>(xs: seq<V>, key: V -> K): (ks: seq<K>)
    ensures |ks| == |xs|
    ensures forall i :: 0 <= i < |xs| ==> ks[i] == key(xs[i])
  {
    if xs == [] then [] else MapKey(xs[..|xs| - 1], key) + [key(xs[|xs| - 1])]
  }

  /** The first occurrence of each key, in order of first occurrence. */
  function Dedup<K(==)>(ks: seq<K>): seq<K>
  {
    if ks == [] then []
    else
      var d := Dedup(ks[..|ks| - 1]);
      if ks[|ks| - 1] in d then d else d + [ks[|ks| - 1]]
  }

  /** The elements of `xs` whose key is `k`, in input order. */
  function Select<K(==), V>(xs: seq<V>, key: V -> K, k: K): seq<V>
  {
    if xs == [] then []
    else Select(xs[..|xs| - 1], key, k) + (if key(xs[|xs| - 1]) == k then [xs[|xs| - 1]] else [])
  }

  /** `Select` on two elements: each one, in order, when its key matches. */
  lemma SelectOfPair<K, V>(a: V, b: V, key: V -> K, k: K)
    ensures Select([a, b], key, k) == (if key(a) == k then [a] else []) + (if key(b) == k then [b] else [])
  {
    assert [a, b][..1] == [a];
    assert [a][..0] == [];
    assert Select([a], key, k) == [] + (if key(a) == k then [a] else []);
    assert Select([a, b], key, k) == Select([a], key, k) + (if key(b) == k then [b] else []);
  }

  lemma DedupOfPair<K>(x: K, y: K)
    requires x != y
    ensures Dedup([x, y]) == [x, y]
  {
    assert [x, y][..1] == [x];
    assert [x][..0] == [];
    assert Dedup([x]) == [x];
  }

  lemma SumOfPair<V>(a: V, b: V, w: V -> int)
    ensures Sum([a], w) == w(a)
    ensures Sum([a, b], w) == w(a) + w(b)
  {
    assert [a, b][..1] == [a];
    assert [a][..0] == [];
  }

  lemma RealSumOfPair<V>(a: V, b: V, w: V -> real)
    ensures RealSum([a], w) == w(a)
    ensures RealSum([a, b], w) == w(a) + w(b)
  {
    assert [a, b][..1] == [a];
    assert [a][..0] == [];
  }

  /** All buckets, concatenated in key order. */
  function Flatten<K, V>(g: seq<(K, seq<V>)>): seq<V>
  {
    if g == [] then [] else Flatten(g[..|g| - 1]) + g[|g| - 1].1
  }

  /** The sum, over all buckets, of each bucket's own sum. */
  function GroupSums<K, V>(g: seq<(K, seq<V>)>, w: V -> int): int
  {
    if g == [] then 0 else GroupSums(g[..|g| - 1], w) + Sum(g[|g| - 1].1, w)
  }

  lemma {:induction false} DedupProps<K>(ks: seq<K>)
    ensures Distinct(Dedup(ks))
    ensures forall k :: k in Dedup(ks) <==> k in ks
  {
    if ks != [] {
      DedupProps(ks[..|ks| - 1]);
      forall k | k in ks ensures k in ks[..|ks| - 1] || k == ks[|ks| - 1] {
        var i :| 0 <= i < |ks| && ks[i] == k;
        if i < |ks| - 1 { assert ks[..|ks| - 1][i] == k; }
      }
    }
  }

  /** The selection holds exactly the elements of the input that have the key. */
  lemma {:induction false} SelectMembers<K, V>(xs: seq<V>, key: V -> K, k: K)
    ensures forall v :: v in Select(xs, key, k) <==> v in xs && key(v) == k
  {
    if xs != [] {
      var init := xs[..|xs| - 1];
      SelectMembers(init, key, k);
      assert xs == init + [xs[|xs| - 1]];
    }
  }

  lemma {:induction false} SelectAbsent<K, V>(xs: seq<V>, key: V -> K, k: K)
    requires k !in MapKey(xs, key)
    ensures Select(xs, key, k) == []
  {
    if xs != [] {
      assert MapKey(xs, key) == MapKey(xs[..|xs| - 1], key) + [key(xs[|xs| - 1])];
      SelectAbsent(xs[..|xs| - 1], key, k);
    }
  }

  /** The association list after one step, by cases on whether the key is new. */
  lemma InsertKeys<K, V>(g: seq<(K, seq<V>)>, k: K, v: V)
    ensures k in Keys(g) ==> Keys(Insert(g, k, v)) == Keys(g)
    ensures k !in Keys(g) ==> Keys(Insert(g, k, v)) == Keys(g) + [k]
  {
  }

  /**
   * The keys of the grouping are the distinct keys of the input, in order of first
   * occurrence.
   */
  lemma {:induction false} GroupByKeys<K, V>(xs: seq<V>, key: V -> K)
    ensures Keys(GroupBy(xs, key)) == Dedup(MapKey(xs, key))
  {
    if xs != [] {
      var init, x := xs[..|xs| - 1], xs[|xs| - 1];
      var g := GroupBy(init, key);
      GroupByKeys(init, key);
      assert GroupBy(xs, key) == Insert(g, key(x), x);
      InsertKeys(g, key(x), x);
      assert MapKey(xs, key)[..|xs| - 1] == MapKey(init, key);
    }
  }

  /**
   * The bucket of each key holds exactly the input elements with that key, in input
   * order.
   */
  lemma {:induction false} GroupByBuckets<K, V>(xs: seq<V>, key: V -> K)
    ensures forall i :: 0 <= i < |GroupBy(xs, key)| ==>
      GroupBy(xs, key)[i].1 == Select(xs, key, GroupBy(xs, key)[i].0)
  {
    if xs != [] {
      var init, x := xs[..|xs| - 1], xs[|xs| - 1];
      var g := GroupBy(init, key);
      GroupByBuckets(init, key);
      GroupByKeys(init, key);
      DedupProps(MapKey(init, key));
      if key(x) !in Keys(g) {
        assert key(x) !in Dedup(MapKey(init, key));
        SelectAbsent(init, key, key(x));
      }
      InsertBuckets(g, init, key, x);
      PrefixSnoc(xs, |xs| - 1);
      WholePrefix(xs);
    }
  }

  /** Each bucket is the selection of its key. */
  ghost predicate BucketsOf<K, V>(g: seq<(K, seq<V>)>, xs: seq<V>, key: V -> K) {
    forall i :: 0 <= i < |g| ==> g[i].1 == Select(xs, key, g[i].0)
  }

  /** One step of the reduce keeps every bucket the selection of its key. */
  lemma InsertBuckets<K, V>(g: seq<(K, seq<V>)>, xs: seq<V>, key: V -> K, x: V)
    requires Distinct(Keys(g)) && BucketsOf(g, xs, key)
    requires key(x) !in Keys(g) ==> Select(xs, key, key(x)) == []
    ensures BucketsOf(Insert(g, key(x), x), xs + [x], key)
  {
    var g' := Insert(g, key(x), x);
    InsertCases(g, key(x), x);
    assert (xs + [x])[..|xs|] == xs;
    var i := IndexOf(Keys(g), key(x));
    forall j | 0 <= j < |g'| ensures g'[j].1 == Select(xs + [x], key, g'[j].0) {
      if j < |g| && j != i {
        assert g'[j] == g[j];
        assert Keys(g)[j] == g[j].0;
      }
    }
  }

  /** Every bucket is non-empty, and its first element is the first input with its key. */
  lemma {:induction false} SelectFirst<K, V>(xs: seq<V>, key: V -> K, k: K)
    requires Select(xs, key, k) != []
    ensures exists i :: (0 <= i < |xs| && Select(xs, key, k)[0] == xs[i] && key(xs[i]) == k
      && forall j :: 0 <= j < i ==> key(xs[j]) != k)
  {
    var init := xs[..|xs| - 1];
    if Select(init, key, k) == [] {
      SelectEmpty(init, key, k);
      var i := |xs| - 1;
      assert Select(xs, key, k)[0] == xs[i] && key(xs[i]) == k;
      forall j | 0 <= j < i ensures key(xs[j]) != k { assert xs[j] == init[j]; }
    } else {
      SelectFirst(init, key, k);
      var i :| 0 <= i < |init| && Select(init, key, k)[0] == init[i] && key(init[i]) == k
        && forall j :: 0 <= j < i ==> key(init[j]) != k;
      assert Select(xs, key, k)[0] == xs[i];
      forall j | 0 <= j < i ensures key(xs[j]) != k { assert xs[j] == init[j]; }
    }
  }

  lemma {:induction false} SelectEmpty<K, V>(xs: seq<V>, key: V -> K, k: K)
    requires Select(xs, key, k) == []
    ensures forall j :: 0 <= j < |xs| ==> key(xs[j]) != k
  {
    if xs != [] {
      SelectEmpty(xs[..|xs| - 1], key, k);
      forall j | 0 <= j < |xs| - 1 ensures key(xs[j]) != k { assert xs[j] == xs[..|xs| - 1][j]; }
    }
  }

  lemma {:induction false} GroupSumsUpdate<K, V>(g: seq<(K, seq<V>)>, i: nat, b: seq<V>, w: V -> int)
    requires i < |g|
    ensures GroupSums(g[i := (g[i].0, b)], w) == GroupSums(g, w) - Sum(g[i].1, w) + Sum(b, w)
  {
    var g' := g[i := (g[i].0, b)];
    if i == |g| - 1 {
      assert g'[..|g'| - 1] == g[..|g| - 1];
    } else {
      assert g'[..|g'| - 1] == g[..|g| - 1][i := (g[i].0, b)];
      GroupSumsUpdate(g[..|g| - 1], i, b, w);
    }
  }

  lemma {:induction false} FlattenUpdate<K, V>(g: seq<(K, seq<V>)>, i: nat, b: seq<V>)
    requires i < |g|
    ensures multiset(Flatten(g[i := (g[i].0, b)])) == multiset(Flatten(g)) - multiset(g[i].1) + multiset(b)
  {
    var g' := g[i := (g[i].0, b)];
    if i == |g| - 1 {
      assert g'[..|g'| - 1] == g[..|g| - 1];
    } else {
      assert g'[..|g'| - 1] == g[..|g| - 1][i := (g[i].0, b)];
      FlattenUpdate(g[..|g| - 1], i, b);
      FlattenContains(g[..|g| - 1], i);
      assert Flatten(g') == Flatten(g'[..|g'| - 1]) + g[|g| - 1].1;
      assert Flatten(g) == Flatten(g[..|g| - 1]) + g[|g| - 1].1;
      MultisetShuffle(multiset(Flatten(g[..|g| - 1])), multiset(g[|g| - 1].1), multiset(g[i].1), multiset(b));
    }
  }

  /** Taking out a part and adding another commutes with adding a third. */
  lemma MultisetShuffle<V>(p: multiset<V>, l: multiset<V>, a: multiset<V>, b: multiset<V>)
    requires a <= p
    ensures p - a + b + l == p + l - a + b
  {
  }

  lemma {:induction false} FlattenContains<K, V>(g: seq<(K, seq<V>)>, i: nat)
    requires i < |g|
    ensures multiset(g[i].1) <= multiset(Flatten(g))
  {
    if i < |g| - 1 {
      FlattenContains(g[..|g| - 1], i);
    }
  }

  /** One step of the reduce, by cases on whether the key has been seen. */
  lemma InsertCases<K, V>(g: seq<(K, seq<V>)>, k: K, v: V)
    ensures IndexOf(Keys(g), k) >= 0 ==>
      var i := IndexOf(Keys(g), k);
      g[i].0 == k && Insert(g, k, v) == g[i := (g[i].0, g[i].1 + [v])]
    ensures IndexOf(Keys(g), k) < 0 ==> Insert(g, k, v) == g + [(k, [v])]
  {
  }

  lemma SumSnoc<V>(xs: seq<V>, x: V, w: V -> int)
    ensures Sum(xs + [x], w) == Sum(xs, w) + w(x)
  {
    assert (xs + [x])[..|xs|] == xs;
  }

  /**
   * Conservation: summing each bucket and then the bucket sums gives the sum over the
   * whole input, for every weight.
   */
  lemma {:induction false} GroupByConserves<K, V>(xs: seq<V>, key: V -> K, w: V -> int)
    ensures GroupSums(GroupBy(xs, key), w) == Sum(xs, w)
  {
    if xs != [] {
      var init, x := xs[..|xs| - 1], xs[|xs| - 1];
      var g := GroupBy(init, key);
      assert xs == init + [x];
      SumSnoc(init, x, w);
      GroupByConserves(init, key, w);
      assert GroupBy(xs, key) == Insert(g, key(x), x);
      InsertCases(g, key(x), x);
      var i := IndexOf(Keys(g), key(x));
      if i >= 0 {
        GroupSumsUpdate(g, i, g[i].1 + [x], w);
        SumSnoc(g[i].1, x, w);
      } else {
        var g' := g + [(key(x), [x])];
        assert g'[..|g|] == g;
        SumSnoc([], x, w);
        assert [] + [x] == [x];
        assert GroupSums(g', w) == GroupSums(g, w) + Sum([x], w);
      }
    }
  }

  /** Partition: every input element lands in exactly one bucket, and nothing else does. */
  lemma {:induction false} GroupByPartitions<K, V>(xs: seq<V>, key: V -> K)
    ensures multiset(Flatten(GroupBy(xs, key))) == multiset(xs)
  {
    if xs != [] {
      var init, x := xs[..|xs| - 1], xs[|xs| - 1];
      var g := GroupBy(init, key);
      assert xs == init + [x];
      GroupByPartitions(init, key);
      assert GroupBy(xs, key) == Insert(g, key(x), x);
      InsertCases(g, key(x), x);
      var i := IndexOf(Keys(g), key(x));
      if i >= 0 {
        FlattenUpdate(g, i, g[i].1 + [x]);
        FlattenContains(g, i);
      } else {
        var g' := g + [(key(x), [x])];
        assert g'[..|g|] == g;
        assert Flatten(g') == Flatten(g) + [x];
      }
    }
  }

  /** No bucket is empty: a key is only created together with its first element. */
  lemma {:induction false} GroupByNonEmpty<K, V>(xs: seq<V>, key: V -> K)
    ensures forall i :: 0 <= i < |GroupBy(xs, key)| ==> GroupBy(xs, key)[i].1 != []
  {
    if xs != [] {
      var init, x := xs[..|xs| - 1], xs[|xs| - 1];
      GroupByNonEmpty(init, key);
      InsertCases(GroupBy(init, key), key(x), x);
    }
  }

  /** The keys of a grouping are distinct. */
  lemma GroupByDistinctKeys<K, V>(xs: seq<V>, key: V -> K)
    ensures Distinct(Keys(GroupBy(xs, key)))
  {
    GroupByKeys(xs, key);
    DedupProps(MapKey(xs, key));
  }

  /** The bucket of `k`, or the empty sequence when `acc[k]` is undefined. */
  function Bucket<K(==), V>(g: seq<(K, seq<V>)>, k: K): seq<V>
  {
    var i := IndexOf(Keys(g), k);
    if i >= 0 then g[i].1 else []
  }

  /** Each bucket viewed as a site-specific group record, in key order. */
  function MapView<K, V, G>(g: seq<(K, seq<V>)>, view: ((K, seq<V>)) -> G): (r: seq<G>)
    ensures |r| == |g|
    ensures forall i :: 0 <= i < |g| ==> r[i] == view(g[i])
  {
    seq(|g|, i requires 0 <= i < |g| => view(g[i]))
  }

  /** A prefix one element longer is the shorter prefix and that element. */
  lemma PrefixSnoc<V>(xs: seq<V>, i: nat)
    requires i < |xs|
    ensures xs[..i + 1] == xs[..i] + [xs[i]]
  {
  }

  /** The prefix as long as the sequence is the sequence. */
  lemma WholePrefix<V>(xs: seq<V>)
    ensures xs[..|xs|] == xs
  {
  }

  /** The reduce applied to one more element is one more `Insert`. */
  lemma GroupBySnoc<K, V>(xs: seq<V>, x: V, key: V -> K)
    ensures GroupBy(xs + [x], key) == Insert(GroupBy(xs, key), key(x), x)
  {
    assert (xs + [x])[..|xs|] == xs;
  }

  /** How one `Insert` shows in the viewed groups: one record replaced, or one appended. */
  lemma MapViewInsert<K, V, G>(g: seq<(K, seq<V>)>, k: K, x: V, view: ((K, seq<V>)) -> G)
    ensures var i := IndexOf(Keys(g), k);
      MapView(Insert(g, k, x), view)
        == if i >= 0 then MapView(g, view)[i := view((k, g[i].1 + [x]))]
           else MapView(g, view) + [view((k, [x]))]
  {
    InsertCases(g, k, x);
  }

  /** A sum does not depend on the order of the summands. */
  lemma {:induction false} SumPermutation<V>(xs: seq<V>, ys: seq<V>, w: V -> int)
    requires multiset(xs) == multiset(ys)
    ensures Sum(xs, w) == Sum(ys, w)
    decreases |xs|
  {
    if xs != [] {
      var x := xs[|xs| - 1];
      assert x in multiset(ys);
      var j :| 0 <= j < |ys| && ys[j] == x;
      var rest := ys[..j] + ys[j + 1..];
      assert ys == ys[..j] + [x] + ys[j + 1..];
      assert xs == xs[..|xs| - 1] + [x];
      assert multiset(ys) == multiset(rest) + multiset{x};
      assert multiset(xs) == multiset(xs[..|xs| - 1]) + multiset{x};
      assert multiset(xs[..|xs| - 1]) == multiset(xs) - multiset{x};
      assert multiset(rest) == multiset(ys) - multiset{x};
      SumPermutation(xs[..|xs| - 1], rest, w);
      SumAppend(ys[..j] + [x], ys[j + 1..], w);
      SumAppend(ys[..j], [x], w);
      SumAppend(ys[..j], ys[j + 1..], w);
      assert Sum([x], w) == w(x) by { assert [x][..0] == []; }
    }
  }

  /** Looking a key up in the grouping yields exactly the input elements with that key. */
  lemma BucketOfGroupBy<K, V>(xs: seq<V>, key: V -> K, k: K)
    ensures Bucket(GroupBy(xs, key), k) == Select(xs, key, k)
  {
    var g := GroupBy(xs, key);
    GroupByKeys(xs, key);
    DedupProps(MapKey(xs, key));
    GroupByBuckets(xs, key);
    if IndexOf(Keys(g), k) < 0 {
      SelectAbsent(xs, key, k);
    }
  }

  /** Summing bucket by bucket is summing a per-key total over the keys. */
  lemma {:induction false} GroupSumsByKey<K, V>(g: seq<(K, seq<V>)>, w: V -> int, total: K -> int)
    requires forall i :: 0 <= i < |g| ==> total(g[i].0) == Sum(g[i].1, w)
    ensures GroupSums(g, w) == Sum(Keys(g), total)
  {
    if g != [] {
      GroupSumsByKey(g[..|g| - 1], w, total);
      assert Keys(g)[..|g| - 1] == Keys(g[..|g| - 1]);
    }
  }
}
