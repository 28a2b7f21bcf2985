/**
 * `Array.prototype.sort` with a numeric comparator `(a, b) => rank(a) - rank(b)`,
 * modelled as a stable insertion sort on values (the language has required a stable
 * sort since ECMAScript 2019).
 */
module Sorting {
  import opened Grouping

  /** Ascending by rank. */
  predicate SortedBy<T>(s: seq<T>, rank: T -> int) {
    forall i, j :: 0 <= i < j < |s| ==> rank(s[i]) <= rank(s[j])
  }

  /** Places `x` after every element of `s` whose rank does not exceed its own. */
  function InsertByRank<T>(s: seq<T>, x: T, rank: T -> int): (r: seq<T>)
    requires SortedBy(s, rank)
    ensures SortedBy(r, rank)
    ensures multiset(r) == multiset(s) + multiset{x}
    ensures |r| == |s| + 1
  {
    if s == [] then [x]
    else if rank(x) < rank(s[0]) then [x] + s
    else
      var rest := InsertByRank(s[1..], x, rank);
      assert s == [s[0]] + s[1..];
      LowerBound(s[0], s[1..], x, rest, rank);
      [s[0]] + rest
  }

  lemma LowerBound<T>(first: T, tail: seq<T>, x: T, r: seq<T>, rank: T -> int)
    requires forall j :: 0 <= j < |tail| ==> rank(first) <= rank(tail[j])
    requires rank(first) <= rank(x)
    requires multiset(r) == multiset(tail) + multiset{x}
    requires SortedBy(r, rank)
    ensures SortedBy([first] + r, rank)
  {
    forall i | 0 <= i < |r| ensures rank(first) <= rank(r[i]) {
      assert r[i] in multiset(r);
      if r[i] != x {
        assert r[i] in multiset(tail);
        var j :| 0 <= j < |tail| && tail[j] == r[i];
      }
    }
  }

  /** The elements of `s`, rearranged into ascending rank. */
  function SortBy<T>(s: seq<T>, rank: T -> int): (r: seq<T>)
    ensures SortedBy(r, rank)
    ensures multiset(r) == multiset(s)
    ensures |r| == |s|
  {
    if s == [] then []
    else
      assert s == s[..|s| - 1] + [s[|s| - 1]];
      InsertByRank(SortBy(s[..|s| - 1], rank), s[|s| - 1], rank)
  }

  /** The distinct keys of `xs`, sorted by rank: `Object.keys(acc).sort(...)` after a grouping reduce. */
  function SortedKeys<K(==), V>(xs: seq<V>, key: V -> K, rank: K -> int): seq<K> {
    SortBy(Dedup(MapKey(xs, key)), rank)
  }

  /** Each key of some element appears exactly once, and in ascending rank. */
  lemma SortedKeysProps<K, V>(xs: seq<V>, key: V -> K, rank: K -> int)
    ensures Distinct(SortedKeys(xs, key, rank))
    ensures SortedBy(SortedKeys(xs, key, rank), rank)
    ensures forall k :: k in SortedKeys(xs, key, rank) <==> k in MapKey(xs, key)
  {
    var ks := MapKey(xs, key);
    DedupProps(ks);
    DistinctPermutation(Dedup(ks), SortedKeys(xs, key, rank));
    forall k ensures k in SortedKeys(xs, key, rank) <==> k in Dedup(ks) {
      assert k in SortedKeys(xs, key, rank) <==> k in multiset(Dedup(ks));
    }
  }
}
