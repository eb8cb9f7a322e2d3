/** A stable sort by a real-valued key. It stands for pandas'
    `sort_values` on the timestamp column, Python's `sorted(..., reverse=True)`
    on holder balances and JavaScript's comparator sorts on coin scores; a
    descending order is obtained by sorting on the negated key. */
module Sorting {
  import opened Common

  /** The keys never decrease along `s`. */
  predicate SortedBy<T>(s: seq<T>, key: T -> real)
  {
    forall i, j :: 0 <= i < j < |s| ==> key(s[i]) <= key(s[j])
  }

  /** Places `x` in front of the first element whose key is not smaller, so
      it stays ahead of equal-keyed elements that followed it in the input. */
  function Insert<T>(x: T, s: seq<T>, key: T -> real): (r: seq<T>)
    requires SortedBy(s, key)
    ensures SortedBy(r, key)
    ensures multiset(r) == multiset(s) + multiset{x}
    ensures |r| == |s| + 1
    ensures r[0] == x || (|s| > 0 && r[0] == s[0])
  {
    if |s| == 0 then [x]
    else if key(x) <= key(s[0]) then [x] + s
    else
      var rest := Insert(x, s[1..], key);
      assert s == [s[0]] + s[1..];
      assert key(s[0]) <= key(rest[0]);
      [s[0]] + rest
  }

  /** Insertion sort: the result is ordered by `key` and is a permutation of `s`. */
  function SortBy<T>(s: seq<T>, key: T -> real): (r: seq<T>)
    ensures SortedBy(r, key)
    ensures multiset(r) == multiset(s)
    ensures |r| == |s|
  {
    if |s| == 0 then []
    else
      assert s == [s[0]] + s[1..];
      Insert(s[0], SortBy(s[1..], key), key)
  }

  /** An element of a sorted sequence that is absent from its first `n`
      places has a key no smaller than any of those places. */
  lemma SortedTail<T>(s: seq<T>, key: T -> real, n: nat, x: T)
    requires SortedBy(s, key) && n <= |s|
    requires x in multiset(s) - multiset(s[..n])
    ensures forall i :: 0 <= i < n ==> key(s[i]) <= key(x)
  {
    assert s == s[..n] + s[n..];
    assert multiset(s) == multiset(s[..n]) + multiset(s[n..]);
    assert x in multiset(s[n..]);
    var j :| 0 <= j < |s[n..]| && s[n..][j] == x;
    assert s[n + j] == x;
  }

  /** Filtering a sorted sequence leaves it sorted. */
  lemma {:induction false} FilterKeepsSorted<T>(s: seq<T>, p: T -> bool, key: T -> real)
    requires SortedBy(s, key)
    ensures SortedBy(Filter(s, p), key)
  {
    if |s| > 0 {
      var init, last := s[..|s| - 1], s[|s| - 1];
      FilterKeepsSorted(init, p, key);
      FilterMembers(init, p);
      var f := Filter(init, p);
      forall i | 0 <= i < |f|
        ensures key(f[i]) <= key(last)
      {
        var j :| 0 <= j < |init| && init[j] == f[i];
      }
    }
  }

  /** Two filters in a row over a sorted sequence keep it sorted and keep
      only elements of the input that pass both tests. */
  lemma FilterTwice<T>(s: seq<T>, p: T -> bool, q: T -> bool, key: T -> real)
    requires SortedBy(s, key)
    ensures SortedBy(Filter(Filter(s, p), q), key)
    ensures multiset(Filter(Filter(s, p), q)) <= multiset(s)
    ensures forall i :: 0 <= i < |Filter(Filter(s, p), q)| ==> p(Filter(Filter(s, p), q)[i]) && q(Filter(Filter(s, p), q)[i])
  {
    var first := Filter(s, p);
    var second := Filter(first, q);
    FilterKeepsSorted(s, p, key);
    FilterKeepsSorted(first, q, key);
    FilterMembers(s, p);
    FilterMembers(first, q);
    FilterSubMultiset(s, p);
    FilterSubMultiset(first, q);
    forall i | 0 <= i < |second|
      ensures p(second[i])
    {
      var j :| 0 <= j < |first| && first[j] == second[i];
    }
  }

  /** The elements whose key is `v`. */
  function KeyIs<T>(key: T -> real, v: real): T -> bool
  {
    (x: T) => key(x) == v
  }

  lemma FilterSingle<T>(x: T, p: T -> bool)
    ensures Filter([x], p) == if p(x) then [x] else []
  {
    assert [x][..0] == [];
  }

  /** Two elements with different keys never both have the key `v`, so
      their order does not show among the elements with that key. */
  lemma SwapDistinctKeys<T>(a: T, x: T, key: T -> real, v: real)
    requires key(a) != key(x)
    ensures Filter([a], KeyIs(key, v)) + Filter([x], KeyIs(key, v)) == Filter([x], KeyIs(key, v)) + Filter([a], KeyIs(key, v))
  {
    FilterSingle(a, KeyIs(key, v));
    FilterSingle(x, KeyIs(key, v));
  }

  /** Inserting `x` keeps it ahead of every element with the same key. */
  lemma {:induction false} InsertStable<T>(x: T, s: seq<T>, key: T -> real, v: real)
    requires SortedBy(s, key)
    ensures Filter(Insert(x, s, key), KeyIs(key, v)) == Filter([x] + s, KeyIs(key, v))
  {
    if |s| > 0 && key(x) > key(s[0]) {
      var a, t := s[0], s[1..];
      InsertStable(x, t, key, v);
      assert Insert(x, s, key) == [a] + Insert(x, t, key);
      assert s == [a] + t;
      PassOver(x, a, t, Insert(x, t, key), key, v);
    }
  }

  /** Moving `x` past an element with another key. */
  lemma PassOver<T>(x: T, a: T, t: seq<T>, rest: seq<T>, key: T -> real, v: real)
    requires key(a) != key(x)
    requires Filter(rest, KeyIs(key, v)) == Filter([x] + t, KeyIs(key, v))
    ensures Filter([a] + rest, KeyIs(key, v)) == Filter([x] + ([a] + t), KeyIs(key, v))
  {
    var p := KeyIs(key, v);
    assert [x] + ([a] + t) == ([x] + [a]) + t;
    calc {
      Filter([a] + rest, p);
      { FilterAppend([a], rest, p); }
      Filter([a], p) + Filter(rest, p);
      { FilterAppend([x], t, p); }
      Filter([a], p) + Filter([x], p) + Filter(t, p);
      { SwapDistinctKeys(a, x, key, v); }
      Filter([x], p) + Filter([a], p) + Filter(t, p);
      { FilterAppend([x], [a], p); FilterAppend([x] + [a], t, p); }
      Filter([x] + ([a] + t), p);
    }
  }

  /** The sort is stable: elements with equal keys keep their input order. */
  lemma {:induction false} SortByStable<T>(s: seq<T>, key: T -> real, v: real)
    ensures Filter(SortBy(s, key), KeyIs(key, v)) == Filter(s, KeyIs(key, v))
  {
    if |s| > 0 {
      var p := KeyIs(key, v);
      SortByStable(s[1..], key, v);
      InsertStable(s[0], SortBy(s[1..], key), key, v);
      FilterAppend([s[0]], SortBy(s[1..], key), p);
      FilterAppend([s[0]], s[1..], p);
      assert s == [s[0]] + s[1..];
    }
  }

  /** Taking the first `n` of the sorted elements keeps, for each key, an
      initial run of the input's elements with that key, in input order. */
  lemma SortedPrefixStable<T>(s: seq<T>, key: T -> real, n: nat, v: real)
    requires n <= |s|
    ensures Filter(SortBy(s, key)[..n], KeyIs(key, v)) <= Filter(s, KeyIs(key, v))
  {
    var sorted := SortBy(s, key);
    assert sorted == sorted[..n] + sorted[n..];
    FilterAppend(sorted[..n], sorted[n..], KeyIs(key, v));
    SortByStable(s, key, v);
  }
}
