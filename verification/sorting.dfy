/**
 * Ordering a sequence by an integer key, the way `Array.prototype.sort` orders it
 * with a comparator of the form `(a, b) => key(a) - key(b)`: the comparator is
 * negative, zero or positive exactly as `key(a)` is below, equal to or above `key(b)`.
 * The sort is a stable insertion sort. Only the chart's hour keys are distinct, so
 * only there does the contract pin the order; rows with equal counts may come in
 * either order as far as the contract of `RangeStats.SortByCount` says.
 */
module Sorting {

  /** Non-decreasing by key: what a comparator `key(a) - key(b)` asks of a sort. */
  ghost predicate SortedBy<T>(s: seq<T>, key: T -> int) {
    forall i, j :: 0 <= i < j < |s| ==> key(s[i]) <= key(s[j])
  }

  ghost predicate StrictlySortedBy<T>(s: seq<T>, key: T -> int) {
    forall i, j :: 0 <= i < j < |s| ==> key(s[i]) < key(s[j])
  }

  /** No two elements share a key. */
  ghost predicate DistinctKeys<T>(s: seq<T>, key: T -> int) {
    forall i, j :: 0 <= i < j < |s| ==> key(s[i]) != key(s[j])
  }

  /** The comparator the source hands to the sort. */
  function CompareBy<T>(a: T, b: T, key: T -> int): (c: int)
    ensures c < 0 <==> key(a) < key(b)
    ensures c == 0 <==> key(a) == key(b)
    ensures c > 0 <==> key(a) > key(b)
  {
    key(a) - key(b)
  }

  /** Places `x` before the first element it does not compare above. */
  function InsertBy<T(==)>(x: T, s: seq<T>, key: T -> int): (r: seq<T>)
    requires SortedBy(s, key)
    ensures SortedBy(r, key)
    ensures multiset(r) == multiset(s) + multiset{x}
    ensures |r| == |s| + 1
  {
    if |s| == 0 then [x]
    else if CompareBy(x, s[0], key) <= 0 then [x] + s
    else
      var rest := InsertBy(x, s[1..], key);
      assert s == [s[0]] + s[1..];
      HeadBelowAll(s[0], rest, s[1..], x, key);
      [s[0]] + rest
  }

  /** A head whose key is at most every key of the tail keeps the sequence sorted. */
  lemma HeadBelowAll<T>(h: T, rest: seq<T>, tail: seq<T>, x: T, key: T -> int)
    requires SortedBy(rest, key)
    requires multiset(rest) == multiset(tail) + multiset{x}
    requires forall i :: 0 <= i < |tail| ==> key(h) <= key(tail[i])
    requires key(h) <= key(x)
    ensures SortedBy([h] + rest, key)
  {
    forall j | 0 <= j < |rest|
      ensures key(h) <= key(rest[j])
    {
      assert rest[j] in multiset(rest);
      if rest[j] != x {
        assert rest[j] in multiset(tail);
      }
    }
  }

  function SortBy<T(==)>(s: seq<T>, key: T -> int): (r: seq<T>)
    ensures SortedBy(r, key)
    ensures multiset(r) == multiset(s)
    ensures |r| == |s|
  {
    if |s| == 0 then []
    else
      assert s == [s[0]] + s[1..];
      InsertBy(s[0], SortBy(s[1..], key), key)
  }

  lemma {:induction false} InsertByStrict<T>(x: T, s: seq<T>, key: T -> int)
    requires StrictlySortedBy(s, key)
    requires forall i :: 0 <= i < |s| ==> key(s[i]) != key(x)
    ensures StrictlySortedBy(InsertBy(x, s, key), key)
  {
    if |s| == 0 || key(x) <= key(s[0]) {
    } else {
      InsertByStrict(x, s[1..], key);
      var rest := InsertBy(x, s[1..], key);
      forall e | e in multiset(rest)
        ensures key(s[0]) < key(e)
      {
        assert e in multiset(s[1..]) + multiset{x};
      }
      forall j | 0 <= j < |rest|
        ensures key(s[0]) < key(rest[j])
      {
        assert rest[j] in multiset(rest);
      }
    }
  }

  /** With pairwise distinct keys the sorted result is strictly increasing. */
  lemma {:induction false} SortByStrict<T>(s: seq<T>, key: T -> int)
    requires DistinctKeys(s, key)
    ensures StrictlySortedBy(SortBy(s, key), key)
  {
    if |s| > 0 {
      SortByStrict(s[1..], key);
      var tail := SortBy(s[1..], key);
      forall i | 0 <= i < |tail|
        ensures key(tail[i]) != key(s[0])
      {
        assert tail[i] in multiset(s[1..]);
        var j :| 0 <= j < |s[1..]| && s[1..][j] == tail[i];
        assert s[j + 1] == tail[i];
      }
      InsertByStrict(s[0], tail, key);
    }
  }

  /** Every element of the sorted sequence is an element of the input, and conversely. */
  lemma SortBySameElements<T>(s: seq<T>, key: T -> int)
    ensures forall x :: x in SortBy(s, key) <==> x in s
  {
    var r := SortBy(s, key);
    forall x
      ensures x in r <==> x in s
    {
      assert x in r <==> x in multiset(r);
      assert x in s <==> x in multiset(s);
    }
  }
}
