/**
 * The ordering used by both `Array.prototype.sort` calls of the core. The
 * comparators `(a, b) => key(b) - key(a)` order by a key, largest first, and
 * the JavaScript sort is stable (ECMAScript 2019 and later), so elements with
 * equal keys keep their input order. This module gives that sort as an
 * insertion sort and proves it ordered, a permutation and stable.
 */
module StableSort {

  /** Every adjacent pair of `s` is ordered by `key`, largest first. */
  predicate SortedDesc<T>(s: seq<T>, key: T -> int)
  {
    forall i :: 0 <= i < |s| - 1 ==> key(s[i]) >= key(s[i + 1])
  }

  /** The elements of `s` whose key is `k`, in their order in `s`. */
  function WithKey<T>(s: seq<T>, key: T -> int, k: int): (r: seq<T>)
    ensures |r| <= |s|
  {
    if s == [] then []
    else (if key(s[0]) == k then [s[0]] else []) + WithKey(s[1..], key, k)
  }

  /** Places `x` in front of the first element of `s` whose key is not larger than its own. */
  function Insert<T>(x: T, s: seq<T>, key: T -> int): (r: seq<T>)
    ensures |r| == |s| + 1
    ensures r[0] == x || (|s| > 0 && r[0] == s[0])
    ensures multiset(r) == multiset(s) + multiset{x}
    ensures SortedDesc(s, key) ==> SortedDesc(r, key)
  {
    if s == [] || key(x) >= key(s[0]) then [x] + s
    else
      assert s == [s[0]] + s[1..];
      [s[0]] + Insert(x, s[1..], key)
  }

  /** The stable sort of `s` by `key`, largest first. */
  function Sort<T>(s: seq<T>, key: T -> int): (r: seq<T>)
    ensures |r| == |s|
    ensures multiset(r) == multiset(s)
    ensures SortedDesc(r, key)
  {
    if s == [] then []
    else
      assert s == [s[0]] + s[1..];
      Insert(s[0], Sort(s[1..], key), key)
  }

  /** Adjacent order extends to every pair of positions. */
  lemma {:induction false} SortedDescPairs<T>(s: seq<T>, key: T -> int, i: int, j: int)
    requires SortedDesc(s, key)
    requires 0 <= i <= j < |s|
    ensures key(s[i]) >= key(s[j])
    decreases j - i
  {
    if i < j {
      SortedDescPairs(s, key, i + 1, j);
    }
  }

  /** Inserting `x` adds `x` to the elements with its key and moves no other element past one with an equal key. */
  lemma {:induction false} InsertStable<T>(x: T, s: seq<T>, key: T -> int, k: int)
    ensures WithKey(Insert(x, s, key), key, k) == (if key(x) == k then [x] else []) + WithKey(s, key, k)
  {
    if s == [] || key(x) >= key(s[0]) {
      assert ([x] + s)[1..] == s;
    } else {
      var r := Insert(x, s[1..], key);
      assert ([s[0]] + r)[1..] == r;
      InsertStable(x, s[1..], key, k);
    }
  }

  /** Stability: for every key, the elements with that key appear in the output in their input order. */
  lemma {:induction false} SortStable<T>(s: seq<T>, key: T -> int, k: int)
    ensures WithKey(Sort(s, key), key, k) == WithKey(s, key, k)
  {
    if s != [] {
      SortStable(s[1..], key, k);
      InsertStable(s[0], Sort(s[1..], key), key, k);
    }
  }
}
