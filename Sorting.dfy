/**
 * Stable sorting by an integer key, the behaviour of Python's
 * `list.sort(key=...)` and `sorted(..., key=...)`: the result is ascending
 * by key and elements with equal keys keep their relative order.
 */
module Sorting {

  predicate SortedBy<T>(s: seq<T>, key: T -> int) {
    forall i, j :: 0 <= i < j < |s| ==> key(s[i]) <= key(s[j])
  }

  /** `r` is `s` stably sorted by `key`: ascending, a permutation of `s`, equal keys in their order in `s`. */
  ghost predicate IsStableSortOf<T>(r: seq<T>, s: seq<T>, key: T -> int) {
    && SortedBy(r, key)
    && multiset(r) == multiset(s)
    && forall k :: WithKey(r, key, k) == WithKey(s, key, k)
  }

  /** The elements of `s` whose key is `k`, in their order in `s`. */
  function WithKey<T>(s: seq<T>, key: T -> int, k: int): seq<T> {
    if s == [] then [] else (if key(s[0]) == k then [s[0]] else []) + WithKey(s[1..], key, k)
  }

  /** Puts `x` in front of the first element whose key is not smaller than its own. */
  function Insert<T>(x: T, s: seq<T>, key: T -> int): seq<T> {
    if s == [] || key(x) <= key(s[0]) then [x] + s else [s[0]] + Insert(x, s[1..], key)
  }

  function SortByKey<T>(s: seq<T>, key: T -> int): seq<T> {
    if s == [] then [] else Insert(s[0], SortByKey(s[1..], key), key)
  }

  lemma {:induction false} InsertPermutes<T>(x: T, s: seq<T>, key: T -> int)
    ensures multiset(Insert(x, s, key)) == multiset([x] + s)
  {
    if s != [] && key(x) > key(s[0]) {
      InsertPermutes(x, s[1..], key);
      assert s == [s[0]] + s[1..];
    }
  }

  lemma {:induction false} InsertSorted<T>(x: T, s: seq<T>, key: T -> int)
    requires SortedBy(s, key)
    ensures SortedBy(Insert(x, s, key), key)
  {
    if s != [] && key(x) > key(s[0]) {
      InsertSorted(x, s[1..], key);
      InsertPermutes(x, s[1..], key);
      var t := Insert(x, s[1..], key);
      forall j | 0 <= j < |t| ensures key(s[0]) <= key(t[j]) {
        assert t[j] in multiset([x] + s[1..]);
        assert t[j] == x || t[j] in s[1..];
      }
    }
  }

  lemma {:induction false} InsertKeepsKeyOrder<T>(x: T, s: seq<T>, key: T -> int, k: int)
    requires SortedBy(s, key)
    ensures WithKey(Insert(x, s, key), key, k) == WithKey([x] + s, key, k)
  {
    if s != [] && key(x) > key(s[0]) {
      InsertKeepsKeyOrder(x, s[1..], key, k);
      assert ([s[0]] + Insert(x, s[1..], key))[1..] == Insert(x, s[1..], key);
      assert ([x] + s[1..])[1..] == s[1..];
      assert ([x] + s)[1..] == s;
      assert s[1..] == s[1..][..] && s == [s[0]] + s[1..];
    }
  }

  /** SortByKey is a stable sort: ascending, a permutation, and equal keys keep their order. */
  lemma {:induction false} SortByKeyIsStableSort<T>(s: seq<T>, key: T -> int)
    ensures SortedBy(SortByKey(s, key), key)
    ensures multiset(SortByKey(s, key)) == multiset(s)
    ensures |SortByKey(s, key)| == |s|
    ensures forall k :: WithKey(SortByKey(s, key), key, k) == WithKey(s, key, k)
    ensures IsStableSortOf(SortByKey(s, key), s, key)
  {
    if s != [] {
      var t := SortByKey(s[1..], key);
      SortByKeyIsStableSort(s[1..], key);
      InsertSorted(s[0], t, key);
      InsertPermutes(s[0], t, key);
      assert s == [s[0]] + s[1..];
      assert |multiset(SortByKey(s, key))| == |multiset(s)|;
      forall k ensures WithKey(SortByKey(s, key), key, k) == WithKey(s, key, k) {
        InsertKeepsKeyOrder(s[0], t, key, k);
        assert ([s[0]] + t)[1..] == t;
      }
    }
  }

  /**
   * A sequence that is ascending by key and agrees with `s` on the order of
   * every key class is the stable sort of `s`: stability fixes the result.
   */
  lemma {:induction false} StableSortIsUnique<T>(s: seq<T>, r: seq<T>, key: T -> int)
    requires IsStableSortOf(r, s, key)
    ensures r == SortByKey(s, key)
  {
    SortByKeyIsStableSort(s, key);
    SortedAgreeingAreEqual(r, SortByKey(s, key), key);
  }

  lemma {:induction false} SortedAgreeingAreEqual<T>(a: seq<T>, b: seq<T>, key: T -> int)
    requires SortedBy(a, key) && SortedBy(b, key)
    requires forall k :: WithKey(a, key, k) == WithKey(b, key, k)
    ensures a == b
    decreases |a| + |b|
  {
    if a != [] {
      assert WithKey(b, key, key(a[0])) != [];
    }
    if b != [] {
      assert WithKey(a, key, key(b[0])) != [];
    }
    if a != [] && b != [] {
      // The smallest key of each is the smallest key overall, so both heads agree.
      if key(a[0]) < key(b[0]) {
        assert WithKey(a, key, key(a[0])) != [];
        NoSmallerKey(b, key, key(a[0]));
        assert false;
      } else if key(b[0]) < key(a[0]) {
        assert WithKey(b, key, key(b[0])) != [];
        NoSmallerKey(a, key, key(b[0]));
        assert false;
      }
      assert a[0] == WithKey(a, key, key(a[0]))[0] == WithKey(b, key, key(b[0]))[0] == b[0];
      forall k ensures WithKey(a[1..], key, k) == WithKey(b[1..], key, k) {
        var p := if key(a[0]) == k then [a[0]] else [];
        assert WithKey(a, key, k) == p + WithKey(a[1..], key, k);
        assert WithKey(b, key, k) == p + WithKey(b[1..], key, k);
        assert WithKey(a[1..], key, k) == WithKey(a, key, k)[|p|..];
      }
      assert SortedBy(a[1..], key) && SortedBy(b[1..], key);
      SortedAgreeingAreEqual(a[1..], b[1..], key);
      assert a == [a[0]] + a[1..] && b == [b[0]] + b[1..];
    }
  }

  /** A sorted sequence whose head key is above `k` holds no element of key `k`. */
  lemma {:induction false} NoSmallerKey<T>(s: seq<T>, key: T -> int, k: int)
    requires SortedBy(s, key) && s != [] && k < key(s[0])
    ensures WithKey(s, key, k) == []
  {
    if |s| > 1 {
      assert SortedBy(s[1..], key);
      NoSmallerKey(s[1..], key, k);
    }
  }
}
