/**
 * `Array.prototype.sort` with a comparator `(a, b) => key(a) - key(b)`: since ES2019 the
 * sort is stable, so its result is the stable ascending sort by `key`. A descending sort
 * (`b.total - a.total`) is the ascending sort by the negated key.
 */
module StableSort {

  ghost predicate SortedBy<T>(s: seq<T>, key: T -> real) {
    forall i, j | 0 <= i < j < |s| :: key(s[i]) <= key(s[j])
  }

  /**
   * Puts `x` in front of the first element whose key is at least `key(x)`. Every element
   * of `s` came after `x` in the input, so equal keys stay in input order.
   */
  function Insert<T>(x: T, s: seq<T>, key: T -> real): seq<T> {
    if s == [] || key(x) <= key(s[0]) then [x] + s else [s[0]] + Insert(x, s[1..], key)
  }

  /** The stable ascending sort of `s` by `key`. */
  function SortBy<T>(s: seq<T>, key: T -> real): seq<T> {
    if s == [] then [] else Insert(s[0], SortBy(s[1..], key), key)
  }

  lemma {:induction false} InsertContents<T>(x: T, s: seq<T>, key: T -> real)
    ensures multiset(Insert(x, s, key)) == multiset(s) + multiset{x}
    ensures |Insert(x, s, key)| == |s| + 1
  {
    if s != [] && key(s[0]) < key(x) {
      InsertContents(x, s[1..], key);
      assert s == [s[0]] + s[1..];
    }
  }

  /** Every key in `Insert(x, s)` is at least the smaller of `key(x)` and the head's key. */
  lemma {:induction false} InsertLowerBound<T>(x: T, s: seq<T>, key: T -> real, low: real)
    requires SortedBy(s, key)
    requires low <= key(x) && (s != [] ==> low <= key(s[0]))
    ensures forall i | 0 <= i < |Insert(x, s, key)| :: low <= key(Insert(x, s, key)[i])
  {
    InsertContents(x, s, key);
    if s != [] && key(s[0]) < key(x) {
      InsertLowerBound(x, s[1..], key, low);
    }
  }

  lemma {:induction false} InsertSorted<T>(x: T, s: seq<T>, key: T -> real)
    requires SortedBy(s, key)
    ensures SortedBy(Insert(x, s, key), key)
  {
    if s != [] && key(s[0]) < key(x) {
      InsertSorted(x, s[1..], key);
      InsertLowerBound(x, s[1..], key, key(s[0]));
    }
  }

  /** The sort only rearranges its input. */
  lemma {:induction false} SortByPermutes<T>(s: seq<T>, key: T -> real)
    ensures multiset(SortBy(s, key)) == multiset(s)
    ensures |SortBy(s, key)| == |s|
  {
    if s != [] {
      SortByPermutes(s[1..], key);
      InsertContents(s[0], SortBy(s[1..], key), key);
      assert s == [s[0]] + s[1..];
    }
  }

  /** The sort orders by key. */
  lemma {:induction false} SortBySorted<T>(s: seq<T>, key: T -> real)
    ensures SortedBy(SortBy(s, key), key)
  {
    if s != [] {
      SortBySorted(s[1..], key);
      InsertSorted(s[0], SortBy(s[1..], key), key);
    }
  }

  /** The sort orders by key and only rearranges its input. */
  lemma {:induction false} SortByCorrect<T>(s: seq<T>, key: T -> real)
    ensures SortedBy(SortBy(s, key), key)
    ensures multiset(SortBy(s, key)) == multiset(s)
    ensures |SortBy(s, key)| == |s|
  {
    SortBySorted(s, key);
    SortByPermutes(s, key);
  }

  /** The elements of `s` whose key is `k`, in their order in `s`. */
  function WithKey<T>(s: seq<T>, key: T -> real, k: real): seq<T> {
    if s == [] then []
    else (if key(s[0]) == k then [s[0]] else []) + WithKey(s[1..], key, k)
  }

  lemma {:induction false} InsertWithKey<T>(x: T, s: seq<T>, key: T -> real, k: real)
    requires SortedBy(s, key)
    ensures WithKey(Insert(x, s, key), key, k)
         == (if key(x) == k then [x] else []) + WithKey(s, key, k)
  {
    if s != [] && key(s[0]) < key(x) {
      assert SortedBy(s[1..], key);
      var rest := Insert(x, s[1..], key);
      InsertWithKey(x, s[1..], key, k);
      var head := if key(s[0]) == k then [s[0]] else [];
      var mid := if key(x) == k then [x] else [];
      assert ([s[0]] + rest)[1..] == rest;
      assert WithKey([s[0]] + rest, key, k) == head + WithKey(rest, key, k);
      assert head == [] || mid == [];
    }
  }

  /** Stability: among elements with equal keys the sort keeps the input order. */
  lemma {:induction false} SortByStable<T>(s: seq<T>, key: T -> real, k: real)
    ensures WithKey(SortBy(s, key), key, k) == WithKey(s, key, k)
  {
    if s != [] {
      SortByStable(s[1..], key, k);
      SortByCorrect(s[1..], key);
      InsertWithKey(s[0], SortBy(s[1..], key), key, k);
    }
  }
}
