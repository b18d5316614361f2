/**
 * `Array.prototype.sort` called with a comparator that compares one integer
 * key per element (`(a, b) => key(a) - key(b)`, up to sign). The built-in sort
 * is stable, so its result is fixed by the key alone: it is the stable
 * insertion sort `SortBy` below. What the callers rely on is proved here:
 * the result is sorted, is a permutation, keeps the relative order of equal
 * keys, and is the only such sequence when the keys are distinct.
 */
module Sorting {

  predicate SortedBy<T>(s: seq<T>, key: T -> int) {
    forall i, j :: 0 <= i < j < |s| ==> key(s[i]) <= key(s[j])
  }

  predicate StrictlySortedBy<T>(s: seq<T>, key: T -> int) {
    forall i, j :: 0 <= i < j < |s| ==> key(s[i]) < key(s[j])
  }

  /** No two positions of `s` hold elements with the same key. */
  predicate DistinctKeys<T>(s: seq<T>, key: T -> int) {
    forall i, j :: 0 <= i < j < |s| ==> key(s[i]) != key(s[j])
  }

  /** Inserts `x` after every element whose key is at most `key(x)`. */
  function Insert<T(==)>(x: T, s: seq<T>, key: T -> int): (r: seq<T>)
    ensures multiset(r) == multiset(s) + multiset{x}
  {
    if s == [] then [x]
    else if key(x) < key(s[0]) then [x] + s
    else
      assert s == [s[0]] + s[1..];
      [s[0]] + Insert(x, s[1..], key)
  }

  /** The stable sort by `key`. */
  function SortBy<T(==)>(s: seq<T>, key: T -> int): (r: seq<T>)
    ensures multiset(r) == multiset(s)
    ensures SortedBy(r, key)
    decreases |s|
  {
    if s == [] then []
    else
      var init, last := s[..|s| - 1], s[|s| - 1];
      assert s == init + [last];
      InsertKeepsSorted(last, SortBy(init, key), key);
      Insert(last, SortBy(init, key), key)
  }

  lemma {:induction false} InsertKeepsSorted<T>(x: T, s: seq<T>, key: T -> int)
    requires SortedBy(s, key)
    ensures SortedBy(Insert(x, s, key), key)
    decreases |s|
  {
    if s != [] && key(s[0]) <= key(x) {
      var tail := Insert(x, s[1..], key);
      InsertKeepsSorted(x, s[1..], key);
      forall j | 0 <= j < |tail| ensures key(s[0]) <= key(tail[j]) {
        assert tail[j] in multiset(tail);
        assert tail[j] == x || tail[j] in s[1..];
      }
    }
  }

  /** The elements of `s` whose key is `k`, in their order in `s`. */
  function Filter<T>(s: seq<T>, key: T -> int, k: int): seq<T> {
    if s == [] then [] else (if key(s[0]) == k then [s[0]] else []) + Filter(s[1..], key, k)
  }

  lemma {:induction false} FilterAppend<T>(a: seq<T>, b: seq<T>, key: T -> int, k: int)
    ensures Filter(a + b, key, k) == Filter(a, key, k) + Filter(b, key, k)
    decreases |a|
  {
    if a == [] {
      assert a + b == b;
    } else {
      var ab := a + b;
      assert ab[0] == a[0] && ab[1..] == a[1..] + b;
      FilterCons(ab, key, k);
      FilterCons(a, key, k);
      FilterAppend(a[1..], b, key, k);
    }
  }

  lemma FilterCons<T>(s: seq<T>, key: T -> int, k: int)
    requires s != []
    ensures Filter(s, key, k) == (if key(s[0]) == k then [s[0]] else []) + Filter(s[1..], key, k)
  {
  }

  lemma {:induction false} FilterInsert<T>(x: T, s: seq<T>, key: T -> int, k: int)
    requires SortedBy(s, key)
    ensures Filter(Insert(x, s, key), key, k) == Filter(s, key, k) + (if key(x) == k then [x] else [])
    decreases |s|
  {
    if s == [] {
    } else if key(x) < key(s[0]) {
      var r := [x] + s;
      assert r[1..] == s;
      assert Filter(r, key, k) == (if key(x) == k then [x] else []) + Filter(s, key, k);
      if key(x) == k {
        FilterAbsent(s, key, k);
      }
    } else {
      var tail := Insert(x, s[1..], key);
      var r := [s[0]] + tail;
      assert r[1..] == tail;
      assert SortedBy(s[1..], key);
      FilterInsert(x, s[1..], key, k);
      assert Filter(r, key, k) == (if key(s[0]) == k then [s[0]] else []) + Filter(tail, key, k);
    }
  }

  /** A sorted sequence whose first key exceeds `k` has no element with key `k`. */
  lemma {:induction false} FilterAbsent<T>(s: seq<T>, key: T -> int, k: int)
    requires SortedBy(s, key)
    requires s != [] ==> k < key(s[0])
    ensures Filter(s, key, k) == []
    decreases |s|
  {
    if s != [] {
      FilterAbsent(s[1..], key, k);
    }
  }

  /**
   * Stability: for every key, the elements carrying it appear in the sorted
   * result in the same relative order as in the input.
   */
  lemma {:induction false} SortByStable<T>(s: seq<T>, key: T -> int, k: int)
    ensures Filter(SortBy(s, key), key, k) == Filter(s, key, k)
    decreases |s|
  {
    if s != [] {
      var init, last := s[..|s| - 1], s[|s| - 1];
      assert s == init + [last];
      SortByStable(init, key, k);
      FilterInsert(last, SortBy(init, key), key, k);
      FilterAppend(init, [last], key, k);
    }
  }

  /** With pairwise distinct keys the sorted result is strictly increasing. */
  lemma {:induction false} SortByStrict<T>(s: seq<T>, key: T -> int)
    requires DistinctKeys(s, key)
    ensures StrictlySortedBy(SortBy(s, key), key)
    decreases |s|
  {
    if s != [] {
      var init, last := s[..|s| - 1], s[|s| - 1];
      assert s == init + [last];
      SortByStrict(init, key);
      var t := SortBy(init, key);
      forall y | y in t ensures key(y) != key(last) {
        assert y in multiset(t);
        var i :| 0 <= i < |init| && init[i] == y;
        assert s[i] == y;
      }
      InsertKeepsStrict(last, t, key);
    }
  }

  lemma {:induction false} InsertKeepsStrict<T>(x: T, s: seq<T>, key: T -> int)
    requires StrictlySortedBy(s, key)
    requires forall y :: y in s ==> key(y) != key(x)
    ensures StrictlySortedBy(Insert(x, s, key), key)
    decreases |s|
  {
    if s != [] && key(s[0]) <= key(x) {
      var tail := Insert(x, s[1..], key);
      InsertKeepsStrict(x, s[1..], key);
      assert key(s[0]) != key(x);
      forall j | 0 <= j < |tail| ensures key(s[0]) < key(tail[j]) {
        assert tail[j] in multiset(tail);
        assert tail[j] == x || tail[j] in s[1..];
      }
    }
  }

  /**
   * Two strictly increasing sequences with the same elements are equal: with
   * distinct keys, the sorted order does not depend on the input order.
   */
  lemma {:induction false} StrictlySortedUnique<T>(a: seq<T>, b: seq<T>, key: T -> int)
    requires StrictlySortedBy(a, key) && StrictlySortedBy(b, key)
    requires multiset(a) == multiset(b)
    ensures a == b
    decreases |a|
  {
    if a != [] {
      HeadsAgree(a, b, key);
      TailsAgree(a, b);
      StrictlySortedUnique(a[1..], b[1..], key);
      assert a == [a[0]] + a[1..] && b == [b[0]] + b[1..];
    } else {
      assert |b| == |multiset(b)| == 0;
    }
  }

  /** Two strictly sorted arrangements of the same elements start alike. */
  lemma HeadsAgree<T>(a: seq<T>, b: seq<T>, key: T -> int)
    requires a != [] && StrictlySortedBy(a, key) && StrictlySortedBy(b, key)
    requires multiset(a) == multiset(b)
    ensures b != [] && a[0] == b[0]
  {
    assert a[0] in multiset(b);
    var i :| 0 <= i < |b| && b[i] == a[0];
    assert b[0] in multiset(a);
    var j :| 0 <= j < |a| && a[j] == b[0];
    assert key(b[0]) <= key(b[i]);
    assert key(a[0]) <= key(a[j]);
  }

  /** Removing equal first elements keeps the multisets equal. */
  lemma TailsAgree<T>(a: seq<T>, b: seq<T>)
    requires a != [] && b != [] && a[0] == b[0] && multiset(a) == multiset(b)
    ensures multiset(a[1..]) == multiset(b[1..])
  {
    assert a == [a[0]] + a[1..] && b == [b[0]] + b[1..];
    assert multiset(a) == multiset{a[0]} + multiset(a[1..]);
    assert multiset(b) == multiset{b[0]} + multiset(b[1..]);
    assert multiset(a[1..]) == multiset(a) - multiset{a[0]};
    assert multiset(b[1..]) == multiset(b) - multiset{b[0]};
  }

}
