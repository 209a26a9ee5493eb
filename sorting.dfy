/**
 * A stable sort by a real-valued key, the behaviour of Python's `sorted`
 * (with or without `reverse=True`): the result is ordered by the key and
 * elements with equal keys keep their original order.
 */
module Sorting {

  /** `a` may stand before `b` in the sorted output. */
  predicate InOrder<T>(key: T -> real, descending: bool, a: T, b: T)
  {
    if descending then key(a) >= key(b) else key(a) <= key(b)
  }

  predicate SortedBy<T>(key: T -> real, descending: bool, s: seq<T>)
  {
    forall i, j :: 0 <= i < j < |s| ==> InOrder(key, descending, s[i], s[j])
  }

  /** The elements of `s` whose key equals `k`, in their order in `s`. */
  function WithKey<T>(key: T -> real, k: real, s: seq<T>): seq<T>
  {
    if s == [] then []
    else (if key(s[0]) == k then [s[0]] else []) + WithKey(key, k, s[1..])
  }

  /** Insert `x` in front of the first element it may precede. */
  function Insert<T>(key: T -> real, descending: bool, x: T, s: seq<T>): seq<T>
  {
    if s == [] || InOrder(key, descending, x, s[0]) then [x] + s
    else [s[0]] + Insert(key, descending, x, s[1..])
  }

  /** Insertion sort from the right: each element goes in front of its equals. */
  function StableSort<T>(key: T -> real, descending: bool, s: seq<T>): seq<T>
  {
    if s == [] then [] else Insert(key, descending, s[0], StableSort(key, descending, s[1..]))
  }

  lemma {:induction false} WithKeyAppend<T>(key: T -> real, k: real, a: seq<T>, b: seq<T>)
    ensures WithKey(key, k, a + b) == WithKey(key, k, a) + WithKey(key, k, b)
  {
    if a == [] {
      assert a + b == b;
    } else {
      var head := if key(a[0]) == k then [a[0]] else [];
      assert (a + b)[0] == a[0];
      assert (a + b)[1..] == a[1..] + b;
      assert WithKey(key, k, a + b) == head + WithKey(key, k, a[1..] + b);
      WithKeyAppend(key, k, a[1..], b);
    }
  }

  lemma {:induction false} InsertMultiset<T>(key: T -> real, descending: bool, x: T, s: seq<T>)
    ensures multiset(Insert(key, descending, x, s)) == multiset(s) + multiset{x}
  {
    if s != [] && !InOrder(key, descending, x, s[0]) {
      InsertMultiset(key, descending, x, s[1..]);
      assert s == [s[0]] + s[1..];
    }
  }

  lemma {:induction false} InsertSorted<T>(key: T -> real, descending: bool, x: T, s: seq<T>)
    requires SortedBy(key, descending, s)
    ensures SortedBy(key, descending, Insert(key, descending, x, s))
  {
    if s != [] && !InOrder(key, descending, x, s[0]) {
      var t := Insert(key, descending, x, s[1..]);
      InsertSorted(key, descending, x, s[1..]);
      InsertMultiset(key, descending, x, s[1..]);
      forall j | 0 <= j < |t| ensures InOrder(key, descending, s[0], t[j]) {
        assert t[j] in multiset(t);
        if t[j] != x {
          assert t[j] in multiset(s[1..]);
          var m :| 0 <= m < |s[1..]| && s[1..][m] == t[j];
          assert s[m + 1] == t[j];
        }
      }
      var r := [s[0]] + t;
      forall i, j | 0 <= i < j < |r| ensures InOrder(key, descending, r[i], r[j]) {
        if i > 0 {
          assert r[i] == t[i - 1] && r[j] == t[j - 1];
        } else {
          assert r[j] == t[j - 1];
        }
      }
    }
  }

  lemma {:induction false} InsertWithKey<T>(key: T -> real, descending: bool, x: T, s: seq<T>, k: real)
    ensures WithKey(key, k, Insert(key, descending, x, s))
            == (if key(x) == k then [x] else []) + WithKey(key, k, s)
  {
    if s == [] || InOrder(key, descending, x, s[0]) {
      WithKeyAppend(key, k, [x], s);
    } else {
      InsertWithKey(key, descending, x, s[1..], k);
      assert key(s[0]) != key(x);
      WithKeyAppend(key, k, [s[0]], Insert(key, descending, x, s[1..]));
      WithKeyAppend(key, k, [s[0]], s[1..]);
      assert s == [s[0]] + s[1..];
    }
  }

  /** The sort orders by the key. */
  lemma {:induction false} StableSortSorted<T>(key: T -> real, descending: bool, s: seq<T>)
    ensures SortedBy(key, descending, StableSort(key, descending, s))
    ensures multiset(StableSort(key, descending, s)) == multiset(s)
  {
    if s != [] {
      StableSortSorted(key, descending, s[1..]);
      InsertSorted(key, descending, s[0], StableSort(key, descending, s[1..]));
      InsertMultiset(key, descending, s[0], StableSort(key, descending, s[1..]));
      assert s == [s[0]] + s[1..];
    }
  }

  /** The sort is stable: the elements with any one key keep their original order. */
  lemma {:induction false} StableSortStable<T>(key: T -> real, descending: bool, s: seq<T>, k: real)
    ensures WithKey(key, k, StableSort(key, descending, s)) == WithKey(key, k, s)
  {
    if s != [] {
      StableSortStable(key, descending, s[1..], k);
      InsertWithKey(key, descending, s[0], StableSort(key, descending, s[1..]), k);
      WithKeyAppend(key, k, [s[0]], s[1..]);
      assert s == [s[0]] + s[1..];
    }
  }

  lemma {:induction false} StableSortLength<T>(key: T -> real, descending: bool, s: seq<T>)
    ensures |StableSort(key, descending, s)| == |s|
  {
    StableSortSorted(key, descending, s);
    assert |multiset(StableSort(key, descending, s))| == |multiset(s)|;
  }
}
