/**
 * Python's `sorted(xs, key=k)` and `sorted(xs, key=k, reverse=True)`, both stable, modelled as
 * an insertion sort on the keys with `before(a, b)` meaning "key a must come strictly before
 * key b" (`a < b` ascending, `a > b` descending). Elements whose keys are not ordered either way
 * keep their original relative order.
 */
module Sorting {

  /** `before` is irreflexive and transitive, as `<` and `>` on sort keys are. */
  ghost predicate StrictOrder<K(!new)>(before: (K, K) -> bool) {
    (forall a :: !before(a, a))
    && (forall a, b, c :: before(a, b) && before(b, c) ==> before(a, c))
  }

  /** No element is followed by one whose key must come strictly before its own. */
  ghost predicate SortedBy<T, K>(s: seq<T>, key: T -> K, before: (K, K) -> bool) {
    forall i, j :: 0 <= i < j < |s| ==> !before(key(s[j]), key(s[i]))
  }

  /** Places `x` in front of the first element it must precede, behind all others. */
  function Insert<T, K>(x: T, s: seq<T>, key: T -> K, before: (K, K) -> bool): (r: seq<T>)
    ensures |r| == |s| + 1
    ensures multiset(r) == multiset(s) + multiset{x}
  {
    if s == [] then [x]
    else if before(key(x), key(s[0])) then [x] + s
    else
      assert s == [s[0]] + s[1..];
      [s[0]] + Insert(x, s[1..], key, before)
  }

  /** The stable sort of `s` by `key`: the last element inserted into the sorted prefix. */
  function Sort<T, K>(s: seq<T>, key: T -> K, before: (K, K) -> bool): (r: seq<T>)
    ensures |r| == |s|
    ensures multiset(r) == multiset(s)
  {
    if s == [] then []
    else
      assert s == s[..|s| - 1] + [s[|s| - 1]];
      Insert(s[|s| - 1], Sort(s[..|s| - 1], key, before), key, before)
  }

  lemma {:induction false} InsertSorted<T, K(!new)>(x: T, s: seq<T>, key: T -> K, before: (K, K) -> bool)
    requires StrictOrder(before)
    requires SortedBy(s, key, before)
    ensures SortedBy(Insert(x, s, key, before), key, before)
    decreases |s|
  {
    if s == [] {
    } else if before(key(x), key(s[0])) {
    } else {
      InsertSorted(x, s[1..], key, before);
      var r := Insert(x, s, key, before);
      var t := Insert(x, s[1..], key, before);
      assert r == [s[0]] + t;
      forall j | 0 < j < |r|
        ensures !before(key(r[j]), key(s[0]))
      {
        assert r[j] in multiset(t);
        assert r[j] in multiset(s[1..]) + multiset{x};
        if r[j] != x {
          assert r[j] in s[1..];
          var k :| 0 <= k < |s[1..]| && s[1..][k] == r[j];
          assert s[k + 1] == r[j];
        }
      }
    }
  }

  /** `Sort` orders its result by the keys. */
  lemma {:induction false} SortSorted<T, K(!new)>(s: seq<T>, key: T -> K, before: (K, K) -> bool)
    requires StrictOrder(before)
    ensures SortedBy(Sort(s, key, before), key, before)
    decreases |s|
  {
    if s != [] {
      SortSorted(s[..|s| - 1], key, before);
      InsertSorted(s[|s| - 1], Sort(s[..|s| - 1], key, before), key, before);
    }
  }

  /** Every element of `s` survives sorting and nothing else appears. */
  lemma SortSameElements<T, K>(s: seq<T>, key: T -> K, before: (K, K) -> bool, x: T)
    ensures x in Sort(s, key, before) <==> x in s
  {
    var r := Sort(s, key, before);
    assert x in r <==> x in multiset(r);
    assert x in s <==> x in multiset(s);
  }

  /** The elements of `s` whose key is `k`, in their order in `s`. */
  function OfKey<T, K(==)>(s: seq<T>, key: T -> K, k: K): (r: seq<T>)
    ensures forall x :: x in r ==> x in s && key(x) == k
  {
    if s == [] then []
    else (if key(s[0]) == k then [s[0]] else []) + OfKey(s[1..], key, k)
  }

  lemma {:induction false} OfKeyConcat<T, K>(a: seq<T>, b: seq<T>, key: T -> K, k: K)
    ensures OfKey(a + b, key, k) == OfKey(a, key, k) + OfKey(b, key, k)
    decreases |a|
  {
    if a == [] {
      assert a + b == b;
    } else {
      assert (a + b)[1..] == a[1..] + b;
      OfKeyConcat(a[1..], b, key, k);
    }
  }

  lemma OneOfKey<T, K>(x: T, key: T -> K, k: K)
    ensures OfKey([x], key, k) == if key(x) == k then [x] else []
  {
    assert [x][1..] == [];
  }

  /** A list holding no element of key `k` has nothing to keep for `k`. */
  lemma {:induction false} NoneOfKey<T, K>(s: seq<T>, key: T -> K, k: K)
    requires forall j :: 0 <= j < |s| ==> key(s[j]) != k
    ensures OfKey(s, key, k) == []
    decreases |s|
  {
    if s != [] {
      NoneOfKey(s[1..], key, k);
    }
  }

  /** Inserting `x` puts it behind every element of its own key. */
  lemma {:induction false} InsertOfKey<T, K(!new)>(x: T, s: seq<T>, key: T -> K, before: (K, K) -> bool, k: K)
    requires StrictOrder(before)
    requires SortedBy(s, key, before)
    ensures OfKey(Insert(x, s, key, before), key, k) == OfKey(s, key, k) + (if key(x) == k then [x] else [])
    decreases |s|
  {
    if s == [] {
    } else if before(key(x), key(s[0])) {
      var r := [x] + s;
      assert r[1..] == s;
      if key(x) == k {
        forall j | 0 <= j < |s|
          ensures key(s[j]) != k
        {
          if j > 0 {
            assert !before(key(s[j]), key(s[0]));
          }
        }
        NoneOfKey(s, key, k);
      }
    } else {
      var t := Insert(x, s[1..], key, before);
      assert Insert(x, s, key, before) == [s[0]] + t;
      assert ([s[0]] + t)[1..] == t;
      InsertOfKey(x, s[1..], key, before, k);
    }
  }

  /**
   * `sorted` is stable: for every key, the elements of that key appear in the result in the
   * order they had in the input.
   */
  lemma {:induction false} SortStable<T, K(!new)>(s: seq<T>, key: T -> K, before: (K, K) -> bool, k: K)
    requires StrictOrder(before)
    ensures OfKey(Sort(s, key, before), key, k) == OfKey(s, key, k)
    decreases |s|
  {
    if s != [] {
      var p, x := s[..|s| - 1], s[|s| - 1];
      var sorted := Sort(p, key, before);
      var tail := if key(x) == k then [x] else [];
      calc {
        OfKey(Sort(s, key, before), key, k);
        OfKey(Insert(x, sorted, key, before), key, k);
        { SortSorted(p, key, before); InsertOfKey(x, sorted, key, before, k); }
        OfKey(sorted, key, k) + tail;
        { SortStable(p, key, before, k); }
        OfKey(p, key, k) + tail;
        { OneOfKey(x, key, k); }
        OfKey(p, key, k) + OfKey([x], key, k);
        { OfKeyConcat(p, [x], key, k); assert p + [x] == s; }
        OfKey(s, key, k);
      }
    }
  }
}
