/**
  * `Array.prototype.sort` with a numeric comparator `(a, b) => key(b) - key(a)`:
  * a stable sort into descending key order. An ascending sort is the same
  * sort on the negated key.
  */
module Sorting {

  /** `key` does not increase along `s`. */
  predicate SortedDesc<T>(s: seq<T>, key: T -> real) {
    forall i, j | 0 <= i < j < |s| :: key(s[i]) >= key(s[j])
  }

  /** The elements of `s` whose key is `v`, in their order in `s`. */
  function WithKey<T>(s: seq<T>, key: T -> real, v: real): (r: seq<T>)
    ensures |r| <= |s|
  {
    if s == [] then []
    else (if key(s[0]) == v then [s[0]] else []) + WithKey(s[1..], key, v)
  }

  /** Place `x` before the first element whose key is not above its own. */
  function Insert<T>(x: T, t: seq<T>, key: T -> real): (r: seq<T>)
    ensures multiset(r) == multiset(t) + multiset{x}
    ensures SortedDesc(t, key) ==> SortedDesc(r, key)
  {
    if t == [] then [x]
    else if key(x) >= key(t[0]) then [x] + t
    else
      var rest := Insert(x, t[1..], key);
      assert t == [t[0]] + t[1..];
      SortedTail(t, key);
      BoundedArrangement(rest, t[1..], x, key, key(t[0]));
      ConsSorted(t[0], rest, key);
      [t[0]] + rest
  }

  /** The tail of a sorted sequence is sorted, and no key in it is above the head's. */
  lemma SortedTail<T>(t: seq<T>, key: T -> real)
    requires t != []
    ensures SortedDesc(t, key) ==> SortedDesc(t[1..], key) && forall y | y in t[1..] :: key(y) <= key(t[0])
  {
    if SortedDesc(t, key) {
      forall y | y in t[1..] ensures key(y) <= key(t[0]) {
        var j :| 0 <= j < |t[1..]| && t[1..][j] == y;
        assert t[j + 1] == y;
      }
    }
  }

  /** A bound on the keys of `t` and on that of `x` bounds the keys of any arrangement of them. */
  lemma BoundedArrangement<T>(r: seq<T>, t: seq<T>, x: T, key: T -> real, b: real)
    requires multiset(r) == multiset(t) + multiset{x}
    ensures key(x) <= b && (forall y | y in t :: key(y) <= b) ==> forall k | 0 <= k < |r| :: key(r[k]) <= b
  {
    if key(x) <= b && (forall y | y in t :: key(y) <= b) {
      forall k | 0 <= k < |r| ensures key(r[k]) <= b {
        assert r[k] in multiset(r);
        assert r[k] == x || r[k] in multiset(t);
      }
    }
  }

  /** A head whose key is not below any later key keeps a sorted sequence sorted. */
  lemma ConsSorted<T>(h: T, r: seq<T>, key: T -> real)
    ensures SortedDesc(r, key) && (forall k | 0 <= k < |r| :: key(h) >= key(r[k])) ==> SortedDesc([h] + r, key)
  {
    if SortedDesc(r, key) && (forall k | 0 <= k < |r| :: key(h) >= key(r[k])) {
      forall i, j | 0 <= i < j < |[h] + r| ensures key(([h] + r)[i]) >= key(([h] + r)[j]) {
        assert ([h] + r)[j] == r[j - 1];
        if i > 0 {
          assert ([h] + r)[i] == r[i - 1];
        }
      }
    }
  }

  /** The stable descending sort. */
  function SortDesc<T>(s: seq<T>, key: T -> real): (r: seq<T>)
    ensures multiset(r) == multiset(s) && |r| == |s|
    ensures SortedDesc(r, key)
  {
    if s == [] then []
    else
      assert s == [s[0]] + s[1..];
      Insert(s[0], SortDesc(s[1..], key), key)
  }

  lemma {:induction false} InsertWithKey<T>(x: T, t: seq<T>, key: T -> real, v: real)
    ensures WithKey(Insert(x, t, key), key, v)
         == (if key(x) == v then [x] else []) + WithKey(t, key, v)
  {
    if t == [] {
      WithKeyCons(x, [], key, v);
    } else if key(x) >= key(t[0]) {
      WithKeyCons(x, t, key, v);
    } else {
      InsertWithKey(x, t[1..], key, v);
      var rest := Insert(x, t[1..], key);
      WithKeyCons(t[0], rest, key, v);
      WithKeyCons(t[0], t[1..], key, v);
      assert [t[0]] + t[1..] == t;
      var hx: seq<T> := if key(x) == v then [x] else [];
      var h0: seq<T> := if key(t[0]) == v then [t[0]] else [];
      var w1 := WithKey(t[1..], key, v);
      if key(x) == v {
        assert h0 == [];
        assert h0 + (hx + w1) == hx + w1 && h0 + w1 == w1;
      } else {
        assert hx == [];
        assert hx + w1 == w1 && hx + (h0 + w1) == h0 + w1;
      }
    }
  }

  /** `WithKey` of a sequence with one more element in front. */
  lemma WithKeyCons<T>(h: T, t: seq<T>, key: T -> real, v: real)
    ensures WithKey([h] + t, key, v) == (if key(h) == v then [h] else []) + WithKey(t, key, v)
  {
    assert ([h] + t)[0] == h && ([h] + t)[1..] == t;
  }

  /**
    * Stability: elements with equal keys keep their relative order, so for
    * every key value the sorted and the unsorted sequence list the same
    * elements in the same order.
    */
  lemma {:induction false} SortStable<T>(s: seq<T>, key: T -> real, v: real)
    ensures WithKey(SortDesc(s, key), key, v) == WithKey(s, key, v)
  {
    if s != [] {
      SortStable(s[1..], key, v);
      InsertWithKey(s[0], SortDesc(s[1..], key), key, v);
    }
  }

  /** A sequence already in descending key order, ties included, is left as it is. */
  lemma {:induction false} SortSorted<T>(s: seq<T>, key: T -> real)
    requires SortedDesc(s, key)
    ensures SortDesc(s, key) == s
  {
    if s != [] {
      SortSorted(s[1..], key);
      assert s == [s[0]] + s[1..];
      if |s| > 1 {
        assert key(s[0]) >= key(s[1..][0]);
      }
    }
  }
}
