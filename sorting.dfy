/**
 * `Array.prototype.sort` with a comparator `(a, b) => key(a) - key(b)`:
 * a stable insertion sort on an integer key.
 */
module Sorting {
  predicate SortedBy<T>(s: seq<T>, key: T -> int) {
    forall i, j :: 0 <= i < j < |s| ==> key(s[i]) <= key(s[j])
  }

  /** Inserts `x` after every element whose key is no larger, so equal keys keep their order. */
  function InsertBy<T>(s: seq<T>, x: T, key: T -> int): (r: seq<T>)
    ensures multiset(r) == multiset(s) + multiset{x}
    ensures |r| == |s| + 1
  {
    if s == [] then [x]
    else if key(s[|s| - 1]) <= key(x) then s + [x]
    else
      var init := s[..|s| - 1];
      assert s == init + [s[|s| - 1]];
      InsertBy(init, x, key) + [s[|s| - 1]]
  }

  lemma {:induction false} InsertSorted<T>(s: seq<T>, x: T, key: T -> int, r: seq<T>)
    requires SortedBy(s, key) && r == InsertBy(s, x, key)
    ensures SortedBy(r, key)
  {
    if s != [] && key(s[|s| - 1]) > key(x) {
      var init := s[..|s| - 1];
      var last := s[|s| - 1];
      var r' := InsertBy(init, x, key);
      InsertSorted(init, x, key, r');
      forall y | y in init ensures key(y) <= key(last) {
        var i :| 0 <= i < |init| && init[i] == y;
        assert s[i] == y;
      }
      KeysBelow(init, x, key, key(last), r');
      assert r == r' + [last];
      SortedSnoc(r', last, key, r);
    } else if s != [] {
      SortedSnoc(s, x, key, r);
    }
  }

  /** Inserting an element no larger than `b` into elements no larger than `b` keeps them no larger. */
  lemma KeysBelow<T>(s: seq<T>, x: T, key: T -> int, b: int, r: seq<T>)
    requires forall y :: y in s ==> key(y) <= b
    requires key(x) <= b && r == InsertBy(s, x, key)
    ensures forall y :: y in r ==> key(y) <= b
  {
    forall y | y in r ensures key(y) <= b {
      assert y in multiset(r);
      if y != x {
        assert y in multiset(s);
      }
    }
  }

  /** A sorted list extended by an element no smaller than all of it stays sorted. */
  lemma SortedSnoc<T>(s: seq<T>, x: T, key: T -> int, r: seq<T>)
    requires SortedBy(s, key) && r == s + [x]
    requires forall y :: y in s ==> key(y) <= key(x)
    ensures SortedBy(r, key)
  {
    forall i, j | 0 <= i < j < |r| ensures key(r[i]) <= key(r[j]) {
      if j == |r| - 1 {
        assert r[i] in s;
      }
    }
  }

  /** The list sorted by `key`: ordered, and a permutation of the input. */
  function SortBy<T>(s: seq<T>, key: T -> int): (r: seq<T>)
    ensures SortedBy(r, key)
    ensures multiset(r) == multiset(s)
    ensures |r| == |s|
  {
    if s == [] then []
    else
      var init := s[..|s| - 1];
      assert s == init + [s[|s| - 1]];
      InsertSorted(SortBy(init, key), s[|s| - 1], key, InsertBy(SortBy(init, key), s[|s| - 1], key));
      InsertBy(SortBy(init, key), s[|s| - 1], key)
  }

  /** Sorting keeps the elements. */
  lemma SortedSameElements<T>(s: seq<T>, key: T -> int, x: T)
    ensures x in SortBy(s, key) <==> x in s
  {
    assert x in SortBy(s, key) <==> x in multiset(SortBy(s, key));
    assert x in s <==> x in multiset(s);
  }
}
