/** The two sorts the source relies on: `Array.prototype.sort` with a numeric
    comparator (stable, so equal keys keep their input order) and the default
    `sort()` on strings (ascending in JavaScript's string order). Both are modelled
    as insertion sorts, which are stable. */
module Sorting {
  import opened Text

  predicate SortedByKey<T>(s: seq<T>, key: T -> int) {
    forall i, j :: 0 <= i < j < |s| ==> key(s[i]) <= key(s[j])
  }

  /** Inserts `x` in front of the first element whose key is not smaller. */
  function InsertByKey<T>(x: T, sorted: seq<T>, key: T -> int): (r: seq<T>)
    ensures multiset(r) == multiset(sorted) + multiset{x}
  {
    if |sorted| == 0 || key(x) <= key(sorted[0]) then [x] + sorted
    else
      assert sorted == [sorted[0]] + sorted[1..];
      [sorted[0]] + InsertByKey(x, sorted[1..], key)
  }

  lemma {:induction false} InsertByKeySorted<T>(x: T, sorted: seq<T>, key: T -> int)
    requires SortedByKey(sorted, key)
    ensures SortedByKey(InsertByKey(x, sorted, key), key)
  {
    if |sorted| == 0 || key(x) <= key(sorted[0]) {
      ConsSortedByKey(x, sorted, key);
    } else {
      var tail := sorted[1..];
      assert SortedByKey(tail, key);
      InsertByKeySorted(x, tail, key);
      InsertByKeyBound(x, tail, key, key(sorted[0]));
      ConsSortedByKey(sorted[0], InsertByKey(x, tail, key), key);
    }
  }

  lemma ConsSortedByKey<T>(h: T, rest: seq<T>, key: T -> int)
    requires SortedByKey(rest, key)
    requires forall k :: 0 <= k < |rest| ==> key(h) <= key(rest[k])
    ensures SortedByKey([h] + rest, key)
  {
    var r := [h] + rest;
    forall i, j | 0 <= i < j < |r| ensures key(r[i]) <= key(r[j]) {
      assert r[j] == rest[j - 1];
      if i > 0 { assert r[i] == rest[i - 1]; }
    }
  }

  /** A lower bound of `x` and of every element of `s` bounds the insertion too. */
  lemma InsertByKeyBound<T>(x: T, s: seq<T>, key: T -> int, lo: int)
    requires lo <= key(x) && forall k :: 0 <= k < |s| ==> lo <= key(s[k])
    ensures forall k :: 0 <= k < |InsertByKey(x, s, key)| ==> lo <= key(InsertByKey(x, s, key)[k])
  {
    var r := InsertByKey(x, s, key);
    forall k | 0 <= k < |r| ensures lo <= key(r[k]) {
      assert r[k] in multiset(r);
      if r[k] != x {
        assert r[k] in multiset(s);
      }
    }
  }

  /** `s.slice().sort((a, b) => key(a) - key(b))`. */
  function SortByKey<T>(s: seq<T>, key: T -> int): (r: seq<T>)
    ensures multiset(r) == multiset(s)
    ensures SortedByKey(r, key)
  {
    if |s| == 0 then []
    else
      assert s == [s[0]] + s[1..];
      var t := SortByKey(s[1..], key);
      InsertByKeySorted(s[0], t, key);
      InsertByKey(s[0], t, key)
  }

  /** The elements of `s` whose key is `c`, in their order in `s`. */
  function WithKey<T>(s: seq<T>, key: T -> int, c: int): (r: seq<T>)
    ensures |r| <= |s|
  {
    if |s| == 0 then []
    else (if key(s[0]) == c then [s[0]] else []) + WithKey(s[1..], key, c)
  }

  lemma {:induction false} WithKeyAppend<T>(a: seq<T>, b: seq<T>, key: T -> int, c: int)
    ensures WithKey(a + b, key, c) == WithKey(a, key, c) + WithKey(b, key, c)
  {
    if |a| == 0 {
      assert a + b == b;
    } else {
      var h := if key(a[0]) == c then [a[0]] else [];
      assert (a + b)[0] == a[0] && (a + b)[1..] == a[1..] + b;
      WithKeyAppend(a[1..], b, key, c);
      assert h + (WithKey(a[1..], key, c) + WithKey(b, key, c))
          == (h + WithKey(a[1..], key, c)) + WithKey(b, key, c);
    }
  }

  /** Inserting `x` puts it in front of every element with the same key. */
  lemma {:induction false} InsertByKeyWithKey<T>(x: T, sorted: seq<T>, key: T -> int, c: int)
    ensures WithKey(InsertByKey(x, sorted, key), key, c)
         == (if key(x) == c then [x] else []) + WithKey(sorted, key, c)
  {
    if |sorted| == 0 || key(x) <= key(sorted[0]) {
      assert ([x] + sorted)[1..] == sorted;
    } else {
      var t := sorted[1..];
      InsertByKeyWithKey(x, t, key, c);
      assert ([sorted[0]] + InsertByKey(x, t, key))[1..] == InsertByKey(x, t, key);
    }
  }

  /** Stability: the elements of each key come out in their input order. With
      `SortedByKey` and the multiset equation this pins the result down. */
  lemma {:induction false} SortByKeyStable<T>(s: seq<T>, key: T -> int, c: int)
    ensures WithKey(SortByKey(s, key), key, c) == WithKey(s, key, c)
  {
    if |s| > 0 {
      SortByKeyStable(s[1..], key, c);
      SortByKeyUnfold(s, key);
      InsertByKeyWithKey(s[0], SortByKey(s[1..], key), key, c);
    }
  }

  lemma SortByKeyStableAll<T>(s: seq<T>, key: T -> int)
    ensures forall c :: WithKey(SortByKey(s, key), key, c) == WithKey(s, key, c)
  {
    forall c ensures WithKey(SortByKey(s, key), key, c) == WithKey(s, key, c) {
      SortByKeyStable(s, key, c);
    }
  }

  /** `i` is the first position holding the smallest key of `s`. */
  ghost predicate IsFirstMin<T>(s: seq<T>, i: int, key: T -> int) {
    0 <= i < |s|
    && (forall j :: 0 <= j < |s| ==> key(s[i]) <= key(s[j]))
    && (forall j :: 0 <= j < i ==> key(s[i]) < key(s[j]))
  }

  lemma InsertByKeyHead<T>(x: T, sorted: seq<T>, key: T -> int)
    requires |sorted| > 0
    ensures InsertByKey(x, sorted, key)[0] == if key(x) <= key(sorted[0]) then x else sorted[0]
  {}

  lemma SortByKeyUnfold<T>(s: seq<T>, key: T -> int)
    requires |s| > 0
    ensures SortByKey(s, key) == InsertByKey(s[0], SortByKey(s[1..], key), key)
  {}

  /** Putting `s[0]` in front of a tail whose first minimum is at `i`. */
  lemma {:induction false} FirstMinOfCons<T>(s: seq<T>, i: int, key: T -> int) returns (m: int)
    requires |s| > 1 && IsFirstMin(s[1..], i, key)
    ensures m == (if key(s[0]) <= key(s[i + 1]) then 0 else i + 1)
    ensures IsFirstMin(s, m, key)
  {
    var t := s[1..];
    assert forall j :: 0 < j < |s| ==> s[j] == t[j - 1];
    if key(s[0]) <= key(t[i]) {
      m := 0;
    } else {
      m := i + 1;
    }
  }

  /** Stability at the head: after sorting, the first element is the earliest of the
      elements with the smallest key. */
  lemma {:induction false} SortHeadIsFirstMin<T>(s: seq<T>, key: T -> int) returns (m: int)
    requires |s| > 0
    ensures IsFirstMin(s, m, key) && SortByKey(s, key)[0] == s[m]
  {
    var t := s[1..];
    SortByKeyUnfold(s, key);
    if |t| == 0 {
      m := 0;
    } else {
      var i := SortHeadIsFirstMin(t, key);
      var st := SortByKey(t, key);
      InsertByKeyHead(s[0], st, key);
      m := FirstMinOfCons(s, i, key);
    }
  }

  predicate SortedStrings(s: seq<string>) {
    forall i, j :: 0 <= i < j < |s| ==> StrLessEq(s[i], s[j])
  }

  /** Inserts `x` in front of the first element that is not smaller than it. */
  function InsertString(x: string, sorted: seq<string>): (r: seq<string>)
    ensures multiset(r) == multiset(sorted) + multiset{x}
  {
    if |sorted| == 0 || !StrLess(sorted[0], x) then [x] + sorted
    else
      assert sorted == [sorted[0]] + sorted[1..];
      [sorted[0]] + InsertString(x, sorted[1..])
  }

  lemma {:induction false} InsertStringSorted(x: string, sorted: seq<string>)
    requires SortedStrings(sorted)
    ensures SortedStrings(InsertString(x, sorted))
  {
    if |sorted| == 0 || !StrLess(sorted[0], x) {
      forall k | 0 <= k < |sorted| ensures StrLessEq(x, sorted[k]) {
        if x != sorted[0] {
          StrLessTotal(x, sorted[0]);
          if k > 0 && sorted[0] != sorted[k] {
            assert StrLessEq(sorted[0], sorted[k]);
            StrLessTransitive(x, sorted[0], sorted[k]);
          }
        }
      }
      ConsSortedStrings(x, sorted);
    } else {
      var tail := sorted[1..];
      assert SortedStrings(tail);
      assert forall k :: 0 <= k < |tail| ==> tail[k] == sorted[k + 1];
      InsertStringSorted(x, tail);
      InsertStringBound(x, tail, sorted[0]);
      ConsSortedStrings(sorted[0], InsertString(x, tail));
    }
  }

  lemma ConsSortedStrings(h: string, rest: seq<string>)
    requires SortedStrings(rest)
    requires forall k :: 0 <= k < |rest| ==> StrLessEq(h, rest[k])
    ensures SortedStrings([h] + rest)
  {
    var r := [h] + rest;
    forall i, j | 0 <= i < j < |r| ensures StrLessEq(r[i], r[j]) {
      assert r[j] == rest[j - 1];
      if i > 0 { assert r[i] == rest[i - 1]; }
    }
  }

  /** A lower bound of `x` and of every element of `s` bounds the insertion too. */
  lemma InsertStringBound(x: string, s: seq<string>, lo: string)
    requires StrLessEq(lo, x) && forall k :: 0 <= k < |s| ==> StrLessEq(lo, s[k])
    ensures forall k :: 0 <= k < |InsertString(x, s)| ==> StrLessEq(lo, InsertString(x, s)[k])
  {
    var r := InsertString(x, s);
    forall k | 0 <= k < |r| ensures StrLessEq(lo, r[k]) {
      assert r[k] in multiset(r);
      if r[k] != x {
        assert r[k] in multiset(s);
      }
    }
  }

  /** `Array.prototype.sort()` without a comparator, on strings. */
  function SortStrings(s: seq<string>): (r: seq<string>)
    ensures multiset(r) == multiset(s)
  {
    if |s| == 0 then []
    else
      assert s == [s[0]] + s[1..];
      InsertString(s[0], SortStrings(s[1..]))
  }

  lemma {:induction false} SortStringsSorted(s: seq<string>)
    ensures SortedStrings(SortStrings(s))
  {
    if |s| > 0 {
      SortStringsSorted(s[1..]);
      InsertStringSorted(s[0], SortStrings(s[1..]));
    }
  }

  /** Sorting distinct strings gives a strictly ascending list of the same strings. */
  lemma SortDistinctStrings(s: seq<string>)
    requires forall i, j :: 0 <= i < j < |s| ==> s[i] != s[j]
    ensures forall i, j :: 0 <= i < j < |SortStrings(s)| ==> StrLess(SortStrings(s)[i], SortStrings(s)[j])
    ensures forall x :: x in SortStrings(s) <==> x in s
  {
    var r := SortStrings(s);
    SortStringsSorted(s);
    assert forall x :: x in r <==> x in multiset(s);
    forall i, j | 0 <= i < j < |r| ensures StrLess(r[i], r[j]) {
      if r[i] == r[j] {
        DistinctMultiplicity(s, r[i]);
        TwoOccurrences(r, i, j);
      }
    }
  }

  lemma {:induction false} TwoOccurrences<T>(r: seq<T>, i: int, j: int)
    requires 0 <= i < j < |r| && r[i] == r[j]
    ensures multiset(r)[r[i]] >= 2
  {
    var t := r[..|r| - 1];
    assert r == t + [r[|r| - 1]];
    if j < |r| - 1 {
      TwoOccurrences(t, i, j);
    } else {
      assert r[i] == t[i];
      assert t[i] in multiset(t);
    }
  }

  lemma {:induction false} DistinctMultiplicity<T>(s: seq<T>, x: T)
    requires forall i, j :: 0 <= i < j < |s| ==> s[i] != s[j]
    ensures multiset(s)[x] <= 1
  {
    if |s| > 0 {
      var t := s[..|s| - 1];
      DistinctMultiplicity(t, x);
      assert s == t + [s[|s| - 1]];
      if s[|s| - 1] == x {
        assert x !in t;
      }
    }
  }
}
