/** Sequence and map idioms the source uses over and over: `Map.set` inside a
    `forEach` (the last write wins), `Array.from(new Set(xs))` (distinct values in
    order of first appearance) and order-preserving `filter`. */
module Collections {
  import opened Wrappers

  /** `m.set(k, v)` for every entry in order: a later entry overwrites an earlier one. */
  function SetAll<K(==), V>(entries: seq<(K, V)>): map<K, V> {
    if |entries| == 0 then map[]
    else
      var last := entries[|entries| - 1];
      SetAll(entries[..|entries| - 1])[last.0 := last.1]
  }

  /** The map's keys are exactly the keys of the entries. */
  lemma {:induction false} SetAllKeys<K, V>(entries: seq<(K, V)>)
    ensures SetAll(entries).Keys == set i | 0 <= i < |entries| :: entries[i].0
  {
    if |entries| > 0 {
      var init := entries[..|entries| - 1];
      assert forall i :: 0 <= i < |init| ==> init[i] == entries[i];
      SetAllKeys(init);
    }
  }

  /** The value of the last entry with key `k`, found by scanning from the end. */
  function LastFor<K(==), V>(entries: seq<(K, V)>, k: K): Option<V> {
    if |entries| == 0 then None
    else if entries[|entries| - 1].0 == k then Some(entries[|entries| - 1].1)
    else LastFor(entries[..|entries| - 1], k)
  }

  /** Building the map is the same as asking for the last entry of each key. */
  lemma {:induction false} SetAllIsLastWins<K, V>(entries: seq<(K, V)>, k: K)
    ensures k in SetAll(entries) <==> LastFor(entries, k).Some?
    ensures k in SetAll(entries) ==> SetAll(entries)[k] == LastFor(entries, k).value
  {
    if |entries| > 0 {
      SetAllIsLastWins(entries[..|entries| - 1], k);
    }
  }

  /** The last entry for a key carries a value that some entry for that key carries,
      and no later entry has that key. */
  lemma {:induction false} LastForIsLast<K, V>(entries: seq<(K, V)>, k: K)
    ensures LastFor(entries, k).Some? <==> exists i :: 0 <= i < |entries| && entries[i].0 == k
    ensures LastFor(entries, k).Some? ==>
              exists i :: 0 <= i < |entries| && entries[i] == (k, LastFor(entries, k).value)
                          && forall j :: i < j < |entries| ==> entries[j].0 != k
  {
    if |entries| > 0 {
      var init := entries[..|entries| - 1];
      LastForIsLast(init, k);
      assert forall i :: 0 <= i < |init| ==> init[i] == entries[i];
    }
  }

  /** Index of the first occurrence of `x` in `s`. */
  function IndexOf<T(==)>(s: seq<T>, x: T): (i: nat)
    requires x in s
    ensures i < |s| && s[i] == x
    ensures forall j :: 0 <= j < i ==> s[j] != x
  {
    if s[0] == x then 0 else 1 + IndexOf(s[1..], x)
  }

  /** `Array.from(new Set(s))`: each distinct value once, in order of first appearance. */
  function Dedup<T(==)>(s: seq<T>): (r: seq<T>)
    ensures forall i :: 0 <= i < |r| ==> r[i] in s
    ensures forall i :: 0 <= i < |s| ==> s[i] in r
    ensures forall i, j :: 0 <= i < j < |r| ==> r[i] != r[j]
  {
    if |s| == 0 then []
    else
      var d := Dedup(s[..|s| - 1]);
      assert forall i :: 0 <= i < |s| - 1 ==> s[..|s| - 1][i] == s[i];
      if s[|s| - 1] in d then d else d + [s[|s| - 1]]
  }

  /** The distinct values come out in the order in which they first appear. */
  lemma {:induction false} DedupFirstAppearanceOrder<T>(s: seq<T>)
    ensures forall i, j :: 0 <= i < j < |Dedup(s)| ==> IndexOf(s, Dedup(s)[i]) < IndexOf(s, Dedup(s)[j])
  {
    if |s| > 0 {
      var init := s[..|s| - 1];
      DedupFirstAppearanceOrder(init);
      var d := Dedup(init);
      forall x | x in init
        ensures IndexOf(s, x) == IndexOf(init, x)
      {
        IndexOfPrefix(init, s, x);
      }
      if s[|s| - 1] !in d {
        var last := s[|s| - 1];
        assert last !in init;
        assert IndexOf(s, last) == |s| - 1;
        assert Dedup(s) == d + [last];
        forall i, j | 0 <= i < j < |Dedup(s)|
          ensures IndexOf(s, Dedup(s)[i]) < IndexOf(s, Dedup(s)[j])
        {
          assert Dedup(s)[i] == d[i] && d[i] in init;
          if j < |d| {
            assert Dedup(s)[j] == d[j] && d[j] in init;
          }
        }
      }
    }
  }

  /** The first distinct value is the first value. */
  lemma {:induction false} DedupHead<T>(s: seq<T>)
    requires |s| > 0
    ensures |Dedup(s)| > 0 && Dedup(s)[0] == s[0]
  {
    if |s| > 1 {
      var init := s[..|s| - 1];
      DedupHead(init);
      assert init[0] == s[0];
    }
  }

  lemma {:induction false} IndexOfPrefix<T>(p: seq<T>, s: seq<T>, x: T)
    requires x in p && p <= s
    ensures IndexOf(s, x) == IndexOf(p, x)
  {
    if p[0] != x {
      assert p[1..] <= s[1..];
      IndexOfPrefix(p[1..], s[1..], x);
    }
  }

  /** `a` is `b` with some elements removed, order kept. */
  ghost predicate IsSubsequence<T>(a: seq<T>, b: seq<T>) {
    if |a| == 0 then true
    else if |b| == 0 then false
    else if a[|a| - 1] == b[|b| - 1] then IsSubsequence(a[..|a| - 1], b[..|b| - 1])
    else IsSubsequence(a, b[..|b| - 1])
  }

  lemma {:induction false} IsSubsequenceReflexive<T>(a: seq<T>)
    ensures IsSubsequence(a, a)
  {
    if |a| > 0 {
      IsSubsequenceReflexive(a[..|a| - 1]);
    }
  }

  /** `s.filter(p)`: the elements of `s` that satisfy `p`, each as often as it occurs
      in `s`, in their order in `s`. */
  function Filter<T(!new)>(s: seq<T>, p: T -> bool): (r: seq<T>)
    ensures IsSubsequence(r, s)
    ensures forall y :: multiset(r)[y] == if p(y) then multiset(s)[y] else 0
    ensures forall y :: y in r <==> y in s && p(y)
    ensures |r| <= |s|
  {
    if |s| == 0 then []
    else
      var init := s[..|s| - 1];
      var x := s[|s| - 1];
      var kept := Filter(init, p);
      assert s == init + [x];
      if p(x) then
        SubsequenceKeep(kept, init, x);
        kept + [x]
      else
        assert x !in kept;
        SubsequenceSkip(kept, init, x);
        kept
  }

  /** Keeping the element appended to `b` keeps the subsequence relation. */
  lemma SubsequenceKeep<T>(a: seq<T>, b: seq<T>, x: T)
    requires IsSubsequence(a, b)
    ensures IsSubsequence(a + [x], b + [x])
  {
    assert (a + [x])[..|a|] == a;
    assert (b + [x])[..|b|] == b;
  }

  /** Dropping the element appended to `b` keeps it too, when `a` does not hold it. */
  lemma SubsequenceSkip<T>(a: seq<T>, b: seq<T>, x: T)
    requires IsSubsequence(a, b) && x !in a
    ensures IsSubsequence(a, b + [x])
  {
    assert (b + [x])[..|b|] == b;
    if |a| > 0 {
      assert a[|a| - 1] != x;
    }
  }
}
