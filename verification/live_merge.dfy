/** hooks/use-occupancy.tsx `mergeData`: the live series and the prediction series of
    one day in one object, each prediction key suffixed with "-pred". */
module LiveMerge {
  import opened Occupancy

  function PredKey(lib: string): string {
    lib + "-pred"
  }

  lemma PredKeyInjective(a: string, b: string)
    ensures PredKey(a) == PredKey(b) ==> a == b
  {
    if PredKey(a) == PredKey(b) {
      assert a == PredKey(a)[..|a|];
    }
  }

  function PredEntries(pred: map<string, seq<DayPoint>>): (m: map<string, seq<DayPoint>>)
    ensures forall k :: k in pred <==> PredKey(k) in m
    ensures forall k :: k in pred ==> m[PredKey(k)] == pred[k]
    ensures forall x :: x in m ==> exists k :: k in pred && x == PredKey(k)
  {
    forall a, b ensures PredKey(a) == PredKey(b) ==> a == b {
      PredKeyInjective(a, b);
    }
    map k | k in pred :: PredKey(k) := pred[k]
  }

  /** The live entries first, then the prediction entries, a later write winning. */
  function MergeLive(live: DailyOccupancy, pred: DailyOccupancy): (r: DailyOccupancy)
    ensures r.date == live.date
  {
    DailyOccupancy(live.date, live.occupancy + PredEntries(pred.occupancy))
  }

  /** Every live key keeps its points unless a prediction key overwrites it; every
      prediction key is there with "-pred" and its points; there are no other keys. */
  lemma MergedKeys(live: DailyOccupancy, pred: DailyOccupancy, x: string)
    ensures var m := MergeLive(live, pred).occupancy;
            ((x in live.occupancy && !(exists k :: k in pred.occupancy && x == PredKey(k))) ==>
               x in m && m[x] == live.occupancy[x])
            && (x in pred.occupancy ==> PredKey(x) in m && m[PredKey(x)] == pred.occupancy[x])
            && (x in m ==> x in live.occupancy || exists k :: k in pred.occupancy && x == PredKey(k))
  {
    var p := PredEntries(pred.occupancy);
    if x in live.occupancy && !(exists k :: k in pred.occupancy && x == PredKey(k)) {
      assert x !in p;
    }
  }

  /** So the merged object has at most as many keys as both inputs together. */
  lemma MergedSize(live: DailyOccupancy, pred: DailyOccupancy)
    ensures |MergeLive(live, pred).occupancy.Keys| <= |live.occupancy.Keys| + |pred.occupancy.Keys|
  {
    var p := PredEntries(pred.occupancy);
    PredKeysSize(pred.occupancy);
    assert MergeLive(live, pred).occupancy.Keys == live.occupancy.Keys + p.Keys;
    UnionSize(live.occupancy.Keys, p.Keys);
  }

  lemma PredKeysSize(pred: map<string, seq<DayPoint>>)
    ensures |PredEntries(pred).Keys| == |pred.Keys|
  {
    var p := PredEntries(pred);
    var f := (k: string) => PredKey(k);
    assert p.Keys == set k | k in pred.Keys :: f(k);
    forall a, b ensures f(a) == f(b) ==> a == b {
      PredKeyInjective(a, b);
    }
    ImageSize(pred.Keys, f);
  }

  lemma {:induction false} ImageSize(s: set<string>, f: string -> string)
    requires forall a, b :: f(a) == f(b) ==> a == b
    ensures |set k | k in s :: f(k)| == |s|
    decreases |s|
  {
    if |s| > 0 {
      var x :| x in s;
      var rest := s - {x};
      ImageSize(rest, f);
      assert (set k | k in s :: f(k)) == (set k | k in rest :: f(k)) + {f(x)};
      assert f(x) !in (set k | k in rest :: f(k));
    } else {
      assert (set k | k in s :: f(k)) == {};
    }
  }

  lemma {:induction false} UnionSize(a: set<string>, b: set<string>)
    ensures |a + b| <= |a| + |b|
    decreases |b|
  {
    if |b| > 0 {
      var x :| x in b;
      UnionSize(a, b - {x});
      assert a + b == (a + (b - {x})) + {x};
    } else {
      assert a + b == a;
    }
  }
}
