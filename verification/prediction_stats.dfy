/** The statistics of lib/prediction.ts: the outlier filter, the least-squares fit
    and the per-slot baseline. A training point is a pair (week offset, reading);
    keeping the pairs together keeps the source's parallel `xs`/`ys` arrays the
    same length by construction.

    The outlier test `|y - mean| / sd <= 1.5` is stated exactly in integers: with
    n readings summing to S, mean = S/n and the population variance is
    Scatter/n^3 where Scatter = sum of (n*y_i - S)^2, so for n > 0 the test is
    4 * n * (n*y - S)^2 <= 9 * Scatter, and when the variance is zero (the
    `|| 1` fallback, sd = 1) it is |n*y - S| <= 1.5 * n. */
module PredictionStats {
  import opened Numeric
  import opened Collections
  import opened Wrappers

  type TrainingPoint = (int, int)

  function Ys(pts: seq<TrainingPoint>): (ys: seq<int>)
    ensures |ys| == |pts| && forall i :: 0 <= i < |pts| ==> ys[i] == pts[i].1
  {
    if |pts| == 0 then [] else Ys(pts[..|pts| - 1]) + [pts[|pts| - 1].1]
  }

  function Xs(pts: seq<TrainingPoint>): (xs: seq<int>)
    ensures |xs| == |pts| && forall i :: 0 <= i < |pts| ==> xs[i] == pts[i].0
  {
    if |pts| == 0 then [] else Xs(pts[..|pts| - 1]) + [pts[|pts| - 1].0]
  }

  function Sqr(x: int): (r: nat)
    ensures x != 0 ==> r > 0
  {
    x * x
  }

  /** n times a reading minus the total: n times its deviation from the mean. */
  function Dev(y: int, n: int, total: int): int {
    n * y - total
  }

  /** Sum of the squared scaled deviations of `ys` about the mean total/n. */
  function Scatter(ys: seq<int>, n: int, total: int): (r: nat) {
    if |ys| == 0 then 0 else Scatter(ys[..|ys| - 1], n, total) + Sqr(Dev(ys[|ys| - 1], n, total))
  }

  /** `Math.abs(y - mean) / sd <= OUTLIER_Z_THRESHOLD` for the readings `ys`. */
  predicate WithinBand(y: int, ys: seq<int>) {
    var n, total := |ys|, Sum(ys);
    var scatter := Scatter(ys, n, total);
    if scatter == 0 then -3 * n <= 2 * Dev(y, n, total) <= 3 * n
    else 4 * n * Sqr(Dev(y, n, total)) <= 9 * scatter
  }

  /** The points whose reading lies within the band of `ys`: every such point as
      often as it occurs, and in input order. */
  function KeepInBand(pts: seq<TrainingPoint>, ys: seq<int>): (r: seq<TrainingPoint>)
    ensures IsSubsequence(r, pts)
    ensures forall p :: multiset(r)[p] == if WithinBand(p.1, ys) then multiset(pts)[p] else 0
    ensures forall i :: 0 <= i < |r| ==> WithinBand(r[i].1, ys)
    ensures forall i :: 0 <= i < |pts| && WithinBand(pts[i].1, ys) ==> pts[i] in r
  {
    Filter(pts, (p: TrainingPoint) => WithinBand(p.1, ys))
  }

  /** `filterOutliers`: fewer than three readings are returned unchanged; otherwise
      exactly the points within 1.5 population standard deviations of the mean are
      kept, each as often as it occurs, in their original order. */
  function FilterOutliers(pts: seq<TrainingPoint>): (r: seq<TrainingPoint>)
    ensures |pts| < 3 ==> r == pts
    ensures IsSubsequence(r, pts)
    ensures |pts| >= 3 ==> forall p :: multiset(r)[p] == if WithinBand(p.1, Ys(pts)) then multiset(pts)[p] else 0
    ensures |pts| >= 3 ==> forall i :: 0 <= i < |r| ==> WithinBand(r[i].1, Ys(pts))
    ensures |pts| >= 3 ==> forall i :: 0 <= i < |pts| && WithinBand(pts[i].1, Ys(pts)) ==> pts[i] in r
  {
    if |pts| < 3 then IsSubsequenceReflexive(pts); pts
    else KeepInBand(pts, Ys(pts))
  }

  lemma {:induction false} ScatterAbove(ys: seq<int>, n: int, total: int, bound: int)
    requires n > 0
    requires forall i :: 0 <= i < |ys| ==> n * Sqr(Dev(ys[i], n, total)) > bound
    ensures n * Scatter(ys, n, total) >= |ys| * bound + (if |ys| > 0 then 1 else 0)
  {
    if |ys| > 0 {
      var init := ys[..|ys| - 1];
      assert forall i :: 0 <= i < |init| ==> init[i] == ys[i];
      ScatterAbove(init, n, total, bound);
      var s0 := Scatter(init, n, total);
      var q := Sqr(Dev(ys[|ys| - 1], n, total));
      assert n * q > bound;
      assert n * s0 >= |init| * bound;
      Distribute(n, s0, q);
      Distribute(bound, |init|, 1);
    }
  }

  /** Some reading is always within one standard deviation of the mean. */
  lemma SomeReadingNearMean(ys: seq<int>) returns (k: int)
    requires |ys| > 0
    ensures 0 <= k < |ys|
    ensures |ys| * Sqr(Dev(ys[k], |ys|, Sum(ys))) <= Scatter(ys, |ys|, Sum(ys))
  {
    var n, total := |ys|, Sum(ys);
    var scatter := Scatter(ys, n, total);
    if forall i :: 0 <= i < n ==> n * Sqr(Dev(ys[i], n, total)) > scatter {
      ScatterAbove(ys, n, total, scatter);
      assert false;
    }
    k :| 0 <= k < n && n * Sqr(Dev(ys[k], n, total)) <= scatter;
  }

  /** With at least one reading the filter never removes every point. */
  lemma FilterOutliersKeepsSome(pts: seq<TrainingPoint>)
    requires |pts| > 0
    ensures |FilterOutliers(pts)| > 0
  {
    if |pts| >= 3 {
      var ys := Ys(pts);
      var n, total := |ys|, Sum(ys);
      var k := SomeReadingNearMean(ys);
      var d := Dev(ys[k], n, total);
      if Scatter(ys, n, total) == 0 {
        assert Sqr(d) == 0;
        assert d == 0;
      }
      assert WithinBand(pts[k].1, ys);
      assert pts[k] in FilterOutliers(pts);
    }
  }

  lemma {:induction false} ZeroScatterMeansNoDeviation(ys: seq<int>, n: int, total: int, i: int)
    requires Scatter(ys, n, total) == 0 && 0 <= i < |ys|
    ensures Dev(ys[i], n, total) == 0
  {
    var init := ys[..|ys| - 1];
    if i == |ys| - 1 {
      assert Sqr(Dev(ys[i], n, total)) == 0;
    } else {
      assert init[i] == ys[i];
      ZeroScatterMeansNoDeviation(init, n, total, i);
    }
  }

  /** Replacing a zero standard deviation by 1 is harmless: every reading then equals
      the mean, and the filter keeps every point. */
  lemma ZeroVarianceKeepsAll(pts: seq<TrainingPoint>)
    requires |pts| >= 3 && Scatter(Ys(pts), |pts|, Sum(Ys(pts))) == 0
    ensures FilterOutliers(pts) == pts
  {
    var ys := Ys(pts);
    forall i | 0 <= i < |pts| ensures WithinBand(pts[i].1, ys) {
      ZeroScatterMeansNoDeviation(ys, |pts|, Sum(ys), i);
    }
    KeepAllInBand(pts, ys);
  }

  lemma {:induction false} KeepAllInBand(pts: seq<TrainingPoint>, ys: seq<int>)
    requires forall i :: 0 <= i < |pts| ==> WithinBand(pts[i].1, ys)
    ensures KeepInBand(pts, ys) == pts
  {
    if |pts| > 0 {
      var init := pts[..|pts| - 1];
      KeepAllInBand(init, ys);
      assert init + [pts[|pts| - 1]] == pts;
    }
  }

  // ---- linearRegression --------------------------------------------------

  /** A fitted line `y = intercept + slope * x`. */
  datatype Line = Line(intercept: real, slope: real)

  function SumXY(pts: seq<TrainingPoint>): int {
    if |pts| == 0 then 0 else SumXY(pts[..|pts| - 1]) + pts[|pts| - 1].0 * pts[|pts| - 1].1
  }

  function SumXX(pts: seq<TrainingPoint>): int {
    if |pts| == 0 then 0 else SumXX(pts[..|pts| - 1]) + pts[|pts| - 1].0 * pts[|pts| - 1].0
  }

  /** `n * sumXX - sumX * sumX`. */
  function Denominator(pts: seq<TrainingPoint>): int {
    Det(|pts|, Sum(Xs(pts)), SumXX(pts))
  }

  function Det(n: int, sx: int, sxx: int): int {
    n * sxx - sx * sx
  }

  /** The least-squares normal equations of a line through `pts`. */
  predicate SolvesNormalEquations(pts: seq<TrainingPoint>, l: Line) {
    NormalEquationsHold(|pts|, Sum(Xs(pts)), Sum(Ys(pts)), SumXY(pts), SumXX(pts), l)
  }

  /** The normal equations in terms of the point count and the four sums. */
  predicate NormalEquationsHold(n: int, sx: int, sy: int, sxy: int, sxx: int, l: Line) {
    n as real * l.intercept + sx as real * l.slope == sy as real
    && sx as real * l.intercept + sxx as real * l.slope == sxy as real
  }

  /** `linearRegression`: no line for fewer than two points or when every offset is
      the same (a zero denominator); otherwise the least-squares line. */
  function LinearRegression(pts: seq<TrainingPoint>): (r: Option<Line>)
    ensures r.None? <==> |pts| < 2 || Denominator(pts) == 0
    ensures r.Some? ==> SolvesNormalEquations(pts, r.value)
  {
    if |pts| < 2 || Denominator(pts) == 0 then None
    else
      var l := FitFromSums(|pts|, Sum(Xs(pts)), Sum(Ys(pts)), SumXY(pts), SumXX(pts));
      Some(l)
  }

  /** The source's closed form: the slope first, then the intercept from it. */
  function FitFromSums(n: int, sx: int, sy: int, sxy: int, sxx: int): (l: Line)
    requires n > 0 && Det(n, sx, sxx) != 0
    ensures NormalEquationsHold(n, sx, sy, sxy, sxx, l)
  {
    var slope := (n * sxy - sx * sy) as real / Det(n, sx, sxx) as real;
    var intercept := (sy as real - slope * sx as real) / n as real;
    NormalEquations(n, sx, sy, sxy, sxx, slope, intercept);
    Line(intercept, slope)
  }

  lemma NormalEquations(n: int, sx: int, sy: int, sxy: int, sxx: int, slope: real, intercept: real)
    requires n > 0 && n * sxx - sx * sx != 0
    requires slope == (n * sxy - sx * sy) as real / (n * sxx - sx * sx) as real
    requires intercept == (sy as real - slope * sx as real) / n as real
    ensures n as real * intercept + sx as real * slope == sy as real
    ensures sx as real * intercept + sxx as real * slope == sxy as real
  {
    var den := (n * sxx - sx * sx) as real;
    var num := (n * sxy - sx * sy) as real;
    assert slope * den == num;
    assert n as real * intercept == sy as real - slope * sx as real;
    calc {
      n as real * (sx as real * intercept + sxx as real * slope);
      sx as real * (n as real * intercept) + n as real * sxx as real * slope;
      sx as real * (sy as real - slope * sx as real) + n as real * sxx as real * slope;
      sx as real * sy as real + slope * den;
      sx as real * sy as real + num;
      n as real * sxy as real;
    }
  }

  // ---- per-slot baseline -------------------------------------------------

  function Mean(ys: seq<int>): real
    requires |ys| > 0
  {
    Sum(ys) as real / |ys| as real
  }

  /** The baseline of one slot from its filtered training points: the regression
      intercept (the value at week offset 0) capped at the largest reading and at
      100, or the mean capped at 100 when no line can be fitted, or 0 without data.
      Nothing bounds it below. */
  function Baseline(f: seq<TrainingPoint>): (r: int)
    ensures r <= 100
    ensures r <= MaxOf(Ys(f), 0)
    ensures |f| == 0 ==> r == 0
  {
    var ys := Ys(f);
    var lr := LinearRegression(f);
    if lr.Some? then
      var x := MinReal(MinReal(lr.value.intercept, MaxOf(ys, 0) as real), 100.0);
      RoundOfInt(MaxOf(ys, 0));
      RoundOfInt(100);
      RoundMonotone(x, MaxOf(ys, 0) as real);
      RoundMonotone(x, 100.0);
      Round(x)
    else if |f| > 0 then
      var x := MinReal(Mean(ys), 100.0);
      MeanAtMostMax(ys);
      RoundOfInt(MaxOf(ys, 0));
      RoundOfInt(100);
      RoundMonotone(x, MaxOf(ys, 0) as real);
      RoundMonotone(x, 100.0);
      Round(x)
    else 0
  }

  lemma MeanAtMostMax(ys: seq<int>)
    requires |ys| > 0
    ensures Mean(ys) <= MaxOf(ys, 0) as real
  {
    SumAtMost(ys, MaxOf(ys, 0));
    DivAtMost(Sum(ys), |ys|, MaxOf(ys, 0));
  }

  /** A history that read the same level `v` every time predicts that level
      (capped at 100), whether or not a line can be fitted. */
  lemma FlatHistoryPredictsLevel(f: seq<TrainingPoint>, v: int)
    requires |f| > 0 && v >= 0
    requires forall i :: 0 <= i < |f| ==> f[i].1 == v
    ensures Baseline(f) == Min(v, 100)
  {
    var ys := Ys(f);
    FlatSums(f, v);
    FlatMax(ys, v);
    var lr := LinearRegression(f);
    RoundOfInt(Min(v, 100));
    if lr.Some? {
      FlatLineIsLevel(|f|, Sum(Xs(f)), SumXX(f), v, lr.value);
    } else {
      FlatMean(ys, v);
    }
  }

  lemma FlatMax(ys: seq<int>, v: int)
    requires |ys| > 0 && v >= 0
    requires forall i :: 0 <= i < |ys| ==> ys[i] == v
    ensures MaxOf(ys, 0) == v
  {
    assert ys[0] <= MaxOf(ys, 0);
  }

  lemma FlatMean(ys: seq<int>, v: int)
    requires |ys| > 0 && Sum(ys) == |ys| * v
    ensures Mean(ys) == v as real
  {
    assert Sum(ys) as real == |ys| as real * v as real;
  }

  lemma {:induction false} FlatSums(f: seq<TrainingPoint>, v: int)
    requires forall i :: 0 <= i < |f| ==> f[i].1 == v
    ensures Sum(Ys(f)) == |f| * v
    ensures SumXY(f) == v * Sum(Xs(f))
  {
    FlatSumY(f, v);
    FlatSumXY(f, v);
  }

  lemma {:induction false} FlatSumY(f: seq<TrainingPoint>, v: int)
    requires forall i :: 0 <= i < |f| ==> f[i].1 == v
    ensures Sum(Ys(f)) == |f| * v
  {
    if |f| > 0 {
      var init := f[..|f| - 1];
      assert forall i :: 0 <= i < |init| ==> init[i] == f[i];
      FlatSumY(init, v);
      assert Ys(f) == Ys(init) + [v];
      SumAppend(Ys(init), v);
      Distribute(v, |init|, 1);
    }
  }

  lemma {:induction false} FlatSumXY(f: seq<TrainingPoint>, v: int)
    requires forall i :: 0 <= i < |f| ==> f[i].1 == v
    ensures SumXY(f) == v * Sum(Xs(f))
  {
    if |f| > 0 {
      var init := f[..|f| - 1];
      var x := f[|f| - 1].0;
      assert forall i :: 0 <= i < |init| ==> init[i] == f[i];
      FlatSumXY(init, v);
      assert SumXY(f) == SumXY(init) + x * v;
      assert Xs(f) == Xs(init) + [x];
      SumAppend(Xs(init), x);
      Distribute(v, Sum(Xs(init)), x);
    }
  }

  /** With a non-zero determinant the normal equations of flat data `y = v` have the
      single solution intercept v, slope 0. */
  lemma FlatLineIsLevel(n: int, sx: int, sxx: int, v: int, l: Line)
    requires n > 0 && Det(n, sx, sxx) != 0
    requires NormalEquationsHold(n, sx, n * v, v * sx, sxx, l)
    ensures l.intercept == v as real && l.slope == 0.0
  {
    var a, b := l.intercept - v as real, l.slope;
    assert n as real * a + sx as real * b == 0.0;
    assert sx as real * a + sxx as real * b == 0.0;
    var det := Det(n, sx, sxx) as real;
    assert det * b == n as real * (sx as real * a + sxx as real * b) - sx as real * (n as real * a + sx as real * b);
    assert det * b == 0.0;
    assert b == 0.0;
    assert n as real * a == 0.0;
  }

  /** Nothing clamps the baseline at zero: a reading of 1 one week back and 50 two
      weeks back extrapolates to -48 for this week. */
  lemma FallingTrendGivesNegativeBaseline()
    ensures Baseline([(1, 1), (2, 50)]) == -48
  {
    var f := [(1, 1), (2, 50)];
    assert Xs(f) == [1, 2] && Ys(f) == [1, 50];
    assert Sum([1, 2]) == 3 && Sum([1, 50]) == 51;
    assert SumXY(f) == 101 && SumXX(f) == 5;
    assert Denominator(f) == 1;
    var l := LinearRegression(f).value;
    assert l == FitFromSums(2, 3, 51, 101, 5);
    assert l.slope == 49.0;
    assert l.intercept == -48.0;
    assert MaxOf(Ys(f), 0) == 50;
    RoundOfInt(-48);
  }
}
