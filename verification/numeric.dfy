/** Exact arithmetic helpers standing in for the JavaScript number operations
    the source uses (`Math.round`, `Math.min`/`Math.max`, `%`). */
module Numeric {

  /** `Math.round`: rounds half-way cases towards +infinity. */
  function Round(x: real): (r: int)
    ensures r as real - 0.5 <= x < r as real + 0.5
  {
    (x + 0.5).Floor
  }

  lemma RoundOfInt(n: int)
    ensures Round(n as real) == n
  {}

  /** Rounding never leaves an integer bound the argument respects. */
  lemma RoundBelow(x: real, bound: int)
    requires x <= bound as real
    ensures Round(x) <= bound
  {}

  lemma RoundAbove(x: real, bound: int)
    requires bound as real <= x
    ensures bound <= Round(x)
  {}

  lemma RoundMonotone(x: real, y: real)
    requires x <= y
    ensures Round(x) <= Round(y)
  {}

  /** JavaScript's `%` on integers: the remainder takes the sign of the dividend. */
  function JsRem(a: int, b: int): (r: int)
    requires b > 0
    ensures -b < r < b
    ensures a >= 0 ==> r >= 0 && r == a % b
    ensures a < 0 ==> r <= 0
    ensures a < 0 ==> r == a + b * ((-a) / b)
  {
    if a >= 0 then a % b else -((-a) % b)
  }

  function Min(a: int, b: int): int { if a <= b then a else b }
  function Max(a: int, b: int): int { if a >= b then a else b }
  function MinReal(a: real, b: real): real { if a <= b then a else b }
  function MaxReal(a: real, b: real): real { if a >= b then a else b }

  /** `Math.min(Math.max(x, lo), hi)`. */
  function Clamp(x: int, lo: int, hi: int): (r: int)
    requires lo <= hi
    ensures lo <= r <= hi
    ensures lo <= x <= hi ==> r == x
  {
    Min(Max(x, lo), hi)
  }

  function Sum(s: seq<int>): int {
    if |s| == 0 then 0 else Sum(s[..|s| - 1]) + s[|s| - 1]
  }

  function SumReal(s: seq<real>): real {
    if |s| == 0 then 0.0 else SumReal(s[..|s| - 1]) + s[|s| - 1]
  }

  lemma SumAppend(s: seq<int>, x: int)
    ensures Sum(s + [x]) == Sum(s) + x
  {
    assert (s + [x])[..|s|] == s;
  }

  lemma SumRealAppend(s: seq<real>, x: real)
    ensures SumReal(s + [x]) == SumReal(s) + x
  {
    assert (s + [x])[..|s|] == s;
  }

  /** The largest element, or `floor` when every element is below it
      (`Math.max(...s, floor)`). */
  function MaxOf(s: seq<int>, floor: int): (r: int)
    ensures r >= floor
    ensures forall i :: 0 <= i < |s| ==> s[i] <= r
    ensures r == floor || exists i :: 0 <= i < |s| && s[i] == r
  {
    if |s| == 0 then floor else Max(MaxOf(s[..|s| - 1], floor), s[|s| - 1])
  }

  lemma Distribute(a: int, b: int, c: int)
    ensures a * (b + c) == a * b + a * c
    ensures (b + c) * a == b * a + c * a
  {
  }

  lemma DivAtMost(a: int, n: int, m: int)
    requires n > 0 && a <= n * m
    ensures a as real / n as real <= m as real
  {
    assert a as real <= n as real * m as real;
  }

  lemma {:induction false} SumAtMost(ys: seq<int>, m: int)
    requires forall i :: 0 <= i < |ys| ==> ys[i] <= m
    ensures Sum(ys) <= |ys| * m
  {
    if |ys| > 0 {
      var init := ys[..|ys| - 1];
      assert forall i :: 0 <= i < |init| ==> init[i] == ys[i];
      SumAtMost(init, m);
      Distribute(m, |init|, 1);
    }
  }

  lemma DivAtLeast(a: int, n: int, m: int)
    requires n > 0 && n * m <= a
    ensures m as real <= a as real / n as real
  {
    assert n as real * m as real <= a as real;
  }

  lemma {:induction false} SumAtLeast(ys: seq<int>, m: int)
    requires forall i :: 0 <= i < |ys| ==> m <= ys[i]
    ensures |ys| * m <= Sum(ys)
  {
    if |ys| > 0 {
      var init := ys[..|ys| - 1];
      assert forall i :: 0 <= i < |init| ==> init[i] == ys[i];
      SumAtLeast(init, m);
      Distribute(m, |init|, 1);
    }
  }
}
