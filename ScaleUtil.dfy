/**
 * Progress arithmetic of the partial-line animation: splitting one progress
 * value into sub-progress values, and choosing the signed per-tick increment.
 * Numbers are exact reals; `Math.floor` is `.Floor`. The source's numeric
 * constants are written as literals where they enter arithmetic: `scGap` is
 * 0.05, `scDiv` is 0.51 and `lines` is 4.
 */
module ScaleUtil {

  /** Number of nodes in the chain (`nodes`). */
  const Nodes: nat := 5

  function Max(x: real, y: real): real { if x >= y then x else y }

  function Min(x: real, y: real): real { if x <= y then x else y }

  function Abs(x: real): real { if x >= 0.0 then x else -x }

  /** 0 or 1 clamp of `x`: the reference shape of a sub-progress value. */
  function Clamp01(x: real): real { if x <= 0.0 then 0.0 else if x >= 1.0 then 1.0 else x }

  /**
   * How far progress `scale` has gone past the start `i / n` of sub-step `i`
   * of `n`: zero up to that start, the distance past it afterwards.
   */
  function MaxScale(scale: real, i: real, n: real): (r: real)
    requires n != 0.0
    ensures r >= 0.0
    ensures r == 0.0 <==> scale <= i / n
    ensures r > 0.0 ==> r == scale - i / n
  {
    Max(0.0, scale - i / n)
  }

  /**
   * Sub-progress of sub-step `i` of `n` equal sub-steps. For a positive count
   * it always lies in [0, 1]; a negative count always gives 1.
   */
  function DivideScale(scale: real, i: real, n: real): (r: real)
    requires n != 0.0
    ensures n > 0.0 ==> 0.0 <= r <= 1.0
    ensures n < 0.0 ==> r == 1.0
  {
    Min(1.0 / n, MaxScale(scale, i, n)) * n
  }

  /**
   * For a positive count, sub-step `i` is the clamped linear ramp
   * `n * scale - i`: empty before `i / n`, full from `(i + 1) / n` on.
   */
  lemma DivideScaleIsClamp(scale: real, i: real, n: real)
    requires n > 0.0
    ensures DivideScale(scale, i, n) == Clamp01(n * scale - i)
    ensures DivideScale(scale, i, n) == 0.0 <==> scale <= i / n
    ensures DivideScale(scale, i, n) == 1.0 <==> scale >= (i + 1.0) / n
  {
    var d := scale - i / n;
    assert n * d == n * scale - i by {
      assert n * (i / n) == i;
    }
    assert d <= 1.0 / n <==> n * d <= 1.0 by {
      assert n * (1.0 / n) == 1.0;
    }
    assert 1.0 / n * n == 1.0;
    assert scale <= i / n <==> n * scale - i <= 0.0;
    assert scale >= (i + 1.0) / n <==> n * scale - i >= 1.0 by {
      assert n * ((i + 1.0) / n) == i + 1.0;
    }
  }

  /**
   * Phase of a progress value: `floor(scale / scDiv)`. On the range a node's
   * progress actually takes, [0, 1], it is 0 below `scDiv` and 1 from there on;
   * from 1.02 on it exceeds 1.
   */
  function ScaleFactor(scale: real): (r: int)
    ensures scale >= 0.0 ==> r >= 0
    ensures 0.0 <= scale <= 1.0 ==> (r == 0 <==> scale < 0.51)
    ensures 0.0 <= scale <= 1.0 ==> (r == 1 <==> scale >= 0.51)
  {
    (scale / 0.51).Floor  // scDiv
  }

  /** Rate blended by phase: `1 / a` in phase 0 and `1 / b` in phase 1. */
  function MirrorValue(scale: real, a: real, b: real): (r: real)
    requires a != 0.0 && b != 0.0
    ensures ScaleFactor(scale) == 0 ==> r == 1.0 / a
    ensures ScaleFactor(scale) == 1 ==> r == 1.0 / b
  {
    var k := ScaleFactor(scale) as real;
    (1.0 - k) / a + k / b
  }

  /** The signed per-tick increment; no movement at all when `dir` is 0. */
  function UpdateValue(scale: real, dir: real, a: real, b: real): (r: real)
    requires a != 0.0 && b != 0.0
    ensures dir == 0.0 ==> r == 0.0
  {
    MirrorValue(scale, a, b) * dir * 0.05  // scGap
  }

  /** With the node's rates (a = `lines` = 4, b = 1), a non-negative progress never blends below 1/4. */
  lemma MirrorAtLeastQuarter(scale: real)
    requires scale >= 0.0
    ensures MirrorValue(scale, 4.0, 1.0) >= 0.25
  {
    var k := ScaleFactor(scale) as real;
    assert k >= 0.0;
    assert (1.0 - k) / 4.0 + k / 1.0 == 0.25 + 0.75 * k;
  }

  /**
   * A node's step has the sign of `dir` and magnitude at least `scGap / lines`
   * (0.0125) for non-negative progress; on [0, 1] it is at most `scGap` (0.05).
   */
  lemma StepBounds(scale: real, dir: real)
    requires scale >= 0.0
    ensures dir > 0.0 ==> UpdateValue(scale, dir, 4.0, 1.0) >= 0.0125 * dir
    ensures dir < 0.0 ==> UpdateValue(scale, dir, 4.0, 1.0) <= 0.0125 * dir
    ensures scale <= 1.0 && (dir == 1.0 || dir == -1.0) ==>
              Abs(UpdateValue(scale, dir, 4.0, 1.0)) <= 0.05
  {
    var m := MirrorValue(scale, 4.0, 1.0);
    MirrorAtLeastQuarter(scale);
    assert UpdateValue(scale, dir, 4.0, 1.0) == m * dir * 0.05;
    if dir > 0.0 {
      assert m * dir >= 0.25 * dir;
    } else if dir < 0.0 {
      assert m * dir <= 0.25 * dir;
    }
    if scale <= 1.0 {
      assert m <= 1.0;
    }
  }
}
