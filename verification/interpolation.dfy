/**
 The call-site behaviour of the animation library's two-point `interpolate`,
 stated as an assumed exact-rational function: linear through
 `(x0, y0)` and `(x1, y1)`, with each side either clamped to the end value
 or extended along the same line (the library's default is to extend). The
 easing is the identity (linear) at every call site modelled here.
 */
module Interpolation {

  datatype Extrapolate = Extend | Clamp

  /** The straight line through `(x0, y0)` and `(x1, y1)`. */
  function Line(x: real, x0: real, x1: real, y0: real, y1: real): real
    requires x0 < x1
  {
    y0 + (x - x0) * (y1 - y0) / (x1 - x0)
  }

  function Interpolate(x: real, x0: real, x1: real, y0: real, y1: real, left: Extrapolate, right: Extrapolate): (r: real)
    requires x0 < x1
    ensures x == x0 ==> r == y0
    ensures x == x1 ==> r == y1
    ensures x < x0 && left == Clamp ==> r == y0
    ensures x > x1 && right == Clamp ==> r == y1
  {
    if x < x0 && left == Clamp then y0
    else if x > x1 && right == Clamp then y1
    else Line(x, x0, x1, y0, y1)
  }

  /** `v` pushed into `[0, 1]`. */
  function Clamp01(v: real): (r: real)
    ensures 0.0 <= r <= 1.0
    ensures 0.0 <= v <= 1.0 ==> r == v
    ensures v < 0.0 ==> r == 0.0
    ensures v > 1.0 ==> r == 1.0
  {
    if v < 0.0 then 0.0 else if v > 1.0 then 1.0 else v
  }

  /** A 0-to-1 curve clamped on both sides is `clamp01((x - x0) / (x1 - x0))`. */
  lemma ClampedUnitIsClamp01(x: real, x0: real, x1: real)
    requires x0 < x1
    ensures Interpolate(x, x0, x1, 0.0, 1.0, Clamp, Clamp) == Clamp01((x - x0) / (x1 - x0))
  {
    var t := (x - x0) / (x1 - x0);
    if x < x0 {
      DivSign(x - x0, x1 - x0);
    } else if x > x1 {
      DivAboveOne(x - x0, x1 - x0);
    } else {
      DivSign(x - x0, x1 - x0);
      DivAtMostOne(x - x0, x1 - x0);
      assert Line(x, x0, x1, 0.0, 1.0) == t;
    }
  }

  /** A rising curve never falls, whatever the extrapolation policies. */
  lemma InterpolateMonotone(x: real, x': real, x0: real, x1: real, y0: real, y1: real, left: Extrapolate, right: Extrapolate)
    requires x0 < x1 && y0 <= y1
    requires x <= x'
    ensures Interpolate(x, x0, x1, y0, y1, left, right) <= Interpolate(x', x0, x1, y0, y1, left, right)
  {
    // Each value lies on the line at a clamped position; the positions keep their order.
    var p := if x < x0 && left == Clamp then x0 else if x > x1 && right == Clamp then x1 else x;
    var p' := if x' < x0 && left == Clamp then x0 else if x' > x1 && right == Clamp then x1 else x';
    assert p <= p';
    LineEnds(x0, x1, y0, y1);
    assert Interpolate(x, x0, x1, y0, y1, left, right) == Line(p, x0, x1, y0, y1);
    assert Interpolate(x', x0, x1, y0, y1, left, right) == Line(p', x0, x1, y0, y1);
    LineOrdered(p, p', x0, x1, y0, y1);
  }

  /** The line passes through both breakpoints. */
  lemma LineEnds(x0: real, x1: real, y0: real, y1: real)
    requires x0 < x1
    ensures Line(x0, x0, x1, y0, y1) == y0
    ensures Line(x1, x0, x1, y0, y1) == y1
  {
  }

  /** On a rising line, a later position has a value at least as large. */
  lemma LineOrdered(p: real, p': real, x0: real, x1: real, y0: real, y1: real)
    requires x0 < x1 && y0 <= y1
    requires p <= p'
    ensures Line(p, x0, x1, y0, y1) <= Line(p', x0, x1, y0, y1)
  {
  }

  /** With both sides clamped the value stays between the end values. */
  lemma ClampedStaysInRange(x: real, x0: real, x1: real, y0: real, y1: real)
    requires x0 < x1 && y0 <= y1
    ensures y0 <= Interpolate(x, x0, x1, y0, y1, Clamp, Clamp) <= y1
  {
  }

  // Real-arithmetic helpers the solver does not find on its own.

  lemma DivSign(a: real, b: real)
    requires b > 0.0
    ensures a >= 0.0 ==> a / b >= 0.0
    ensures a < 0.0 ==> a / b < 0.0
    ensures (a / b) * b == a
  {
  }

  lemma DivAtMostOne(a: real, b: real)
    requires 0.0 < b && a <= b
    ensures a / b <= 1.0
  {
  }

  lemma DivAboveOne(a: real, b: real)
    requires 0.0 < b < a
    ensures a / b > 1.0
  {
  }
}
