/** The polynomial easing curves of Tween/easing.js (Penner's equations on a
    normalised alpha): `linear` and the in, out and in-out forms of the quad,
    cubic, quart and quint curves, each written as the source computes it,
    including the in-out forms' rescaling of their argument. */
module Easing {

  /** `linear`. */
  function Linear(a: real): real {
    a
  }

  function EaseInQuad(a: real): real {
    a * a
  }

  function EaseOutQuad(a: real): real {
    -1.0 * a * (a - 2.0)
  }

  /** `a /= 0.5`, then one of two branches on the rescaled `a`. */
  function EaseInOutQuad(a: real): real {
    var a := a / 0.5;
    if a < 1.0 then 0.5 * a * a
    else
      var a := a - 1.0;
      -0.5 * (a * (a - 2.0) - 1.0)
  }

  function EaseInCubic(a: real): real {
    a * a * a
  }

  function EaseOutCubic(a: real): real {
    var a := a - 1.0;
    a * a * a + 1.0
  }

  function EaseInOutCubic(a: real): real {
    var a := a / 0.5;
    if a < 1.0 then 0.5 * a * a * a
    else
      var a := a - 2.0;
      0.5 * (a * a * a + 2.0)
  }

  function EaseInQuart(a: real): real {
    a * a * a * a
  }

  function EaseOutQuart(a: real): real {
    var a := a - 1.0;
    -1.0 * (a * a * a * a - 1.0)
  }

  function EaseInOutQuart(a: real): real {
    var a := a / 0.5;
    if a < 1.0 then 0.5 * a * a * a * a
    else
      var a := a - 2.0;
      -0.5 * (a * a * a * a - 2.0)
  }

  function EaseInQuint(a: real): real {
    a * a * a * a * a
  }

  function EaseOutQuint(a: real): real {
    var a := a - 1.0;
    a * a * a * a * a + 1.0
  }

  function EaseInOutQuint(a: real): real {
    var a := a / 0.5;
    if a < 1.0 then 0.5 * a * a * a * a * a
    else
      var a := a - 2.0;
      0.5 * (a * a * a * a * a + 2.0)
  }

  // ---------------------------------------------------------------------
  // The four polynomial families, for stating their properties once

  datatype Power = Quad | Cubic | Quart | Quint

  function Degree(k: Power): nat {
    match k
    case Quad => 2
    case Cubic => 3
    case Quart => 4
    case Quint => 5
  }

  function EaseIn(k: Power, a: real): real {
    match k
    case Quad => EaseInQuad(a)
    case Cubic => EaseInCubic(a)
    case Quart => EaseInQuart(a)
    case Quint => EaseInQuint(a)
  }

  function EaseOut(k: Power, a: real): real {
    match k
    case Quad => EaseOutQuad(a)
    case Cubic => EaseOutCubic(a)
    case Quart => EaseOutQuart(a)
    case Quint => EaseOutQuint(a)
  }

  function EaseInOut(k: Power, a: real): real {
    match k
    case Quad => EaseInOutQuad(a)
    case Cubic => EaseInOutCubic(a)
    case Quart => EaseInOutQuart(a)
    case Quint => EaseInOutQuint(a)
  }

  /** `x` to the `n`th power. */
  function Pow(x: real, n: nat): real {
    if n == 0 then 1.0 else x * Pow(x, n - 1)
  }

  // ---------------------------------------------------------------------
  // Powers on the unit interval

  /** Multiplying a non-negative number by a factor in [0, 1] keeps it
      non-negative and makes it no larger. */
  lemma ScaleDown(x: real, y: real)
    requires 0.0 <= x <= 1.0 && 0.0 <= y
    ensures 0.0 <= x * y <= y
  {
    assert x * y <= 1.0 * y;
  }

  /** Multiplication of non-negative numbers is monotone in each factor. */
  lemma MulMonotone(x: real, y: real, u: real, v: real)
    requires 0.0 <= x <= y && 0.0 <= u <= v
    ensures 0.0 <= x * u <= y * v
  {
    assert x * u <= x * v;
    assert x * v <= y * v;
  }

  /** A power of a number in [0, 1] stays in [0, 1]. */
  lemma {:induction false} PowUnit(x: real, n: nat)
    requires 0.0 <= x <= 1.0
    ensures 0.0 <= Pow(x, n) <= 1.0
  {
    if n > 0 {
      PowUnit(x, n - 1);
      ScaleDown(x, Pow(x, n - 1));
    }
  }

  /** Powers of non-negative numbers are monotone in the base. */
  lemma {:induction false} PowMonotone(x: real, y: real, n: nat)
    requires 0.0 <= x <= y
    ensures 0.0 <= Pow(x, n) <= Pow(y, n)
  {
    if n > 0 {
      PowMonotone(x, y, n - 1);
      MulMonotone(x, y, Pow(x, n - 1), Pow(y, n - 1));
    }
  }

  // ---------------------------------------------------------------------
  // The in curves

  /** Each in curve is the power of its degree: a^2, a^3, a^4, a^5. */
  lemma InIsPower(k: Power, a: real)
    ensures EaseIn(k, a) == Pow(a, Degree(k))
  {
    assert Pow(a, 1) == a;
    assert Pow(a, 2) == a * a;
    assert Pow(a, 3) == a * a * a;
    assert Pow(a, 4) == a * a * a * a;
    assert Pow(a, 5) == a * a * a * a * a;
  }

  /** `linear` and every in curve fix 0 and 1. */
  lemma InEndpoints(k: Power)
    ensures Linear(0.0) == 0.0 && Linear(1.0) == 1.0
    ensures EaseIn(k, 0.0) == 0.0 && EaseIn(k, 1.0) == 1.0
  {
  }

  // ---------------------------------------------------------------------
  // The out curves

  /** Each out curve is its in curve reflected through (1/2, 1/2). */
  lemma OutReflectsIn(k: Power, a: real)
    ensures EaseOut(k, a) == 1.0 - EaseIn(k, 1.0 - a)
  {
    var b := a - 1.0;
    match k
    case Quad =>
      assert -1.0 * a * (a - 2.0) == 1.0 - b * b;
    case Cubic =>
      assert (1.0 - a) * (1.0 - a) * (1.0 - a) == -(b * b * b);
    case Quart =>
      assert (1.0 - a) * (1.0 - a) * (1.0 - a) * (1.0 - a) == b * b * b * b;
    case Quint =>
      assert (1.0 - a) * (1.0 - a) * (1.0 - a) * (1.0 - a) * (1.0 - a) == -(b * b * b * b * b);
  }

  // ---------------------------------------------------------------------
  // The in-out curves

  /** The first half of an in-out curve is its in curve at double speed,
      scaled by one half. */
  lemma InOutFirstHalf(k: Power, a: real)
    requires a < 0.5
    ensures EaseInOut(k, a) == 0.5 * EaseIn(k, 2.0 * a)
  {
    assert a / 0.5 == 2.0 * a;
  }

  /** The second half of an in-out curve is the first half reflected: one
      minus half the in curve on the distance still to go, doubled. */
  lemma InOutSecondHalf(k: Power, a: real)
    requires a >= 0.5
    ensures EaseInOut(k, a) == 1.0 - 0.5 * EaseIn(k, 2.0 - 2.0 * a)
  {
    match k
    case Quad => QuadSecondHalf(a);
    case Cubic => CubicSecondHalf(a);
    case Quart => QuartSecondHalf(a);
    case Quint => QuintSecondHalf(a);
  }

  lemma QuadSecondHalf(a: real)
    requires a >= 0.5
    ensures EaseInOutQuad(a) == 1.0 - 0.5 * EaseInQuad(2.0 - 2.0 * a)
  {
    var b, c := a / 0.5 - 1.0, 2.0 - 2.0 * a;
    var q := c * c;
    assert b == 1.0 - c;
    assert b * (b - 2.0) == q - 1.0;
    assert EaseInOutQuad(a) == -0.5 * (q - 1.0 - 1.0);
    assert EaseInQuad(c) == q;
  }

  lemma CubicSecondHalf(a: real)
    requires a >= 0.5
    ensures EaseInOutCubic(a) == 1.0 - 0.5 * EaseInCubic(2.0 - 2.0 * a)
  {
    var b, c := a / 0.5 - 2.0, 2.0 - 2.0 * a;
    var q := c * c * c;
    assert b == -c;
    assert b * b * b == -q;
    assert EaseInOutCubic(a) == 0.5 * (-q + 2.0);
    assert EaseInCubic(c) == q;
  }

  lemma QuartSecondHalf(a: real)
    requires a >= 0.5
    ensures EaseInOutQuart(a) == 1.0 - 0.5 * EaseInQuart(2.0 - 2.0 * a)
  {
    var b, c := a / 0.5 - 2.0, 2.0 - 2.0 * a;
    var q := c * c * c * c;
    assert b == -c;
    assert b * b * b * b == q;
    assert EaseInOutQuart(a) == -0.5 * (q - 2.0);
    assert EaseInQuart(c) == q;
  }

  lemma QuintSecondHalf(a: real)
    requires a >= 0.5
    ensures EaseInOutQuint(a) == 1.0 - 0.5 * EaseInQuint(2.0 - 2.0 * a)
  {
    var b, c := a / 0.5 - 2.0, 2.0 - 2.0 * a;
    var q := c * c * c * c * c;
    assert b == -c;
    assert b * b * b * b * b == -q;
    assert EaseInOutQuint(a) == 0.5 * (-q + 2.0);
    assert EaseInQuint(c) == q;
  }

  /** The two branches meet at the midpoint: the first branch's formula
      taken at 1/2 gives 1/2, and so does the branch the source takes there. */
  lemma InOutBranchesAgree(k: Power)
    ensures 0.5 * EaseIn(k, 2.0 * 0.5) == 0.5
    ensures EaseInOut(k, 0.5) == 0.5
  {
    InOutSecondHalf(k, 0.5);
  }

  /** Every in-out curve fixes 0, 1/2 and 1. */
  lemma InOutEndpoints(k: Power)
    ensures EaseInOut(k, 0.0) == 0.0
    ensures EaseInOut(k, 0.5) == 0.5
    ensures EaseInOut(k, 1.0) == 1.0
  {
    InOutFirstHalf(k, 0.0);
    InOutBranchesAgree(k);
    InOutSecondHalf(k, 1.0);
  }

  /** Every in-out curve is point-symmetric about (1/2, 1/2). */
  lemma InOutSymmetric(k: Power, a: real)
    ensures EaseInOut(k, 1.0 - a) == 1.0 - EaseInOut(k, a)
  {
    if a < 0.5 {
      InOutFirstHalf(k, a);
      InOutSecondHalf(k, 1.0 - a);
      assert 2.0 - 2.0 * (1.0 - a) == 2.0 * a;
    } else if a > 0.5 {
      InOutSecondHalf(k, a);
      InOutFirstHalf(k, 1.0 - a);
      assert 2.0 * (1.0 - a) == 2.0 - 2.0 * a;
    } else {
      InOutBranchesAgree(k);
    }
  }

  // ---------------------------------------------------------------------
  // Range and monotonicity on [0, 1]

  /** On [0, 1] every polynomial easing returns a value in [0, 1]; the first
      half of an in-out curve stays at or below 1/2, the second half at or
      above. */
  lemma EasingRange(k: Power, a: real)
    requires 0.0 <= a <= 1.0
    ensures 0.0 <= Linear(a) <= 1.0
    ensures 0.0 <= EaseIn(k, a) <= 1.0
    ensures 0.0 <= EaseOut(k, a) <= 1.0
    ensures 0.0 <= EaseInOut(k, a) <= 1.0
    ensures a < 0.5 ==> EaseInOut(k, a) <= 0.5
    ensures a >= 0.5 ==> EaseInOut(k, a) >= 0.5
  {
    InIsPower(k, a);
    PowUnit(a, Degree(k));
    OutReflectsIn(k, a);
    InIsPower(k, 1.0 - a);
    PowUnit(1.0 - a, Degree(k));
    if a < 0.5 {
      InOutFirstHalf(k, a);
      InIsPower(k, 2.0 * a);
      PowUnit(2.0 * a, Degree(k));
    } else {
      InOutSecondHalf(k, a);
      InIsPower(k, 2.0 - 2.0 * a);
      PowUnit(2.0 - 2.0 * a, Degree(k));
    }
  }

  /** On [0, 1] every polynomial easing is non-decreasing. */
  lemma EasingMonotone(k: Power, a: real, b: real)
    requires 0.0 <= a <= b <= 1.0
    ensures EaseIn(k, a) <= EaseIn(k, b)
    ensures EaseOut(k, a) <= EaseOut(k, b)
    ensures EaseInOut(k, a) <= EaseInOut(k, b)
  {
    InIsPower(k, a);
    InIsPower(k, b);
    PowMonotone(a, b, Degree(k));
    OutReflectsIn(k, a);
    OutReflectsIn(k, b);
    InIsPower(k, 1.0 - a);
    InIsPower(k, 1.0 - b);
    PowMonotone(1.0 - b, 1.0 - a, Degree(k));
    if b < 0.5 {
      InOutFirstHalf(k, a);
      InOutFirstHalf(k, b);
      InIsPower(k, 2.0 * a);
      InIsPower(k, 2.0 * b);
      PowMonotone(2.0 * a, 2.0 * b, Degree(k));
    } else if a >= 0.5 {
      InOutSecondHalf(k, a);
      InOutSecondHalf(k, b);
      InIsPower(k, 2.0 - 2.0 * a);
      InIsPower(k, 2.0 - 2.0 * b);
      PowMonotone(2.0 - 2.0 * b, 2.0 - 2.0 * a, Degree(k));
    } else {
      EasingRange(k, a);
      EasingRange(k, b);
    }
  }
}
