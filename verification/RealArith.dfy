/** Real arithmetic shared by the shapes: `Math.abs`, `Math.pow(_, 2)` and the
    comparisons of a `Math.sqrt` distance against a radius. */
module RealArith {

  function Abs(v: real): (r: real)
    ensures r >= 0.0 && (r == v || r == -v)
  {
    if v < 0.0 then -v else v
  }

  function Sq(v: real): (r: real)
    ensures r >= 0.0
  {
    v * v
  }

  /** The point of [lo, hi] nearest to `v`. */
  function Clamp(v: real, lo: real, hi: real): (r: real)
    requires lo <= hi
    ensures lo <= r <= hi
    ensures r == v <==> lo <= v <= hi
  {
    if v < lo then lo else if v > hi then hi else v
  }

  lemma SqMonotone(a: real, b: real)
    requires 0.0 <= a <= b
    ensures Sq(a) <= Sq(b)
  {
    assert (b - a) * a >= 0.0;
    assert (b - a) * b >= 0.0;
  }

  lemma SqStrictMonotone(a: real, b: real)
    requires 0.0 <= a < b
    ensures Sq(a) < Sq(b)
  {
    assert (b - a) * a >= 0.0;
    assert (b - a) * b > 0.0;
  }

  /** `Math.sqrt(s) <= r` for the non-negative root `d` of `s` holds exactly when
      `r` is non-negative and `s <= r * r`. */
  lemma RootAtMost(d: real, s: real, r: real)
    requires d >= 0.0 && Sq(d) == s
    ensures d <= r <==> 0.0 <= r && s <= Sq(r)
  {
    if d <= r {
      SqMonotone(d, r);
    } else if 0.0 <= r {
      SqStrictMonotone(r, d);
    }
  }

  /** `Math.sqrt(s) < r` for the non-negative root `d` of `s` holds exactly when
      `r` is positive and `s < r * r`. */
  lemma RootBelow(d: real, s: real, r: real)
    requires d >= 0.0 && Sq(d) == s
    ensures d < r <==> 0.0 < r && s < Sq(r)
  {
    if d < r {
      SqStrictMonotone(d, r);
    } else if 0.0 < r {
      SqMonotone(r, d);
    }
  }

  /** How far a centre distance `d` reaches past a half-extent `h`: max(0, d - h). */
  function Gap(d: real, h: real): (g: real)
    ensures g >= 0.0 && g >= d - h
    ensures g == 0.0 || g == d - h
  {
    if d <= h then 0.0 else d - h
  }

  /** Distance along one axis from `v` to the nearest point of [lo, lo + 2h],
      expressed through the distance to the interval's centre as the shapes
      compute it. */
  lemma ClampGap(v: real, lo: real, h: real)
    requires h >= 0.0
    ensures Abs(v - Clamp(v, lo, lo + 2.0 * h)) == Gap(Abs(v - (lo + h)), h)
  {
  }

  /** The squared distance from `v` to the nearest point of [lo, lo + w] is
      the squared gap of `v` to the interval's centre beyond the half width. */
  lemma SqClampGap(v: real, lo: real, w: real)
    requires w >= 0.0
    ensures Sq(v - Clamp(v, lo, lo + w)) == Sq(Gap(Abs(v - (lo + w / 2.0)), w / 2.0))
  {
    ClampGap(v, lo, w / 2.0);
    assert lo + 2.0 * (w / 2.0) == lo + w;
    assert Sq(Abs(v - Clamp(v, lo, lo + w))) == Sq(v - Clamp(v, lo, lo + w));
  }

  /** Every point of [lo, hi] is at least as far from `v` as the clamped point. */
  lemma ClampNearest(v: real, lo: real, hi: real, q: real)
    requires lo <= q <= hi
    ensures Sq(v - Clamp(v, lo, hi)) <= Sq(v - q)
  {
    var c := Clamp(v, lo, hi);
    SqMonotone(Abs(v - c), Abs(v - q));
    assert Sq(Abs(v - c)) == Sq(v - c);
    assert Sq(Abs(v - q)) == Sq(v - q);
  }

  /** `Math.floor(u * n)` for `u` in [0, 1) is an index of a list of length
      `n > 0`. */
  lemma FloorIndex(u: real, n: nat)
    requires 0.0 <= u < 1.0 && n > 0
    ensures 0 <= (u * n as real).Floor < n
  {
    var m := n as real;
    var x := u * m;
    MulNonNegative(u, m);
    MulPositive(1.0 - u, m);
    assert m - x == (1.0 - u) * m;
    assert x.Floor as real <= x < x.Floor as real + 1.0;
  }

  lemma MulNonNegative(a: real, b: real)
    requires 0.0 <= a && 0.0 <= b
    ensures 0.0 <= a * b
  {
  }

  lemma MulPositive(a: real, b: real)
    requires 0.0 < a && 0.0 < b
    ensures 0.0 < a * b
  {
  }
}
