/** Facts about real multiplication that the solver does not find on its own. */
module Arith {

  lemma MulNonneg(a: real, b: real)
    requires 0.0 <= a && 0.0 <= b
    ensures 0.0 <= a * b
  {
  }

  lemma MulPos(a: real, b: real)
    requires 0.0 < a && 0.0 < b
    ensures 0.0 < a * b
  {
  }

  lemma MulLe(a: real, b: real, c: real)
    requires a <= b && 0.0 <= c
    ensures a * c <= b * c
  {
    MulNonneg(b - a, c);
    assert (b - a) * c == b * c - a * c;
  }

  lemma MulLt(a: real, b: real, c: real)
    requires a < b && 0.0 < c
    ensures a * c < b * c
  {
    MulPos(b - a, c);
    assert (b - a) * c == b * c - a * c;
  }

  lemma SquareLess(x: real, y: real)
    requires 0.0 <= x < y
    ensures x * x < y * y
  {
    calc {
      x * x;
    <= { MulLe(x, y, x); }
      y * x;
    < { MulLt(x, y, y); }
      y * y;
    }
  }

  /** For non-negative numbers, comparing squares is comparing the numbers. */
  lemma SquareOrder(x: real, y: real)
    requires 0.0 <= x && 0.0 <= y
    ensures x * x < y * y <==> x < y
  {
    if x < y {
      SquareLess(x, y);
    } else if y < x {
      SquareLess(y, x);
    }
  }

  /** The cubic t^2 (3 - 2t) maps [0, 1] into [0, 1]. */
  lemma CubicBounds(t: real)
    ensures 0.0 <= t <= 1.0 ==> 0.0 <= t * t * (3.0 - 2.0 * t) <= 1.0
  {
    if 0.0 <= t <= 1.0 {
      var w := 1.0 - t;
      MulNonneg(w, w);
      MulNonneg(w * w, 1.0 + 2.0 * t);
      assert 1.0 - t * t * (3.0 - 2.0 * t) == w * w * (1.0 + 2.0 * t);
      MulNonneg(t, t);
      MulNonneg(t * t, 3.0 - 2.0 * t);
    }
  }

  /** A factor outside [0, 1] scales a positive d outside [0, d]. */
  lemma ScaleOutside(t: real, d: real)
    requires 0.0 < d
    ensures t < 0.0 ==> t * d < 0.0
    ensures 1.0 < t ==> d < t * d
  {
    if t < 0.0 {
      MulLt(t, 0.0, d);
    }
    if 1.0 < t {
      MulLt(1.0, t, d);
    }
  }

  /** The switching argument of a radius inside a shell lies in [0, 1]. */
  lemma UnitInterval(r: real, lo: real, hi: real)
    requires lo < hi && lo <= r <= hi
    ensures 0.0 <= (r - lo) / (hi - lo) <= 1.0
  {
    var d := hi - lo;
    var t := (r - lo) / d;
    assert t * d == r - lo;
    ScaleOutside(t, d);
  }
}
