/** Scalar helpers of the tracer (src/utils.rs) and the numeric conventions
    the rest of the model relies on.

    Floating point numbers are modelled as `real`. Functions the source takes
    from the standard library whose values are transcendental (`sqrt`, `tan`,
    `to_radians`) are passed around as function-typed parameters, and
    `IsSqrt` states what a square root must satisfy. */
module Utils {

  /** `f64::min`: the smaller operand. */
  function Min(a: real, b: real): (r: real)
    ensures r <= a && r <= b
    ensures r == a || r == b
  {
    if a < b then a else b
  }

  /** `f64::max`: the larger operand. */
  function Max(a: real, b: real): (r: real)
    ensures a <= r && b <= r
    ensures r == a || r == b
  {
    if a < b then b else a
  }

  function Abs(x: real): (r: real)
    ensures 0.0 <= r && (r == x || r == -x)
  {
    if x < 0.0 then -x else x
  }

  /** `clamp(n, min, max) = n.max(min).min(max)`. */
  function Clamp(n: real, min: real, max: real): (r: real)
    ensures min <= max ==> min <= r <= max
    ensures min <= n <= max ==> r == n
  {
    Min(Max(n, min), max)
  }

  /** Below the range `clamp` gives the lower end, above it the upper end. */
  lemma ClampOutside(n: real, min: real, max: real)
    requires min <= max
    ensures n < min ==> Clamp(n, min, max) == min
    ensures max < n ==> Clamp(n, min, max) == max
  {
  }

  /** Clamping twice with the same range changes nothing. */
  lemma ClampIdempotent(n: real, min: real, max: real)
    ensures Clamp(Clamp(n, min, max), min, max) == Clamp(n, min, max)
  {
  }

  /** What the model assumes of `f64::sqrt` on non-negative inputs. */
  ghost predicate IsSqrt(sqrt: real -> real)
  {
    forall x :: 0.0 <= x ==> 0.0 <= sqrt(x) && Square(sqrt(x)) == x
  }

  datatype Option<T> = None | Some(value: T)

  /** An upper bound of a parametric interval: the source passes
      `std::f64::INFINITY` as the far end of the interval of a primary query. */
  datatype Bound = Finite(value: real) | Infinity

  /** `x < bound` in IEEE semantics: every finite value lies below infinity. */
  predicate Below(x: real, bound: Bound)
  {
    bound.Infinity? || x < bound.value
  }

  /** `bound <= x`, the negation of `Below`. */
  predicate AtOrAbove(bound: Bound, x: real)
  {
    bound.Finite? && bound.value <= x
  }

  /** The bound `a` never exceeds the bound `b`. */
  predicate BoundLe(a: Bound, b: Bound)
  {
    b.Infinity? || (a.Finite? && a.value <= b.value)
  }

  /** `random_in_range(min, max)` for a uniform draw `u` in [0, 1). */
  function RandomInRange(min: real, max: real, u: real): (r: real)
    ensures 0.0 <= u < 1.0 && min <= max ==> min <= r <= max
    ensures 0.0 <= u < 1.0 && min < max ==> r < max
  {
    var d := max - min;
    ScaledDrawBounds(u, d);
    min + u * d
  }

  lemma ScaledDrawBounds(u: real, d: real)
    ensures 0.0 <= u < 1.0 && 0.0 <= d ==> 0.0 <= u * d <= d
    ensures 0.0 <= u < 1.0 && 0.0 < d ==> u * d < d
  {
    if 0.0 <= u < 1.0 && 0.0 <= d {
      MulLe(0.0, u, d);
      MulLe(u, 1.0, d);
      if 0.0 < d {
        MulLt(u, 1.0, d);
      }
    }
  }

  /** Multiplying by a non-negative factor keeps `<=`. */
  lemma MulLe(a: real, b: real, c: real)
    requires a <= b && 0.0 <= c
    ensures a * c <= b * c
  {
  }

  /** Multiplying by a positive factor keeps `<`. */
  lemma MulLt(a: real, b: real, c: real)
    requires a < b && 0.0 < c
    ensures a * c < b * c
  {
  }

  /** A product of two positive numbers is positive. */
  lemma MulPos(a: real, b: real)
    requires 0.0 < a && 0.0 < b
    ensures 0.0 < a * b
  {
  }

  /** A product of two non-negative numbers is non-negative. */
  lemma MulNonNeg(a: real, b: real)
    requires 0.0 <= a && 0.0 <= b
    ensures 0.0 <= a * b
  {
  }

  /** `a * a`. Squares are kept behind this name so that facts about them
      are stated once, in the lemmas below. */
  function Square(a: real): real
  {
    a * a
  }

  lemma SquareFacts(a: real)
    ensures 0.0 <= Square(a)
    ensures a != 0.0 ==> 0.0 < Square(a)
    ensures Square(-a) == Square(a)
  {
    var h := a / 2.0;
    assert Square(a) == 2.0 * (h * a);
    if a > 0.0 {
      MulPos(h, a);
    } else if a < 0.0 {
      MulPos(-h, -a);
      assert (-h) * (-a) == h * a;
    }
  }

  /** Squaring is strictly increasing on the non-negative reals. */
  lemma SquareLt(s: real, q: real)
    requires 0.0 <= s < q
    ensures Square(s) < Square(q)
  {
    var d := q - s;
    MulPos(q, d);
    MulNonNeg(s, d);
    assert Square(q) - Square(s) == q * d + s * d;
  }

  /** Non-negative numbers with equal squares are equal. */
  lemma SquareInjective(s: real, q: real)
    requires 0.0 <= s && 0.0 <= q && Square(s) == Square(q)
    ensures s == q
  {
    if s < q {
      SquareLt(s, q);
    } else if q < s {
      SquareLt(q, s);
    }
  }

  /** A number whose square is at most 1 lies in [-1, 1]. */
  lemma SquareAtMostOne(a: real)
    requires Square(a) <= 1.0
    ensures -1.0 <= a <= 1.0
  {
    if 1.0 < a {
      SquareLt(1.0, a);
    } else if a < -1.0 {
      SquareLt(1.0, -a);
      SquareFacts(a);
    }
  }

  /** Comparing a quotient `x / d` (written `x * (1 / d)`) with `t` is
      comparing `x` with `d * t`, the other way round when `d` is negative. */
  lemma QuotientCompare(x: real, d: real, t: real)
    requires d != 0.0
    ensures 0.0 < d ==> (x * (1.0 / d) < t <==> x < d * t)
    ensures 0.0 < d ==> (t < x * (1.0 / d) <==> d * t < x)
    ensures d < 0.0 ==> (x * (1.0 / d) < t <==> d * t < x)
    ensures d < 0.0 ==> (t < x * (1.0 / d) <==> x < d * t)
  {
    var k := 1.0 / d;
    assert k * d == 1.0;
    var y := x * k;
    assert y * d == x;
    assert (y - t) * d == x - d * t;
    if 0.0 < d {
      if y < t { MulPos(t - y, d); }
      if t < y { MulPos(y - t, d); }
      if x < d * t && t <= y { MulNonNeg(y - t, d); }
      if d * t < x && y <= t { MulNonNeg(t - y, d); }
    } else {
      if y < t { MulPos(t - y, -d); }
      if t < y { MulPos(y - t, -d); }
      if d * t < x && t <= y { MulNonNeg(y - t, -d); }
      if x < d * t && y <= t { MulNonNeg(t - y, -d); }
    }
  }

  /** `x` to the natural power `k`, as `f64::powi` computes it. */
  function Power(x: real, k: nat): real
  {
    if k == 0 then 1.0 else x * Power(x, k - 1)
  }

  lemma {:induction false} PowerUnitInterval(x: real, k: nat)
    requires 0.0 <= x <= 1.0
    ensures 0.0 <= Power(x, k) <= 1.0
  {
    if k > 0 {
      var p := Power(x, k - 1);
      PowerUnitInterval(x, k - 1);
      MulLe(x, 1.0, p);
      MulNonNeg(x, p);
      assert x * p <= p;
      assert 0.0 <= x * p;
      assert Power(x, k) == x * p;
    }
  }

  /** The square root given by `IsSqrt` at one point. */
  lemma SqrtAt(sqrt: real -> real, x: real)
    requires IsSqrt(sqrt) && 0.0 <= x
    ensures 0.0 <= sqrt(x) && Square(sqrt(x)) == x
    ensures x == 0.0 ==> sqrt(x) == 0.0
    ensures 0.0 < x ==> 0.0 < sqrt(x)
  {
    SquareFacts(sqrt(x));
  }

  /** The square root of one is one. */
  lemma SqrtOfOne(sqrt: real -> real)
    requires IsSqrt(sqrt)
    ensures sqrt(1.0) == 1.0
  {
    SqrtAt(sqrt, 1.0);
    assert Square(1.0) == 1.0;
    SquareInjective(sqrt(1.0), 1.0);
  }
}
