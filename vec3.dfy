/** Three-component vectors (src/vec3.rs): points, directions and colours. */
module Vectors {
  import opened Utils

  /** `Vec3 { data: [f64; 3] }`; `x()`, `y()` and `z()` are the fields. */
  datatype Vec3 = Vec3(x: real, y: real, z: real)
  {
    /** `Index<usize>`: component 0, 1 or 2. */
    function At(i: nat): (c: real)
      requires i < 3
      ensures i == 0 ==> c == x
      ensures i == 1 ==> c == y
      ensures i == 2 ==> c == z
    {
      if i == 0 then x else if i == 1 then y else z
    }
  }

  /** `Vec3::default()`. */
  const Zero := Vec3(0.0, 0.0, 0.0)

  function Add(a: Vec3, b: Vec3): Vec3
  {
    Vec3(a.x + b.x, a.y + b.y, a.z + b.z)
  }

  function Sub(a: Vec3, b: Vec3): Vec3
  {
    Vec3(a.x - b.x, a.y - b.y, a.z - b.z)
  }

  function Neg(a: Vec3): Vec3
  {
    Vec3(-a.x, -a.y, -a.z)
  }

  /** `Mul for Vec3`: the componentwise (Hadamard) product, used to mix colours. */
  function Mul(a: Vec3, b: Vec3): Vec3
  {
    Vec3(a.x * b.x, a.y * b.y, a.z * b.z)
  }

  /** `Mul<f64> for Vec3`: `v * s`. */
  function Scale(v: Vec3, s: real): Vec3
  {
    Vec3(v.x * s, v.y * s, v.z * s)
  }

  /** `Mul<Vec3> for f64`: `s * v`, which the source computes as `v * s`;
      the result multiplies every component by `s` from the left. */
  function ScaleLeft(s: real, v: Vec3): (r: Vec3)
    ensures r == Vec3(s * v.x, s * v.y, s * v.z)
  {
    Scale(v, s)
  }

  /** `Div<f64>`: multiplies by the reciprocal. A zero divisor gives
      infinities in the source and is excluded here. */
  function Div(v: Vec3, s: real): Vec3
    requires s != 0.0
  {
    Scale(v, 1.0 / s)
  }

  function Dot(a: Vec3, b: Vec3): real
  {
    a.x * b.x + a.y * b.y + a.z * b.z
  }

  function Cross(a: Vec3, b: Vec3): Vec3
  {
    Vec3(a.y * b.z - a.z * b.y,
         a.z * b.x - a.x * b.z,
         a.x * b.y - a.y * b.x)
  }

  /** `length_squared()`: the sum of the squared components. */
  function LengthSquared(v: Vec3): (r: real)
    ensures 0.0 <= r
  {
    SquareFacts(v.x);
    SquareFacts(v.y);
    SquareFacts(v.z);
    Square(v.x) + Square(v.y) + Square(v.z)
  }

  /** Only the zero vector has squared length zero. */
  lemma LengthSquaredZero(v: Vec3)
    ensures LengthSquared(v) == 0.0 <==> v == Zero
  {
    SquareFacts(v.x);
    SquareFacts(v.y);
    SquareFacts(v.z);
  }

  /** `magnitude()`: the square root of `length_squared()`. */
  function Magnitude(v: Vec3, sqrt: real -> real): (m: real)
    ensures IsSqrt(sqrt) ==> 0.0 <= m && Square(m) == LengthSquared(v)
    ensures IsSqrt(sqrt) && v != Zero ==> 0.0 < m
  {
    var ls := LengthSquared(v);
    LengthSquaredZero(v);
    SqrtFacts(sqrt, ls);
    sqrt(ls)
  }

  /** Only the zero vector has zero magnitude. */
  lemma MagnitudeZero(v: Vec3, sqrt: real -> real)
    requires IsSqrt(sqrt)
    ensures Magnitude(v, sqrt) == 0.0 <==> v == Zero
  {
    SqrtFacts(sqrt, LengthSquared(v));
  }

  lemma SqrtFacts(sqrt: real -> real, x: real)
    requires 0.0 <= x
    ensures IsSqrt(sqrt) ==> 0.0 <= sqrt(x) && Square(sqrt(x)) == x
    ensures IsSqrt(sqrt) && x == 0.0 ==> sqrt(x) == 0.0
    ensures IsSqrt(sqrt) && 0.0 < x ==> 0.0 < sqrt(x)
  {
    if IsSqrt(sqrt) {
      SqrtAt(sqrt, x);
    }
  }

  /** `norm()`: `v / magnitude`. For the zero vector the source divides 0 by 0
      and gets NaN components; the model leaves a vector of zero magnitude
      unchanged instead. */
  function Norm(v: Vec3, sqrt: real -> real): (n: Vec3)
    ensures IsSqrt(sqrt) && v != Zero ==> LengthSquared(n) == 1.0
  {
    var m := Magnitude(v, sqrt);
    if m == 0.0 then v
    else
      NormIsUnit(v, m);
      Vec3(v.x / m, v.y / m, v.z / m)
  }

  /** Dividing by a number whose square is the squared length gives a unit vector. */
  lemma NormIsUnit(v: Vec3, m: real)
    requires m != 0.0
    ensures Square(m) == LengthSquared(v) ==> LengthSquared(Vec3(v.x / m, v.y / m, v.z / m)) == 1.0
  {
    var k := 1.0 / m;
    var n := Vec3(v.x / m, v.y / m, v.z / m);
    assert n == Div(v, m);
    assert Square(n.x) == Square(v.x) * (k * k);
    assert Square(n.y) == Square(v.y) * (k * k);
    assert Square(n.z) == Square(v.z) * (k * k);
    assert LengthSquared(n) == LengthSquared(v) * (k * k);
    assert k * k * Square(m) == 1.0;
  }

  /** A unit vector has every component in [-1, 1]. */
  lemma UnitComponents(n: Vec3)
    requires LengthSquared(n) == 1.0
    ensures -1.0 <= n.x <= 1.0 && -1.0 <= n.y <= 1.0 && -1.0 <= n.z <= 1.0
  {
    SquareAtMostOne(n.x);
    SquareAtMostOne(n.y);
    SquareAtMostOne(n.z);
  }

  /** One gamma-corrected colour channel of `to_rgb`:
      `(256 * clamp(sqrt(c), 0, 0.999)) as u8`. A negative channel makes
      `sqrt` return NaN, which `f64::max` replaces by 0, so the byte is 0. */
  function GammaByte(c: real, sqrt: real -> real): (b: int)
    ensures 0 <= b <= 255
    ensures c < 0.0 ==> b == 0
  {
    if c < 0.0 then 0
    else
      var k := 256.0 * Clamp(sqrt(c), 0.0, 0.999);
      assert 0.0 <= k <= 255.744;
      k.Floor
  }

  /** `to_rgb`: three gamma-corrected bytes. */
  function ToRgb(v: Vec3, sqrt: real -> real): (rgb: (int, int, int))
    ensures 0 <= rgb.0 <= 255 && 0 <= rgb.1 <= 255 && 0 <= rgb.2 <= 255
  {
    (GammaByte(v.x, sqrt), GammaByte(v.y, sqrt), GammaByte(v.z, sqrt))
  }

  /** A channel that is an exact square of a byte fraction maps back to it:
      gamma correction undoes squaring. */
  lemma GammaByteOfSquare(q: real, sqrt: real -> real)
    requires IsSqrt(sqrt) && 0.0 <= q <= 0.999
    ensures GammaByte(Square(q), sqrt) == (256.0 * q).Floor
  {
    SquareFacts(q);
    var qq := Square(q);
    SqrtAt(sqrt, qq);
    SquareInjective(sqrt(qq), q);
  }

  /** `AddAssign`: `*self = self + other`. */
  method AddAssign(self: Vec3, other: Vec3) returns (updated: Vec3)
    ensures updated == Add(self, other)
  {
    updated := Vec3(self.x + other.x, self.y + other.y, self.z + other.z);
  }

  /** `MulAssign<f64>`: `*self = self * scalar`. */
  method MulAssign(self: Vec3, scalar: real) returns (updated: Vec3)
    ensures updated == Scale(self, scalar)
  {
    updated := Vec3(self.x * scalar, self.y * scalar, self.z * scalar);
  }

  /** `DivAssign<f64>`: multiplies each component by `1 / scalar`. */
  method DivAssign(self: Vec3, scalar: real) returns (updated: Vec3)
    requires scalar != 0.0
    ensures updated == Div(self, scalar)
  {
    var invScalar := 1.0 / scalar;
    updated := Vec3(self.x * invScalar, self.y * invScalar, self.z * invScalar);
  }

  // Algebraic laws of the operators.

  lemma AddSubCancel(a: Vec3, b: Vec3)
    ensures Sub(Add(a, b), b) == a
  {
  }

  lemma LengthScaled(k: real, n: Vec3)
    ensures LengthSquared(ScaleLeft(k, n)) == Square(k) * LengthSquared(n)
  {
  }

  lemma NegNeg(a: Vec3)
    ensures Neg(Neg(a)) == a
  {
  }

  lemma DotSymmetric(a: Vec3, b: Vec3)
    ensures Dot(a, b) == Dot(b, a)
  {
  }

  lemma DotSelf(a: Vec3)
    ensures Dot(a, a) == LengthSquared(a)
  {
  }

  lemma CrossOrthogonal(a: Vec3, b: Vec3)
    ensures Dot(a, Cross(a, b)) == 0.0
    ensures Dot(b, Cross(a, b)) == 0.0
  {
  }

  lemma CrossAntiCommutative(a: Vec3, b: Vec3)
    ensures Cross(a, b) == Neg(Cross(b, a))
  {
  }

  lemma DivIsScaleByInverse(v: Vec3, s: real)
    requires s != 0.0
    ensures Div(v, s) == Scale(v, 1.0 / s)
    ensures Scale(Div(v, s), s) == v
  {
    assert (1.0 / s) * s == 1.0;
    assert v.x * (1.0 / s) * s == v.x;
    assert v.y * (1.0 / s) * s == v.y;
    assert v.z * (1.0 / s) * s == v.z;
  }

  /** Negation keeps the length. */
  lemma NegKeepsLength(v: Vec3)
    ensures LengthSquared(Neg(v)) == LengthSquared(v)
  {
    var n := Neg(v);
    assert n == Vec3(-v.x, -v.y, -v.z);
    assert Square(n.x) == Square(v.x);
    assert Square(n.y) == Square(v.y);
    assert Square(n.z) == Square(v.z);
  }

  /** Lagrange's identity: `|a|^2 |b|^2 - (a.b)^2 == |a x b|^2`. */
  lemma {:induction false} Lagrange(a: Vec3, b: Vec3)
    ensures LengthSquared(a) * LengthSquared(b) - Dot(a, b) * Dot(a, b)
            == LengthSquared(Cross(a, b))
  {
    var c := Cross(a, b);
    LagrangeComponents(a.x, a.y, a.z, b.x, b.y, b.z);
    assert LengthSquared(a) == a.x * a.x + a.y * a.y + a.z * a.z;
    assert LengthSquared(b) == b.x * b.x + b.y * b.y + b.z * b.z;
    assert Dot(a, b) == a.x * b.x + a.y * b.y + a.z * b.z;
    assert LengthSquared(c) == c.x * c.x + c.y * c.y + c.z * c.z;
  }

  /** Lagrange's identity written out on the six coordinates. */
  lemma LagrangeComponents(p1: real, p2: real, p3: real, q1: real, q2: real, q3: real)
    ensures (p1 * p1 + p2 * p2 + p3 * p3) * (q1 * q1 + q2 * q2 + q3 * q3)
            - (p1 * q1 + p2 * q2 + p3 * q3) * (p1 * q1 + p2 * q2 + p3 * q3)
            == (p2 * q3 - p3 * q2) * (p2 * q3 - p3 * q2)
               + (p3 * q1 - p1 * q3) * (p3 * q1 - p1 * q3)
               + (p1 * q2 - p2 * q1) * (p1 * q2 - p2 * q1)
  {
  }

  /** Cauchy-Schwarz: `(a.b)^2 <= |a|^2 |b|^2`. */
  lemma CauchySchwarz(a: Vec3, b: Vec3)
    ensures Dot(a, b) * Dot(a, b) <= LengthSquared(a) * LengthSquared(b)
  {
    Lagrange(a, b);
  }
}
