/** Dielectric (glass) scattering (src/dielectric.rs): Snell refraction,
    total internal reflection and Schlick's approximation of the
    reflectance. `reflect` comes from a utility module that is not part of
    this model and is passed in; the uniform draw in [0, 1) is passed in. */
module Dielectrics {
  import opened Utils
  import opened Vectors
  import opened Rays
  import opened Materials
  import opened HitRecords

  /** `const_attenuation`: glass absorbs nothing. */
  const ConstAttenuation := Vec3(1.0, 1.0, 1.0)

  /** `eta_i_over_eta_t`: entering through the front face the ray goes from
      air into the medium, leaving it goes the other way. */
  function EtaRatio(frontFace: bool, refractiveIndex: RefractiveIndex): (eta: real)
    ensures 0.0 < eta
  {
    if frontFace then 1.0 / refractiveIndex else refractiveIndex
  }

  /** The ratios for entering and for leaving are reciprocal. */
  lemma EtaRatioReciprocal(refractiveIndex: RefractiveIndex)
    ensures EtaRatio(true, refractiveIndex) * EtaRatio(false, refractiveIndex) == 1.0
  {
  }

  /** `(-unit_direction).dot(normal).min(1.)`. */
  function CosTheta(unit: Vec3, normal: Vec3): (c: real)
    ensures c <= 1.0 && c <= Dot(Neg(unit), normal)
    ensures c == 1.0 || c == Dot(Neg(unit), normal)
  {
    Min(Dot(Neg(unit), normal), 1.0)
  }

  /** For a unit direction and a unit normal the cosine is in [-1, 1]. */
  lemma CosThetaRange(unit: Vec3, normal: Vec3)
    requires LengthSquared(unit) == 1.0 && LengthSquared(normal) == 1.0
    ensures -1.0 <= CosTheta(unit, normal) <= 1.0
  {
    NegKeepsLength(unit);
    CauchySchwarz(Neg(unit), normal);
    SquareAtMostOne(Dot(Neg(unit), normal));
  }

  /** `(1. - cos_theta * cos_theta).sqrt()`: a cosine in [-1, 1] has a sine
      in [0, 1], and the two satisfy sin² + cos² = 1. */
  function SinTheta(cosTheta: real, sqrt: real -> real): (sin: real)
    ensures IsSqrt(sqrt) && -1.0 <= cosTheta <= 1.0 ==>
      0.0 <= sin <= 1.0 && Square(sin) + Square(cosTheta) == 1.0
  {
    UnitSine(cosTheta, sqrt);
    sqrt(1.0 - cosTheta * cosTheta)
  }

  lemma UnitSine(cosTheta: real, sqrt: real -> real)
    ensures IsSqrt(sqrt) && -1.0 <= cosTheta <= 1.0 ==>
      0.0 <= sqrt(1.0 - cosTheta * cosTheta) <= 1.0 &&
      Square(sqrt(1.0 - cosTheta * cosTheta)) + Square(cosTheta) == 1.0
  {
    if IsSqrt(sqrt) && -1.0 <= cosTheta <= 1.0 {
      UnitSineInRange(cosTheta, sqrt);
    }
  }

  lemma UnitSineInRange(cosTheta: real, sqrt: real -> real)
    requires IsSqrt(sqrt) && -1.0 <= cosTheta <= 1.0
    ensures 0.0 <= sqrt(1.0 - cosTheta * cosTheta) <= 1.0
    ensures Square(sqrt(1.0 - cosTheta * cosTheta)) + Square(cosTheta) == 1.0
  {
    var x := 1.0 - cosTheta * cosTheta;
    SquareFacts(cosTheta);
    if cosTheta < 0.0 {
      var a := -cosTheta;
      MulLe(a, 1.0, a);
      assert a * a <= a;
      assert a * a == cosTheta * cosTheta;
    } else {
      MulLe(cosTheta, 1.0, cosTheta);
      assert cosTheta * cosTheta <= cosTheta;
    }
    assert 0.0 <= x <= 1.0;
    SqrtAt(sqrt, x);
    SquareAtMostOne(sqrt(x));
  }

  /** The part of `refract`'s result perpendicular to the normal. */
  function RefractParallel(uv: Vec3, n: Vec3, eta: real): Vec3
  {
    ScaleLeft(eta, Add(uv, ScaleLeft(CosTheta(uv, n), n)))
  }

  /** `refract`: a part perpendicular to the normal plus a part along it.
      For a unit normal (and a cosine the clamp leaves alone) it obeys
      Snell's law: the part of the refracted direction perpendicular to the
      normal is `eta` times that of the incoming direction. */
  function Refract(uv: Vec3, n: Vec3, eta: real, sqrt: real -> real): (r: Vec3)
    ensures LengthSquared(n) == 1.0 && Dot(Neg(uv), n) <= 1.0 ==>
      Tangent(r, n) == ScaleLeft(eta, Tangent(uv, n))
  {
    var parallel := RefractParallel(uv, n, eta);
    var k := -sqrt(1.0 - LengthSquared(parallel));
    RefractTangent(uv, n, eta, k);
    Add(parallel, ScaleLeft(k, n))
  }

  /** The part of `v` perpendicular to the unit vector `n`. */
  function Tangent(v: Vec3, n: Vec3): Vec3
  {
    Sub(v, ScaleLeft(Dot(v, n), n))
  }

  lemma DotAddScaled(a: Vec3, k: real, n: Vec3)
    ensures Dot(Add(a, ScaleLeft(k, n)), n) == Dot(a, n) + k * LengthSquared(n)
  {
  }

  lemma DotScaled(k: real, a: Vec3, n: Vec3)
    ensures Dot(ScaleLeft(k, a), n) == k * Dot(a, n)
  {
  }

  /** Pythagoras for orthogonal vectors. */
  lemma OrthogonalSum(a: Vec3, b: Vec3)
    requires Dot(a, b) == 0.0
    ensures LengthSquared(Add(a, b)) == LengthSquared(a) + LengthSquared(b)
  {
    assert LengthSquared(Add(a, b)) == LengthSquared(a) + 2.0 * Dot(a, b) + LengthSquared(b);
  }

  /** Unless the cosine was clamped, the perpendicular part of the refracted
      ray is orthogonal to the unit normal. */
  lemma ParallelOrthogonal(uv: Vec3, n: Vec3, eta: real)
    requires LengthSquared(n) == 1.0 && Dot(Neg(uv), n) <= 1.0
    ensures Dot(RefractParallel(uv, n, eta), n) == 0.0
  {
    var c := CosTheta(uv, n);
    assert c == -Dot(uv, n);
    DotAddScaled(uv, c, n);
    DotScaled(eta, Add(uv, ScaleLeft(c, n)), n);
  }

  /** The refracted direction is a unit vector whenever the refraction is
      possible, that is when the perpendicular part is at most unit long. */
  lemma RefractIsUnit(uv: Vec3, n: Vec3, eta: real, sqrt: real -> real)
    requires IsSqrt(sqrt) && LengthSquared(n) == 1.0 && Dot(Neg(uv), n) <= 1.0
    requires LengthSquared(RefractParallel(uv, n, eta)) <= 1.0
    ensures LengthSquared(Refract(uv, n, eta, sqrt)) == 1.0
  {
    var parallel := RefractParallel(uv, n, eta);
    var x := 1.0 - LengthSquared(parallel);
    var k := -sqrt(x);
    SqrtAt(sqrt, x);
    ParallelOrthogonal(uv, n, eta);
    DotScaled(k, n, parallel);
    DotSymmetric(parallel, ScaleLeft(k, n));
    OrthogonalSum(parallel, ScaleLeft(k, n));
    LengthScaled(k, n);
    SquareFacts(sqrt(x));
  }

  /** The perpendicular part plus any multiple `k` of the unit normal has
      the perpendicular part of `refract`'s result. */
  lemma RefractTangent(uv: Vec3, n: Vec3, eta: real, k: real)
    ensures LengthSquared(n) == 1.0 && Dot(Neg(uv), n) <= 1.0 ==>
      Tangent(Add(RefractParallel(uv, n, eta), ScaleLeft(k, n)), n) == ScaleLeft(eta, Tangent(uv, n))
  {
    if LengthSquared(n) == 1.0 && Dot(Neg(uv), n) <= 1.0 {
      var parallel := RefractParallel(uv, n, eta);
      var r := Add(parallel, ScaleLeft(k, n));
      ParallelOrthogonal(uv, n, eta);
      DotAddScaled(parallel, k, n);
      assert Dot(r, n) == k;
      assert Tangent(r, n) == parallel;
      assert CosTheta(uv, n) == -Dot(uv, n);
    }
  }

  /** Schlick's `r0`: the reflectance at normal incidence. It is never
      negative, vanishes exactly between media of equal index, and for a
      positive ratio is a probability below one. */
  function NormalReflectance(refIdx: real): (r0: real)
    requires refIdx != -1.0
    ensures 0.0 <= r0
    ensures r0 == 0.0 <==> refIdx == 1.0
    ensures 0.0 < refIdx ==> r0 < 1.0
  {
    var q := (1.0 - refIdx) / (1.0 + refIdx);
    ReflectanceBounds(refIdx, q);
    Square(q)
  }

  /** `reflection_probability`: Schlick's approximation
      `r0 + (1 - r0) (1 - cosine)^5`. */
  function ReflectionProbability(cosine: real, refIdx: real): (p: real)
    requires refIdx != -1.0
    ensures cosine == 1.0 ==> p == NormalReflectance(refIdx)
    ensures cosine == 0.0 ==> p == 1.0
  {
    var r0 := NormalReflectance(refIdx);
    r0 + (1.0 - r0) * Power(1.0 - cosine, 5)
  }

  lemma ReflectanceBounds(refIdx: real, q: real)
    requires refIdx != -1.0 && q == (1.0 - refIdx) / (1.0 + refIdx)
    ensures 0.0 <= Square(q)
    ensures Square(q) == 0.0 <==> refIdx == 1.0
    ensures 0.0 < refIdx ==> Square(q) < 1.0
  {
    assert q * (1.0 + refIdx) == 1.0 - refIdx;
    SquareFacts(q);
    if 0.0 < refIdx {
      assert -1.0 < q < 1.0;
      if q < 0.0 {
        SquareLt(-q, 1.0);
      } else {
        SquareLt(q, 1.0);
      }
    }
  }

  /** For a cosine in [0, 1] Schlick's reflectance lies between the normal
      reflectance and one. */
  lemma ReflectionProbabilityRange(cosine: real, refIdx: real)
    requires 0.0 < refIdx && 0.0 <= cosine <= 1.0
    ensures NormalReflectance(refIdx) <= ReflectionProbability(cosine, refIdx) <= 1.0
  {
    var r0 := NormalReflectance(refIdx);
    PowerUnitInterval(1.0 - cosine, 5);
    var k := Power(1.0 - cosine, 5);
    MulNonNeg(1.0 - r0, k);
    MulLe(k, 1.0, 1.0 - r0);
  }

  /** The reflect-or-refract decision: total internal reflection when Snell's
      law has no solution, otherwise reflection with Schlick's probability.
      Going into a medium at least as dense (a ratio in (0, 1]) Snell's law
      always has a solution, so only the draw decides. */
  function Reflects(eta: real, cosTheta: real, draw: real, sqrt: real -> real): (b: bool)
    requires eta != -1.0
    ensures IsSqrt(sqrt) && 0.0 < eta <= 1.0 && -1.0 <= cosTheta <= 1.0 ==>
      (b <==> draw < ReflectionProbability(cosTheta, eta))
  {
    DenserNoTotalReflection(eta, cosTheta, sqrt);
    eta * SinTheta(cosTheta, sqrt) > 1.0 || draw < ReflectionProbability(cosTheta, eta)
  }

  lemma DenserNoTotalReflection(eta: real, cosTheta: real, sqrt: real -> real)
    ensures IsSqrt(sqrt) && 0.0 < eta <= 1.0 && -1.0 <= cosTheta <= 1.0 ==>
      eta * SinTheta(cosTheta, sqrt) <= 1.0
  {
    if IsSqrt(sqrt) && 0.0 < eta <= 1.0 && -1.0 <= cosTheta <= 1.0 {
      var sin := SinTheta(cosTheta, sqrt);
      MulLe(eta, 1.0, sin);
      MulLe(sin, 1.0, 1.0);
    }
  }

  /** `Dielectric::scatter`: never absorbs; the ray leaves the hit point at
      the incoming ray's time, reflected or refracted, unattenuated. */
  function Scatter(refractiveIndex: RefractiveIndex, rIn: Ray, hit: HitRecord, draw: real,
                   reflect: (Vec3, Vec3) -> Vec3, sqrt: real -> real): (s: Option<Scattered>)
    ensures s.Some? && s.value.attenuation == ConstAttenuation
    ensures s.value.ray.origin == hit.p && s.value.ray.time == rIn.time
    ensures
      var unit := Norm(rIn.direction, sqrt);
      var eta := EtaRatio(hit.frontFace, refractiveIndex);
      var cosTheta := CosTheta(unit, hit.normal);
      (eta * SinTheta(cosTheta, sqrt) > 1.0 ==> s.value.ray.direction == reflect(unit, hit.normal)) &&
      (draw < ReflectionProbability(cosTheta, eta) ==> s.value.ray.direction == reflect(unit, hit.normal)) &&
      (!Reflects(eta, cosTheta, draw, sqrt) ==> s.value.ray.direction == Refract(unit, hit.normal, eta, sqrt))
  {
    var eta := EtaRatio(hit.frontFace, refractiveIndex);
    var unit := Norm(rIn.direction, sqrt);
    var cosTheta := CosTheta(unit, hit.normal);
    var direction :=
      if Reflects(eta, cosTheta, draw, sqrt) then reflect(unit, hit.normal)
      else Refract(unit, hit.normal, eta, sqrt);
    assert eta * SinTheta(cosTheta, sqrt) > 1.0 ==> Reflects(eta, cosTheta, draw, sqrt);
    Some(Scattered(Ray(hit.p, direction, rIn.time), ConstAttenuation))
  }

  /** Entering a medium at least as dense as air there is no total internal
      reflection: only the random draw can make the ray reflect. */
  lemma NoTotalReflectionEntering(refractiveIndex: RefractiveIndex, unit: Vec3, normal: Vec3, sqrt: real -> real)
    requires IsSqrt(sqrt) && 1.0 <= refractiveIndex
    requires LengthSquared(unit) == 1.0 && LengthSquared(normal) == 1.0
    ensures EtaRatio(true, refractiveIndex) * SinTheta(CosTheta(unit, normal), sqrt) <= 1.0
  {
    var eta := EtaRatio(true, refractiveIndex);
    var sin := SinTheta(CosTheta(unit, normal), sqrt);
    CosThetaRange(unit, normal);
    assert eta <= 1.0;
    MulLe(eta, 1.0, sin);
    MulLe(sin, 1.0, 1.0);
  }
}
