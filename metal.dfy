/** Metal scattering (src/metal.rs). `reflect` comes from a utility module
    that is not part of this model, so it is passed in; the random point in
    the unit ball is passed in as a sample. */
module Metals {
  import opened Utils
  import opened Vectors
  import opened Rays
  import opened Materials
  import opened HitRecords

  /** The direction `scatter` tries: the reflection of the unit incoming
      direction about the normal, blurred by `fuzziness` times a point of
      the unit ball. It lies within `fuzziness` of the reflection, and
      without fuzz the metal is a perfect mirror whatever the sample. */
  function FuzzedReflection(fuzziness: real, rIn: Ray, hit: HitRecord, inUnitSphere: Vec3,
                            reflect: (Vec3, Vec3) -> Vec3, sqrt: real -> real): (d: Vec3)
    ensures LengthSquared(inUnitSphere) <= 1.0 ==>
      LengthSquared(Sub(d, reflect(Norm(rIn.direction, sqrt), hit.normal))) <= Square(fuzziness)
    ensures fuzziness == 0.0 ==> d == reflect(Norm(rIn.direction, sqrt), hit.normal)
  {
    var reflected := reflect(Norm(rIn.direction, sqrt), hit.normal);
    BlurWithin(reflected, fuzziness, inUnitSphere);
    Add(reflected, ScaleLeft(fuzziness, inUnitSphere))
  }

  /** Adding `k` times a point of the unit ball moves a vector by at most `|k|`. */
  lemma BlurWithin(v: Vec3, k: real, sample: Vec3)
    ensures LengthSquared(sample) <= 1.0 ==> LengthSquared(Sub(Add(v, ScaleLeft(k, sample)), v)) <= Square(k)
    ensures k == 0.0 ==> Add(v, ScaleLeft(k, sample)) == v
  {
    var blur := ScaleLeft(k, sample);
    assert Sub(Add(v, blur), v) == blur;
    if LengthSquared(sample) <= 1.0 {
      ScaledWithin(k, sample);
    }
  }

  lemma ScaledWithin(k: real, sample: Vec3)
    requires LengthSquared(sample) <= 1.0
    ensures LengthSquared(ScaleLeft(k, sample)) <= Square(k)
  {
    LengthScaled(k, sample);
    SquareFacts(k);
    AtMostFactor(Square(k), LengthSquared(sample));
  }

  lemma AtMostFactor(q: real, l: real)
    requires 0.0 <= q && l <= 1.0
    ensures q * l <= q
  {
    MulLe(l, 1.0, q);
  }

  /** `Metal::scatter`: the ray is absorbed unless the blurred reflection
      leaves the surface; otherwise it leaves the hit point at the incoming
      ray's time, attenuated by the albedo. */
  function Scatter(albedo: Vec3, fuzziness: real, rIn: Ray, hit: HitRecord, inUnitSphere: Vec3,
                   reflect: (Vec3, Vec3) -> Vec3, sqrt: real -> real): (s: Option<Scattered>)
    ensures s.Some? <==> 0.0 < Dot(FuzzedReflection(fuzziness, rIn, hit, inUnitSphere, reflect, sqrt), hit.normal)
    ensures s.Some? ==> s.value.attenuation == albedo
    ensures s.Some? ==>
      s.value.ray == Ray(hit.p, FuzzedReflection(fuzziness, rIn, hit, inUnitSphere, reflect, sqrt), rIn.time)
  {
    var scattered := Ray(hit.p, FuzzedReflection(fuzziness, rIn, hit, inUnitSphere, reflect, sqrt), rIn.time);
    if Dot(scattered.direction, hit.normal) > 0.0 then Some(Scattered(scattered, albedo)) else None
  }

  /** The textbook mirror reflection `v - 2 (v.n) n`. */
  function Mirror(v: Vec3, n: Vec3): Vec3
  {
    Sub(v, ScaleLeft(2.0 * Dot(v, n), n))
  }

  /** Mirroring about a unit normal flips the component along the normal. */
  lemma MirrorFlipsNormalComponent(v: Vec3, n: Vec3)
    requires LengthSquared(n) == 1.0
    ensures Dot(Mirror(v, n), n) == -Dot(v, n)
  {
    var d := Dot(v, n);
    assert Dot(Mirror(v, n), n) == d - 2.0 * d * LengthSquared(n);
  }

  /** Normalising keeps the sign of a dot product. */
  lemma NormKeepsDotSign(v: Vec3, n: Vec3, sqrt: real -> real)
    requires IsSqrt(sqrt) && v != Zero
    ensures Dot(Norm(v, sqrt), n) < 0.0 <==> Dot(v, n) < 0.0
  {
    var m := Magnitude(v, sqrt);
    var k := 1.0 / m;
    assert Norm(v, sqrt) == Vec3(v.x / m, v.y / m, v.z / m);
    assert Dot(Norm(v, sqrt), n) == Dot(v, n) * k;
    QuotientCompare(Dot(v, n), m, 0.0);
  }

  /** With the textbook reflection, no fuzz and a unit normal, the metal
      reflects exactly the rays that arrive at the front of the surface and
      absorbs the grazing ones. */
  lemma SharpMirrorScatters(albedo: Vec3, rIn: Ray, hit: HitRecord, inUnitSphere: Vec3,
                            reflect: (Vec3, Vec3) -> Vec3, sqrt: real -> real)
    requires IsSqrt(sqrt) && rIn.direction != Zero && LengthSquared(hit.normal) == 1.0
    requires forall v, n :: reflect(v, n) == Mirror(v, n)
    ensures Scatter(albedo, 0.0, rIn, hit, inUnitSphere, reflect, sqrt).Some? <==> Dot(rIn.direction, hit.normal) < 0.0
  {
    var unit := Norm(rIn.direction, sqrt);
    MirrorFlipsNormalComponent(unit, hit.normal);
    NormKeepsDotSign(rIn.direction, hit.normal, sqrt);
  }
}
