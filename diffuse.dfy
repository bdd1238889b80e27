/** Lambertian (diffuse) scattering (src/diffuse.rs). The random unit
    vector and the random point in the unit ball are passed in as samples. */
module Diffuse {
  import opened Utils
  import opened Vectors
  import opened Rays
  import opened Textures
  import opened Materials
  import opened HitRecords

  /** `Lambertian::scatter`: the ray leaves the hit point along the normal
      offset by a random unit vector, keeps the incoming ray's time, and is
      attenuated by the texture's colour at the hit; it is never absorbed. */
  function Scatter(albedo: SolidColor, rIn: Ray, hit: HitRecord, unitSample: Vec3): (s: Option<Scattered>)
    ensures s.Some?
    ensures s.value.ray.origin == hit.p && s.value.ray.time == rIn.time
    ensures Sub(s.value.ray.direction, hit.normal) == unitSample
    ensures s.value.attenuation == Value(albedo, hit.u, hit.v, hit.p)
  {
    Some(Scattered(Ray(hit.p, Add(hit.normal, unitSample), rIn.time), Value(albedo, hit.u, hit.v, hit.p)))
  }

  /** With a unit normal and a unit sample the scattered ray never points
      into the surface. */
  lemma ScatterLeavesSurface(albedo: SolidColor, rIn: Ray, hit: HitRecord, unitSample: Vec3)
    requires LengthSquared(hit.normal) == 1.0 && LengthSquared(unitSample) == 1.0
    ensures 0.0 <= Dot(Scatter(albedo, rIn, hit, unitSample).value.ray.direction, hit.normal)
  {
    var n, s := hit.normal, unitSample;
    CauchySchwarz(s, n);
    assert Square(Dot(s, n)) <= 1.0;
    SquareAtMostOne(Dot(s, n));
    assert Dot(Add(n, s), n) == LengthSquared(n) + Dot(s, n);
  }

  /** `random_in_hemisphere`: the point drawn in the unit ball, flipped into
      the normal's hemisphere when it is not strictly inside it already. */
  function RandomInHemisphere(normal: Vec3, inUnitSphere: Vec3): (v: Vec3)
    ensures v == inUnitSphere || v == Neg(inUnitSphere)
    ensures 0.0 <= Dot(v, normal)
    ensures LengthSquared(v) == LengthSquared(inUnitSphere)
  {
    if Dot(inUnitSphere, normal) > 0.0 then inUnitSphere
    else
      NegKeepsLength(inUnitSphere);
      Neg(inUnitSphere)
  }
}
