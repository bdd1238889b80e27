/** Spheres whose center moves linearly between two keyframes
    (src/moving_sphere.rs). */
module MovingSpheres {
  import opened Utils
  import opened Vectors
  import opened Rays
  import opened Aabbs
  import opened Materials
  import opened HitRecords
  import opened Spheres

  datatype MovingSphereData = MovingSphere(
    center0: Vec3, center1: Vec3, time0: real, time1: real,
    radius: real, material: Material)

  /** `center` divides by `time1 - time0`, so the keyframe times differ. */
  type MovingSphere = m: MovingSphereData | m.time0 != m.time1
    witness MovingSphere(Zero, Zero, 0.0, 1.0, 1.0, Dielectric(1.0))

  /** `center(time)`: linear interpolation (and extrapolation) between the
      two keyframe centers. */
  function Center(m: MovingSphere, time: real): Vec3
  {
    Add(m.center0, ScaleLeft((time - m.time0) / (m.time1 - m.time0), Sub(m.center1, m.center0)))
  }

  /** The center passes through the keyframes at their times. */
  lemma CenterAtKeyframes(m: MovingSphere)
    ensures Center(m, m.time0) == m.center0
    ensures Center(m, m.time1) == m.center1
  {
    var d := Sub(m.center1, m.center0);
    var span := m.time1 - m.time0;
    assert span != 0.0;
    assert (m.time0 - m.time0) / span == 0.0;
    assert span / span == 1.0;
    assert ScaleLeft(0.0, d) == Zero;
    assert ScaleLeft(1.0, d) == d;
  }

  /** Each coordinate of the center is an affine function of time:
      `center0 + (time - time0) * slope`. */
  lemma CenterAffine(m: MovingSphere, time: real, i: nat)
    requires i < 3
    ensures Center(m, time).At(i) ==
      m.center0.At(i) + (time - m.time0) * Slope(m, i)
  {
    var k := 1.0 / (m.time1 - m.time0);
    var d := Sub(m.center1, m.center0).At(i);
    assert (time - m.time0) / (m.time1 - m.time0) == (time - m.time0) * k;
    assert Center(m, time).At(i) == m.center0.At(i) + ((time - m.time0) * k) * d;
  }

  /** How fast coordinate `i` of the center moves per unit of time. */
  function Slope(m: MovingSphere, i: nat): real
    requires i < 3
  {
    (m.center1.At(i) - m.center0.At(i)) * (1.0 / (m.time1 - m.time0))
  }

  /** At a time between `t0` and `t1` every coordinate of the center lies
      between its values at `t0` and at `t1`. */
  lemma CenterBetween(m: MovingSphere, t0: real, t1: real, time: real, i: nat)
    requires i < 3
    requires t0 <= time <= t1 || t1 <= time <= t0
    ensures Center(m, t0).At(i) <= Center(m, time).At(i) <= Center(m, t1).At(i) ||
            Center(m, t1).At(i) <= Center(m, time).At(i) <= Center(m, t0).At(i)
  {
    var g := Slope(m, i);
    CenterAffine(m, t0, i);
    CenterAffine(m, t1, i);
    CenterAffine(m, time, i);
    BetweenAffine(m.center0.At(i), g, m.time0, t0, t1, time);
  }

  /** An affine function takes, between two arguments, a value between
      its values there. */
  lemma BetweenAffine(base: real, g: real, origin: real, t0: real, t1: real, time: real)
    requires t0 <= time <= t1 || t1 <= time <= t0
    ensures base + (t0 - origin) * g <= base + (time - origin) * g <= base + (t1 - origin) * g ||
            base + (t1 - origin) * g <= base + (time - origin) * g <= base + (t0 - origin) * g
  {
    AffineDifference(base, g, origin, time, t0);
    AffineDifference(base, g, origin, t1, time);
    BetweenByOffsets(base + (t0 - origin) * g, base + (t1 - origin) * g, base + (time - origin) * g,
                     time - t0, t1 - time, g);
  }

  lemma AffineDifference(base: real, g: real, origin: real, x: real, y: real)
    ensures (base + (x - origin) * g) - (base + (y - origin) * g) == (x - y) * g
  {
  }

  /** `c` is reached from `a` and `b` is reached from `c` by steps `x * g`
      and `y * g` with `x` and `y` of the same sign, so `c` lies between. */
  lemma BetweenByOffsets(a: real, b: real, c: real, x: real, y: real, g: real)
    requires (0.0 <= x && 0.0 <= y) || (x <= 0.0 && y <= 0.0)
    requires c - a == x * g && b - c == y * g
    ensures a <= c <= b || b <= c <= a
  {
    if 0.0 <= x && 0.0 <= y {
      if 0.0 <= g {
        MulNonNeg(x, g);
        MulNonNeg(y, g);
      } else {
        MulNonNeg(x, -g);
        MulNonNeg(y, -g);
      }
    } else {
      if 0.0 <= g {
        MulNonNeg(-x, g);
        MulNonNeg(-y, g);
      } else {
        MulNonNeg(-x, -g);
        MulNonNeg(-y, -g);
      }
    }
  }

  /** `MovingSphere::hit`: the sphere test against the center at the ray's time. */
  function Hit(m: MovingSphere, r: Ray, tMin: real, tMax: Bound, sqrt: real -> real): (hit: Option<HitRecord>)
    ensures hit.Some? ==> InRange(hit.value.t, tMin, tMax) && hit.value.p == At(r, hit.value.t)
    ensures hit.Some? ==> hit.value.material == m.material
  {
    HitAt(Center(m, r.time), m.radius, m.material, r, tMin, tMax, sqrt)
  }

  /** `bounding_box(t0, t1)`: the box around the sphere at `t0` combined with
      the box around it at `t1`, with the radius taken as its absolute value. */
  function BoundingBox(m: MovingSphere, t0: real, t1: real): (box: Option<Aabb>)
    ensures box.Some?
    ensures Contains(box.value, BoxAround(Center(m, t0), m.radius))
    ensures Contains(box.value, BoxAround(Center(m, t1), m.radius))
    ensures 0.0 <= m.radius ==> box == BoundingBoxAsWritten(m, t0, t1)
  {
    Some(Combine(BoxAround(Center(m, t0), m.radius), BoxAround(Center(m, t1), m.radius)))
  }

  /** `bounding_box(t0, t1)` exactly as written: `center -+ radius` at both
      times, inverted when the radius is negative. */
  function BoundingBoxAsWritten(m: MovingSphere, t0: real, t1: real): (box: Option<Aabb>)
    ensures box.Some?
    ensures Contains(box.value, BoxAroundAsWritten(Center(m, t0), m.radius))
    ensures Contains(box.value, BoxAroundAsWritten(Center(m, t1), m.radius))
  {
    Some(Combine(BoxAroundAsWritten(Center(m, t0), m.radius), BoxAroundAsWritten(Center(m, t1), m.radius)))
  }

  /** For every time between `t0` and `t1` the box covers the sphere at that
      time. */
  lemma BoundingBoxCoversMotion(m: MovingSphere, t0: real, t1: real, time: real)
    requires t0 <= time <= t1 || t1 <= time <= t0
    ensures Contains(BoundingBox(m, t0, t1).value, BoxAround(Center(m, time), m.radius))
  {
    var box := BoundingBox(m, t0, t1).value;
    var inner := BoxAround(Center(m, time), m.radius);
    forall i | 0 <= i < 3
      ensures box.min.At(i) <= inner.min.At(i) && inner.max.At(i) <= box.max.At(i)
    {
      CenterBetween(m, t0, t1, time, i);
    }
  }

  /** The reported hit is the nearest place where the ray meets the sphere
      at the ray's time. */
  lemma HitNearest(m: MovingSphere, r: Ray, tMin: real, tMax: Bound, sqrt: real -> real)
    requires IsSqrt(sqrt)
    ensures Nearest(Hit(m, r, tMin, tMax, sqrt), Candidates(Center(m, r.time), m.radius, r, sqrt), tMin, tMax)
  {
    HitAtNearest(Center(m, r.time), m.radius, m.material, r, tMin, tMax, sqrt);
  }

  /** A resting sphere of radius -1 is hit along the z axis, yet its box as
      written rejects the ray. */
  lemma NegativeRadiusBoxMissesHit(sqrt: real -> real, material: Material)
    requires sqrt(1.0) == 1.0
    ensures var m: MovingSphere := MovingSphere(Zero, Zero, 0.0, 1.0, -1.0, material);
      var r := Ray(Vec3(0.0, 0.0, -5.0), Vec3(0.0, 0.0, 1.0), 0.5);
      Hit(m, r, 0.001, Infinity, sqrt).Some? &&
      !SlabsOverlap(BoundingBoxAsWritten(m, 0.0, 1.0).value, r, 0.001, Infinity)
  {
    var m: MovingSphere := MovingSphere(Zero, Zero, 0.0, 1.0, -1.0, material);
    var r := Ray(Vec3(0.0, 0.0, -5.0), Vec3(0.0, 0.0, 1.0), 0.5);
    RestingHit(sqrt, m, r);
    RestingBoxRejects(m, r);
  }

  lemma RestingCenter(m: MovingSphere, time: real)
    requires m.center0 == Zero && m.center1 == Zero
    ensures Center(m, time) == Zero
  {
  }

  lemma RestingHit(sqrt: real -> real, m: MovingSphere, r: Ray)
    requires sqrt(1.0) == 1.0
    requires m.center0 == Zero && m.center1 == Zero && m.radius == -1.0
    requires r.origin == Vec3(0.0, 0.0, -5.0) && r.direction == Vec3(0.0, 0.0, 1.0)
    ensures Hit(m, r, 0.001, Infinity, sqrt).Some?
  {
    RestingCenter(m, r.time);
    AxisRayQuadratic(Zero, m.radius, r);
    NegativeRadiusHit(sqrt, Sphere(Center(m, r.time), m.radius, m.material), r);
  }

  lemma RestingBoxRejects(m: MovingSphere, r: Ray)
    requires m.center0 == Zero && m.center1 == Zero && m.radius == -1.0
    requires r.origin == Vec3(0.0, 0.0, -5.0) && r.direction == Vec3(0.0, 0.0, 1.0)
    ensures !SlabsOverlap(BoundingBoxAsWritten(m, 0.0, 1.0).value, r, 0.001, Infinity)
  {
    RestingBox(m);
    OutsideSlabRejects(BoundingBoxAsWritten(m, 0.0, 1.0).value, r);
  }

  lemma RestingBox(m: MovingSphere)
    requires m.center0 == Zero && m.center1 == Zero && m.radius == -1.0
    ensures BoundingBoxAsWritten(m, 0.0, 1.0).value.min.x == 1.0
  {
    RestingCenter(m, 0.0);
    RestingCenter(m, 1.0);
  }
}
