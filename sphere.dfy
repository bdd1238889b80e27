/** Spheres (src/sphere.rs) and the ray-sphere quadratic that the moving
    sphere (src/moving_sphere.rs) shares with them. */
module Spheres {
  import opened Utils
  import opened Vectors
  import opened Rays
  import opened Aabbs
  import opened Materials
  import opened HitRecords

  datatype Sphere = Sphere(center: Vec3, radius: real, material: Material)

  /** `a t^2 + 2 half_b t + c`, the quadratic whose roots are where a ray
      meets a sphere. */
  datatype Quadratic = Quadratic(a: real, halfB: real, c: real)
  {
    function Discriminant(): real
    {
      Square(halfB) - a * c
    }

    function Eval(t: real): real
    {
      a * Square(t) + 2.0 * halfB * t + c
    }
  }

  /** `oc = origin - center`, `a = |direction|^2`, `half_b = oc . direction`,
      `c = |oc|^2 - radius^2`. */
  function RayQuadratic(center: Vec3, radius: real, r: Ray): Quadratic
  {
    var oc := Sub(r.origin, center);
    Quadratic(LengthSquared(r.direction), Dot(oc, r.direction), LengthSquared(oc) - Square(radius))
  }

  /** The quadratic at `t` is the squared distance of `r.at(t)` from the
      center minus the squared radius. */
  lemma EvalIsDistance(center: Vec3, radius: real, r: Ray, t: real)
    ensures RayQuadratic(center, radius, r).Eval(t)
            == LengthSquared(Sub(At(r, t), center)) - Square(radius)
  {
    var oc := Sub(r.origin, center);
    var d := r.direction;
    var p := Sub(At(r, t), center);
    assert p == Vec3(oc.x + d.x * t, oc.y + d.y * t, oc.z + d.z * t);
    assert Square(p.x) == Square(oc.x) + 2.0 * t * (oc.x * d.x) + Square(t) * Square(d.x);
    assert Square(p.y) == Square(oc.y) + 2.0 * t * (oc.y * d.y) + Square(t) * Square(d.y);
    assert Square(p.z) == Square(oc.z) + 2.0 * t * (oc.z * d.z) + Square(t) * Square(d.z);
  }

  /** A positive discriminant needs a moving ray and a non-degenerate
      sphere, so both divisions of `hit` are defined. */
  lemma PositiveDiscriminant(center: Vec3, radius: real, r: Ray)
    requires RayQuadratic(center, radius, r).Discriminant() > 0.0
    ensures 0.0 < RayQuadratic(center, radius, r).a
    ensures radius != 0.0
  {
    var oc := Sub(r.origin, center);
    var q := RayQuadratic(center, radius, r);
    if q.a == 0.0 {
      StillRayMisses(oc, r.direction, q);
    }
    if radius == 0.0 {
      CauchySchwarz(oc, r.direction);
      PointSphereMisses(Dot(oc, r.direction), LengthSquared(r.direction), LengthSquared(oc), q);
    }
  }

  lemma StillRayMisses(oc: Vec3, d: Vec3, q: Quadratic)
    requires q.a == LengthSquared(d) && q.halfB == Dot(oc, d) && q.a == 0.0
    ensures q.Discriminant() == 0.0
  {
    LengthSquaredZero(d);
    DotZero(oc, d);
  }

  lemma DotZero(v: Vec3, d: Vec3)
    requires d == Zero
    ensures Dot(v, d) == 0.0
  {
  }

  lemma PointSphereMisses(b: real, a: real, l: real, q: Quadratic)
    requires b * b <= a * l
    requires q == Quadratic(a, b, l - Square(0.0))
    ensures q.Discriminant() <= 0.0
  {
  }

  /** The two roots `(-half_b -+ sqrt(discriminant)) / a`, smaller first. */
  function Roots(q: Quadratic, sqrt: real -> real): (real, real)
    requires q.a != 0.0
  {
    var discSqrt := sqrt(q.Discriminant());
    ((-q.halfB - discSqrt) / q.a, (-q.halfB + discSqrt) / q.a)
  }

  /** The roots of the quadratic of a ray and a sphere it crosses. */
  function SphereRoots(center: Vec3, radius: real, r: Ray, sqrt: real -> real): (real, real)
    requires RayQuadratic(center, radius, r).Discriminant() > 0.0
  {
    PositiveDiscriminant(center, radius, r);
    Roots(RayQuadratic(center, radius, r), sqrt)
  }

  /** The parameters the sphere can report for a ray: both roots when the
      discriminant is positive, none otherwise (a tangent ray, with a zero
      discriminant, counts as a miss). */
  function Candidates(center: Vec3, radius: real, r: Ray, sqrt: real -> real): set<real>
  {
    var q := RayQuadratic(center, radius, r);
    if q.Discriminant() <= 0.0 then {}
    else
      var (root1, root2) := SphereRoots(center, radius, r, sqrt);
      {root1, root2}
  }

  /** The body shared by `Sphere::hit` and `MovingSphere::hit`: the smaller
      root if it lies in `(t_min, t_max)`, else the larger one if it does,
      with the outward normal `(p - center) / radius`. */
  function HitAt(center: Vec3, radius: real, material: Material, r: Ray,
                 tMin: real, tMax: Bound, sqrt: real -> real): (hit: Option<HitRecord>)
    ensures RayQuadratic(center, radius, r).Discriminant() <= 0.0 ==> hit.None?
    ensures hit.Some? ==> InRange(hit.value.t, tMin, tMax)
    ensures hit.Some? ==> hit.value.t in Candidates(center, radius, r, sqrt)
    ensures hit.Some? ==> hit.value.p == At(r, hit.value.t) && hit.value.material == material
    ensures hit.Some? ==>
      radius != 0.0 && hit.value == New(hit.value.t, hit.value.p, Div(Sub(hit.value.p, center), radius), r, material)
  {
    var q := RayQuadratic(center, radius, r);
    if q.Discriminant() <= 0.0 then None
    else
      PositiveDiscriminant(center, radius, r);
      var (root1, root2) := SphereRoots(center, radius, r, sqrt);
      if InRange(root1, tMin, tMax) then
        var p := At(r, root1);
        Some(New(root1, p, Div(Sub(p, center), radius), r, material))
      else if InRange(root2, tMin, tMax) then
        var p := At(r, root2);
        Some(New(root2, p, Div(Sub(p, center), radius), r, material))
      else
        None
  }

  /** The smaller root is preferred: it is reported whenever it is in range,
      and the larger one only when the smaller one is not. */
  lemma HitAtPrefersSmallerRoot(center: Vec3, radius: real, material: Material, r: Ray,
                                tMin: real, tMax: Bound, sqrt: real -> real)
    requires RayQuadratic(center, radius, r).Discriminant() > 0.0
    ensures var (root1, root2) := SphereRoots(center, radius, r, sqrt);
      var hit := HitAt(center, radius, material, r, tMin, tMax, sqrt);
      (InRange(root1, tMin, tMax) ==> hit.Some? && hit.value.t == root1) &&
      (!InRange(root1, tMin, tMax) && InRange(root2, tMin, tMax) ==> hit.Some? && hit.value.t == root2) &&
      (!InRange(root1, tMin, tMax) && !InRange(root2, tMin, tMax) ==> hit.None?)
  {
  }

  lemma SmallerRootInRangeHits(center: Vec3, radius: real, material: Material, r: Ray,
                               tMin: real, tMax: Bound, sqrt: real -> real)
    requires RayQuadratic(center, radius, r).Discriminant() > 0.0
    requires InRange(SphereRoots(center, radius, r, sqrt).0, tMin, tMax)
    ensures HitAt(center, radius, material, r, tMin, tMax, sqrt).Some?
  {
    HitAtPrefersSmallerRoot(center, radius, material, r, tMin, tMax, sqrt);
  }

  /** With a true square root the smaller root really is smaller. */
  lemma RootsOrdered(q: Quadratic, sqrt: real -> real)
    requires IsSqrt(sqrt) && 0.0 < q.a && 0.0 < q.Discriminant()
    ensures Roots(q, sqrt).0 < Roots(q, sqrt).1
  {
    var s := sqrt(q.Discriminant());
    SqrtAt(sqrt, q.Discriminant());
    var k := 1.0 / q.a;
    assert 0.0 < k;
    assert (-q.halfB - s) / q.a == (-q.halfB - s) * k;
    assert (-q.halfB + s) / q.a == (-q.halfB + s) * k;
    MulLt(-q.halfB - s, -q.halfB + s, k);
  }

  /** Vieta: `a (t - root1) (t - root2)` is the quadratic. */
  lemma Factor(q: Quadratic, s: real, t: real)
    requires q.a != 0.0 && Square(s) == q.Discriminant()
    ensures q.a * ((t - (-q.halfB - s) / q.a) * (t - (-q.halfB + s) / q.a)) == q.Eval(t)
  {
    var a, b, c := q.a, q.halfB, q.c;
    var u := 1.0 / a;
    assert a * u == 1.0;
    var r1 := (-b - s) * u;
    var r2 := (-b + s) * u;
    assert (-b - s) / a == r1;
    assert (-b + s) / a == r2;
    assert a * r1 + a * r2 == -2.0 * b;
    assert a * (r1 * r2) == (Square(b) - Square(s)) * u;
    assert (Square(b) - Square(s)) * u == c;
  }

  /** A product of two reals is zero only when a factor is. */
  lemma ZeroProduct(x: real, y: real)
    requires x * y == 0.0
    ensures x == 0.0 || y == 0.0
  {
    if x != 0.0 && y != 0.0 {
      if 0.0 < x && 0.0 < y { MulPos(x, y); }
      else if x < 0.0 && y < 0.0 { MulPos(-x, -y); }
      else if x < 0.0 { MulPos(-x, y); }
      else { MulPos(x, -y); }
    }
  }

  /** The roots are exactly the zeros of the quadratic. */
  lemma RootsAreZeros(q: Quadratic, s: real, t: real)
    requires q.a != 0.0 && Square(s) == q.Discriminant()
    ensures t == (-q.halfB - s) / q.a || t == (-q.halfB + s) / q.a <==> q.Eval(t) == 0.0
  {
    Factor(q, s, t);
    ZerosOfFactored(q.a, (-q.halfB - s) / q.a, (-q.halfB + s) / q.a, t, q.Eval(t));
  }

  /** `a (t - root1) (t - root2)` with `a != 0` vanishes exactly at the roots. */
  lemma ZerosOfFactored(a: real, root1: real, root2: real, t: real, e: real)
    requires a != 0.0 && e == a * ((t - root1) * (t - root2))
    ensures t == root1 || t == root2 <==> e == 0.0
  {
    if e == 0.0 {
      ZeroProduct(a, (t - root1) * (t - root2));
      ZeroProduct(t - root1, t - root2);
    }
  }

  /** The candidates are exactly the parameters whose ray point lies on the
      sphere, provided the discriminant is positive. */
  lemma CandidatesOnSphere(center: Vec3, radius: real, r: Ray, sqrt: real -> real, t: real)
    requires IsSqrt(sqrt)
    ensures t in Candidates(center, radius, r, sqrt) <==>
      RayQuadratic(center, radius, r).Discriminant() > 0.0 &&
      LengthSquared(Sub(At(r, t), center)) == Square(radius)
  {
    var q := RayQuadratic(center, radius, r);
    EvalIsDistance(center, radius, r, t);
    if q.Discriminant() > 0.0 {
      PositiveDiscriminant(center, radius, r);
      SqrtAt(sqrt, q.Discriminant());
      RootsAreZeros(q, sqrt(q.Discriminant()), t);
    }
  }

  /** Strictly between the roots the ray point is strictly inside the sphere. */
  lemma InsideBetweenRoots(center: Vec3, radius: real, r: Ray, sqrt: real -> real, t: real)
    requires IsSqrt(sqrt) && RayQuadratic(center, radius, r).Discriminant() > 0.0
    requires SphereRoots(center, radius, r, sqrt).0 < t < SphereRoots(center, radius, r, sqrt).1
    ensures LengthSquared(Sub(At(r, t), center)) < Square(radius)
  {
    var q := RayQuadratic(center, radius, r);
    PositiveDiscriminant(center, radius, r);
    var s := sqrt(q.Discriminant());
    SqrtAt(sqrt, q.Discriminant());
    var (root1, root2) := SphereRoots(center, radius, r, sqrt);
    Factor(q, s, t);
    EvalIsDistance(center, radius, r, t);
    assert root1 == (-q.halfB - s) / q.a && root2 == (-q.halfB + s) / q.a;
    NegativeBetweenRoots(q.a, (-q.halfB - s) / q.a, (-q.halfB + s) / q.a, t, q.Eval(t));
  }

  /** A quadratic with a positive leading coefficient is negative strictly
      between its roots. */
  lemma NegativeBetweenRoots(a: real, root1: real, root2: real, t: real, e: real)
    requires e == a * ((t - root1) * (t - root2)) && 0.0 < a && root1 < t < root2
    ensures e < 0.0
  {
    MulPos(t - root1, root2 - t);
    MulPos(a, (t - root1) * (root2 - t));
    assert a * ((t - root1) * (t - root2)) == -(a * ((t - root1) * (root2 - t)));
  }

  /** The reported hit is the nearest candidate in the interval, and there is
      none when no candidate lies in it. */
  lemma HitAtNearest(center: Vec3, radius: real, material: Material, r: Ray,
                     tMin: real, tMax: Bound, sqrt: real -> real)
    requires IsSqrt(sqrt)
    ensures Nearest(HitAt(center, radius, material, r, tMin, tMax, sqrt),
                    Candidates(center, radius, r, sqrt), tMin, tMax)
  {
    var q := RayQuadratic(center, radius, r);
    if q.Discriminant() > 0.0 {
      PositiveDiscriminant(center, radius, r);
      RootsOrdered(q, sqrt);
    }
  }

  /** On the sphere the outward normal `(p - center) / radius` has unit
      length, and so has the normal the record stores. */
  lemma HitNormalIsUnit(center: Vec3, radius: real, material: Material, r: Ray,
                        tMin: real, tMax: Bound, sqrt: real -> real)
    requires IsSqrt(sqrt)
    requires HitAt(center, radius, material, r, tMin, tMax, sqrt).Some?
    ensures LengthSquared(HitAt(center, radius, material, r, tMin, tMax, sqrt).value.normal) == 1.0
  {
    var rec := HitAt(center, radius, material, r, tMin, tMax, sqrt).value;
    CandidatesOnSphere(center, radius, r, sqrt, rec.t);
    var n := Div(Sub(rec.p, center), radius);
    OutwardNormalIsUnit(center, radius, rec.p);
    NegKeepsLength(n);
  }

  lemma OutwardNormalIsUnit(center: Vec3, radius: real, p: Vec3)
    requires radius != 0.0 && LengthSquared(Sub(p, center)) == Square(radius)
    ensures LengthSquared(Div(Sub(p, center), radius)) == 1.0
  {
    var v := Sub(p, center);
    NormIsUnit(v, radius);
    assert Div(v, radius) == Vec3(v.x / radius, v.y / radius, v.z / radius);
  }

  /** `bounding_box` as written: `center -+ (radius, radius, radius)`. For a
      negative radius its `min` lies above its `max`. */
  function BoxAroundAsWritten(center: Vec3, radius: real): (box: Aabb)
    ensures radius < 0.0 ==> forall i :: 0 <= i < 3 ==> box.max.At(i) < box.min.At(i)
  {
    var extent := Vec3(radius, radius, radius);
    Aabb(Sub(center, extent), Add(center, extent))
  }

  /** The box the rest of the model uses: `center -+ |radius|`, which is the
      source's box whenever the radius is non-negative. */
  function BoxAround(center: Vec3, radius: real): (box: Aabb)
    ensures 0.0 <= radius ==> box == BoxAroundAsWritten(center, radius)
    ensures forall i :: 0 <= i < 3 ==> box.min.At(i) <= box.max.At(i)
  {
    var extent := Vec3(Abs(radius), Abs(radius), Abs(radius));
    Aabb(Sub(center, extent), Add(center, extent))
  }

  /** A number whose square is below `m^2` lies strictly between `-m` and `m`. */
  lemma SquareBelow(x: real, m: real)
    requires 0.0 <= m && Square(x) < Square(m)
    ensures -m < x < m
  {
    SquareFacts(x);
    if m < x {
      SquareLt(m, x);
    } else if x < -m {
      SquareLt(m, -x);
    }
  }

  /** One coordinate of a point strictly inside the sphere. */
  lemma AxisInside(d: real, rest: real, radius: real)
    requires 0.0 <= rest && Square(d) + rest < Square(radius)
    ensures -Abs(radius) < d < Abs(radius)
  {
    SquareFacts(radius);
    assert Square(Abs(radius)) == Square(radius);
    SquareBelow(d, Abs(radius));
  }

  /** A point strictly inside the sphere is strictly inside its box. */
  lemma InsideSphereInsideBox(center: Vec3, radius: real, p: Vec3)
    requires LengthSquared(Sub(p, center)) < Square(radius)
    ensures forall i :: 0 <= i < 3 ==>
      BoxAround(center, radius).min.At(i) < p.At(i) < BoxAround(center, radius).max.At(i)
  {
    var d := Sub(p, center);
    var sx, sy, sz := Square(d.x), Square(d.y), Square(d.z);
    SquareFacts(d.x);
    SquareFacts(d.y);
    SquareFacts(d.z);
    assert sx + sy + sz < Square(radius);
    AxisInside(d.x, sy + sz, radius);
    AxisInside(d.y, sx + sz, radius);
    AxisInside(d.z, sx + sy, radius);
  }

  /** A ray point strictly inside the sphere is one the slab test of its box
      accepts. */
  lemma InsideSphereInsideAt(center: Vec3, radius: real, r: Ray, t: real)
    requires LengthSquared(Sub(At(r, t), center)) < Square(radius)
    ensures InsideAt(BoxAround(center, radius), r, t, 0)
  {
    var box := BoxAround(center, radius);
    InsideSphereInsideBox(center, radius, At(r, t));
    forall i | 0 <= i < 3
      ensures InsideOnAxis(box, r, t, i)
    {
      PointInsideOnAxis(box, r, t, i);
    }
  }

  /** A ray point strictly between the planes of axis `i` is inside the box
      along that axis. */
  lemma PointInsideOnAxis(box: Aabb, r: Ray, t: real, i: nat)
    requires i < 3 && box.min.At(i) < At(r, t).At(i) < box.max.At(i)
    ensures InsideOnAxis(box, r, t, i)
  {
    AtComponent(r, t, i);
  }

  /** Pruning is sound: next to every candidate inside the interval there is
      a parameter, still inside the interval, whose ray point the slab test of
      the sphere's box accepts. */
  lemma CandidateInsideBox(center: Vec3, radius: real, r: Ray, sqrt: real -> real,
                           c: real, tMin: real, tMax: Bound)
    requires IsSqrt(sqrt)
    requires c in Candidates(center, radius, r, sqrt) && InRange(c, tMin, tMax)
    ensures exists t :: InRange(t, tMin, tMax) && InsideAt(BoxAround(center, radius), r, t, 0)
  {
    var q := RayQuadratic(center, radius, r);
    PositiveDiscriminant(center, radius, r);
    RootsOrdered(q, sqrt);
    var (root1, root2) := SphereRoots(center, radius, r, sqrt);
    var t;
    if c == root1 {
      var hi := if tMax.Infinity? then root2 else Min(root2, tMax.value);
      t := (root1 + hi) / 2.0;
    } else {
      t := (Max(root1, tMin) + root2) / 2.0;
    }
    InsideBetweenRoots(center, radius, r, sqrt, t);
    InsideSphereInsideAt(center, radius, r, t);
  }

  // `Sphere` itself.

  /** `Sphere::hit`. */
  function Hit(s: Sphere, r: Ray, tMin: real, tMax: Bound, sqrt: real -> real): (hit: Option<HitRecord>)
    ensures hit.Some? ==> InRange(hit.value.t, tMin, tMax) && hit.value.p == At(r, hit.value.t)
    ensures hit.Some? ==> hit.value.material == s.material
  {
    HitAt(s.center, s.radius, s.material, r, tMin, tMax, sqrt)
  }

  /** `Sphere::bounding_box`: always present, whatever the times. */
  function BoundingBox(s: Sphere, t0: real, t1: real): (box: Option<Aabb>)
    ensures box.Some?
    ensures 0.0 <= s.radius ==> box.value == BoxAroundAsWritten(s.center, s.radius)
  {
    Some(BoxAround(s.center, s.radius))
  }

  /** `Sphere::bounding_box` exactly as written. */
  function BoundingBoxAsWritten(s: Sphere, t0: real, t1: real): (box: Option<Aabb>)
    ensures box.Some?
    ensures s.radius < 0.0 ==> box.value.max.x < box.value.min.x
  {
    Some(BoxAroundAsWritten(s.center, s.radius))
  }

  /** A sphere of radius -1 is hit by a ray along the z axis, yet the slab
      test rejects that ray against the box the source computes for it.
      `BvhBuild.AsWrittenBoxLosesHit` shows a BVH node over that box
      losing the hit. */
  lemma NegativeRadiusBoxMissesHit(sqrt: real -> real, material: Material)
    requires IsSqrt(sqrt)
    ensures var s := Sphere(Zero, -1.0, material);
      var r := Ray(Vec3(0.0, 0.0, -5.0), Vec3(0.0, 0.0, 1.0), 0.0);
      Hit(s, r, 0.001, Infinity, sqrt).Some? &&
      !SlabsOverlap(BoundingBoxAsWritten(s, 0.0, 0.0).value, r, 0.001, Infinity)
  {
    var s := Sphere(Zero, -1.0, material);
    var r := Ray(Vec3(0.0, 0.0, -5.0), Vec3(0.0, 0.0, 1.0), 0.0);
    SqrtAt(sqrt, 1.0);
    SquareInjective(sqrt(1.0), 1.0);
    AxisRayQuadratic(s.center, s.radius, r);
    NegativeRadiusHit(sqrt, s, r);
    InvertedBoxRejects(s, r);
  }

  lemma NegativeRadiusHit(sqrt: real -> real, s: Sphere, r: Ray)
    requires sqrt(1.0) == 1.0
    requires RayQuadratic(s.center, s.radius, r) == Quadratic(1.0, -5.0, 24.0)
    ensures Hit(s, r, 0.001, Infinity, sqrt).Some?
  {
    AxisRoots(sqrt);
    assert SphereRoots(s.center, s.radius, r, sqrt) == Roots(Quadratic(1.0, -5.0, 24.0), sqrt);
    SmallerRootInRangeHits(s.center, s.radius, s.material, r, 0.001, Infinity, sqrt);
  }

  lemma AxisRoots(sqrt: real -> real)
    requires sqrt(1.0) == 1.0
    ensures Quadratic(1.0, -5.0, 24.0).Discriminant() == 1.0
    ensures Roots(Quadratic(1.0, -5.0, 24.0), sqrt).0 == 4.0
  {
    assert Square(-5.0) == 25.0;
  }

  lemma AxisRayQuadratic(center: Vec3, radius: real, r: Ray)
    requires center == Zero && radius == -1.0
    requires r.origin == Vec3(0.0, 0.0, -5.0) && r.direction == Vec3(0.0, 0.0, 1.0)
    ensures RayQuadratic(center, radius, r) == Quadratic(1.0, -5.0, 24.0)
  {
    var oc := Sub(r.origin, center);
    assert oc == Vec3(0.0, 0.0, -5.0);
    assert Square(-5.0) == 25.0 && Square(1.0) == 1.0 && Square(0.0) == 0.0 && Square(-1.0) == 1.0;
  }

  lemma InvertedBoxRejects(s: Sphere, r: Ray)
    requires s.center == Zero && s.radius == -1.0
    requires r.origin == Vec3(0.0, 0.0, -5.0) && r.direction == Vec3(0.0, 0.0, 1.0)
    ensures !SlabsOverlap(BoundingBoxAsWritten(s, 0.0, 0.0).value, r, 0.001, Infinity)
  {
    OutsideSlabRejects(BoundingBoxAsWritten(s, 0.0, 0.0).value, r);
  }

  /** A ray that does not move along x and starts below a box's x range
      never enters the box. */
  lemma OutsideSlabRejects(box: Aabb, r: Ray)
    requires r.direction.x == 0.0 && r.origin.x < box.min.x
    ensures !SlabsOverlap(box, r, 0.001, Infinity)
  {
    assert Step(box, r, 0, Window(0.001, Infinity)).None?;
  }
}
