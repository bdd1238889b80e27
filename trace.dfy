/** The path tracer of src/bin/trace.rs: the colour a ray brings back from
    the scene, found by following it from surface to surface until it
    leaves the scene, is absorbed, or runs out of bounces. */
module Trace {
  import opened Utils
  import opened Vectors
  import opened Rays
  import opened Materials
  import opened HitRecords
  import opened Bvh
  import opened HittableLists
  import opened Pixels
  import opened Sky
  import Diffuse
  import Metals
  import Dielectrics

  /** The nearest parameter a hit may have, so that a scattered ray does
      not hit the surface it starts on again. */
  const Epsilon: real := 0.001

  /** `vec_to_u32`: the gamma-corrected bytes of a colour packed into a
      pixel. */
  function VecToU32(color: Vec3, sqrt: real -> real): (p: Word)
    ensures p < 0x100_0000
    ensures Red(p) == GammaByte(color.x, sqrt)
    ensures Green(p) == GammaByte(color.y, sqrt)
    ensures Blue(p) == GammaByte(color.z, sqrt)
  {
    var rgb := ToRgb(color, sqrt);
    FromU8Rgb(rgb.0, rgb.1, rgb.2)
  }

  /** The random numbers one bounce may use: a unit vector for a diffuse
      surface, a point in the unit ball for the fuzz of a metal, and a draw
      in [0, 1) for the reflection test of glass. */
  datatype BounceSample = BounceSample(unitVector: Vec3, inUnitSphere: Vec3, draw: real)

  /** The colour a material multiplies into the light it scatters. */
  function Attenuation(m: Material): Vec3
  {
    match m
    case Lambertian(texture) => texture.color
    case Metal(albedo, _) => albedo
    case Dielectric(_) => Dielectrics.ConstAttenuation
  }

  /** `hit.material.scatter(r, &hit)`, the call through the material trait
      object. Only a metal can absorb a ray; whatever scatters is
      attenuated by the material's own colour. */
  function Scatter(m: Material, rIn: Ray, hit: HitRecord, sample: BounceSample,
                   reflect: (Vec3, Vec3) -> Vec3, sqrt: real -> real): (s: Option<Scattered>)
    ensures !m.Metal? ==> s.Some?
    ensures s.Some? ==> s.value.attenuation == Attenuation(m)
  {
    match m
    case Lambertian(texture) => Diffuse.Scatter(texture, rIn, hit, sample.unitVector)
    case Metal(albedo, fuzziness) =>
      Metals.Scatter(albedo, fuzziness, rIn, hit, sample.inUnitSphere, reflect, sqrt)
    case Dielectric(index) => Dielectrics.Scatter(index, rIn, hit, sample.draw, reflect, sqrt)
  }

  /** What happens to a ray at its first surface. */
  datatype Interaction = Missed | Absorbed | Bounced(scattered: Scattered)

  /** The closest hit in [EPSILON, infinity) and what its material does
      with the ray: a miss exactly when the world has no hit there, an
      absorption only on a metal, and a bounce attenuated by the colour of
      the hit's material. */
  function Interact(r: Ray, world: seq<Hittable>, sample: BounceSample,
                    reflect: (Vec3, Vec3) -> Vec3, sqrt: real -> real): (i: Interaction)
    ensures i.Missed? <==> ListHit(world, r, Epsilon, Infinity, sqrt).None?
    ensures i.Absorbed? ==> ListHit(world, r, Epsilon, Infinity, sqrt).value.material.Metal?
    ensures i.Bounced? ==>
      i.scattered.attenuation == Attenuation(ListHit(world, r, Epsilon, Infinity, sqrt).value.material)
  {
    match ListHit(world, r, Epsilon, Infinity, sqrt)
    case None => Missed
    case Some(hit) =>
      match Scatter(hit.material, r, hit, sample, reflect, sqrt)
      case None => Absorbed
      case Some(s) => Bounced(s)
  }

  /** What a ray meets at its first surface, given the random numbers of
      the bounce. */
  type Step = (Ray, BounceSample) -> Interaction

  /** The first-surface query of a scene. */
  function Scene(world: seq<Hittable>, reflect: (Vec3, Vec3) -> Vec3, sqrt: real -> real): Step
  {
    (ray: Ray, sample: BounceSample) => Interact(ray, world, sample, reflect, sqrt)
  }

  /** The recursion of `ray_color` over any first-surface query. Without
      bounces left no light is gathered; a ray that leaves the scene shows
      the sky; an absorbed ray is black; a scattered ray brings back the
      attenuated colour of the scattered ray, with one bounce fewer. Bounce
      `depth` draws its random numbers from `samples(depth)`. */
  function Radiance(step: Step, r: Ray, depth: nat, samples: nat -> BounceSample, sqrt: real -> real): (c: Vec3)
    ensures depth == 0 ==> c == Zero
    ensures depth > 0 && step(r, samples(depth)).Missed? ==> c == Gradient(r.direction, sqrt)
    ensures depth > 0 && step(r, samples(depth)).Absorbed? ==> c == Zero
    decreases depth
  {
    if depth == 0 then Zero
    else
      match step(r, samples(depth))
      case Missed => Gradient(r.direction, sqrt)
      case Absorbed => Zero
      case Bounced(s) => Mul(s.attenuation, Radiance(step, s.ray, depth - 1, samples, sqrt))
  }

  /** `ray_color(r, world, depth)`. */
  function RayColor(r: Ray, world: seq<Hittable>, depth: nat, samples: nat -> BounceSample,
                    reflect: (Vec3, Vec3) -> Vec3, sqrt: real -> real): (c: Vec3)
    ensures depth == 0 ==> c == Zero
    ensures depth > 0 && ListHit(world, r, Epsilon, Infinity, sqrt).None? ==> c == Gradient(r.direction, sqrt)
    ensures depth > 0 && Interact(r, world, samples(depth), reflect, sqrt).Absorbed? ==> c == Zero
    ensures depth > 0 && Interact(r, world, samples(depth), reflect, sqrt).Bounced? ==>
      var s := Interact(r, world, samples(depth), reflect, sqrt).scattered;
      c == Mul(s.attenuation, RayColor(s.ray, world, depth - 1, samples, reflect, sqrt))
    decreases depth
  {
    Radiance(Scene(world, reflect, sqrt), r, depth, samples, sqrt)
  }

  /** The path a ray takes: the attenuations of the surfaces it scatters
      from, in order, and the colour that ends it, the sky when it leaves
      the scene and black when it is absorbed or runs out of bounces. */
  datatype Path = Path(attenuations: seq<Vec3>, end: Vec3)

  /** The path of `r` with at most `depth` bounces. */
  function TracePath(step: Step, r: Ray, depth: nat, samples: nat -> BounceSample, sqrt: real -> real): (p: Path)
    ensures |p.attenuations| <= depth
    decreases depth
  {
    if depth == 0 then Path([], Zero)
    else
      match step(r, samples(depth))
      case Missed => Path([], Gradient(r.direction, sqrt))
      case Absorbed => Path([], Zero)
      case Bounced(s) =>
        var rest := TracePath(step, s.ray, depth - 1, samples, sqrt);
        Path([s.attenuation] + rest.attenuations, rest.end)
  }

  /** Neutral colour: lets all light through. */
  const One := Vec3(1.0, 1.0, 1.0)

  /** The channel-wise product of a sequence of colours. */
  function Product(colors: seq<Vec3>): Vec3
  {
    if colors == [] then One else Mul(colors[0], Product(colors[1..]))
  }

  /** The colour a path brings back: the product of its attenuations
      applied to the colour that ends it. */
  function PathColor(p: Path): Vec3
  {
    Mul(Product(p.attenuations), p.end)
  }

  /** The colour of a ray is the product of the attenuations along its
      path, applied to the colour that ends the path. */
  lemma {:induction false} RadianceIsPathProduct(step: Step, r: Ray, depth: nat,
                                                 samples: nat -> BounceSample, sqrt: real -> real)
    ensures Radiance(step, r, depth, samples, sqrt) == PathColor(TracePath(step, r, depth, samples, sqrt))
    decreases depth
  {
    if depth == 0 || !step(r, samples(depth)).Bounced? {
      EndProduct(step, r, depth, samples, sqrt);
    } else {
      var s := step(r, samples(depth)).scattered;
      RadianceIsPathProduct(step, s.ray, depth - 1, samples, sqrt);
      BounceProduct(step, r, depth, samples, sqrt, s);
    }
  }

  /** A path that ends at once: the colour is its end. */
  lemma EndProduct(step: Step, r: Ray, depth: nat, samples: nat -> BounceSample, sqrt: real -> real)
    requires depth == 0 || !step(r, samples(depth)).Bounced?
    ensures Radiance(step, r, depth, samples, sqrt) == PathColor(TracePath(step, r, depth, samples, sqrt))
  {
    var p := TracePath(step, r, depth, samples, sqrt);
    assert p.attenuations == [];
    MulOne(p.end);
  }

  /** A bounce puts its attenuation in front of the rest of the path. */
  lemma BounceProduct(step: Step, r: Ray, depth: nat, samples: nat -> BounceSample, sqrt: real -> real,
                      s: Scattered)
    requires depth > 0 && step(r, samples(depth)) == Bounced(s)
    requires Radiance(step, s.ray, depth - 1, samples, sqrt) ==
      PathColor(TracePath(step, s.ray, depth - 1, samples, sqrt))
    ensures Radiance(step, r, depth, samples, sqrt) == PathColor(TracePath(step, r, depth, samples, sqrt))
  {
    var rest := TracePath(step, s.ray, depth - 1, samples, sqrt);
    var tail := Radiance(step, s.ray, depth - 1, samples, sqrt);
    assert Radiance(step, r, depth, samples, sqrt) == Mul(s.attenuation, tail);
    assert TracePath(step, r, depth, samples, sqrt) == Path([s.attenuation] + rest.attenuations, rest.end);
    ProductStep(s.attenuation, rest.attenuations, rest.end, tail);
  }

  /** One more attenuation in front of a path multiplies into its colour. */
  lemma ProductStep(a: Vec3, attenuations: seq<Vec3>, end: Vec3, tail: Vec3)
    requires tail == Mul(Product(attenuations), end)
    ensures Mul(a, tail) == Mul(Product([a] + attenuations), end)
  {
    var all := [a] + attenuations;
    assert all[0] == a && all[1..] == attenuations;
    MulAssociative(a, Product(attenuations), end);
  }

  lemma MulOne(c: Vec3)
    ensures Mul(One, c) == c
  {
  }

  lemma MulAssociative(a: Vec3, b: Vec3, c: Vec3)
    ensures Mul(a, Mul(b, c)) == Mul(Mul(a, b), c)
  {
  }

  /** Every channel in [0, 1]: a colour that does not add light. */
  predicate InUnitCube(c: Vec3)
  {
    0.0 <= c.x <= 1.0 && 0.0 <= c.y <= 1.0 && 0.0 <= c.z <= 1.0
  }

  /** No material of the scene amplifies light. */
  predicate Dim(world: seq<Hittable>)
  {
    forall m :: m in ListMaterials(world) ==> InUnitCube(Attenuation(m))
  }

  /** Every bounce of `step` attenuates by a colour of the unit cube. */
  ghost predicate DimStep(step: Step)
  {
    forall ray, sample :: step(ray, sample).Bounced? ==> InUnitCube(step(ray, sample).scattered.attenuation)
  }

  /** A scene whose materials do not amplify light scatters with such
      attenuations only: the hit material is one of the scene's. */
  lemma SceneDim(world: seq<Hittable>, reflect: (Vec3, Vec3) -> Vec3, sqrt: real -> real)
    requires Dim(world)
    ensures DimStep(Scene(world, reflect, sqrt))
  {
    forall ray, sample | Scene(world, reflect, sqrt)(ray, sample).Bounced?
      ensures InUnitCube(Scene(world, reflect, sqrt)(ray, sample).scattered.attenuation)
    {
      ListHitMaterial(world, ray, Epsilon, Infinity, sqrt);
    }
  }

  /** Energy is never created: when no bounce amplifies light, every traced
      colour has its channels in [0, 1]. */
  lemma {:induction false} RadianceInUnitCube(step: Step, r: Ray, depth: nat,
                                              samples: nat -> BounceSample, sqrt: real -> real)
    requires IsSqrt(sqrt) && DimStep(step)
    ensures InUnitCube(Radiance(step, r, depth, samples, sqrt))
    decreases depth
  {
    if depth > 0 {
      var e := step(r, samples(depth));
      if e.Bounced? {
        RadianceInUnitCube(step, e.scattered.ray, depth - 1, samples, sqrt);
        MulInUnitCube(e.scattered.attenuation, Radiance(step, e.scattered.ray, depth - 1, samples, sqrt));
      }
    }
  }

  /** The traced colour of a scene whose materials do not amplify light has
      every channel in [0, 1]. */
  lemma RayColorInUnitCube(r: Ray, world: seq<Hittable>, depth: nat, samples: nat -> BounceSample,
                           reflect: (Vec3, Vec3) -> Vec3, sqrt: real -> real)
    requires IsSqrt(sqrt) && Dim(world)
    ensures InUnitCube(RayColor(r, world, depth, samples, reflect, sqrt))
  {
    SceneDim(world, reflect, sqrt);
    RadianceInUnitCube(Scene(world, reflect, sqrt), r, depth, samples, sqrt);
  }

  /** Multiplying two colours of the unit cube stays in it. */
  lemma MulInUnitCube(a: Vec3, b: Vec3)
    requires InUnitCube(a) && InUnitCube(b)
    ensures InUnitCube(Mul(a, b))
  {
    ChannelProduct(a.x, b.x);
    ChannelProduct(a.y, b.y);
    ChannelProduct(a.z, b.z);
  }

  lemma ChannelProduct(a: real, b: real)
    requires 0.0 <= a <= 1.0 && 0.0 <= b <= 1.0
    ensures 0.0 <= a * b <= 1.0
  {
    MulNonNeg(a, b);
    MulLe(a, 1.0, b);
  }
}
