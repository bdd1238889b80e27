# weekend_path_tracer in Dafny

A model of the core of `weekend_path_tracer`, a Rust path tracer that follows
"Ray Tracing in One Weekend" and "The Next Week". The model covers:

- vector algebra and rays;
- axis-aligned bounding boxes and their slab test;
- hit records and the closest-hit contract;
- spheres, and spheres that move between two keyframes;
- the hittable list and the bounding volume hierarchy (BVH), including its construction;
- solid textures and the Lambertian, metal and dielectric materials;
- Perlin noise and turbulence;
- the thin-lens camera;
- the three binaries: the recursive `ray_color` of `trace`, the sky-gradient
  image of `sky` and the colour-ramp image of `image_hello_world`.

There is one Dafny module per source file. Values are datatypes and pure
functions. The code that changes state keeps its form:

- the hittable list is a class whose `objects` sequence is reassigned by
  `Add` and `Clear`, and whose `Hit` is a loop;
- Perlin's permutation tables are filled and shuffled in an `array`;
- `noise`, `perlin_interpolation` and `turbulence` are loops over arrays and
  accumulators;
- the slab test of `AABB::hit` is a loop over the three axes;
- the BVH constructor sorts its slice and recurses;
- the two image binaries push pixels into a buffer in nested loops.

Each loop method is proved equal to a specification function (the Perlin
shuffle to the recursive Fisher-Yates function `Perlins.Shuffled`).
Properties are then proved about that function.

How the model treats the numbers and the randomness:

- **Floating point.** `f64` is modelled as `real`. `sqrt`, `tan` and
  `to_radians` are function parameters. The ghost predicate `Utils.IsSqrt`
  states what the proofs need from `sqrt`: for every `x >= 0`, `sqrt(x)` is
  the non-negative root of `x`.
- **Infinity.** A `t_max` that may be `f64::INFINITY` is a
  `Bound = Finite(real) | Infinity`.
- **Random draws.** Every random draw is an explicit parameter:
  - the unit vector, in-unit-sphere vector and `[0,1)` draw used at each bounce;
  - the lens sample and time draw of `Camera::get_ray`;
  - the BVH axis choice;
  - the Perlin vectors and shuffle swaps.
- **`reflect`.** `reflect` lives in `src/utils.rs` outside the function shown
  there, so it is a parameter too.
- **The `Hittable` trait.** It is the closed datatype `Bvh.Hittable`, with the
  variants sphere, moving sphere and BVH node.
- **The `Material` trait.** It is the closed datatype `Materials.Material`,
  with the variants Lambertian, metal and dielectric.
- **Pixels.** A `u32` pixel is an integer below 2^32. The packing
  `(r << 16) | (g << 8) | b` of three bytes is written as
  `r * 0x1_0000 + g * 0x100 + b`. The three bytes occupy disjoint bits, so
  the bitwise or is this sum.

`src/hittable.rs` declares `HitRecord::new` with four arguments and no
material. Its callers (`src/sphere.rs:41-47`, `src/diffuse.rs:27`,
`src/bin/trace.rs:43`) pass a material and read `hit.material`, `hit.u` and
`hit.v`. The model follows the callers: a record carries its material, and
`u == v == 0`, since nothing computes texture coordinates.

The `from_u8_rgb` function of `src/bin/sky.rs` and `src/bin/image_hello_world.rs`
is the same code, and so are the two `lerp` functions of `src/bin/sky.rs` and
`src/bin/trace.rs`. Each is modelled once: `Pixels.FromU8Rgb` and `Sky.Lerp`.
The colour constants of `src/consts.rs` are `Consts.White` and `Consts.SkyBlue`.
`src/bin/sky.rs:18-19` repeats them as local values with the same components.

## Model

| member | source | states |
|---|---|---|
| Utils.Clamp | src/utils.rs:1-3 | when min <= max the result lies in [min, max]; a value already in [min, max] is returned unchanged |
| Utils.ClampOutside | src/utils.rs:1-3 | below min gives min, above max gives max |
| Utils.ClampIdempotent | src/utils.rs:1-3 | clamping twice equals clamping once |
| Utils.RandomInRange | src/camera.rs:71 | a draw u in [0,1) maps into [min, max], and below max when min < max |
| Vectors.Vec3.At | src/vec3.rs:175-181 | indexing at 0, 1, 2 agrees with x(), y(), z() |
| Vectors.ScaleLeft | src/vec3.rs:143-148 | s * v multiplies each component of v by s on the left (the same vector as v * s) |
| Vectors.LengthSquared | src/vec3.rs:40-42 | the squared length is never negative |
| Vectors.LengthSquaredZero | src/vec3.rs:40-42 | the squared length is zero exactly for the zero vector |
| Vectors.Magnitude | src/vec3.rs:43-45 | the magnitude is the non-negative root of the squared length, positive for a non-zero vector |
| Vectors.MagnitudeZero | src/vec3.rs:43-45 | the magnitude is zero exactly for the zero vector |
| Vectors.Norm | src/vec3.rs:46-53 | normalising a non-zero vector gives a unit vector |
| Vectors.GammaByte | src/vec3.rs:65-75 | one gamma-corrected channel is in 0..=255, and 0 for a negative input |
| Vectors.ToRgb | src/vec3.rs:65-75 | each channel of to_rgb is in 0..=255 |
| Vectors.GammaByteOfSquare | src/vec3.rs:65-75 | for an input q² with q in [0, 0.999] the channel is floor(256 q) (gamma 2 then scaling by COLOR_MAX) |
| Vectors.AddAssign | src/vec3.rs:96-104 | `+=` leaves the value of `+` |
| Vectors.MulAssign | src/vec3.rs:150-154 | `*=` leaves the value of `* scalar` |
| Vectors.DivAssign | src/vec3.rs:164-173 | `/=` leaves the value of `/ scalar` |
| Vectors.AddSubCancel | src/vec3.rs:85-115 | (a + b) - b == a |
| Vectors.NegNeg | src/vec3.rs:117-122 | -(-a) == a |
| Vectors.NegKeepsLength | src/vec3.rs:117-122 | negation keeps the squared length |
| Vectors.DotSymmetric | src/vec3.rs:54-56 | a · b == b · a |
| Vectors.DotSelf | src/vec3.rs:40-56 | a · a equals the squared length |
| Vectors.CrossOrthogonal | src/vec3.rs:57-63 | a × b is orthogonal to a and to b |
| Vectors.CrossAntiCommutative | src/vec3.rs:57-63 | a × b == -(b × a) |
| Vectors.Lagrange | src/vec3.rs:54-63 | Lagrange's identity: \|a\|²\|b\|² - (a·b)² == \|a × b\|² |
| Vectors.CauchySchwarz | src/vec3.rs:54-56 | (a·b)² <= \|a\|²\|b\|² |
| Vectors.DivIsScaleByInverse | src/vec3.rs:156-162 | v / s == v * (1/s), and (v / s) * s == v |
| Rays.At | src/ray.rs:18-20 | at(t) - origin == direction * t |
| Rays.AtZero | src/ray.rs:18-20 | at(0) == origin |
| Rays.AtDifference | src/ray.rs:18-20 | at(t1) - at(t0) == direction * (t1 - t0) |
| Rays.AtComponent | src/ray.rs:18-20 | each coordinate of at(t) is origin + direction * t on that axis |
| Aabbs.Combine | src/aabb.rs:38-52 | the combined box contains both boxes, and each of its bounds is one of the inputs' bounds |
| Aabbs.CombineLeast | src/aabb.rs:38-52 | any box containing both inputs contains their combination (it is the smallest such box) |
| Aabbs.CombineCommutative | src/aabb.rs:38-52 | combine is commutative |
| Aabbs.CombineAssociative | src/aabb.rs:38-52 | combine is associative |
| Aabbs.CombineIdempotent | src/aabb.rs:38-52 | a.combine(a) == a |
| Aabbs.Step | src/aabb.rs:23-33 | one axis only narrows (t_min, t_max), and a window it keeps is non-empty (otherwise the early `return false`) |
| Aabbs.Hit | src/aabb.rs:21-36 | the loop over the three axes, with its early exit, returns the slab-overlap predicate |
| Aabbs.SlabEndsMeaning | src/aabb.rs:23-28 | after the swap, t0 < t < t1 exactly when the ray at t is strictly between the box's planes on that axis |
| Aabbs.SlabEndsOrdered | src/aabb.rs:23-28 | after the swap, t0 <= t1 when min <= max |
| Aabbs.SlabsOverlap | src/aabb.rs:21-36 | the slab test is true iff some t in (t_min, t_max) puts the ray inside the box on all three axes |
| Aabbs.EmptyWindowMisses | src/aabb.rs:31-33 | an already empty interval (t_max <= t_min) gives false |
| Aabbs.WiderWindowHits | src/aabb.rs:21-36 | widening (t_min, t_max) never turns true into false |
| Aabbs.LargerBoxHits | src/aabb.rs:21-52 | a box containing a box the ray hits is hit too |
| HitRecords.New | src/hittable.rs:13-26 | front_face iff direction · outward normal < 0; the normal is the outward one or its negation accordingly, never along the ray; t, p and material are kept |
| Spheres.EvalIsDistance | src/sphere.rs:28-32 | the quadratic in t equals \|at(t) - center\|² - radius² |
| Spheres.PositiveDiscriminant | src/sphere.rs:32-36 | a positive discriminant implies a non-zero direction and radius, so the divisions are defined |
| Spheres.HitAt | src/sphere.rs:27-64 | no hit when the discriminant is <= 0; a hit has t in (t_min, t_max) among the roots, p == at(t), the record built from (p - center)/radius |
| Spheres.HitAtPrefersSmallerRoot | src/sphere.rs:38-62 | the smaller root is returned when in range, the larger only when the smaller is not, none otherwise |
| Spheres.SmallerRootInRangeHits | src/sphere.rs:38-48 | a smaller root in range always produces a hit |
| Spheres.RootsOrdered | src/sphere.rs:36-50 | root_1 < root_2 when the discriminant is positive |
| Spheres.RootsAreZeros | src/sphere.rs:36-50 | the two roots are exactly the zeros of the quadratic |
| Spheres.CandidatesOnSphere | src/sphere.rs:28-50 | a candidate parameter is exactly a t where the ray point lies on the sphere |
| Spheres.InsideBetweenRoots | src/sphere.rs:36-50 | between the roots the ray point is strictly inside the sphere |
| Spheres.HitAtNearest | src/sphere.rs:27-64 | the hit is the nearest on-sphere parameter in (t_min, t_max), and none exists when no hit is reported |
| Spheres.HitNormalIsUnit | src/sphere.rs:40-56 | the stored normal of a hit has unit length |
| Spheres.OutwardNormalIsUnit | src/sphere.rs:44 | (p - center)/radius is a unit vector for a point on the sphere |
| Spheres.BoxAroundAsWritten | src/sphere.rs:65-70 | center ± (r,r,r) as written: inverted on every axis for a negative radius |
| Spheres.BoxAround | src/sphere.rs:65-70 | the box with \|radius\| is never inverted and equals the written box for radius >= 0 |
| Spheres.InsideSphereInsideBox | src/sphere.rs:65-70 | every point strictly inside the sphere is strictly inside its box |
| Spheres.CandidateInsideBox | src/sphere.rs:65-70 | a hit parameter in (t_min, t_max) implies the ray is inside the box for some t in that interval |
| Spheres.Hit | src/sphere.rs:27-64 | a hit has t in (t_min, t_max), p == at(t) and the sphere's material |
| Spheres.BoundingBox | src/sphere.rs:65-70 | always Some, ignores t0 and t1, equals center ± (r,r,r) for r >= 0 |
| Spheres.BoundingBoxAsWritten | src/sphere.rs:65-70 | always Some, inverted for a negative radius |
| Spheres.NegativeRadiusBoxMissesHit | src/sphere.rs:65-70 | a sphere of radius -1 is hit by a ray its written bounding box rejects |
| MovingSpheres.CenterAtKeyframes | src/moving_sphere.rs:37-40 | center(time0) == center0 and center(time1) == center1 |
| MovingSpheres.CenterAffine | src/moving_sphere.rs:37-40 | center is affine in time: center0 + (t - time0) * slope on each axis |
| MovingSpheres.CenterBetween | src/moving_sphere.rs:37-40 | between two times the center lies between the centers at those times on each axis |
| MovingSpheres.Hit | src/moving_sphere.rs:44-82 | the sphere hit at center(r.time): t in (t_min, t_max), p == at(t), the sphere's material |
| MovingSpheres.HitNearest | src/moving_sphere.rs:44-82 | the hit is the nearest on-sphere parameter for the center at the ray's time |
| MovingSpheres.BoundingBox | src/moving_sphere.rs:83-96 | always Some; contains the boxes at center(t0) and center(t1); equals the written box for radius >= 0 |
| MovingSpheres.BoundingBoxAsWritten | src/moving_sphere.rs:83-96 | always Some; the combination of the two keyframe boxes as written |
| MovingSpheres.BoundingBoxCoversMotion | src/moving_sphere.rs:83-96 | the box contains the sphere at every time between t0 and t1 |
| MovingSpheres.NegativeRadiusBoxMissesHit | src/moving_sphere.rs:83-96 | a resting moving sphere of radius -1 is hit by a ray its written box rejects |
| HittableLists.ListHit | src/hittable_list.rs:30-45 | an empty list misses; a hit has t in (t_min, t_max) and p == at(t) |
| HittableLists.ListHitMaterial | src/hittable_list.rs:30-45 | the material of a list hit is the material of one of the objects |
| HittableLists.ListHitAllMiss | src/hittable_list.rs:30-45 | when every object misses, the list misses |
| HittableLists.ListHitNearest | src/hittable_list.rs:30-45 | with every object inside its box, the list hit is the nearest hit over all objects |
| HittableLists.CandidatesOfMembers | src/hittable_list.rs:30-45 | the list's hit parameters are exactly those of its objects |
| HittableLists.CandidatesOfPermutation | src/hittable_list.rs:30-45 | reordering the objects does not change the hit parameters |
| HittableLists.ListBox | src/hittable_list.rs:46-57 | the list box is None exactly for the empty list |
| HittableLists.ListBoxAbsent | src/hittable_list.rs:46-57 | the list box is None exactly when no object has a box (in particular for the empty list) |
| HittableLists.ListBoxContains | src/hittable_list.rs:51-56 | the list box contains the box of every object that has one |
| HittableLists.ListBoxLeast | src/hittable_list.rs:51-56 | any box containing every object box contains the list box |
| HittableLists.ListHitFromLeaf | src/hittable_list.rs:30-45 | a list hit is the record a proper sphere among the list's leaves produces at one of its own hit parameters |
| HittableLists.ListLeavesMembers | src/hittable_list.rs:30-45 | the list's leaves are exactly the leaves of its objects |
| HittableLists.ListLeavesAppend | src/hittable_list.rs:30-45 | the leaves of a concatenation are the union of the leaves of the parts |
| HittableLists.ListLeavesPermutation | src/hittable_list.rs:30-45 | reordering the objects does not change the leaves |
| HittableLists.ListLeavesOfSpheres | src/hittable_list.rs:30-45 | for a list of spheres and moving spheres the leaves are exactly its objects |
| HittableLists.HittableList.constructor | src/hittable_list.rs:14-16 | a new list is empty |
| HittableLists.HittableList.WithObject | src/hittable_list.rs:17-21 | the list holds exactly the one object |
| HittableLists.HittableList.Clear | src/hittable_list.rs:23-25 | clear empties the list |
| HittableLists.HittableList.Add | src/hittable_list.rs:26-28 | add appends the object and keeps the earlier ones in order |
| HittableLists.HittableList.Hit | src/hittable_list.rs:30-45 | the loop over the objects, narrowing closest_distance_so_far, returns ListHit |
| HittableLists.HittableList.BoundingBox | src/hittable_list.rs:46-57 | the flat_map and fold return the combined box of the objects that have one |
| Bvh.Hit | src/bvh_node.rs:105-122 | a hit has t in (t_min, t_max) and p == at(t) |
| Bvh.BoundingBox | src/bvh_node.rs:124-126 | always Some; a node returns its cached bounds whatever the times |
| Bvh.Leaves | src/bvh_node.rs:105-122 | the leaves of a hittable are spheres or moving spheres, and a sphere is its own only leaf |
| Bvh.HitFromLeaf | src/bvh_node.rs:105-122 | a BVH hit is the record a proper sphere among the leaves produces at one of its own hit parameters |
| Bvh.HitMaterial | src/bvh_node.rs:105-122 | the material of a hit belongs to one of the leaves |
| Bvh.CandidateInsideBox | src/bvh_node.rs:59-68 | a hit parameter in range implies the ray is inside the cached box for some t in range |
| Bvh.PruneLosesNothing | src/bvh_node.rs:107-109 | when the node's bounds miss, no leaf has a hit in (t_min, t_max), so returning None loses nothing |
| Bvh.NearestOfTwo | src/bvh_node.rs:111-121 | searching the right child only up to the left hit and preferring the right hit yields the nearest of the two |
| Bvh.HitNearest | src/bvh_node.rs:105-122 | a bounded node returns the nearest hit over all its leaves |
| Bvh.BoxCompare | src/bvh_node.rs:78-91 | Less, Greater or Equal exactly as box_a.min[axis] is below, above or equal to box_b.min[axis] |
| Bvh.BoxKey | src/bvh_node.rs:78-91 | the sort key is min[axis] of the box at times (0, 0): the cached bounds of a node, center - \|radius\| for a sphere, center(0) - \|radius\| for a moving sphere |
| Bvh.BoxCompareAntisymmetric | src/bvh_node.rs:78-91 | swapping the arguments swaps Less and Greater and keeps Equal |
| BvhBuild.Insert | src/bvh_node.rs:50 | inserting adds exactly one element (multiset) |
| BvhBuild.SortByKey | src/bvh_node.rs:50 | the sort is a permutation of the slice |
| BvhBuild.InsertSorted | src/bvh_node.rs:50 | inserting into a sorted slice keeps it sorted by min[axis] |
| BvhBuild.SortByKeySorted | src/bvh_node.rs:50 | the sorted slice is ascending by min[axis] |
| BvhBuild.SplitResult | src/bvh_node.rs:48-56 | the two halves built from the sorted slice cover the whole range and are ordered by min[axis] |
| BvhBuild.Children | src/bvh_node.rs:38-57 | span 1 uses the object twice; span 2 puts objects[start] on the left only when the comparator says Greater and objects[start+1] otherwise (ties included), so the left min[axis] is never the smaller; span >= 3 splits the sorted slice; the leaves cover the range |
| BvhBuild.Split | src/bvh_node.rs:48-56 | the span >= 3 branch: sort, split at start + span/2, recurse; leaves cover the range |
| BvhBuild.New | src/bvh_node.rs:21-75 | the node's leaves (spheres with their materials) are exactly the leaves of the objects of [start, end), it has their hit parameters, its bounds combine the children's boxes, and it is bounded when the objects are |
| BvhBuild.NewFromHittable | src/bvh_node.rs:18-20 | the BVH over the whole list has the list's leaves and hit parameters; every hit is the record of one of those leaves; for every ray it hits exactly when the list does, at the same t and p, and returns the very same record (normal, face, material) whenever only one leaf surface passes through that t |
| BvhBuild.BvhAgreesWithList | src/bvh_node.rs:18-20 | a bounded BVH with the list's leaves reports a hit exactly when the list does, at the same t and p, and the same record when only one leaf surface passes through that t |
| BvhBuild.AsWrittenBoxLosesHit | src/sphere.rs:65-70 | a BVH node built on the written box of a radius -1 sphere returns None for a ray the one-sphere list hits |
| Textures.ValueIgnoresLookup | src/texture.rs:14-16 | value returns the stored colour whatever u, v and p are |
| Textures.New | src/texture.rs:20-22 | SolidColor::new(c).value(..) == c |
| Textures.NewFromRgb | src/texture.rs:23-27 | new_from_rgb(r, g, b).value(..) == (r, g, b) |
| Textures.DefaultIsBlack | src/texture.rs:8-11 | the default solid colour is black |
| Diffuse.Scatter | src/diffuse.rs:23-29 | never None; starts at hit.p, keeps the time, direction hit.normal + sample, attenuation albedo.value(u, v, p) |
| Diffuse.ScatterLeavesSurface | src/diffuse.rs:24-26 | with a unit normal and a unit sample the scattered direction does not point into the surface |
| Diffuse.RandomInHemisphere | src/diffuse.rs:61-69 | the sample or its negation, on the normal's side, with the same length |
| Metals.Scatter | src/metal.rs:22-34 | Some exactly when the fuzzed reflection · normal > 0; then the ray is from hit.p with that direction and the time kept, attenuation the albedo |
| Metals.FuzzedReflection | src/metal.rs:23-27 | with a sample in the unit ball the direction is within fuzziness of the reflection; with fuzziness 0 it is exactly the reflection |
| Metals.SharpMirrorScatters | src/metal.rs:22-34 | a sharp mirror scatters exactly when the ray arrives against the normal |
| Dielectrics.EtaRatio | src/dielectric.rs:24-28 | the ratio is positive (1/n on the front face, n otherwise) |
| Dielectrics.EtaRatioReciprocal | src/dielectric.rs:24-28 | the front-face and back-face ratios are reciprocal |
| Dielectrics.CosTheta | src/dielectric.rs:31 | cos_theta <= 1 and is -unit · normal capped at 1 |
| Dielectrics.CosThetaRange | src/dielectric.rs:31 | for unit vectors cos_theta is in [-1, 1] |
| Dielectrics.SinTheta | src/dielectric.rs:32 | for cos_theta in [-1, 1], sin_theta is in [0, 1] and sin² + cos² == 1 |
| Dielectrics.ParallelOrthogonal | src/dielectric.rs:48-53 | the parallel part of the refracted ray is orthogonal to the normal |
| Dielectrics.RefractIsUnit | src/dielectric.rs:48-53 | the refracted direction has unit length when the parallel part is at most unit |
| Dielectrics.Refract | src/dielectric.rs:48-53 | Snell's law: for a unit normal, the tangential part of the refracted direction is eta times that of the incident one |
| Dielectrics.ReflectionProbability | src/dielectric.rs:56-60 | at cosine 1 it is r0 = ((1-n)/(1+n))², at cosine 0 it is 1 |
| Dielectrics.NormalReflectance | src/dielectric.rs:57-58 | r0 = ((1-n)/(1+n))² is never negative, is 0 exactly when n == 1, and is below 1 for n > 0 |
| Dielectrics.Reflects | src/dielectric.rs:34-35 | entering a denser medium (0 < eta <= 1) the ray reflects exactly when the draw is below the reflection probability |
| Dielectrics.ReflectionProbabilityRange | src/dielectric.rs:56-60 | for n > 0 and cosine in [0, 1] the probability is in [r0, 1] |
| Dielectrics.Scatter | src/dielectric.rs:23-45 | never None, attenuation (1,1,1), from hit.p with the time kept; reflects when eta sin_theta > 1 or the draw is below the probability, refracts otherwise |
| Dielectrics.NoTotalReflectionEntering | src/dielectric.rs:24-35 | entering a medium with n >= 1 never triggers total internal reflection |
| Perlins.Range | src/perlin.rs:100-104 | the identity table p[v] == v |
| Perlins.PermutationEntries | src/perlin.rs:99-109 | a permutation table has 256 entries, each in 0..=255, and every value occurs |
| Perlins.IdentityTable | src/perlin.rs:100-104 | the fill loop leaves p[v] == v for v in 0..=255 |
| Perlins.Shuffled | src/perlin.rs:106 | the Fisher-Yates shuffle of the first n positions keeps the length and is a reordering (same multiset) |
| Perlins.Swap | src/perlin.rs:106 | swapping in place leaves the table with the two entries exchanged |
| Perlins.Shuffle | src/perlin.rs:106 | the in-place loop leaves exactly the Fisher-Yates shuffle of the old table for the given draws |
| Perlins.GeneratePermutation | src/perlin.rs:99-109 | the result is a permutation of 0..=255 |
| Perlins.LatticeIndex | src/perlin.rs:72-74 | `as usize & 255` is in [0, 255], and the value mod 256 for a non-negative coordinate that fits in usize |
| Perlins.BitXorBound | src/perlin.rs:75 | the xor of two values below 2^k is below 2^k |
| Perlins.Xor3 | src/perlin.rs:75 | the xor of three table entries indexes random_vectors in bounds |
| Perlins.Fract | src/perlin.rs:60-62 | x - floor(x) is in [0, 1) |
| Perlins.Hermite | src/perlin.rs:112-114 | the Hermite weight 3t² - 2t³ is 0 at t = 0 and 1 at t = 1 |
| Perlins.HermiteRange | src/perlin.rs:112-114 | the Hermite weight of t in [0, 1] is in [0, 1] |
| Perlins.WeightsSumToOne | src/perlin.rs:124-126 | the eight trilinear corner weights sum to 1 |
| Perlins.InterpolationAtLattice | src/perlin.rs:111-131 | at u = v = w = 0 the interpolation is 0 |
| Perlins.PerlinInterpolation | src/perlin.rs:111-131 | the triple loop accumulates the sum of the eight weighted corner terms |
| Perlins.Perlin.constructor | src/perlin.rs:31-57 | every random vector is the normalised draw and all three tables are permutations |
| Perlins.Perlin.Noise | src/perlin.rs:59-82 | the fill loop and interpolation return the noise value of the lattice cell |
| Perlins.Perlin.OctaveNoisesAt | src/perlin.rs:84-95 | octave k samples the noise at 2^k p |
| Perlins.Perlin.Turbulence | src/perlin.rs:84-96 | the absolute weighted octave sum: never negative, 0 for depth 0 |
| Perlins.OctaveSumAppend | src/perlin.rs:89-93 | with weight 0.5^k after k octaves, adding one more octave adds its noise times that weight to the octave sum |
| Perlins.NoiseAtLattice | src/perlin.rs:59-82 | noise is 0 at integer lattice points |
| Cameras.FromFrame | src/camera.rs:23-62 | lens_radius == aperture / 2; the times are kept; lower_left_corner + horizontal/2 + vertical/2 == origin - focus_dist w |
| Cameras.New | src/camera.rs:23-62 | the corrected constructor: origin is look_from, v == w × u, the view centre is origin - focus_dist w, the vertical span is 2 tan(θ/2) focus_dist and the horizontal one aspect times that |
| Cameras.NewAsWritten | src/camera.rs:23-62 | the constructor as written: origin is look_from, the same frame, lens radius aperture / 2, the times kept, and the view centre origin - focus_dist w |
| Cameras.Frame | src/camera.rs:41-43 | the three frame vectors w, u, v are pairwise orthogonal |
| Cameras.FrameOrthonormal | src/camera.rs:41-43 | u, v and w are unit vectors and pairwise orthogonal |
| Cameras.NewVerticalSpan | src/camera.rs:38-48 | the corrected vertical span has length 2 tan(θ/2) focus_dist |
| Cameras.NewAsWrittenWidensView | src/camera.rs:38-40 | with aspect 2 and tan(θ/2) = 1 the written vertical span is twice the intended one |
| Cameras.GetRay | src/camera.rs:64-73 | origin + direction == lower_left_corner + s horizontal + t vertical whatever the lens sample; a zero lens sample starts at the origin; the time is in [time0, time1] |
| Cameras.GetRayWithinLens | src/camera.rs:65-66 | the ray starts within lens_radius of the camera origin |
| Pixels.FromU8Rgb | src/bin/sky.rs:5-8 | the packed pixel is below 2^24 and its bytes 16-23, 8-15 and 0-7 are r, g and b |
| Pixels.Unpack | src/bin/image_hello_world.rs:5-8 | every pixel below 2^24 is the packing of its own three bytes |
| Pixels.PushPixel | src/bin/sky.rs:31-36 | pushing pixel (j, i) next keeps push k at row H-1-k/W and column k%W |
| Sky.Lerp | src/bin/sky.rs:10-12 | lerp(a, b, 0) == a and lerp(a, b, 1) == b |
| Sky.LerpBetween | src/bin/sky.rs:10-12 | for t in [0, 1] each channel lies between those of a and b |
| Sky.SkyParameterInUnitInterval | src/bin/sky.rs:15-16 | t = 0.5 (unit_direction.y + 1) is in [0, 1] |
| Sky.Gradient | src/bin/sky.rs:14-20 | the gradient lies between white and sky blue channel by channel: red in [0.5, 1], green in [0.7, 1], blue 1 |
| Sky.GradientUp | src/bin/sky.rs:14-20 | straight up gives sky blue |
| Sky.GradientDown | src/bin/sky.rs:14-20 | straight down gives white |
| Sky.RayColor | src/bin/sky.rs:14-22 | the packed pixel is below 2^24 and its red, green and blue bytes are the gamma-corrected x, y and z of the sky gradient |
| Sky.RayColorFullBlue | src/bin/sky.rs:14-22 | the blue byte of every sky pixel is 255 |
| Sky.PixelRay | src/bin/sky.rs:33-35 | from the origin, with direction x in [-2, 2), y in [-1, 1), z == -1 |
| Sky.BackgroundImageData | src/bin/sky.rs:24-40 | H*W pixels; push k is the colour of row H-1-k/W, column k%W |
| HelloWorld.CastU8 | src/bin/image_hello_world.rs:42-44 | `as u8` truncates inside [0, 255) and saturates at 0 and 255 |
| HelloWorld.GetImageData | src/bin/image_hello_world.rs:34-51 | H*W pixels; push k is the pixel of row H-1-k/W, column k%W |
| HelloWorld.Pixel | src/bin/image_hello_world.rs:38-46 | inside the image, red is floor(255.999 i/W), green floor(255.999 j/H); blue is always 51 |
| HelloWorld.ChannelRanges | src/bin/image_hello_world.rs:38-44 | red stays <= 254 and green <= 253; red is 0 in column 0 and 254 in the last column |
| Trace.VecToU32 | src/bin/trace.rs:27-30 | the pixel is below 2^24 and its bytes are the gamma-corrected r, g and b |
| Trace.Interact | src/bin/trace.rs:42-53 | the ray escapes exactly when the world misses in (EPSILON, ∞); only a metal hit absorbs; a bounce carries the hit material's attenuation |
| Trace.Scatter | src/bin/trace.rs:43 | the material dispatch: only metal may absorb, and the attenuation is the material's |
| Trace.Radiance | src/bin/trace.rs:36-56 | black when the depth is exhausted; with bounces left, the sky gradient when the ray escapes and black when it is absorbed |
| Trace.RayColor | src/bin/trace.rs:36-56 | black at depth 0; a miss of the world in (EPSILON, ∞) gives the sky gradient; an absorbed ray gives black; a scattered ray gives its attenuation times ray_color of the scattered ray with one bounce fewer |
| Trace.TracePath | src/bin/trace.rs:45 | at most depth bounces are followed |
| Trace.RadianceIsPathProduct | src/bin/trace.rs:36-56 | the colour is the componentwise product of the attenuations along the path times its end colour |
| Trace.SceneDim | src/bin/trace.rs:42-47 | with all attenuations in the unit cube, every bounce of the scene has one |
| Trace.RadianceInUnitCube | src/bin/trace.rs:36-56 | with attenuations in the unit cube, every traced colour is in the unit cube |
| Trace.RayColorInUnitCube | src/bin/trace.rs:36-56 | ray_color of a world whose materials attenuate into the unit cube stays in the unit cube |

## Left out

- src/canvas.rs, `display_image` and the `main` functions: window and event-loop I/O.
- The parallel pixel loop `get_background_image_data` of src/bin/trace.rs (rayon
  and indicatif), and `random_scene` and `test_scene`: concurrency, presentation
  and random scene data.
- Random sources are parameters:
  - `random_in_01`, `random_in_range`, `random_int_in_range`,
    `random_in_unit_sphere`, `random_in_unit_disk` and `shuffle`'s
    `thread_rng` draws are all supplied as parameters;
  - `random_unit_vector` (trigonometry) becomes a supplied unit vector;
  - the bounce samples of `ray_color` are indexed by the remaining depth.
- `reflect` (src/utils.rs outside `clamp`) is not part of this model. It is a
  parameter; `Metals.Mirror` is the textbook reflection, used only to state
  `Metals.SharpMirrorScatters`.
- IEEE behaviour:
  - NaN, signed zeros and rounding are not modelled;
  - `sqrt` of a negative number is unconstrained;
  - the Perlin lattice cast `as usize` saturates negative and huge coordinates,
    and `Perlins.LatticeIndex` models that saturation only as far as it bounds
    the index;
  - the NaN case of `partial_cmp(...).unwrap_or(Equal)` is not modelled.
- Vectors.Norm: normalising the zero vector gives NaN in the source; the model
  returns the zero vector and only promises a unit result for non-zero input.
- Aabbs.Hit: a zero direction component makes `1 / direction` infinite in
  the source. The model does not compute with infinities: it keeps that axis's
  window exactly when `min <= origin <= max`, which is what the infinite and
  NaN slab ends and IEEE comparisons give.
- MovingSpheres.Hit: the model requires `time0 != time1` (a subset type),
  since `center` divides by `time1 - time0`.
- Dielectrics.Scatter: the refractive index is a positive real (a subset
  type), since `1 / refractive_index` and Schlick's `(1 - n)/(1 + n)` need it.
- Dielectrics.ReflectionProbability, Dielectrics.NormalReflectance, Dielectrics.Reflects: require `ref_idx != -1` (`eta != -1`), where
  `(1 - n)/(1 + n)` divides by zero.
- Bvh.BoundingBox, Bvh.BoxKey, HittableLists.ListBox, HittableLists.HittableList.BoundingBox,
  BvhBuild.New, BvhBuild.NewFromHittable: built on the corrected sphere boxes
  with `|radius|` (`Spheres.BoundingBox`, `MovingSpheres.BoundingBox`), not on
  the boxes as written. With the written boxes a negative-radius sphere can be
  lost by the BVH: `BvhBuild.AsWrittenBoxLosesHit` shows a node over the
  written box of a radius -1 sphere that misses a ray the list hits.
- BvhBuild.New requires a non-empty range: an empty range takes the split
  branch with `mid == start` and never terminates in the source.
- BvhBuild.New: `sort_by` is modelled as an insertion sort on a sequence,
  ascending by `min[axis]`. It inserts each object after the ones with equal
  keys, so it is stable like `sort_by`; the contracts state the permutation
  and the order, not the stability.
- BvhBuild.New: the `eprintln!` diagnostics are left out.
  The `unwrap_or(AABB::default())` fallback is kept.
- Perlins.Perlin.constructor: the tables are immutable sequences once built.
  The `u8` table entries are integers in 0..=255.
- Perlins.Perlin.Turbulence: `depth: u8` is a `nat`.
- Vectors.AddAssign, Vectors.MulAssign, Vectors.DivAssign: `Vec3` is `Copy`,
  so the in-place update is modelled as returning the updated value.
- Cameras.New: the seven-argument `Camera::new` called from src/bin/trace.rs
  (without times) is not the nine-argument constructor of src/camera.rs; the
  model follows src/camera.rs.
- Sky.PixelRay: the two-argument `Ray::new` of src/bin/sky.rs is given time 0.
- HitRecords.New: texture coordinates `u` and `v` are always 0.
- Trace.Radiance: the division of the summed samples by `SAMPLES_PER_PIXEL`
  belongs to the excluded pixel loop.

## Findings

| source | as written | input that shows it | evidently intended | confidence | as-written member | corrected member |
|---|---|---|---|---|---|---|
| src/sphere.rs:65-70 | the box is center ± (r, r, r), which is inverted for the negative radius used for hollow glass spheres | sphere at the origin with radius -1; ray from (0, 0, -5) along +z: the sphere is hit at t = 4 but the box's slab test rejects the ray, so a BVH node over that box returns None | center ± (\|r\|, \|r\|, \|r\|) | not executed | Spheres.NegativeRadiusBoxMissesHit, BvhBuild.AsWrittenBoxLosesHit | Spheres.BoundingBox |
| src/moving_sphere.rs:83-96 | both keyframe boxes are center ± (r, r, r), inverted for a negative radius | resting moving sphere at the origin with radius -1, times 0 and 1; ray from (0, 0, -5) along +z at time 0.5 | keyframe boxes with \|r\| | not executed | MovingSpheres.NegativeRadiusBoxMissesHit | MovingSpheres.BoundingBoxCoversMotion |
| src/camera.rs:38-40 | half_height is multiplied by aspect, and half_width by aspect again | aspect 2, tan(θ/2) = 1, focus_dist 1: the vertical span has squared length 16 instead of 4 | half_height = tan(θ/2), half_width = aspect * half_height | not executed | Cameras.NewAsWrittenWidensView | Cameras.NewVerticalSpan |
