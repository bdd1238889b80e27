/** Bounding volume hierarchy nodes (src/bvh_node.rs) and the `Hittable`
    objects they index. The tracer's `Hittable` implementations are the
    sphere, the moving sphere and the node itself, so the trait objects
    become one closed datatype; building a hierarchy lives in `BvhBuild`. */
module Bvh {
  import opened Utils
  import opened Vectors
  import opened Rays
  import opened Aabbs
  import opened HitRecords
  import opened Materials
  import Spheres
  import MovingSpheres

  datatype Hittable =
    | SphereObject(sphere: Spheres.Sphere)
    | MovingSphereObject(movingSphere: MovingSpheres.MovingSphere)
    | BvhNode(left: Hittable, right: Hittable, bounds: Aabb)

  /** `Hittable::hit`. A node first runs the slab test on its bounds, then
      asks the left child, then the right child only up to the left child's
      hit, and keeps the right child's hit when there is one. */
  function Hit(h: Hittable, r: Ray, tMin: real, tMax: Bound, sqrt: real -> real): (hit: Option<HitRecord>)
    ensures hit.Some? ==> InRange(hit.value.t, tMin, tMax) && hit.value.p == At(r, hit.value.t)
    decreases h
  {
    match h
    case SphereObject(s) => Spheres.Hit(s, r, tMin, tMax, sqrt)
    case MovingSphereObject(m) => MovingSpheres.Hit(m, r, tMin, tMax, sqrt)
    case BvhNode(left, right, bounds) =>
      if !SlabsOverlap(bounds, r, tMin, tMax) then None
      else
        var hitLeft := Hit(left, r, tMin, tMax, sqrt);
        var hitRight :=
          if hitLeft.None? then Hit(right, r, tMin, tMax, sqrt)
          else Hit(right, r, tMin, Finite(hitLeft.value.t), sqrt);
        if hitRight.Some? then hitRight else hitLeft
  }

  /** `Hittable::bounding_box`. A node returns its cached bounds whatever the
      times; the spheres use the boxes of their modules. */
  function BoundingBox(h: Hittable, t0: real, t1: real): (box: Option<Aabb>)
    ensures box.Some?
    ensures h.BvhNode? ==> box.value == h.bounds
  {
    match h
    case SphereObject(s) => Spheres.BoundingBox(s, t0, t1)
    case MovingSphereObject(m) => MovingSpheres.BoundingBox(m, t0, t1)
    case BvhNode(_, _, bounds) => Some(bounds)
  }

  /** `box.unwrap_or(AABB::default())`. */
  function BoxOrDefault(box: Option<Aabb>): Aabb
  {
    if box.Some? then box.value else Default
  }

  /** The parameters at which the ray meets a surface indexed by `h`. */
  function Candidates(h: Hittable, r: Ray, sqrt: real -> real): set<real>
    decreases h
  {
    match h
    case SphereObject(s) => Spheres.Candidates(s.center, s.radius, r, sqrt)
    case MovingSphereObject(m) =>
      Spheres.Candidates(MovingSpheres.Center(m, r.time), m.radius, r, sqrt)
    case BvhNode(left, right, _) => Candidates(left, r, sqrt) + Candidates(right, r, sqrt)
  }

  /** The materials of the spheres `h` indexes. */
  function MaterialsOf(h: Hittable): set<Material>
    decreases h
  {
    match h
    case SphereObject(s) => {s.material}
    case MovingSphereObject(m) => {m.material}
    case BvhNode(left, right, _) => MaterialsOf(left) + MaterialsOf(right)
  }

  /** A hit carries the material of one of the indexed spheres: a node only
      passes on hits of its children. */
  lemma {:induction false} HitMaterial(h: Hittable, r: Ray, tMin: real, tMax: Bound, sqrt: real -> real)
    ensures Hit(h, r, tMin, tMax, sqrt).Some? ==> Hit(h, r, tMin, tMax, sqrt).value.material in MaterialsOf(h)
    decreases h
  {
    match h
    case SphereObject(_) =>
    case MovingSphereObject(_) =>
    case BvhNode(left, right, bounds) =>
      HitMaterial(left, r, tMin, tMax, sqrt);
      var hitLeft := Hit(left, r, tMin, tMax, sqrt);
      if hitLeft.None? {
        HitMaterial(right, r, tMin, tMax, sqrt);
      } else {
        HitMaterial(right, r, tMin, Finite(hitLeft.value.t), sqrt);
      }
  }

  /** The spheres `h` indexes: the object itself unless it is a node. */
  function Leaves(h: Hittable): (leaves: set<Hittable>)
    ensures forall leaf :: leaf in leaves ==> !leaf.BvhNode?
    ensures !h.BvhNode? ==> leaves == {h}
    decreases h
  {
    match h
    case BvhNode(left, right, _) => Leaves(left) + Leaves(right)
    case _ => {h}
  }

  /** `leaf` is a sphere of nonzero radius, the only kind a ray can meet. */
  predicate ProperSphere(leaf: Hittable)
  {
    match leaf
    case SphereObject(s) => s.radius != 0.0
    case MovingSphereObject(m) => m.radius != 0.0
    case BvhNode(_, _, _) => false
  }

  /** The record the sphere `leaf` reports when the ray meets it at `t`:
      the outward normal is `(p - center) / radius`, with the center taken
      at the ray's time for a moving sphere. */
  function LeafRecord(leaf: Hittable, r: Ray, t: real): HitRecord
    requires ProperSphere(leaf)
  {
    var p := At(r, t);
    match leaf
    case SphereObject(s) => New(t, p, Div(Sub(p, s.center), s.radius), r, s.material)
    case MovingSphereObject(m) => New(t, p, Div(Sub(p, MovingSpheres.Center(m, r.time)), m.radius), r, m.material)
  }

  /** `rec` is the record one of the spheres `leaves` reports at a
      parameter where the ray meets that sphere. */
  predicate RecordOfSurface(rec: HitRecord, leaves: set<Hittable>, r: Ray, sqrt: real -> real)
  {
    exists leaf :: leaf in leaves && ProperSphere(leaf) &&
      rec.t in Candidates(leaf, r, sqrt) && rec == LeafRecord(leaf, r, rec.t)
  }

  /** Whatever the tree above them, a hit is the record of one of the
      indexed spheres: a node only passes on hits of its children. */
  lemma {:induction false} HitFromLeaf(h: Hittable, r: Ray, tMin: real, tMax: Bound, sqrt: real -> real)
    requires Hit(h, r, tMin, tMax, sqrt).Some?
    ensures RecordOfSurface(Hit(h, r, tMin, tMax, sqrt).value, Leaves(h), r, sqrt)
    decreases h
  {
    match h
    case SphereObject(_) =>
      assert h in Leaves(h);
    case MovingSphereObject(_) =>
      assert h in Leaves(h);
    case BvhNode(left, right, bounds) =>
      var hitLeft := Hit(left, r, tMin, tMax, sqrt);
      var limit := if hitLeft.None? then tMax else Finite(hitLeft.value.t);
      if Hit(right, r, tMin, limit, sqrt).Some? {
        HitFromLeaf(right, r, tMin, limit, sqrt);
        var rec := Hit(right, r, tMin, limit, sqrt).value;
        var leaf :| leaf in Leaves(right) && ProperSphere(leaf) &&
          rec.t in Candidates(leaf, r, sqrt) && rec == LeafRecord(leaf, r, rec.t);
        assert leaf in Leaves(h);
      } else {
        HitFromLeaf(left, r, tMin, tMax, sqrt);
        var rec := hitLeft.value;
        var leaf :| leaf in Leaves(left) && ProperSphere(leaf) &&
          rec.t in Candidates(leaf, r, sqrt) && rec == LeafRecord(leaf, r, rec.t);
        assert leaf in Leaves(h);
      }
  }

  /** Every node's bounds contain the boxes of both children for the times
      `t0` and `t1` of construction. */
  predicate Bounded(h: Hittable, t0: real, t1: real)
    decreases h
  {
    h.BvhNode? ==>
      Contains(h.bounds, BoxOrDefault(BoundingBox(h.left, t0, t1))) &&
      Contains(h.bounds, BoxOrDefault(BoundingBox(h.right, t0, t1))) &&
      Bounded(h.left, t0, t1) && Bounded(h.right, t0, t1)
  }

  /** `time` lies between the construction times. */
  predicate Within(time: real, t0: real, t1: real)
  {
    t0 <= time <= t1 || t1 <= time <= t0
  }

  /** Pruning is sound: next to every candidate inside the interval there is
      a parameter inside the interval whose ray point the slab test of the
      object's box accepts. */
  lemma {:induction false} CandidateInsideBox(h: Hittable, r: Ray, sqrt: real -> real,
                                              t0: real, t1: real, c: real, tMin: real, tMax: Bound)
    requires IsSqrt(sqrt) && Bounded(h, t0, t1) && Within(r.time, t0, t1)
    requires c in Candidates(h, r, sqrt) && InRange(c, tMin, tMax)
    ensures exists t :: InRange(t, tMin, tMax) && InsideAt(BoundingBox(h, t0, t1).value, r, t, 0)
    decreases h
  {
    match h
    case SphereObject(s) =>
      Spheres.CandidateInsideBox(s.center, s.radius, r, sqrt, c, tMin, tMax);
    case MovingSphereObject(m) =>
      var center := MovingSpheres.Center(m, r.time);
      Spheres.CandidateInsideBox(center, m.radius, r, sqrt, c, tMin, tMax);
      var t :| InRange(t, tMin, tMax) && InsideAt(Spheres.BoxAround(center, m.radius), r, t, 0);
      MovingSpheres.BoundingBoxCoversMotion(m, t0, t1, r.time);
      InsideLarger(Spheres.BoxAround(center, m.radius), BoundingBox(h, t0, t1).value, r, t);
    case BvhNode(left, right, bounds) =>
      var child := if c in Candidates(left, r, sqrt) then left else right;
      CandidateInsideBox(child, r, sqrt, t0, t1, c, tMin, tMax);
      var t :| InRange(t, tMin, tMax) && InsideAt(BoundingBox(child, t0, t1).value, r, t, 0);
      InsideLarger(BoundingBox(child, t0, t1).value, bounds, r, t);
  }

  /** When the slab test on a node's bounds fails, no candidate of the node
      lies inside the interval, so skipping its children loses nothing. */
  lemma PruneLosesNothing(h: Hittable, r: Ray, sqrt: real -> real,
                          t0: real, t1: real, tMin: real, tMax: Bound)
    requires IsSqrt(sqrt) && Bounded(h, t0, t1) && Within(r.time, t0, t1)
    requires h.BvhNode? && !SlabsOverlap(h.bounds, r, tMin, tMax)
    ensures forall c :: c in Candidates(h, r, sqrt) ==> !InRange(c, tMin, tMax)
  {
    forall c | c in Candidates(h, r, sqrt)
      ensures !InRange(c, tMin, tMax)
    {
      if InRange(c, tMin, tMax) {
        CandidateInsideBox(h, r, sqrt, t0, t1, c, tMin, tMax);
      }
    }
  }

  /** The hit of a well-built hierarchy is the nearest candidate inside the
      interval among all surfaces below it, and there is none only when no
      candidate lies inside the interval. */
  lemma {:induction false} HitNearest(h: Hittable, r: Ray, sqrt: real -> real,
                                      t0: real, t1: real, tMin: real, tMax: Bound)
    requires IsSqrt(sqrt) && Bounded(h, t0, t1) && Within(r.time, t0, t1)
    ensures Nearest(Hit(h, r, tMin, tMax, sqrt), Candidates(h, r, sqrt), tMin, tMax)
    decreases h
  {
    match h
    case SphereObject(s) =>
      Spheres.HitAtNearest(s.center, s.radius, s.material, r, tMin, tMax, sqrt);
    case MovingSphereObject(m) =>
      MovingSpheres.HitNearest(m, r, tMin, tMax, sqrt);
    case BvhNode(left, right, bounds) =>
      if !SlabsOverlap(bounds, r, tMin, tMax) {
        PruneLosesNothing(h, r, sqrt, t0, t1, tMin, tMax);
      } else {
        var hitLeft := Hit(left, r, tMin, tMax, sqrt);
        HitNearest(left, r, sqrt, t0, t1, tMin, tMax);
        var limit := if hitLeft.None? then tMax else Finite(hitLeft.value.t);
        HitNearest(right, r, sqrt, t0, t1, tMin, limit);
        NearestOfTwo(hitLeft, Hit(right, r, tMin, limit, sqrt),
                     Candidates(left, r, sqrt), Candidates(right, r, sqrt), tMin, tMax);
      }
  }

  /** Searching a second candidate set only up to the first set's nearest
      hit, and preferring the second hit when there is one, gives the nearest
      hit of the union. */
  lemma NearestOfTwo(first: Option<HitRecord>, second: Option<HitRecord>,
                     a: set<real>, b: set<real>, tMin: real, tMax: Bound)
    requires Nearest(first, a, tMin, tMax)
    requires Nearest(second, b, tMin, if first.None? then tMax else Finite(first.value.t))
    requires first.Some? ==> Below(first.value.t, tMax)
    ensures Nearest(if second.Some? then second else first, a + b, tMin, tMax)
  {
    if second.Some? && first.Some? {
      assert Below(second.value.t, tMax);
    }
  }

  /** Two results that are both nearest over the same candidates report the
      same parameter. */
  lemma NearestUnique(x: Option<HitRecord>, y: Option<HitRecord>, cs: set<real>, tMin: real, tMax: Bound)
    requires Nearest(x, cs, tMin, tMax) && Nearest(y, cs, tMin, tMax)
    ensures x.None? <==> y.None?
    ensures x.Some? && y.Some? ==> x.value.t == y.value.t
  {
  }

  // The comparators the construction sorts with.

  datatype Ordering = Less | Equal | Greater

  /** The sort key of `box_compare`: the lower corner of the box at time 0
      along `axis`, the default box standing in for a missing one. */
  function BoxKey(h: Hittable, axis: nat): (k: real)
    requires axis < 3
    ensures h.BvhNode? ==> k == h.bounds.min.At(axis)
    ensures h.SphereObject? ==> k == h.sphere.center.At(axis) - Abs(h.sphere.radius)
    ensures h.MovingSphereObject? ==>
      k == MovingSpheres.Center(h.movingSphere, 0.0).At(axis) - Abs(h.movingSphere.radius)
  {
    BoxOrDefault(BoundingBox(h, 0.0, 0.0)).min.At(axis)
  }

  /** `box_compare(a, b, axis)`: `partial_cmp` of the two keys. */
  function BoxCompare(a: Hittable, b: Hittable, axis: nat): (o: Ordering)
    requires axis < 3
    ensures o == Less <==> BoxKey(a, axis) < BoxKey(b, axis)
    ensures o == Greater <==> BoxKey(b, axis) < BoxKey(a, axis)
    ensures o == Equal <==> BoxKey(a, axis) == BoxKey(b, axis)
  {
    var ka, kb := BoxKey(a, axis), BoxKey(b, axis);
    if ka < kb then Less else if kb < ka then Greater else Equal
  }

  /** Swapping the operands reverses the comparison. */
  lemma BoxCompareAntisymmetric(a: Hittable, b: Hittable, axis: nat)
    requires axis < 3
    ensures BoxCompare(a, b, axis) == Less <==> BoxCompare(b, a, axis) == Greater
    ensures BoxCompare(a, b, axis) == Equal <==> BoxCompare(b, a, axis) == Equal
  {
  }

  /** The per-axis comparators `box_x_compare`, `box_y_compare` and
      `box_z_compare`. */
  function BoxXCompare(a: Hittable, b: Hittable): Ordering
  {
    BoxCompare(a, b, 0)
  }

  function BoxYCompare(a: Hittable, b: Hittable): Ordering
  {
    BoxCompare(a, b, 1)
  }

  function BoxZCompare(a: Hittable, b: Hittable): Ordering
  {
    BoxCompare(a, b, 2)
  }
}
