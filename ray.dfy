/** Rays (src/ray.rs). The callers construct rays with a time stamp and read
    it back with `time()`, so the model carries the time as a third field. */
module Rays {
  import opened Vectors

  /** `Ray { origin, direction, time }`; the accessors are the fields. */
  datatype Ray = Ray(origin: Vec3, direction: Vec3, time: real)

  /** `at(t) = origin + direction * t`. */
  function At(r: Ray, t: real): (p: Vec3)
    ensures Sub(p, r.origin) == Scale(r.direction, t)
  {
    Add(r.origin, Scale(r.direction, t))
  }

  /** The ray starts at its origin. */
  lemma AtZero(r: Ray)
    ensures At(r, 0.0) == r.origin
  {
  }

  /** Moving along the ray from `t0` to `t1` covers `direction * (t1 - t0)`. */
  lemma AtDifference(r: Ray, t0: real, t1: real)
    ensures Sub(At(r, t1), At(r, t0)) == Scale(r.direction, t1 - t0)
  {
  }

  /** Each coordinate of `At` is affine in `t`. */
  lemma AtComponent(r: Ray, t: real, i: nat)
    requires i < 3
    ensures At(r, t).At(i) == r.origin.At(i) + r.direction.At(i) * t
  {
  }
}
