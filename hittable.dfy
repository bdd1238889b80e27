/** Hit records (src/hittable.rs): what an intersection query reports. */
module HitRecords {
  import opened Utils
  import opened Vectors
  import opened Rays
  import opened Materials

  /** `HitRecord`. The callers also read the surface's material and its
      texture coordinates `u` and `v`; nothing in the tracer computes texture
      coordinates, so every record carries `u == v == 0`. */
  datatype HitRecord = HitRecord(
    t: real, p: Vec3, normal: Vec3, frontFace: bool,
    material: Material, u: real, v: real)

  /** `HitRecord::new`: orients the normal against the incoming ray and
      remembers on which side of the surface the ray arrived. */
  function New(t: real, p: Vec3, outwardNormal: Vec3, r: Ray, material: Material): (rec: HitRecord)
    ensures rec.frontFace <==> Dot(r.direction, outwardNormal) < 0.0
    ensures rec.frontFace ==> rec.normal == outwardNormal
    ensures !rec.frontFace ==> rec.normal == Neg(outwardNormal)
    ensures Dot(r.direction, rec.normal) <= 0.0
    ensures rec.t == t && rec.p == p && rec.material == material
  {
    var frontFace := Dot(r.direction, outwardNormal) < 0.0;
    var normal := if frontFace then outwardNormal else Neg(outwardNormal);
    HitRecord(t, p, normal, frontFace, material, 0.0, 0.0)
  }

  /** The interval test every `hit` applies to a parameter: `t_min < t < t_max`. */
  predicate InRange(t: real, tMin: real, tMax: Bound)
  {
    tMin < t && Below(t, tMax)
  }

  /** The contract of a closest-hit query over a set of candidate parameters
      (the places where the ray meets a surface): a reported hit is a
      candidate inside `(t_min, t_max)` with no candidate before it, and no
      hit is reported only when no candidate lies inside the interval. */
  predicate Nearest(hit: Option<HitRecord>, candidates: set<real>, tMin: real, tMax: Bound)
  {
    match hit
    case None => forall c :: c in candidates ==> !InRange(c, tMin, tMax)
    case Some(rec) =>
      rec.t in candidates && InRange(rec.t, tMin, tMax) &&
      forall c :: c in candidates ==> !(tMin < c < rec.t)
  }

  /** Lowering `t_max` to a reported hit's `t` leaves no candidate inside. */
  lemma NearestCutsOff(hit: HitRecord, candidates: set<real>, tMin: real, tMax: Bound)
    requires Nearest(Some(hit), candidates, tMin, tMax)
    ensures Nearest(None, candidates, tMin, Finite(hit.t))
  {
  }
}
