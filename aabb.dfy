/** Axis-aligned bounding boxes (src/aabb.rs): the slab test and `combine`. */
module Aabbs {
  import opened Utils
  import opened Vectors
  import opened Rays

  /** `AABB { min, max }`; `new`, `min()` and `max()` are the constructor and fields. */
  datatype Aabb = Aabb(min: Vec3, max: Vec3)

  /** `AABB::default()`: both corners at the origin. */
  const Default := Aabb(Zero, Zero)

  /** `outer` contains `inner` on every axis. */
  predicate Contains(outer: Aabb, inner: Aabb)
  {
    forall i :: 0 <= i < 3 ==>
      outer.min.At(i) <= inner.min.At(i) && inner.max.At(i) <= outer.max.At(i)
  }

  /** `combine`: the componentwise minimum of the lower corners and maximum of
      the upper corners, the smallest box containing both operands. */
  function Combine(a: Aabb, b: Aabb): (c: Aabb)
    ensures Contains(c, a) && Contains(c, b)
    ensures forall i :: 0 <= i < 3 ==>
      (c.min.At(i) == a.min.At(i) || c.min.At(i) == b.min.At(i)) &&
      (c.max.At(i) == a.max.At(i) || c.max.At(i) == b.max.At(i))
  {
    Aabb(Vec3(Min(a.min.x, b.min.x), Min(a.min.y, b.min.y), Min(a.min.z, b.min.z)),
         Vec3(Max(a.max.x, b.max.x), Max(a.max.y, b.max.y), Max(a.max.z, b.max.z)))
  }

  /** `combine` is the least box containing both operands. */
  lemma CombineLeast(a: Aabb, b: Aabb, d: Aabb)
    requires Contains(d, a) && Contains(d, b)
    ensures Contains(d, Combine(a, b))
  {
    var c := Combine(a, b);
    forall i | 0 <= i < 3
      ensures d.min.At(i) <= c.min.At(i) && c.max.At(i) <= d.max.At(i)
    {
    }
  }

  lemma CombineCommutative(a: Aabb, b: Aabb)
    ensures Combine(a, b) == Combine(b, a)
  {
  }

  lemma CombineAssociative(a: Aabb, b: Aabb, c: Aabb)
    ensures Combine(Combine(a, b), c) == Combine(a, Combine(b, c))
  {
  }

  lemma CombineIdempotent(a: Aabb)
    ensures Combine(a, a) == a
  {
  }

  lemma ContainsReflexive(a: Aabb)
    ensures Contains(a, a)
  {
  }

  lemma ContainsTransitive(a: Aabb, b: Aabb, c: Aabb)
    requires Contains(a, b) && Contains(b, c)
    ensures Contains(a, c)
  {
  }

  /** The parametric interval still open after some axes: `lo` is `t_min`,
      `hi` is `t_max`. */
  datatype Window = Window(lo: real, hi: Bound)

  /** The ends of the slab of axis `a` in the order the source keeps them:
      swapped when the reciprocal of the direction component is negative. */
  function SlabEnds(box: Aabb, r: Ray, a: nat): (ends: (real, real))
    requires a < 3 && r.direction.At(a) != 0.0
  {
    var invDirection := 1.0 / r.direction.At(a);
    var t0 := Crossing(box.min.At(a), r.origin.At(a), invDirection);
    var t1 := Crossing(box.max.At(a), r.origin.At(a), invDirection);
    if invDirection < 0.0 then (t1, t0) else (t0, t1)
  }

  /** The ray parameter at which a coordinate starting at `origin` reaches
      `plane`, given the reciprocal of the direction component. */
  function Crossing(plane: real, origin: real, invDirection: real): real
  {
    (plane - origin) * invDirection
  }

  /** One iteration of the slab loop. `None` is the early `return false`.
      A zero direction component makes the reciprocal infinite in IEEE
      arithmetic: each slab end is then an infinity of the sign of
      `min - origin` (or `max - origin`), or NaN where that difference is zero,
      and NaN comparisons are false. The window is therefore kept unchanged
      when `min <= origin <= max` on that axis and emptied otherwise. */
  function Step(box: Aabb, r: Ray, a: nat, w: Window): (next: Option<Window>)
    requires a < 3
    ensures next.Some? ==> w.lo <= next.value.lo && BoundLe(next.value.hi, w.hi)
    ensures next.Some? ==> Below(next.value.lo, next.value.hi)
  {
    if r.direction.At(a) == 0.0 then
      if box.min.At(a) <= r.origin.At(a) <= box.max.At(a) && Below(w.lo, w.hi) then Some(w)
      else None
    else
      var (t0, t1) := SlabEnds(box, r, a);
      var lo := if t0 > w.lo then t0 else w.lo;
      var hi := if Below(t1, w.hi) then Finite(t1) else w.hi;
      if AtOrAbove(hi, lo) then None else Some(Window(lo, hi))
  }

  /** The slab loop from axis `a` on. */
  function SlabsFrom(box: Aabb, r: Ray, a: nat, w: Window): bool
    requires a <= 3
    decreases 3 - a
  {
    if a == 3 then true
    else
      match Step(box, r, a, w)
      case None => false
      case Some(next) => SlabsFrom(box, r, a + 1, next)
  }

  /** The value `AABB::hit` computes: true exactly when some parameter
      strictly inside `(t_min, t_max)` puts the ray point inside the box. */
  function SlabsOverlap(box: Aabb, r: Ray, tMin: real, tMax: Bound): (overlap: bool)
    ensures overlap <==> exists t :: tMin < t && Below(t, tMax) && InsideAt(box, r, t, 0)
  {
    WindowMeaning(box, r, tMin, tMax);
    SlabsFrom(box, r, 0, Window(tMin, tMax))
  }

  /** `AABB::hit`: narrows `[t_min, t_max]` axis by axis and gives up as soon
      as the window is empty. */
  method Hit(box: Aabb, r: Ray, tMin: real, tMax: Bound) returns (hit: bool)
    ensures hit == SlabsOverlap(box, r, tMin, tMax)
  {
    var lo, hi := tMin, tMax;
    for a := 0 to 3
      invariant SlabsFrom(box, r, a, Window(lo, hi)) == SlabsOverlap(box, r, tMin, tMax)
    {
      ghost var before := Window(lo, hi);
      var d := r.direction.At(a);
      if d == 0.0 {
        // Both slab ends are infinite or NaN; see `Step`.
        if !(box.min.At(a) <= r.origin.At(a) <= box.max.At(a)) {
          assert Step(box, r, a, before).None?;
          return false;
        }
      } else {
        var invDirection := 1.0 / d;
        var t0 := Crossing(box.min.At(a), r.origin.At(a), invDirection);
        var t1 := Crossing(box.max.At(a), r.origin.At(a), invDirection);
        ghost var ends := SlabEnds(box, r, a);
        if invDirection < 0.0 {
          t0, t1 := t1, t0;
        }
        assert (t0, t1) == ends;
        lo := if t0 > lo then t0 else lo;
        hi := if Below(t1, hi) then Finite(t1) else hi;
      }
      if AtOrAbove(hi, lo) {
        assert Step(box, r, a, before).None?;
        return false;
      }
      assert Step(box, r, a, before) == Some(Window(lo, hi));
    }
    return true;
  }

  /** The point `r.at(t)` lies in the box as far as the slab test can see:
      strictly between the planes on every axis the ray moves along, and
      between them (inclusive) on every axis it does not move along. */
  predicate InsideAt(box: Aabb, r: Ray, t: real, from: nat)
  {
    forall i :: from <= i < 3 ==> InsideOnAxis(box, r, t, i)
  }

  /** The ray point at `t` is inside the box along axis `i`, as the slab
      test sees it. */
  predicate InsideOnAxis(box: Aabb, r: Ray, t: real, i: nat)
    requires i < 3
  {
    if r.direction.At(i) == 0.0 then box.min.At(i) <= r.origin.At(i) <= box.max.At(i)
    else box.min.At(i) < r.origin.At(i) + r.direction.At(i) * t < box.max.At(i)
  }

  /** With the ends in the source's order, `t` is strictly inside the slab
      exactly when the ray point at `t` is strictly between the two planes. */
  lemma SlabEndsMeaning(box: Aabb, r: Ray, a: nat, t: real)
    requires a < 3 && r.direction.At(a) != 0.0
    ensures var (t0, t1) := SlabEnds(box, r, a);
      t0 < t < t1 <==>
      box.min.At(a) < r.origin.At(a) + r.direction.At(a) * t < box.max.At(a)
  {
    var d := r.direction.At(a);
    var o := r.origin.At(a);
    var k := 1.0 / d;
    QuotientCompare(box.min.At(a) - o, d, t);
    QuotientCompare(box.max.At(a) - o, d, t);
    assert Crossing(box.min.At(a), o, k) == (box.min.At(a) - o) * (1.0 / d);
    assert Crossing(box.max.At(a), o, k) == (box.max.At(a) - o) * (1.0 / d);
    if d < 0.0 {
      assert k < 0.0;
    } else {
      assert 0.0 < k;
    }
  }

  /** Soundness of a window at axis `a`: a parameter inside the window whose
      point is inside the box on the remaining axes keeps the loop going. */
  lemma {:induction false} WitnessPasses(box: Aabb, r: Ray, a: nat, w: Window, t: real)
    requires a <= 3
    requires w.lo < t && Below(t, w.hi) && InsideAt(box, r, t, a)
    ensures SlabsFrom(box, r, a, w)
    decreases 3 - a
  {
    if a < 3 {
      assert InsideOnAxis(box, r, t, a);
      WitnessKeepsStep(box, r, a, w, t);
      WitnessPasses(box, r, a + 1, Step(box, r, a, w).value, t);
    }
  }

  /** Completeness at axis `a`: when the loop succeeds, some parameter in the
      window has its point inside the box on the remaining axes. */
  lemma {:induction false} PassHasWitness(box: Aabb, r: Ray, a: nat, w: Window)
    returns (t: real)
    requires a <= 3 && SlabsFrom(box, r, a, w)
    requires a == 3 ==> Below(w.lo, w.hi)
    ensures w.lo < t && Below(t, w.hi) && InsideAt(box, r, t, a)
    decreases 3 - a
  {
    if a == 3 {
      t := if w.hi.Infinity? then w.lo + 1.0 else (w.lo + w.hi.value) / 2.0;
    } else {
      var next := Step(box, r, a, w).value;
      t := PassHasWitness(box, r, a + 1, next);
      StepWitnessOnAxis(box, r, a, w, t);
    }
  }

  /** A parameter inside the window and inside the box along axis `a`
      survives the step at axis `a`. */
  lemma WitnessKeepsStep(box: Aabb, r: Ray, a: nat, w: Window, t: real)
    requires a < 3 && w.lo < t && Below(t, w.hi) && InsideOnAxis(box, r, t, a)
    ensures Step(box, r, a, w).Some?
    ensures Step(box, r, a, w).value.lo < t && Below(t, Step(box, r, a, w).value.hi)
  {
    if r.direction.At(a) != 0.0 {
      SlabEndsMeaning(box, r, a, t);
    }
  }

  /** A parameter inside the window that the step at axis `a` leaves is
      inside the old window and inside the box along axis `a`. */
  lemma StepWitnessOnAxis(box: Aabb, r: Ray, a: nat, w: Window, t: real)
    requires a < 3 && Step(box, r, a, w).Some?
    requires Step(box, r, a, w).value.lo < t && Below(t, Step(box, r, a, w).value.hi)
    ensures w.lo < t && Below(t, w.hi) && InsideOnAxis(box, r, t, a)
  {
    var next := Step(box, r, a, w).value;
    if r.direction.At(a) != 0.0 {
      var (t0, t1) := SlabEnds(box, r, a);
      assert t0 <= next.lo && BoundLe(next.hi, Finite(t1));
      SlabEndsMeaning(box, r, a, t);
    }
  }

  /** The slab loop from the first axis succeeds exactly when some
      parameter strictly inside the window puts the ray point inside the box. */
  lemma WindowMeaning(box: Aabb, r: Ray, tMin: real, tMax: Bound)
    ensures SlabsFrom(box, r, 0, Window(tMin, tMax)) <==>
      exists t :: tMin < t && Below(t, tMax) && InsideAt(box, r, t, 0)
  {
    if SlabsFrom(box, r, 0, Window(tMin, tMax)) {
      var t := PassHasWitness(box, r, 0, Window(tMin, tMax));
    }
    if t :| tMin < t && Below(t, tMax) && InsideAt(box, r, t, 0) {
      WitnessPasses(box, r, 0, Window(tMin, tMax), t);
    }
  }

  /** An empty window (`t_max <= t_min`) never hits. */
  lemma EmptyWindowMisses(box: Aabb, r: Ray, tMin: real, tMax: Bound)
    requires AtOrAbove(tMax, tMin)
    ensures !SlabsOverlap(box, r, tMin, tMax)
  {
  }

  /** Widening the window never turns a hit into a miss. */
  lemma WiderWindowHits(box: Aabb, r: Ray, tMin: real, tMax: Bound, tMin': real, tMax': Bound)
    requires tMin' <= tMin && BoundLe(tMax, tMax')
    requires SlabsOverlap(box, r, tMin, tMax)
    ensures SlabsOverlap(box, r, tMin', tMax')
  {
    var t :| tMin < t && Below(t, tMax) && InsideAt(box, r, t, 0);
    assert tMin' < t && Below(t, tMax');
  }

  /** A box containing a hit box is hit too: the test is monotone in the box. */
  lemma LargerBoxHits(inner: Aabb, outer: Aabb, r: Ray, tMin: real, tMax: Bound)
    requires Contains(outer, inner)
    requires SlabsOverlap(inner, r, tMin, tMax)
    ensures SlabsOverlap(outer, r, tMin, tMax)
  {
    var t :| tMin < t && Below(t, tMax) && InsideAt(inner, r, t, 0);
    InsideLarger(inner, outer, r, t);
  }

  /** A ray point inside a box is inside every box containing it. */
  lemma InsideLarger(inner: Aabb, outer: Aabb, r: Ray, t: real)
    requires Contains(outer, inner) && InsideAt(inner, r, t, 0)
    ensures InsideAt(outer, r, t, 0)
  {
    forall i | 0 <= i < 3 ensures InsideOnAxis(outer, r, t, i) {
      assert InsideOnAxis(inner, r, t, i);
    }
  }

  /** With `min <= max` on an axis, the swap leaves the slab ends ordered. */
  lemma SlabEndsOrdered(box: Aabb, r: Ray, a: nat)
    requires a < 3 && r.direction.At(a) != 0.0
    requires box.min.At(a) <= box.max.At(a)
    ensures SlabEnds(box, r, a).0 <= SlabEnds(box, r, a).1
  {
    var k := 1.0 / r.direction.At(a);
    var lo := box.min.At(a) - r.origin.At(a);
    var hi := box.max.At(a) - r.origin.At(a);
    assert Crossing(box.min.At(a), r.origin.At(a), k) == lo * k;
    assert Crossing(box.max.At(a), r.origin.At(a), k) == hi * k;
    if k < 0.0 {
      MulLe(lo, hi, -k);
      assert lo * (-k) == -(lo * k) && hi * (-k) == -(hi * k);
      assert SlabEnds(box, r, a) == (hi * k, lo * k);
    } else {
      MulLe(lo, hi, k);
      assert SlabEnds(box, r, a) == (lo * k, hi * k);
    }
  }
}
