/** The scene list (src/hittable_list.rs): a growable vector of objects, a
    closest-hit search that narrows its interval as it goes, and the box
    around every object. */
module HittableLists {
  import opened Utils
  import opened Rays
  import opened Aabbs
  import opened HitRecords
  import opened Bvh
  import opened Materials

  /** The interval end after a search: the hit's parameter once there is
      one, the original end otherwise. */
  function Limit(hit: Option<HitRecord>, tMax: Bound): Bound
  {
    if hit.None? then tMax else Finite(hit.value.t)
  }

  /** The closest-hit fold over `objects`, in list order: each object is
      asked for a hit before the current closest one. */
  function ListHit(objects: seq<Hittable>, r: Ray, tMin: real, tMax: Bound, sqrt: real -> real): (hit: Option<HitRecord>)
    ensures objects == [] ==> hit.None?
    ensures hit.Some? ==> InRange(hit.value.t, tMin, tMax) && hit.value.p == At(r, hit.value.t)
    decreases |objects|
  {
    if objects == [] then None
    else
      var prior := ListHit(objects[..|objects| - 1], r, tMin, tMax, sqrt);
      var next := Bvh.Hit(objects[|objects| - 1], r, tMin, Limit(prior, tMax), sqrt);
      if next.Some? then next else prior
  }

  /** The parameters at which the ray meets a surface of some object. */
  function CandidatesOf(objects: seq<Hittable>, r: Ray, sqrt: real -> real): set<real>
    decreases |objects|
  {
    if objects == [] then {}
    else CandidatesOf(objects[..|objects| - 1], r, sqrt) + Candidates(objects[|objects| - 1], r, sqrt)
  }

  /** The materials of every sphere in the list. */
  function ListMaterials(objects: seq<Hittable>): set<Material>
    decreases |objects|
  {
    if objects == [] then {}
    else ListMaterials(objects[..|objects| - 1]) + MaterialsOf(objects[|objects| - 1])
  }

  /** The closest hit carries the material of some object of the list. */
  lemma {:induction false} ListHitMaterial(objects: seq<Hittable>, r: Ray, tMin: real, tMax: Bound, sqrt: real -> real)
    ensures ListHit(objects, r, tMin, tMax, sqrt).Some? ==>
      ListHit(objects, r, tMin, tMax, sqrt).value.material in ListMaterials(objects)
    decreases |objects|
  {
    if objects != [] {
      var prefix := objects[..|objects| - 1];
      ListHitMaterial(prefix, r, tMin, tMax, sqrt);
      HitMaterial(objects[|objects| - 1], r, tMin, Limit(ListHit(prefix, r, tMin, tMax, sqrt), tMax), sqrt);
    }
  }

  /** The spheres the objects of the list index. */
  function ListLeaves(objects: seq<Hittable>): set<Hittable>
    decreases |objects|
  {
    if objects == [] then {}
    else ListLeaves(objects[..|objects| - 1]) + Leaves(objects[|objects| - 1])
  }

  /** The closest hit is the record of one of the list's spheres. */
  lemma {:induction false} ListHitFromLeaf(objects: seq<Hittable>, r: Ray, tMin: real, tMax: Bound, sqrt: real -> real)
    requires ListHit(objects, r, tMin, tMax, sqrt).Some?
    ensures RecordOfSurface(ListHit(objects, r, tMin, tMax, sqrt).value, ListLeaves(objects), r, sqrt)
    decreases |objects|
  {
    var prefix := objects[..|objects| - 1];
    var last := objects[|objects| - 1];
    var prior := ListHit(prefix, r, tMin, tMax, sqrt);
    var rec := ListHit(objects, r, tMin, tMax, sqrt).value;
    if Bvh.Hit(last, r, tMin, Limit(prior, tMax), sqrt).Some? {
      HitFromLeaf(last, r, tMin, Limit(prior, tMax), sqrt);
      var leaf :| leaf in Leaves(last) && ProperSphere(leaf) &&
        rec.t in Candidates(leaf, r, sqrt) && rec == LeafRecord(leaf, r, rec.t);
      assert leaf in ListLeaves(objects);
    } else {
      ListHitFromLeaf(prefix, r, tMin, tMax, sqrt);
      var leaf :| leaf in ListLeaves(prefix) && ProperSphere(leaf) &&
        rec.t in Candidates(leaf, r, sqrt) && rec == LeafRecord(leaf, r, rec.t);
      assert leaf in ListLeaves(objects);
    }
  }

  /** A sphere belongs to the list's spheres exactly when some object of
      the list indexes it. */
  lemma {:induction false} ListLeavesMembers(objects: seq<Hittable>, x: Hittable)
    ensures x in ListLeaves(objects) <==> exists i :: 0 <= i < |objects| && x in Leaves(objects[i])
    decreases |objects|
  {
    if objects != [] {
      var prefix := objects[..|objects| - 1];
      ListLeavesMembers(prefix, x);
      if exists i :: 0 <= i < |objects| && x in Leaves(objects[i]) {
        var i :| 0 <= i < |objects| && x in Leaves(objects[i]);
        if i < |prefix| {
          assert prefix[i] == objects[i];
        }
      }
      if exists i :: 0 <= i < |prefix| && x in Leaves(prefix[i]) {
        var i :| 0 <= i < |prefix| && x in Leaves(prefix[i]);
        assert objects[i] == prefix[i];
      }
    }
  }

  /** The spheres of a concatenation are those of its parts. */
  lemma {:induction false} ListLeavesAppend(a: seq<Hittable>, b: seq<Hittable>)
    ensures ListLeaves(a + b) == ListLeaves(a) + ListLeaves(b)
    decreases |b|
  {
    if b == [] {
      assert a + b == a;
    } else {
      var p := b[..|b| - 1];
      assert (a + b)[..|a + b| - 1] == a + p;
      ListLeavesAppend(a, p);
    }
  }

  /** Reordering the objects does not change their spheres. */
  lemma ListLeavesPermutation(a: seq<Hittable>, b: seq<Hittable>)
    requires multiset(a) == multiset(b)
    ensures ListLeaves(a) == ListLeaves(b)
  {
    forall x
      ensures x in ListLeaves(a) ==> x in ListLeaves(b)
      ensures x in ListLeaves(b) ==> x in ListLeaves(a)
    {
      ListLeavesMembers(a, x);
      ListLeavesMembers(b, x);
      if exists i :: 0 <= i < |a| && x in Leaves(a[i]) {
        var i :| 0 <= i < |a| && x in Leaves(a[i]);
        assert a[i] in multiset(b);
        var j :| 0 <= j < |b| && b[j] == a[i];
      }
      if exists j :: 0 <= j < |b| && x in Leaves(b[j]) {
        var j :| 0 <= j < |b| && x in Leaves(b[j]);
        assert b[j] in multiset(a);
        var i :| 0 <= i < |a| && a[i] == b[j];
      }
    }
  }

  /** A list of spheres alone indexes exactly its own objects. */
  lemma ListLeavesOfSpheres(objects: seq<Hittable>)
    requires forall i :: 0 <= i < |objects| ==> !objects[i].BvhNode?
    ensures ListLeaves(objects) == set i | 0 <= i < |objects| :: objects[i]
  {
    forall x
      ensures x in ListLeaves(objects) <==> x in set i | 0 <= i < |objects| :: objects[i]
    {
      ListLeavesMembers(objects, x);
    }
  }

  /** The box fold: objects without a box are skipped, the rest combined in
      list order; there is no box when no object has one. Every object of
      the model has a box, so only the empty list has none. */
  function ListBox(objects: seq<Hittable>, t0: real, t1: real): (box: Option<Aabb>)
    ensures box.None? <==> objects == []
    decreases |objects|
  {
    if objects == [] then None
    else
      var prior := ListBox(objects[..|objects| - 1], t0, t1);
      var next := Bvh.BoundingBox(objects[|objects| - 1], t0, t1);
      if next.None? then prior
      else if prior.None? then next
      else Some(Combine(prior.value, next.value))
  }

  class HittableList {
    var objects: seq<Hittable>

    /** `HittableList::new`: an empty list. */
    constructor ()
      ensures objects == []
    {
      objects := [];
    }

    /** `HittableList::with_object`: a new list holding exactly `obj`. */
    static method WithObject(obj: Hittable) returns (list: HittableList)
      ensures fresh(list) && list.objects == [obj]
    {
      list := new HittableList();
      list.Add(obj);
    }

    /** `HittableList::clear`. */
    method Clear()
      modifies this
      ensures objects == []
    {
      objects := [];
    }

    /** `HittableList::add`: appends one object after the others. */
    method Add(obj: Hittable)
      modifies this
      ensures objects == old(objects) + [obj]
    {
      objects := objects + [obj];
    }

    /** `HittableList::hit`: each object is searched up to the closest hit
        found so far, and a hit replaces the one held. */
    method Hit(r: Ray, tMin: real, tMax: Bound, sqrt: real -> real) returns (hit: Option<HitRecord>)
      ensures hit == ListHit(objects, r, tMin, tMax, sqrt)
    {
      var closestHit: Option<HitRecord> := None;
      var closestDistance := tMax;
      for i := 0 to |objects|
        invariant closestHit == ListHit(objects[..i], r, tMin, tMax, sqrt)
        invariant closestDistance == Limit(closestHit, tMax)
        invariant BoundLe(closestDistance, tMax)
      {
        assert objects[..i + 1][..i] == objects[..i];
        var h := Bvh.Hit(objects[i], r, tMin, closestDistance, sqrt);
        if h.Some? {
          closestDistance := Finite(h.value.t);
          closestHit := h;
        }
      }
      assert objects[..|objects|] == objects;
      hit := closestHit;
    }

    /** `HittableList::bounding_box`: no box for an empty list, otherwise the
        fold of the objects' boxes. */
    method BoundingBox(t0: real, t1: real) returns (box: Option<Aabb>)
      ensures box == ListBox(objects, t0, t1)
    {
      if |objects| == 0 {
        return None;
      }
      var acc: Option<Aabb> := None;
      for i := 0 to |objects|
        invariant acc == ListBox(objects[..i], t0, t1)
      {
        assert objects[..i + 1][..i] == objects[..i];
        var next := Bvh.BoundingBox(objects[i], t0, t1);
        if next.Some? {
          acc := if acc.None? then next else Some(Combine(acc.value, next.value));
        }
      }
      assert objects[..|objects|] == objects;
      box := acc;
    }
  }

  /** A parameter is a candidate of the list exactly when it is a candidate
      of one of its objects. */
  lemma {:induction false} CandidatesOfMembers(objects: seq<Hittable>, r: Ray, sqrt: real -> real, c: real)
    ensures c in CandidatesOf(objects, r, sqrt) <==>
      exists i :: 0 <= i < |objects| && c in Candidates(objects[i], r, sqrt)
    decreases |objects|
  {
    if objects != [] {
      var prefix := objects[..|objects| - 1];
      CandidatesOfMembers(prefix, r, sqrt, c);
      if exists i :: 0 <= i < |objects| && c in Candidates(objects[i], r, sqrt) {
        var i :| 0 <= i < |objects| && c in Candidates(objects[i], r, sqrt);
        if i < |prefix| {
          assert prefix[i] == objects[i];
        }
      }
      if exists i :: 0 <= i < |prefix| && c in Candidates(prefix[i], r, sqrt) {
        var i :| 0 <= i < |prefix| && c in Candidates(prefix[i], r, sqrt);
        assert objects[i] == prefix[i];
      }
    }
  }

  /** The candidates of a concatenation are those of its parts. */
  lemma CandidatesOfAppend(a: seq<Hittable>, b: seq<Hittable>, r: Ray, sqrt: real -> real)
    ensures CandidatesOf(a + b, r, sqrt) == CandidatesOf(a, r, sqrt) + CandidatesOf(b, r, sqrt)
  {
    forall c
      ensures c in CandidatesOf(a + b, r, sqrt) <==> c in CandidatesOf(a, r, sqrt) + CandidatesOf(b, r, sqrt)
    {
      CandidatesOfMembers(a + b, r, sqrt, c);
      CandidatesOfMembers(a, r, sqrt, c);
      CandidatesOfMembers(b, r, sqrt, c);
      if exists i :: 0 <= i < |a + b| && c in Candidates((a + b)[i], r, sqrt) {
        var i :| 0 <= i < |a + b| && c in Candidates((a + b)[i], r, sqrt);
        if i >= |a| {
          assert (a + b)[i] == b[i - |a|];
        }
      }
      if exists i :: 0 <= i < |a| && c in Candidates(a[i], r, sqrt) {
        var i :| 0 <= i < |a| && c in Candidates(a[i], r, sqrt);
        assert (a + b)[i] == a[i];
      }
      if exists i :: 0 <= i < |b| && c in Candidates(b[i], r, sqrt) {
        var i :| 0 <= i < |b| && c in Candidates(b[i], r, sqrt);
        assert (a + b)[|a| + i] == b[i];
      }
    }
  }

  /** Reordering the objects does not change the candidates. */
  lemma CandidatesOfPermutation(a: seq<Hittable>, b: seq<Hittable>, r: Ray, sqrt: real -> real)
    requires multiset(a) == multiset(b)
    ensures CandidatesOf(a, r, sqrt) == CandidatesOf(b, r, sqrt)
  {
    forall c
      ensures c in CandidatesOf(a, r, sqrt) ==> c in CandidatesOf(b, r, sqrt)
      ensures c in CandidatesOf(b, r, sqrt) ==> c in CandidatesOf(a, r, sqrt)
    {
      CandidatesOfMembers(a, r, sqrt, c);
      CandidatesOfMembers(b, r, sqrt, c);
      if exists i :: 0 <= i < |a| && c in Candidates(a[i], r, sqrt) {
        var i :| 0 <= i < |a| && c in Candidates(a[i], r, sqrt);
        assert a[i] in multiset(b);
        var j :| 0 <= j < |b| && b[j] == a[i];
      }
      if exists j :: 0 <= j < |b| && c in Candidates(b[j], r, sqrt) {
        var j :| 0 <= j < |b| && c in Candidates(b[j], r, sqrt);
        assert b[j] in multiset(a);
        var i :| 0 <= i < |a| && a[i] == b[j];
      }
    }
  }

  /** When every object misses over the whole interval, so does the list. */
  lemma {:induction false} ListHitAllMiss(objects: seq<Hittable>, r: Ray, tMin: real, tMax: Bound, sqrt: real -> real)
    requires forall i :: 0 <= i < |objects| ==> Bvh.Hit(objects[i], r, tMin, tMax, sqrt).None?
    ensures ListHit(objects, r, tMin, tMax, sqrt).None?
    decreases |objects|
  {
    if objects != [] {
      var prefix := objects[..|objects| - 1];
      assert forall i :: 0 <= i < |prefix| ==> prefix[i] == objects[i];
      ListHitAllMiss(prefix, r, tMin, tMax, sqrt);
    }
  }

  /** The list's hit is the nearest candidate of all its objects inside the
      interval, and there is none only when no candidate lies inside it. */
  lemma {:induction false} ListHitNearest(objects: seq<Hittable>, r: Ray, sqrt: real -> real,
                                          t0: real, t1: real, tMin: real, tMax: Bound)
    requires IsSqrt(sqrt) && Within(r.time, t0, t1)
    requires forall i :: 0 <= i < |objects| ==> Bounded(objects[i], t0, t1)
    ensures Nearest(ListHit(objects, r, tMin, tMax, sqrt), CandidatesOf(objects, r, sqrt), tMin, tMax)
    decreases |objects|
  {
    if objects != [] {
      var prefix := objects[..|objects| - 1];
      var last := objects[|objects| - 1];
      assert forall i :: 0 <= i < |prefix| ==> prefix[i] == objects[i];
      ListHitNearest(prefix, r, sqrt, t0, t1, tMin, tMax);
      var prior := ListHit(prefix, r, tMin, tMax, sqrt);
      HitNearest(last, r, sqrt, t0, t1, tMin, Limit(prior, tMax));
      NearestOfTwo(prior, Bvh.Hit(last, r, tMin, Limit(prior, tMax), sqrt),
                   CandidatesOf(prefix, r, sqrt), Candidates(last, r, sqrt), tMin, tMax);
    }
  }

  /** The list's box is absent exactly when no object has a box. */
  lemma {:induction false} ListBoxAbsent(objects: seq<Hittable>, t0: real, t1: real)
    ensures ListBox(objects, t0, t1).None? <==>
      forall i :: 0 <= i < |objects| ==> Bvh.BoundingBox(objects[i], t0, t1).None?
    decreases |objects|
  {
    if objects != [] {
      var prefix := objects[..|objects| - 1];
      assert forall i :: 0 <= i < |prefix| ==> prefix[i] == objects[i];
      ListBoxAbsent(prefix, t0, t1);
    }
  }

  /** The list's box contains the box of every object that has one. */
  lemma {:induction false} ListBoxContains(objects: seq<Hittable>, t0: real, t1: real, i: nat)
    requires i < |objects| && Bvh.BoundingBox(objects[i], t0, t1).Some?
    ensures ListBox(objects, t0, t1).Some?
    ensures Contains(ListBox(objects, t0, t1).value, Bvh.BoundingBox(objects[i], t0, t1).value)
    decreases |objects|
  {
    var prefix := objects[..|objects| - 1];
    var prior := ListBox(prefix, t0, t1);
    var next := Bvh.BoundingBox(objects[|objects| - 1], t0, t1);
    if i == |objects| - 1 {
      if prior.Some? {
      } else {
        ContainsReflexive(next.value);
      }
    } else {
      assert prefix[i] == objects[i];
      ListBoxContains(prefix, t0, t1, i);
      if next.Some? {
        ContainsTransitive(Combine(prior.value, next.value), prior.value, Bvh.BoundingBox(objects[i], t0, t1).value);
      }
    }
  }

  /** The list's box is the smallest one containing every object's box. */
  lemma {:induction false} ListBoxLeast(objects: seq<Hittable>, t0: real, t1: real, outer: Aabb)
    requires ListBox(objects, t0, t1).Some?
    requires forall i :: 0 <= i < |objects| && Bvh.BoundingBox(objects[i], t0, t1).Some? ==>
      Contains(outer, Bvh.BoundingBox(objects[i], t0, t1).value)
    ensures Contains(outer, ListBox(objects, t0, t1).value)
    decreases |objects|
  {
    var prefix := objects[..|objects| - 1];
    var prior := ListBox(prefix, t0, t1);
    var next := Bvh.BoundingBox(objects[|objects| - 1], t0, t1);
    assert forall i :: 0 <= i < |prefix| ==> prefix[i] == objects[i];
    if prior.Some? {
      ListBoxLeast(prefix, t0, t1, outer);
      if next.Some? {
        CombineLeast(prior.value, next.value, outer);
      }
    }
  }
}
