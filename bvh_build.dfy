/** Building a bounding volume hierarchy (src/bvh_node.rs:18-75): the range
    of objects is split recursively, after sorting it along an axis drawn at
    random for each node, and every node caches the box around its two
    children. The random axis of the node over `[start, end)` is
    `draw(start, end) % 3`, so the contracts hold for every draw. */
module BvhBuild {
  import opened Utils
  import opened Rays
  import opened Aabbs
  import opened HitRecords
  import opened Bvh
  import opened HittableLists
  import opened Vectors
  import opened Materials
  import Spheres

  /** The objects are in ascending order of their sort key along `axis`. */
  predicate SortedByKey(s: seq<Hittable>, axis: nat)
    requires axis < 3
  {
    forall i, j :: 0 <= i < j < |s| ==> BoxKey(s[i], axis) <= BoxKey(s[j], axis)
  }

  /** Inserts `x` after every element whose key does not exceed its own. */
  function Insert(x: Hittable, s: seq<Hittable>, axis: nat): (res: seq<Hittable>)
    requires axis < 3
    ensures |res| == |s| + 1 && multiset(res) == multiset(s) + multiset{x}
    decreases |s|
  {
    if s == [] || BoxCompare(s[|s| - 1], x, axis) != Greater then s + [x]
    else
      assert s == s[..|s| - 1] + [s[|s| - 1]];
      Insert(x, s[..|s| - 1], axis) + [s[|s| - 1]]
  }

  /** `slice.sort_by(comparator)` on the keys of `box_compare`: a stable
      sort, here insertion sort. */
  function SortByKey(s: seq<Hittable>, axis: nat): (res: seq<Hittable>)
    requires axis < 3
    ensures |res| == |s| && multiset(res) == multiset(s)
    decreases |s|
  {
    if s == [] then []
    else
      assert s == s[..|s| - 1] + [s[|s| - 1]];
      Insert(s[|s| - 1], SortByKey(s[..|s| - 1], axis), axis)
  }

  lemma {:induction false} InsertSorted(x: Hittable, s: seq<Hittable>, axis: nat)
    requires axis < 3 && SortedByKey(s, axis)
    ensures SortedByKey(Insert(x, s, axis), axis)
    decreases |s|
  {
    if s == [] || BoxCompare(s[|s| - 1], x, axis) != Greater {
      AppendLargest(x, s, axis);
    } else {
      var p, last := s[..|s| - 1], s[|s| - 1];
      InsertSorted(x, p, axis);
      forall m | 0 <= m < |p| ensures BoxKey(p[m], axis) <= BoxKey(last, axis) {
        assert s[m] == p[m];
      }
      InsertBelow(x, p, axis, BoxKey(last, axis));
      AppendAbove(Insert(x, p, axis), last, axis);
    }
  }

  /** Appending an object whose key is at least the last key keeps the order. */
  lemma AppendLargest(x: Hittable, s: seq<Hittable>, axis: nat)
    requires axis < 3 && SortedByKey(s, axis)
    requires s == [] || BoxKey(s[|s| - 1], axis) <= BoxKey(x, axis)
    ensures SortedByKey(s + [x], axis)
  {
    forall i | 0 <= i < |s| ensures BoxKey(s[i], axis) <= BoxKey(x, axis) {
      assert BoxKey(s[i], axis) <= BoxKey(s[|s| - 1], axis);
    }
    AppendAbove(s, x, axis);
  }

  /** A sorted sequence followed by an object whose key bounds all of its
      keys is sorted. */
  lemma AppendAbove(q: seq<Hittable>, last: Hittable, axis: nat)
    requires axis < 3 && SortedByKey(q, axis)
    requires forall k :: 0 <= k < |q| ==> BoxKey(q[k], axis) <= BoxKey(last, axis)
    ensures SortedByKey(q + [last], axis)
  {
    var r := q + [last];
    forall i, j | 0 <= i < j < |r| ensures BoxKey(r[i], axis) <= BoxKey(r[j], axis) {
      assert r[i] == q[i];
      if j < |q| {
        assert r[j] == q[j];
      }
    }
  }

  /** Inserting an object keeps every key under a common bound. */
  lemma InsertBelow(x: Hittable, p: seq<Hittable>, axis: nat, bound: real)
    requires axis < 3 && BoxKey(x, axis) <= bound
    requires forall m :: 0 <= m < |p| ==> BoxKey(p[m], axis) <= bound
    ensures forall k :: 0 <= k < |Insert(x, p, axis)| ==> BoxKey(Insert(x, p, axis)[k], axis) <= bound
  {
    var q := Insert(x, p, axis);
    forall k | 0 <= k < |q| ensures BoxKey(q[k], axis) <= bound {
      assert q[k] in multiset(q);
      if q[k] != x {
        assert q[k] in multiset(p);
      }
    }
  }

  /** The sort yields the objects in ascending key order. */
  lemma {:induction false} SortByKeySorted(s: seq<Hittable>, axis: nat)
    requires axis < 3
    ensures SortedByKey(SortByKey(s, axis), axis)
    decreases |s|
  {
    if s != [] {
      SortByKeySorted(s[..|s| - 1], axis);
      InsertSorted(s[|s| - 1], SortByKey(s[..|s| - 1], axis), axis);
    }
  }

  /** Every object of the range is a well-built hierarchy, or no hierarchy. */
  predicate AllBounded(s: seq<Hittable>, t0: real, t1: real)
  {
    forall i :: 0 <= i < |s| ==> Bounded(s[i], t0, t1)
  }

  lemma AllBoundedPermutation(a: seq<Hittable>, b: seq<Hittable>, t0: real, t1: real)
    requires multiset(a) == multiset(b) && AllBounded(a, t0, t1)
    ensures AllBounded(b, t0, t1)
  {
    forall j | 0 <= j < |b|
      ensures Bounded(b[j], t0, t1)
    {
      assert b[j] in multiset(a);
    }
  }

  lemma SingleCandidates(o: Hittable, r: Ray, sqrt: real -> real)
    ensures CandidatesOf([o], r, sqrt) == Candidates(o, r, sqrt)
  {
    assert [o][..0] == [];
  }

  lemma PairCandidates(a: Hittable, b: Hittable, r: Ray, sqrt: real -> real)
    ensures CandidatesOf([a, b], r, sqrt) == Candidates(a, r, sqrt) + Candidates(b, r, sqrt)
  {
    assert [a, b][..1] == [a];
    SingleCandidates(a, r, sqrt);
  }

  lemma PairLeaves(a: Hittable, b: Hittable)
    ensures ListLeaves([a]) == Leaves(a)
    ensures ListLeaves([a, b]) == Leaves(a) + Leaves(b)
  {
    assert [a][..0] == [];
    assert [a, b][..1] == [a];
  }

  /** Only one of the spheres `leaves` meets the ray at `t`. */
  predicate SoleSurfaceAt(leaves: set<Hittable>, r: Ray, sqrt: real -> real, t: real)
  {
    forall a, b :: a in leaves && b in leaves && t in Candidates(a, r, sqrt) && t in Candidates(b, r, sqrt) ==> a == b
  }

  /** The two results, searched over the spheres `leaves`, report the same
      nearest parameter and point, or both nothing; when only one sphere
      meets the ray at that parameter, they are the same record. */
  predicate SameNearest(x: Option<HitRecord>, y: Option<HitRecord>, leaves: set<Hittable>, r: Ray, sqrt: real -> real)
  {
    (x.None? <==> y.None?) &&
    (x.Some? && y.Some? ==>
      x.value.t == y.value.t && x.value.p == y.value.p &&
      (SoleSurfaceAt(leaves, r, sqrt, x.value.t) ==> x == y))
  }

  /** The object indexes exactly the spheres of the range `s`, and so
      carries exactly their candidates. */
  ghost predicate Carries(h: Hittable, s: seq<Hittable>)
  {
    Leaves(h) == ListLeaves(s) &&
    forall r: Ray, sqrt: real -> real :: Candidates(h, r, sqrt) == CandidatesOf(s, r, sqrt)
  }

  /** The two children index exactly the spheres of the range `s`, and so
      carry exactly their candidates. */
  ghost predicate Covers(left: Hittable, right: Hittable, s: seq<Hittable>)
  {
    Leaves(left) + Leaves(right) == ListLeaves(s) &&
    forall r: Ray, sqrt: real -> real ::
      Candidates(left, r, sqrt) + Candidates(right, r, sqrt) == CandidatesOf(s, r, sqrt)
  }

  /** `node` is a node over the range `s` built for the times `t0` and `t1`:
      its bounds are the box around its children's boxes, it is well built
      when the objects of `s` are, and it carries exactly their candidates. */
  ghost predicate Built(node: Hittable, s: seq<Hittable>, t0: real, t1: real)
  {
    node.BvhNode? &&
    node.bounds ==
      Combine(BoxOrDefault(Bvh.BoundingBox(node.left, t0, t1)), BoxOrDefault(Bvh.BoundingBox(node.right, t0, t1))) &&
    (AllBounded(s, t0, t1) ==> Bounded(node, t0, t1)) &&
    Carries(node, s)
  }

  /** How the children of the node over `s` are chosen for the sort axis
      `axis`: one object goes on both sides; of two objects the first goes
      left only when the comparison says Greater, and otherwise (a tie
      included) the second goes left, so the left key is never the smaller;
      a longer range is sorted by key and its lower half goes left, its upper
      half right. */
  ghost predicate Arranged(left: Hittable, right: Hittable, s: seq<Hittable>, axis: nat)
    requires axis < 3
  {
    (|s| == 1 ==> left == s[0] && right == s[0]) &&
    (|s| == 2 ==>
      (BoxCompare(s[0], s[1], axis) == Greater ==> left == s[0] && right == s[1]) &&
      (BoxCompare(s[0], s[1], axis) != Greater ==> left == s[1] && right == s[0]) &&
      BoxKey(right, axis) <= BoxKey(left, axis)) &&
    (|s| >= 3 ==>
      Carries(left, SortByKey(s, axis)[..|s| / 2]) &&
      Carries(right, SortByKey(s, axis)[|s| / 2..]))
  }

  /** `BvhNode::new`: the node over `objects[start..end]`. */
  method New(objects: seq<Hittable>, start: nat, end: nat, t0: real, t1: real, draw: (nat, nat) -> nat)
    returns (node: Hittable)
    requires start < end <= |objects|
    ensures Built(node, objects[start..end], t0, t1)
    ensures Arranged(node.left, node.right, objects[start..end], draw(start, end) % 3)
    decreases end - start, 2
  {
    var left, right := Children(objects, start, end, t0, t1, draw);
    var boxLeft := Bvh.BoundingBox(left, t0, t1);
    var boxRight := Bvh.BoundingBox(right, t0, t1);
    node := BvhNode(left, right, Combine(BoxOrDefault(boxLeft), BoxOrDefault(boxRight)));
  }

  /** The children of the node over `objects[start..end]`. */
  method Children(objects: seq<Hittable>, start: nat, end: nat, t0: real, t1: real, draw: (nat, nat) -> nat)
    returns (left: Hittable, right: Hittable)
    requires start < end <= |objects|
    ensures Covers(left, right, objects[start..end])
    ensures AllBounded(objects[start..end], t0, t1) ==> Bounded(left, t0, t1) && Bounded(right, t0, t1)
    ensures Arranged(left, right, objects[start..end], draw(start, end) % 3)
    decreases end - start, 1
  {
    var axis := draw(start, end) % 3;
    var span := end - start;
    if span == 1 {
      left, right := objects[start], objects[start];
      assert objects[start..end] == [objects[start]];
      PairLeaves(objects[start], objects[start]);
      forall r: Ray, sqrt: real -> real
        ensures Candidates(left, r, sqrt) + Candidates(right, r, sqrt) == CandidatesOf(objects[start..end], r, sqrt)
      {
        SingleCandidates(objects[start], r, sqrt);
      }
    } else if span == 2 {
      if BoxCompare(objects[start], objects[start + 1], axis) == Greater {
        left, right := objects[start], objects[start + 1];
      } else {
        left, right := objects[start + 1], objects[start];
      }
      assert objects[start..end] == [objects[start], objects[start + 1]];
      PairLeaves(objects[start], objects[start + 1]);
      forall r: Ray, sqrt: real -> real
        ensures Candidates(left, r, sqrt) + Candidates(right, r, sqrt) == CandidatesOf(objects[start..end], r, sqrt)
      {
        PairCandidates(objects[start], objects[start + 1], r, sqrt);
      }
    } else {
      left, right := Split(objects, start, end, t0, t1, draw);
    }
  }

  /** A range of three or more objects: the clone of the objects is sorted
      over the range and each half becomes a node. */
  method Split(objects: seq<Hittable>, start: nat, end: nat, t0: real, t1: real, draw: (nat, nat) -> nat)
    returns (left: Hittable, right: Hittable)
    requires start + 3 <= end <= |objects|
    ensures Covers(left, right, objects[start..end])
    ensures AllBounded(objects[start..end], t0, t1) ==> Bounded(left, t0, t1) && Bounded(right, t0, t1)
    ensures Arranged(left, right, objects[start..end], draw(start, end) % 3)
    decreases end - start, 0
  {
    var axis := draw(start, end) % 3;
    var span := end - start;
    var sorted := SortByKey(objects[start..end], axis);
    var work := objects[..start] + sorted + objects[end..];
    var mid := start + span / 2;
    left := New(work, start, mid, t0, t1, draw);
    right := New(work, mid, end, t0, t1, draw);
    assert Carries(left, work[start..mid]) && Carries(right, work[mid..end]);
    SplitResult(objects, start, end, axis, sorted, work, mid, left, right, t0, t1);
  }

  /** The two nodes built over the halves of the sorted range give the
      children `Split` promises. */
  lemma SplitResult(objects: seq<Hittable>, start: nat, end: nat, axis: nat, sorted: seq<Hittable>,
                    work: seq<Hittable>, mid: nat, left: Hittable, right: Hittable, t0: real, t1: real)
    requires start + 3 <= end <= |objects| && axis < 3 && sorted == SortByKey(objects[start..end], axis)
    requires work == objects[..start] + sorted + objects[end..] && mid == start + (end - start) / 2
    requires mid <= end <= |work|
    requires Carries(left, work[start..mid]) && Carries(right, work[mid..end])
    requires AllBounded(work[start..mid], t0, t1) ==> Bounded(left, t0, t1)
    requires AllBounded(work[mid..end], t0, t1) ==> Bounded(right, t0, t1)
    ensures Covers(left, right, objects[start..end])
    ensures AllBounded(objects[start..end], t0, t1) ==> Bounded(left, t0, t1) && Bounded(right, t0, t1)
    ensures Arranged(left, right, objects[start..end], axis)
  {
    var half := (end - start) / 2;
    SpliceHalves(objects, start, end, sorted);
    assert work[start..mid] == sorted[..half] && work[mid..end] == sorted[half..];
    SplitCovers(left, right, sorted, objects[start..end], half);
    if AllBounded(objects[start..end], t0, t1) {
      SplitBounded(objects[start..end], sorted, half, t0, t1);
    }
    SortedHalvesArranged(objects[start..end], axis, sorted, half, left, right);
  }

  lemma SortedHalvesArranged(s: seq<Hittable>, axis: nat, sorted: seq<Hittable>, half: nat,
                             left: Hittable, right: Hittable)
    requires |s| >= 3 && axis < 3 && sorted == SortByKey(s, axis) && half == |s| / 2
    requires Carries(left, sorted[..half]) && Carries(right, sorted[half..])
    ensures Arranged(left, right, s, axis)
  {
  }

  /** The range `[start, end)` of `objects` overwritten by `sorted`: its two
      halves are the two halves of `sorted`. */
  lemma SpliceHalves(objects: seq<Hittable>, start: nat, end: nat, sorted: seq<Hittable>)
    requires start <= end <= |objects| && |sorted| == end - start
    ensures var work := objects[..start] + sorted + objects[end..];
      |work| == |objects| &&
      work[start..start + |sorted| / 2] == sorted[..|sorted| / 2] &&
      work[start + |sorted| / 2..end] == sorted[|sorted| / 2..]
  {
  }

  /** Children built from the two halves of a reordering of `s` together
      carry the candidates of `s`. */
  lemma SplitCovers(left: Hittable, right: Hittable, sorted: seq<Hittable>, s: seq<Hittable>, half: nat)
    requires half <= |sorted| && multiset(sorted) == multiset(s)
    requires Carries(left, sorted[..half]) && Carries(right, sorted[half..])
    ensures Covers(left, right, s)
  {
    assert sorted == sorted[..half] + sorted[half..];
    ListLeavesAppend(sorted[..half], sorted[half..]);
    ListLeavesPermutation(sorted, s);
    forall r: Ray, sqrt: real -> real
      ensures Candidates(left, r, sqrt) + Candidates(right, r, sqrt) == CandidatesOf(s, r, sqrt)
    {
      CandidatesOfAppend(sorted[..half], sorted[half..], r, sqrt);
      CandidatesOfPermutation(sorted, s, r, sqrt);
    }
  }

  /** Both halves of a reordering of well-built objects are well built. */
  lemma SplitBounded(s: seq<Hittable>, sorted: seq<Hittable>, half: nat, t0: real, t1: real)
    requires half <= |sorted| && multiset(sorted) == multiset(s) && AllBounded(s, t0, t1)
    ensures AllBounded(sorted[..half], t0, t1) && AllBounded(sorted[half..], t0, t1)
  {
    AllBoundedPermutation(s, sorted, t0, t1);
  }

  /** `BvhNode::new_from_hittable`: the hierarchy over the whole list, which
      is left as it was. The hierarchy indexes exactly the list's spheres,
      every hit it reports is the record of one of them, and for every ray
      whose time lies between the build times it reports the same nearest
      hit as the list. */
  method NewFromHittable(list: HittableList, t0: real, t1: real, draw: (nat, nat) -> nat)
    returns (node: Hittable)
    requires |list.objects| > 0
    ensures node.BvhNode?
    ensures Leaves(node) == ListLeaves(list.objects)
    ensures forall r: Ray, sqrt: real -> real ::
      Candidates(node, r, sqrt) == CandidatesOf(list.objects, r, sqrt)
    ensures forall r: Ray, sqrt: real -> real, tMin: real, tMax: Bound ::
      Bvh.Hit(node, r, tMin, tMax, sqrt).Some? ==>
        RecordOfSurface(Bvh.Hit(node, r, tMin, tMax, sqrt).value, ListLeaves(list.objects), r, sqrt)
    ensures AllBounded(list.objects, t0, t1) ==> Bounded(node, t0, t1)
    ensures AllBounded(list.objects, t0, t1) ==>
      forall r: Ray, sqrt: real -> real, tMin: real, tMax: Bound ::
        IsSqrt(sqrt) && Within(r.time, t0, t1) ==>
          SameNearest(Bvh.Hit(node, r, tMin, tMax, sqrt), ListHit(list.objects, r, tMin, tMax, sqrt),
                      ListLeaves(list.objects), r, sqrt)
  {
    assert list.objects[0..|list.objects|] == list.objects;
    node := New(list.objects, 0, |list.objects|, t0, t1, draw);
    forall r: Ray, sqrt: real -> real, tMin: real, tMax: Bound | Bvh.Hit(node, r, tMin, tMax, sqrt).Some?
      ensures RecordOfSurface(Bvh.Hit(node, r, tMin, tMax, sqrt).value, ListLeaves(list.objects), r, sqrt)
    {
      HitFromLeaf(node, r, tMin, tMax, sqrt);
    }
    if AllBounded(list.objects, t0, t1) {
      forall r: Ray, sqrt: real -> real, tMin: real, tMax: Bound | IsSqrt(sqrt) && Within(r.time, t0, t1)
        ensures SameNearest(Bvh.Hit(node, r, tMin, tMax, sqrt), ListHit(list.objects, r, tMin, tMax, sqrt),
                            ListLeaves(list.objects), r, sqrt)
      {
        BvhAgreesWithList(list.objects, node, r, sqrt, t0, t1, tMin, tMax);
      }
    }
  }

  /** A well-built hierarchy over the same spheres as a list finds the same
      nearest hit as the list's linear search, and the same record unless
      two spheres tie at the nearest parameter. */
  lemma BvhAgreesWithList(objects: seq<Hittable>, node: Hittable, r: Ray, sqrt: real -> real,
                          t0: real, t1: real, tMin: real, tMax: Bound)
    requires IsSqrt(sqrt) && Within(r.time, t0, t1)
    requires AllBounded(objects, t0, t1) && Bounded(node, t0, t1)
    requires Leaves(node) == ListLeaves(objects)
    requires Candidates(node, r, sqrt) == CandidatesOf(objects, r, sqrt)
    ensures SameNearest(Bvh.Hit(node, r, tMin, tMax, sqrt), ListHit(objects, r, tMin, tMax, sqrt),
                        ListLeaves(objects), r, sqrt)
  {
    var x := Bvh.Hit(node, r, tMin, tMax, sqrt);
    var y := ListHit(objects, r, tMin, tMax, sqrt);
    HitNearest(node, r, sqrt, t0, t1, tMin, tMax);
    ListHitNearest(objects, r, sqrt, t0, t1, tMin, tMax);
    NearestUnique(x, y, CandidatesOf(objects, r, sqrt), tMin, tMax);
    if x.Some? && y.Some? && SoleSurfaceAt(ListLeaves(objects), r, sqrt, x.value.t) {
      HitFromLeaf(node, r, tMin, tMax, sqrt);
      ListHitFromLeaf(objects, r, tMin, tMax, sqrt);
      var t := x.value.t;
      var a :| a in ListLeaves(objects) && ProperSphere(a) && t in Candidates(a, r, sqrt) && x.value == LeafRecord(a, r, t);
      var b :| b in ListLeaves(objects) && ProperSphere(b) && t in Candidates(b, r, sqrt) && y.value == LeafRecord(b, r, t);
    }
  }

  /** With the box the source computes for a sphere of radius -1, the node
      `BvhNode::new` builds over that one sphere misses a ray along the z
      axis that the list hits: the hierarchy over the as-written boxes loses
      hits, which is why the model builds on the absolute-radius boxes. */
  lemma AsWrittenBoxLosesHit(sqrt: real -> real, material: Material)
    requires IsSqrt(sqrt)
    ensures var s := Spheres.Sphere(Zero, -1.0, material);
      var box := Spheres.BoundingBoxAsWritten(s, 0.0, 0.0).value;
      var r := Ray(Vec3(0.0, 0.0, -5.0), Vec3(0.0, 0.0, 1.0), 0.0);
      Bvh.Hit(BvhNode(SphereObject(s), SphereObject(s), Combine(box, box)), r, 0.001, Infinity, sqrt).None? &&
      ListHit([SphereObject(s)], r, 0.001, Infinity, sqrt).Some?
  {
    var s := Spheres.Sphere(Zero, -1.0, material);
    var box := Spheres.BoundingBoxAsWritten(s, 0.0, 0.0).value;
    var r := Ray(Vec3(0.0, 0.0, -5.0), Vec3(0.0, 0.0, 1.0), 0.0);
    Spheres.NegativeRadiusBoxMissesHit(sqrt, material);
    RejectedNodeMisses(SphereObject(s), box, r, sqrt);
    SingleListHit(SphereObject(s), r, sqrt);
  }

  /** A node over one object, whose bounds the slab test rejects, reports
      no hit. */
  lemma RejectedNodeMisses(o: Hittable, box: Aabb, r: Ray, sqrt: real -> real)
    requires !SlabsOverlap(box, r, 0.001, Infinity)
    ensures Bvh.Hit(BvhNode(o, o, Combine(box, box)), r, 0.001, Infinity, sqrt).None?
  {
    assert Combine(box, box) == box;
  }

  /** A list of one object reports that object's hit. */
  lemma SingleListHit(o: Hittable, r: Ray, sqrt: real -> real)
    ensures ListHit([o], r, 0.001, Infinity, sqrt) == Bvh.Hit(o, r, 0.001, Infinity, sqrt)
  {
    assert [o][..0] == [];
  }
}
