/**
 * The objects a BVH holds and the BVH's own `hit` run over them. A leaf of
 * the tree is a sphere (src/geometry/sphere.cpp) or a quad
 * (src/geometry/quad.h); the virtual `hit` and `bounding_box` of the
 * source dispatch on which one it is. `sqrtOf` stands for `std::sqrt`.
 */
module Hittables {
  import opened Wrappers
  import opened Vectors
  import opened Intervals
  import opened Rays
  import opened Boxes
  import opened HitRecords
  import opened Scenes
  import Spheres
  import Quads
  import opened Bvh

  datatype Primitive = SpherePrim(sphere: Spheres.Sphere) | QuadPrim(quad: Quads.Quad)

  /** `sqrtOf` returns the non-negative square root of every non-negative argument. */
  ghost predicate SqrtOracle(sqrtOf: real -> real) {
    forall x :: x >= 0.0 ==> IsSqrt(x, sqrtOf(x))
  }

  /** `bounding_box()`: the box the object's constructor computed. */
  function BoundingBox(p: Primitive): Aabb {
    match p
    case SpherePrim(s) => s.bbox
    case QuadPrim(q) => q.bbox
  }

  /**
   * The virtual `hit` as a function. Whichever the object, a reported hit
   * lies in `ray_t` and is the ray's point at that parameter.
   */
  function Intersect(p: Primitive, r: Ray, rayT: Interval, sqrtOf: real -> real): (res: Option<Intersection>)
    requires SqrtOracle(sqrtOf)
    ensures res.Some? ==> rayT.Contains(res.value.t) && res.value.point == At(r, res.value.t)
  {
    match p
    case SpherePrim(s) => Spheres.Intersect(s, r, rayT, sqrtOf(Spheres.Discriminant(s, r)))
    case QuadPrim(q) => Quads.Intersect(q, r, rayT)
  }

  /**
   * Lowering the upper end of `ray_t` to any value above a reported hit
   * reports the same hit, for spheres and quads alike.
   */
  lemma NarrowingKeepsIntersection(p: Primitive, r: Ray, rayT: Interval, m: ExtReal, sqrtOf: real -> real)
    requires SqrtOracle(sqrtOf)
    requires Intersect(p, r, rayT, sqrtOf).Some?
    requires Lt(Fin(Intersect(p, r, rayT, sqrtOf).value.t), m) && Le(m, rayT.max)
    ensures Intersect(p, r, Interval(rayT.min, m), sqrtOf) == Intersect(p, r, rayT, sqrtOf)
  {
    match p
    case SpherePrim(s) =>
      Spheres.NarrowingKeepsHit(s, r, rayT, m, sqrtOf(Spheres.Discriminant(s, r)));
    case QuadPrim(q) =>
      Quads.NarrowingKeepsHit(q, r, rayT, Interval(rayT.min, m));
  }

  /** The hit test of the object with index `id`, for a fixed ray, as the BVH sees it. */
  function PrimLeaf(prims: seq<Primitive>, r: Ray, sqrtOf: real -> real): (nat, Interval) -> Option<Intersection>
    requires SqrtOracle(sqrtOf)
  {
    (id: nat, iv: Interval) => if id < |prims| then Intersect(prims[id], r, iv, sqrtOf) else None
  }

  /**
   * Spheres and quads meet what the BVH's closest-hit argument asks of its
   * objects: hits lie in the interval asked about, and narrowing the
   * interval above a hit keeps it.
   */
  lemma PrimLeafBehaves(prims: seq<Primitive>, r: Ray, sqrtOf: real -> real)
    requires SqrtOracle(sqrtOf)
    ensures HitsWithin(PrimLeaf(prims, r, sqrtOf))
    ensures NarrowingKeepsHit(PrimLeaf(prims, r, sqrtOf))
  {
    var leaf := PrimLeaf(prims, r, sqrtOf);
    forall id: nat, iv: Interval, m: ExtReal |
      leaf(id, iv).Some? && Lt(Fin(leaf(id, iv).value.t), m) && Le(m, iv.max)
      ensures leaf(id, Interval(iv.min, m)).Some? && leaf(id, Interval(iv.min, m)).value.t <= leaf(id, iv).value.t
    {
      NarrowingKeepsIntersection(prims[id], r, iv, m, sqrtOf);
    }
  }

  /** Every object of the tree is an index into `prims`. */
  predicate InRange(c: Child, count: nat) {
    forall id :: id in Leaves(c) ==> id < count
  }

  lemma InRangeChildren(n: Node, count: nat)
    requires InRange(Inner(n), count)
    ensures InRange(n.left, count) && InRange(n.right, count)
  {
    var all := Leaves(Inner(n));
    assert all == Leaves(n.left) + Leaves(n.right);
    forall id | id in Leaves(n.left) ensures id < count {
      var k :| 0 <= k < |Leaves(n.left)| && Leaves(n.left)[k] == id;
      assert all[k] == id && all[k] in Leaves(Inner(n));
    }
    forall id | id in Leaves(n.right) ensures id < count {
      var k :| 0 <= k < |Leaves(n.right)| && Leaves(n.right)[k] == id;
      assert all[|Leaves(n.left)| + k] == id && all[|Leaves(n.left)| + k] in Leaves(Inner(n));
    }
  }

  /**
   * The virtual `hit` on one object: the sphere's or the quad's own method.
   * It fills `rec` exactly when the object reports a hit.
   */
  method HitPrimitive(p: Primitive, r: Ray, rayT: Interval, sqrtOf: real -> real, rec: HitRecord) returns (hit: bool)
    requires SqrtOracle(sqrtOf)
    modifies rec`t, rec`point, rec`normal, rec`frontFace, rec`mat
    ensures hit == Intersect(p, r, rayT, sqrtOf).Some?
    ensures hit ==> rec.Records(Intersect(p, r, rayT, sqrtOf).value)
    ensures !hit ==> unchanged(rec)
  {
    match p
    case SpherePrim(s) =>
      hit := Spheres.Hit(s, r, rayT, rec, sqrtOf(Spheres.Discriminant(s, r)));
    case QuadPrim(q) =>
      hit := Quads.Hit(q, r, rayT, rec);
  }

  /**
   * `bvh_node::hit`: test the box, then the left child over `ray_t`, then
   * the right child up to the left child's hit. The record ends as the
   * traversal function says and is untouched when nothing is hit.
   */
  method HitNode(n: Node, r: Ray, rayT: Interval, prims: seq<Primitive>, sqrtOf: real -> real, rec: HitRecord)
      returns (hit: bool)
    requires NonZeroDirection(r) && SqrtOracle(sqrtOf) && InRange(Inner(n), |prims|)
    modifies rec`t, rec`point, rec`normal, rec`frontFace, rec`mat
    ensures hit == NodeHit(n, r, rayT, PrimLeaf(prims, r, sqrtOf)).Some?
    ensures hit ==> rec.Records(NodeHit(n, r, rayT, PrimLeaf(prims, r, sqrtOf)).value)
    ensures !hit ==> unchanged(rec)
    decreases n
  {
    var boxHit := Boxes.Hit(n.bbox, r, rayT);
    if !boxHit {
      return false;
    }
    InRangeChildren(n, |prims|);
    ghost var leaf := PrimLeaf(prims, r, sqrtOf);
    ghost var left := ChildHit(n.left, r, rayT, leaf);
    var hitLeft := HitChild(n.left, r, rayT, prims, sqrtOf, rec);
    var rightT := Interval(rayT.min, if hitLeft then Fin(rec.t) else rayT.max);
    assert rightT == RightInterval(rayT, left);
    var hitRight := HitChild(n.right, r, rightT, prims, sqrtOf, rec);
    hit := hitLeft || hitRight;
  }

  /** The virtual `hit` of a child: an object's own test or a node's. */
  method HitChild(c: Child, r: Ray, rayT: Interval, prims: seq<Primitive>, sqrtOf: real -> real, rec: HitRecord)
      returns (hit: bool)
    requires NonZeroDirection(r) && SqrtOracle(sqrtOf) && InRange(c, |prims|)
    modifies rec`t, rec`point, rec`normal, rec`frontFace, rec`mat
    ensures hit == ChildHit(c, r, rayT, PrimLeaf(prims, r, sqrtOf)).Some?
    ensures hit ==> rec.Records(ChildHit(c, r, rayT, PrimLeaf(prims, r, sqrtOf)).value)
    ensures !hit ==> unchanged(rec)
    decreases c
  {
    match c
    case Object(id) =>
      assert id in Leaves(c);
      hit := HitPrimitive(prims[id], r, rayT, sqrtOf, rec);
    case Inner(n) =>
      hit := HitNode(n, r, rayT, prims, sqrtOf, rec);
  }

  /**
   * `bvh_node(world)` over the scene's objects: object `i` is the scene's
   * `i`-th hittable with its own bounding box. The tree holds every object
   * of the scene and nothing else, and each node's box is the union of its
   * children's.
   */
  method FromScene(world: Scene<Primitive>, pick: (nat, nat) -> int) returns (root: Node, boxes: seq<Aabb>)
    requires |world.hittables| > 0
    ensures |boxes| == |world.hittables|
    ensures forall i :: 0 <= i < |boxes| ==> boxes[i] == BoundingBox(world.hittables[i])
    ensures forall id: nat :: id in Leaves(Inner(root)) <==> id < |world.hittables|
    ensures Bounded(Inner(root), boxes)
  {
    var list := world.GetHittables();
    var ids := seq(|list|, i => i);
    boxes := seq(|list|, i requires 0 <= i < |list| => BoundingBox(list[i]));
    root := FromList(ids, boxes, pick);
    forall id: nat ensures id in ids <==> id < |list| {
      if id < |list| {
        assert ids[id] == id;
      }
    }
  }

  /**
   * The closest hit over spheres and quads: when the box of every object
   * passes the slab test whenever the object is hit, the BVH reports a hit
   * no later than that of any object it holds, over any ray_t of more than
   * one point.
   */
  lemma ClosestPrimitiveHit(root: Node, prims: seq<Primitive>, boxes: seq<Aabb>, r: Ray, rayT: Interval,
                            sqrtOf: real -> real, id: nat)
    requires NonZeroDirection(r) && SqrtOracle(sqrtOf)
    requires Bounded(Inner(root), boxes) && Proper(BoxOf(boxes, id))
    requires BoxesConservative(PrimLeaf(prims, r, sqrtOf), boxes, r)
    requires Lt(rayT.min, rayT.max)
    requires id in Leaves(Inner(root)) && id < |prims| && Intersect(prims[id], r, rayT, sqrtOf).Some?
    ensures NodeHit(root, r, rayT, PrimLeaf(prims, r, sqrtOf)).Some?
    ensures NodeHit(root, r, rayT, PrimLeaf(prims, r, sqrtOf)).value.t <= Intersect(prims[id], r, rayT, sqrtOf).value.t
  {
    PrimLeafBehaves(prims, r, sqrtOf);
    ClosestHit(Inner(root), r, rayT, boxes, PrimLeaf(prims, r, sqrtOf), id);
  }

  /** The ray crosses a quad built by the constructor strictly inside its edges. */
  ghost predicate CrossedInside(p: Primitive, r: Ray) {
    p.QuadPrim? && Quads.WellFormed(p.quad) && p.quad.bbox == Quads.PaddedBox(p.quad.q, p.quad.u, p.quad.v) &&
    exists s: real, t: real, tHit: real :: 0.0 < s < 1.0 && 0.0 < t < 1.0 &&
      At(r, tHit) == Add(p.quad.q, Add(Scale(s, p.quad.u), Scale(t, p.quad.v)))
  }

  /** The object reports no hit for the ray, whatever the interval. */
  ghost predicate NeverHit(p: Primitive, r: Ray, sqrtOf: real -> real)
    requires SqrtOracle(sqrtOf)
  {
    forall iv: Interval :: Intersect(p, r, iv, sqrtOf).None?
  }

  /** A sphere of non-zero radius with the box its constructor computed. */
  predicate ProperSphere(p: Primitive) {
    p.SpherePrim? && p.sphere.radius != 0.0 && Spheres.ConstructedBox(p.sphere)
  }

  /**
   * A scene whose spheres have non-zero radius and the constructor's box,
   * and in which the ray crosses every quad it hits strictly inside its
   * edges, meets the hypothesis of `ClosestPrimitiveHit` with each object's
   * own bounding box.
   */
  lemma ConservativeScene(prims: seq<Primitive>, boxes: seq<Aabb>, r: Ray, sqrtOf: real -> real)
    requires NonZeroDirection(r) && SqrtOracle(sqrtOf)
    requires |boxes| == |prims| && forall i :: 0 <= i < |prims| ==> boxes[i] == BoundingBox(prims[i])
    requires forall i :: 0 <= i < |prims| ==>
      ProperSphere(prims[i]) || CrossedInside(prims[i], r) || NeverHit(prims[i], r, sqrtOf)
    ensures BoxesConservative(PrimLeaf(prims, r, sqrtOf), boxes, r)
  {
    var leaf := PrimLeaf(prims, r, sqrtOf);
    forall id: nat, iv: Interval | Lt(iv.min, iv.max) && leaf(id, iv).Some?
      ensures BoxHit(BoxOf(boxes, id), r, iv)
    {
      var p := prims[id];
      if ProperSphere(p) {
        Spheres.HitPassesBox(p.sphere, r, iv, sqrtOf(Spheres.Discriminant(p.sphere, r)));
      } else if CrossedInside(p, r) {
        var s, t, tHit :| 0.0 < s < 1.0 && 0.0 < t < 1.0 &&
          At(r, tHit) == Add(p.quad.q, Add(Scale(s, p.quad.u), Scale(t, p.quad.v)));
        Quads.InteriorHitPassesBox(p.quad, r, iv, s, t, tHit);
      } else {
        // p is never hit, yet leaf(id, iv) is a hit
        assert false;
      }
    }
  }

  /**
   * A zero-radius sphere that the ray hits breaks that hypothesis: it is hit
   * over an interval of more than one point, yet its box is a single point,
   * which the slab test rejects over every interval.
   */
  lemma ZeroRadiusNotConservative(prims: seq<Primitive>, boxes: seq<Aabb>, r: Ray, sqrtOf: real -> real, id: nat, iv: Interval)
    requires NonZeroDirection(r) && SqrtOracle(sqrtOf)
    requires id < |prims| == |boxes| && boxes[id] == BoundingBox(prims[id])
    requires prims[id].SpherePrim? && prims[id].sphere.radius == 0.0 && Spheres.ConstructedBox(prims[id].sphere)
    requires Lt(iv.min, iv.max) && Intersect(prims[id], r, iv, sqrtOf).Some?
    ensures PrimLeaf(prims, r, sqrtOf)(id, iv).Some? && !BoxHit(BoxOf(boxes, id), r, iv)
  {
    var sphere := prims[id].sphere;
    assert PrimLeaf(prims, r, sqrtOf)(id, iv) == Intersect(prims[id], r, iv, sqrtOf);
    assert BoxOf(boxes, id) == sphere.bbox;
    Spheres.ZeroRadiusBoxMissed(sphere, r, iv);
  }
}
