/**
 * The bounding volume hierarchy of src/core/bvh_node.h: the recursive build
 * that sorts a span of the scene's objects along a randomly drawn axis and
 * splits it in half, and the traversal that tests a node's box before its
 * children and narrows the right child's interval to the left child's hit.
 *
 * Objects are named by their index in the scene's list; `boxes[i]` is the
 * bounding box of object i.
 */
module Bvh {
  import opened Wrappers
  import opened Intervals
  import opened Rays
  import opened Boxes
  import opened HitRecords

  /** A child pointer: one of the scene's objects, or an inner node. */
  datatype Child = Object(id: nat) | Inner(node: Node)

  datatype Node = Node(left: Child, right: Child, bbox: Aabb)

  /**
   * The bounding box of object `id`. Every object of the list has one; the
   * default box stands in for an index past the end, which no span holds.
   */
  function BoxOf(boxes: seq<Aabb>, id: nat): Aabb {
    if id < |boxes| then boxes[id] else EmptyBox
  }

  // ---------------------------------------------------------------------
  // The comparator and the sort of one span
  // ---------------------------------------------------------------------

  /** The comparator picked by the draw `random_int(0, 2)`: x for 0, y for 1, z otherwise. */
  function AxisOf(draw: int): (axis: int)
    ensures 0 <= axis < 3
    ensures 0 <= draw < 3 ==> axis == draw
  {
    if draw == 0 then 0 else if draw == 1 then 1 else 2
  }

  /** The sort key: the lower end of the object's box along the axis. */
  function Key(boxes: seq<Aabb>, axis: int, id: nat): ExtReal {
    AxisInterval(BoxOf(boxes, id), axis).min
  }

  /** `box_compare`: a's box starts strictly below b's along the axis. */
  predicate BoxCompare(boxes: seq<Aabb>, axis: int, a: nat, b: nat) {
    Lt(Key(boxes, axis, a), Key(boxes, axis, b))
  }

  /** Ordered by the comparator: no later object compares below an earlier one. */
  predicate Sorted(s: seq<nat>, boxes: seq<Aabb>, axis: int) {
    forall i, j :: 0 <= i < j < |s| ==> !BoxCompare(boxes, axis, s[j], s[i])
  }

  /** Insert `x` into a sorted sequence after every object that compares below it. */
  function Insert(x: nat, s: seq<nat>, boxes: seq<Aabb>, axis: int): (r: seq<nat>)
    ensures multiset(r) == multiset(s) + multiset{x} && |r| == |s| + 1
  {
    if s == [] then [x]
    else if BoxCompare(boxes, axis, s[0], x) then
      assert s == [s[0]] + s[1..];
      [s[0]] + Insert(x, s[1..], boxes, axis)
    else
      [x] + s
  }

  /** Insertion keeps a sorted sequence sorted. */
  lemma {:induction false} InsertSorted(x: nat, s: seq<nat>, boxes: seq<Aabb>, axis: int)
    requires Sorted(s, boxes, axis)
    ensures Sorted(Insert(x, s, boxes, axis), boxes, axis)
  {
    if s == [] {
    } else if BoxCompare(boxes, axis, s[0], x) {
      assert s == [s[0]] + s[1..];
      var rest := Insert(x, s[1..], boxes, axis);
      InsertSorted(x, s[1..], boxes, axis);
      forall j | 0 <= j < |rest| ensures !BoxCompare(boxes, axis, rest[j], s[0]) {
        assert rest[j] in multiset(rest);
        if rest[j] != x {
          assert rest[j] in multiset(s[1..]);
          var i :| 0 <= i < |s[1..]| && s[1..][i] == rest[j];
          assert s[i + 1] == rest[j];
        }
        LeTotalOrder(Key(boxes, axis, rest[j]), Key(boxes, axis, s[0]), Key(boxes, axis, x));
      }
      var r := [s[0]] + rest;
      forall i, j | 0 <= i < j < |r| ensures !BoxCompare(boxes, axis, r[j], r[i]) {
        if i > 0 {
          assert r[i] == rest[i - 1] && r[j] == rest[j - 1];
        }
      }
    } else {
      forall j | 0 <= j < |s| ensures !BoxCompare(boxes, axis, s[j], x) {
        LeTotalOrder(Key(boxes, axis, x), Key(boxes, axis, s[0]), Key(boxes, axis, s[j]));
        if j > 0 {
          assert !BoxCompare(boxes, axis, s[j], s[0]);
        }
      }
      var r := [x] + s;
      forall i, j | 0 <= i < j < |r| ensures !BoxCompare(boxes, axis, r[j], r[i]) {
        if i > 0 {
          assert r[i] == s[i - 1] && r[j] == s[j - 1];
        }
      }
    }
  }

  /** The order `std::sort` leaves a span in, by insertion. */
  function SortSpan(s: seq<nat>, boxes: seq<Aabb>, axis: int): (r: seq<nat>)
    ensures multiset(r) == multiset(s) && |r| == |s|
    ensures Sorted(r, boxes, axis)
  {
    if s == [] then []
    else
      assert s == [s[0]] + s[1..];
      var sortedTail := SortSpan(s[1..], boxes, axis);
      InsertSorted(s[0], sortedTail, boxes, axis);
      Insert(s[0], sortedTail, boxes, axis)
  }

  /** The `std::vector` of hittables that the constructor reorders in place. */
  class ObjectList {
    var items: seq<nat>

    constructor (items0: seq<nat>)
      ensures items == items0
    {
      items := items0;
    }

    /**
     * `std::sort(objects.begin() + start, objects.begin() + end, comparator)`:
     * the span is replaced by its sorted order and the rest of the list is
     * untouched.
     */
    method SortRange(start: nat, end: nat, boxes: seq<Aabb>, axis: int)
      requires start <= end <= |items|
      modifies this
      ensures items == old(items[..start]) + SortSpan(old(items[start..end]), boxes, axis) + old(items[end..])
    {
      items := items[..start] + SortSpan(items[start..end], boxes, axis) + items[end..];
    }
  }

  // ---------------------------------------------------------------------
  // The tree the constructor builds
  // ---------------------------------------------------------------------

  /** `bounding_box()` of a child. */
  function ChildBox(c: Child, boxes: seq<Aabb>): Aabb {
    match c
    case Object(id) => BoxOf(boxes, id)
    case Inner(n) => n.bbox
  }

  /** The objects under a child, left to right; a one-object node lists its object twice. */
  function Leaves(c: Child): seq<nat> {
    match c
    case Object(id) => [id]
    case Inner(n) => Leaves(n.left) + Leaves(n.right)
  }

  /** Every node's box is the union of its children's boxes. */
  predicate Bounded(c: Child, boxes: seq<Aabb>) {
    match c
    case Object(_) => true
    case Inner(n) =>
      n.bbox == Enclosing(ChildBox(n.left, boxes), ChildBox(n.right, boxes)) &&
      Bounded(n.left, boxes) && Bounded(n.right, boxes)
  }

  /** No object of the first `mid` compares below an object after them. */
  predicate Partitioned(s: seq<nat>, mid: int, boxes: seq<Aabb>, axis: int) {
    forall i, j :: 0 <= i < mid <= j < |s| ==> !BoxCompare(boxes, axis, s[j], s[i])
  }

  /**
   * The shape the constructor gives the node over span `s` (which starts at
   * `start` in the list): one object is both children, two objects are the
   * two children in order, and a longer span is split at its middle, after
   * the sort along the drawn axis, into two inner nodes built the same way.
   */
  predicate Shaped(n: Node, s: seq<nat>, start: nat, end: nat, boxes: seq<Aabb>, pick: (nat, nat) -> int)
    decreases |s|
  {
    |s| == end - start &&
    if |s| == 0 then false
    else if |s| == 1 then n.left == Object(s[0]) && n.right == Object(s[0])
    else if |s| == 2 then n.left == Object(s[0]) && n.right == Object(s[1])
    else
      var half := |s| / 2;
      Partitioned(s, half, boxes, AxisOf(pick(start, end))) &&
      n.left.Inner? && n.right.Inner? &&
      Shaped(n.left.node, s[..half], start, start + half, boxes, pick) &&
      Shaped(n.right.node, s[half..], start + half, end, boxes, pick)
  }

  /** Reordering each side of a split keeps it a partition. */
  lemma PartitionPermuted(s: seq<nat>, t: seq<nat>, mid: int, boxes: seq<Aabb>, axis: int)
    requires 0 <= mid <= |s| == |t|
    requires Partitioned(s, mid, boxes, axis)
    requires multiset(t[..mid]) == multiset(s[..mid]) && multiset(t[mid..]) == multiset(s[mid..])
    ensures Partitioned(t, mid, boxes, axis)
  {
    forall i, j | 0 <= i < mid <= j < |t| ensures !BoxCompare(boxes, axis, t[j], t[i]) {
      assert t[..mid][i] == t[i];
      assert t[i] in multiset(s[..mid]);
      var i' :| 0 <= i' < mid && s[..mid][i'] == t[i];
      assert t[mid..][j - mid] == t[j];
      assert t[j] in multiset(s[mid..]);
      var j' :| 0 <= j' < |s| - mid && s[mid..][j'] == t[j];
      assert s[i'] == t[i] && s[mid + j'] == t[j];
    }
  }

  /** What the two recursive calls leave in place, in terms of the slices the proof uses. */
  lemma SplitFrames(s1: seq<nat>, s2: seq<nat>, s3: seq<nat>, start: nat, mid: nat, end: nat)
    requires start <= mid <= end <= |s1| && |s2| == |s1| && |s3| == |s1|
    requires s2[..start] == s1[..start] && s2[mid..] == s1[mid..]
    requires s3[..mid] == s2[..mid] && s3[end..] == s2[end..]
    ensures s2[mid..end] == s1[mid..end] && s3[start..mid] == s2[start..mid]
    ensures s3[..start] == s1[..start] && s3[end..] == s1[end..]
  {
    assert s2[mid..end] == s2[mid..][..end - mid];
    assert s1[mid..end] == s1[mid..][..end - mid];
    assert s3[start..mid] == s3[..mid][start..];
    assert s2[start..mid] == s2[..mid][start..];
    assert s3[..start] == s3[..mid][..start];
    assert s2[..start] == s2[..mid][..start];
    assert s2[end..] == s2[mid..][end - mid..];
    assert s1[end..] == s1[mid..][end - mid..];
  }

  /**
   * A split span: `sorted` is the span after the sort, and each half of
   * `fin` is a reordering of the same half of `sorted` from which the
   * child was built.
   */
  lemma SplitShaped(sorted: seq<nat>, fin: seq<nat>, lspan: seq<nat>, rspan: seq<nat>,
                    start: nat, mid: nat, end: nat, l: Node, r: Node, bb: Aabb,
                    boxes: seq<Aabb>, pick: (nat, nat) -> int)
    requires |fin| == end - start >= 3 && |sorted| == |fin| && fin == lspan + rspan
    requires |lspan| == |fin| / 2 && mid == start + |lspan|
    requires Sorted(sorted, boxes, AxisOf(pick(start, end)))
    requires multiset(lspan) == multiset(sorted[..|lspan|])
    requires multiset(rspan) == multiset(sorted[|lspan|..])
    requires Shaped(l, lspan, start, mid, boxes, pick) && Shaped(r, rspan, mid, end, boxes, pick)
    ensures multiset(fin) == multiset(sorted)
    ensures Shaped(Node(Inner(l), Inner(r), bb), fin, start, end, boxes, pick)
  {
    var half := |lspan|;
    assert fin[..half] == lspan && fin[half..] == rspan;
    assert sorted == sorted[..half] + sorted[half..];
    PartitionPermuted(sorted, fin, half, boxes, AxisOf(pick(start, end)));
  }

  /**
   * The list around a split: `s1` after the sort of the span, `s2` after
   * the left half is built, `s3` after the right half is built.
   */
  lemma SplitBuilt(s1: seq<nat>, s2: seq<nat>, s3: seq<nat>, start: nat, mid: nat, end: nat,
                   l: Node, r: Node, boxes: seq<Aabb>, pick: (nat, nat) -> int)
    requires end - start >= 3 && mid == start + (end - start) / 2 && end <= |s1|
    requires Sorted(s1[start..end], boxes, AxisOf(pick(start, end)))
    requires |s2| == |s1| && |s3| == |s1|
    requires multiset(s2[start..mid]) == multiset(s1[start..mid])
    requires s2[..start] == s1[..start] && s2[mid..] == s1[mid..]
    requires multiset(s3[mid..end]) == multiset(s2[mid..end])
    requires s3[..mid] == s2[..mid] && s3[end..] == s2[end..]
    requires Shaped(l, s2[start..mid], start, mid, boxes, pick) && Shaped(r, s3[mid..end], mid, end, boxes, pick)
    ensures multiset(s3[start..end]) == multiset(s1[start..end])
    ensures s3[..start] == s1[..start] && s3[end..] == s1[end..]
    ensures Shaped(Node(Inner(l), Inner(r), Enclosing(l.bbox, r.bbox)), s3[start..end], start, end, boxes, pick)
  {
    SplitFrames(s1, s2, s3, start, mid, end);
    SubSlices(s3, start, mid, end);
    SubSlices(s1, start, mid, end);
    SplitShaped(s1[start..end], s3[start..end], s2[start..mid], s3[mid..end], start, mid, end,
                l, r, Enclosing(l.bbox, r.bbox), boxes, pick);
  }

  /** The pieces of `s[..start] + mid + s[end..]`. */
  lemma Splice(s: seq<nat>, mid: seq<nat>, t: seq<nat>, start: nat, end: nat)
    requires start <= end <= |s| && |mid| == end - start && t == s[..start] + mid + s[end..]
    ensures |t| == |s| && t[..start] == s[..start] && t[start..end] == mid && t[end..] == s[end..]
  {
  }

  /** A span cut in two at `mid`. */
  lemma SubSlices(s: seq<nat>, start: nat, mid: nat, end: nat)
    requires start <= mid <= end <= |s|
    ensures s[start..end] == s[start..mid] + s[mid..end]
    ensures s[start..end][..mid - start] == s[start..mid] && s[start..end][mid - start..] == s[mid..end]
  {
  }

  /**
   * The constructor `bvh_node(objects, start, end)`. It draws the axis,
   * sorts the span along it when it holds more than two objects, builds the
   * two halves, and takes the union of the children's boxes. The sorts of
   * the recursive calls only reorder their own halves. A span of zero
   * objects recurses on itself forever in the source, so it is excluded.
   */
  method Build(objects: ObjectList, start: nat, end: nat, boxes: seq<Aabb>, pick: (nat, nat) -> int)
      returns (node: Node)
    requires start < end <= |objects.items|
    modifies objects
    ensures |objects.items| == old(|objects.items|)
    ensures multiset(objects.items[start..end]) == multiset(old(objects.items[start..end]))
    ensures objects.items[..start] == old(objects.items[..start])
    ensures objects.items[end..] == old(objects.items[end..])
    ensures Shaped(node, objects.items[start..end], start, end, boxes, pick)
    ensures Bounded(Inner(node), boxes)
    decreases end - start
  {
    var axis := AxisOf(pick(start, end));
    var count := end - start;
    var left, right;
    if count == 1 {
      left, right := Object(objects.items[start]), Object(objects.items[start]);
    } else if count == 2 {
      left, right := Object(objects.items[start]), Object(objects.items[start + 1]);
    } else {
      ghost var s0 := objects.items;
      objects.SortRange(start, end, boxes, axis);
      ghost var s1 := objects.items;
      var mid := start + count / 2;
      var l := Build(objects, start, mid, boxes, pick);
      ghost var s2 := objects.items;
      var r := Build(objects, mid, end, boxes, pick);
      ghost var s3 := objects.items;
      Splice(s0, SortSpan(s0[start..end], boxes, axis), s1, start, end);
      SplitBuilt(s1, s2, s3, start, mid, end, l, r, boxes, pick);
      left, right := Inner(l), Inner(r);
    }
    node := Node(left, right, Enclosing(ChildBox(left, boxes), ChildBox(right, boxes)));
  }

  /** A built node holds exactly the objects of its span. */
  lemma {:induction false} ShapedLeaves(n: Node, s: seq<nat>, start: nat, end: nat, boxes: seq<Aabb>,
                                        pick: (nat, nat) -> int)
    requires Shaped(n, s, start, end, boxes, pick)
    ensures forall x :: x in Leaves(Inner(n)) <==> x in s
    decreases |s|
  {
    if |s| >= 3 {
      var half := |s| / 2;
      ShapedLeaves(n.left.node, s[..half], start, start + half, boxes, pick);
      ShapedLeaves(n.right.node, s[half..], start + half, end, boxes, pick);
      assert s == s[..half] + s[half..];
    }
  }

  /** Every object's box lies inside the box of each node above it. */
  lemma {:induction false} LeafBoxesWithin(c: Child, boxes: seq<Aabb>)
    requires Bounded(c, boxes)
    ensures forall x :: x in Leaves(c) ==> BoxWithin(BoxOf(boxes, x), ChildBox(c, boxes))
  {
    match c
    case Object(id) =>
      EnclosingProperties(BoxOf(boxes, id), BoxOf(boxes, id));
    case Inner(n) =>
      LeafBoxesWithin(n.left, boxes);
      LeafBoxesWithin(n.right, boxes);
      var lb, rb := ChildBox(n.left, boxes), ChildBox(n.right, boxes);
      EnclosingProperties(lb, rb);
      forall x | x in Leaves(c) ensures BoxWithin(BoxOf(boxes, x), n.bbox) {
        if x in Leaves(n.left) {
          BoxWithinTransitive(BoxOf(boxes, x), lb, n.bbox);
        } else {
          BoxWithinTransitive(BoxOf(boxes, x), rb, n.bbox);
        }
      }
  }

  /**
   * `bvh_node(world)`: the tree over a copy of the scene's list. It holds
   * exactly the scene's objects, and every node's box is the union of its
   * children's. An empty scene is excluded, as for the span constructor.
   */
  method FromList(list: seq<nat>, boxes: seq<Aabb>, pick: (nat, nat) -> int) returns (root: Node)
    requires |list| > 0
    ensures forall x :: x in Leaves(Inner(root)) <==> x in list
    ensures Bounded(Inner(root), boxes)
  {
    var objects := new ObjectList(list);
    root := Build(objects, 0, |list|, boxes, pick);
    ShapedLeaves(root, objects.items[0..|list|], 0, |list|, boxes, pick);
    assert objects.items[0..|list|] == objects.items;
    forall x ensures x in objects.items <==> x in list {
      calc {
        x in objects.items;
        x in multiset(objects.items);
        x in multiset(list);
        x in list;
      }
    }
  }

  // ---------------------------------------------------------------------
  // Traversal
  // ---------------------------------------------------------------------

  /**
   * The interval the right child is searched over: up to the left child's
   * hit when there is one, so that only a nearer hit can replace it.
   */
  function RightInterval(rayT: Interval, hitLeft: Option<Intersection>): Interval {
    Interval(rayT.min, if hitLeft.Some? then Fin(hitLeft.value.t) else rayT.max)
  }

  /**
   * `bvh_node::hit` as a function. `leafHit(id, ray_t)` is what the hit
   * test of object `id` reports for the fixed ray. The box is tested first;
   * the record ends with the right child's hit if it has one, else with the
   * left child's.
   */
  function NodeHit(n: Node, r: Ray, rayT: Interval, leafHit: (nat, Interval) -> Option<Intersection>)
    : Option<Intersection>
    requires NonZeroDirection(r)
    decreases n
  {
    if !BoxHit(n.bbox, r, rayT) then None
    else
      var hitLeft := ChildHit(n.left, r, rayT, leafHit);
      var hitRight := ChildHit(n.right, r, RightInterval(rayT, hitLeft), leafHit);
      if hitRight.Some? then hitRight else hitLeft
  }

  /** The virtual `hit` of a child: an object's own test or the node's. */
  function ChildHit(c: Child, r: Ray, rayT: Interval, leafHit: (nat, Interval) -> Option<Intersection>)
    : Option<Intersection>
    requires NonZeroDirection(r)
    decreases c
  {
    match c
    case Object(id) => leafHit(id, rayT)
    case Inner(n) => NodeHit(n, r, rayT, leafHit)
  }

  /** Every hit an object reports lies in the interval it was asked about. */
  ghost predicate HitsWithin(leafHit: (nat, Interval) -> Option<Intersection>) {
    forall id, iv :: leafHit(id, iv).Some? ==> iv.Contains(leafHit(id, iv).value.t)
  }

  /**
   * Lowering the upper end of the interval to any value above an object's
   * hit still finds a hit, and none later.
   */
  ghost predicate NarrowingKeepsHit(leafHit: (nat, Interval) -> Option<Intersection>) {
    forall id, iv, m ::
      leafHit(id, iv).Some? && Lt(Fin(leafHit(id, iv).value.t), m) && Le(m, iv.max) ==>
      leafHit(id, Interval(iv.min, m)).Some? &&
      leafHit(id, Interval(iv.min, m)).value.t <= leafHit(id, iv).value.t
  }

  /**
   * Whenever an object reports a hit over an interval of more than one
   * point, the ray also passes the slab test of the object's box. (Over a
   * single point the slab test fails for every box.)
   */
  ghost predicate BoxesConservative(leafHit: (nat, Interval) -> Option<Intersection>, boxes: seq<Aabb>, r: Ray)
    requires NonZeroDirection(r)
  {
    forall id: nat, iv: Interval :: Lt(iv.min, iv.max) && leafHit(id, iv).Some? ==> BoxHit(BoxOf(boxes, id), r, iv)
  }

  /** A hit the tree reports lies in ray_t. */
  lemma {:induction false} HitInInterval(c: Child, r: Ray, rayT: Interval,
                                         leafHit: (nat, Interval) -> Option<Intersection>)
    requires NonZeroDirection(r) && HitsWithin(leafHit)
    ensures ChildHit(c, r, rayT, leafHit).Some? ==> rayT.Contains(ChildHit(c, r, rayT, leafHit).value.t)
  {
    match c
    case Object(id) =>
    case Inner(n) =>
      if BoxHit(n.bbox, r, rayT) {
        var hitLeft := ChildHit(n.left, r, rayT, leafHit);
        var rightT := RightInterval(rayT, hitLeft);
        HitInInterval(n.left, r, rayT, leafHit);
        HitInInterval(n.right, r, rightT, leafHit);
        var hitRight := ChildHit(n.right, r, rightT, leafHit);
        if hitRight.Some? {
          LeTotalOrder(Fin(hitRight.value.t), rightT.max, rayT.max);
        }
      }
  }

  /**
   * The tree reports only hits of its own objects: each is what one of its
   * objects reports over ray_t with the upper end lowered to some m.
   */
  lemma {:induction false} HitFromLeaf(c: Child, r: Ray, rayT: Interval,
                                       leafHit: (nat, Interval) -> Option<Intersection>)
    requires NonZeroDirection(r) && HitsWithin(leafHit)
    requires ChildHit(c, r, rayT, leafHit).Some?
    ensures exists id, m ::
      id in Leaves(c) && Le(m, rayT.max) && leafHit(id, Interval(rayT.min, m)) == ChildHit(c, r, rayT, leafHit)
  {
    match c
    case Object(id) =>
      assert Interval(rayT.min, rayT.max) == rayT;
      assert id in Leaves(c) && Le(rayT.max, rayT.max) &&
        leafHit(id, Interval(rayT.min, rayT.max)) == ChildHit(c, r, rayT, leafHit);
    case Inner(n) =>
      var hitLeft := ChildHit(n.left, r, rayT, leafHit);
      var rightT := RightInterval(rayT, hitLeft);
      var hitRight := ChildHit(n.right, r, rightT, leafHit);
      if hitRight.Some? {
        HitFromLeaf(n.right, r, rightT, leafHit);
        var id, m :| id in Leaves(n.right) && Le(m, rightT.max) &&
          leafHit(id, Interval(rightT.min, m)) == hitRight;
        HitInInterval(n.left, r, rayT, leafHit);
        LeTotalOrder(m, rightT.max, rayT.max);
        assert id in Leaves(c);
      } else {
        HitFromLeaf(n.left, r, rayT, leafHit);
        var id, m :| id in Leaves(n.left) && Le(m, rayT.max) &&
          leafHit(id, Interval(rayT.min, m)) == hitLeft;
        assert id in Leaves(c);
      }
  }

  /** A node whose box holds an object's box passes the slab test whenever that object is hit. */
  lemma NodeBoxPassed(n: Node, r: Ray, rayT: Interval, boxes: seq<Aabb>,
                      leafHit: (nat, Interval) -> Option<Intersection>, id: nat)
    requires NonZeroDirection(r) && Bounded(Inner(n), boxes) && Proper(BoxOf(boxes, id))
    requires BoxesConservative(leafHit, boxes, r) && Lt(rayT.min, rayT.max)
    requires id in Leaves(Inner(n)) && leafHit(id, rayT).Some?
    ensures BoxHit(n.bbox, r, rayT)
  {
    LeafBoxesWithin(Inner(n), boxes);
    BoxHitGrows(BoxOf(boxes, id), n.bbox, r, rayT);
  }

  /**
   * A node's answer is never later than a bound that one of its children's
   * answers meets: the right child only reports hits before the left one's.
   */
  lemma NodeHitBelow(n: Node, r: Ray, rayT: Interval, leafHit: (nat, Interval) -> Option<Intersection>, bound: real)
    requires NonZeroDirection(r) && HitsWithin(leafHit) && BoxHit(n.bbox, r, rayT)
    requires
      var hitLeft := ChildHit(n.left, r, rayT, leafHit);
      var hitRight := ChildHit(n.right, r, RightInterval(rayT, hitLeft), leafHit);
      (hitLeft.Some? && hitLeft.value.t <= bound) || (hitRight.Some? && hitRight.value.t <= bound)
    ensures NodeHit(n, r, rayT, leafHit).Some? && NodeHit(n, r, rayT, leafHit).value.t <= bound
  {
    var hitLeft := ChildHit(n.left, r, rayT, leafHit);
    var rightT := RightInterval(rayT, hitLeft);
    HitInInterval(n.right, r, rightT, leafHit);
  }

  /**
   * Once the left child has hit at t, an object hit before t is still hit,
   * no later, over the interval the right child is searched in.
   */
  lemma NarrowedByLeft(left: Child, r: Ray, rayT: Interval, leafHit: (nat, Interval) -> Option<Intersection>, id: nat)
    requires NonZeroDirection(r) && HitsWithin(leafHit) && NarrowingKeepsHit(leafHit)
    requires leafHit(id, rayT).Some? && ChildHit(left, r, rayT, leafHit).Some?
    requires leafHit(id, rayT).value.t < ChildHit(left, r, rayT, leafHit).value.t
    ensures
      var rightT := RightInterval(rayT, ChildHit(left, r, rayT, leafHit));
      leafHit(id, rightT).Some? && leafHit(id, rightT).value.t <= leafHit(id, rayT).value.t
  {
    HitInInterval(left, r, rayT, leafHit);
  }

  /**
   * The closest hit: when every object's hits are in its interval, narrowing
   * keeps them, and the slab test of its box never rejects them, the tree
   * reports a hit no later than the hit of any object it holds, over any
   * ray_t of more than one point.
   */
  lemma {:induction false} ClosestHit(c: Child, r: Ray, rayT: Interval, boxes: seq<Aabb>,
                                      leafHit: (nat, Interval) -> Option<Intersection>, id: nat)
    requires NonZeroDirection(r) && Bounded(c, boxes) && Proper(BoxOf(boxes, id))
    requires HitsWithin(leafHit) && NarrowingKeepsHit(leafHit) && BoxesConservative(leafHit, boxes, r)
    requires Lt(rayT.min, rayT.max) && id in Leaves(c) && leafHit(id, rayT).Some?
    ensures ChildHit(c, r, rayT, leafHit).Some?
    ensures ChildHit(c, r, rayT, leafHit).value.t <= leafHit(id, rayT).value.t
  {
    match c
    case Object(o) =>
    case Inner(n) =>
      NodeBoxPassed(n, r, rayT, boxes, leafHit, id);
      var h := leafHit(id, rayT).value;
      var hitLeft := ChildHit(n.left, r, rayT, leafHit);
      var rightT := RightInterval(rayT, hitLeft);
      assert Leaves(c) == Leaves(n.left) + Leaves(n.right);
      if id in Leaves(n.left) {
        ClosestHit(n.left, r, rayT, boxes, leafHit, id);
      } else if hitLeft.None? {
        assert id in Leaves(n.right);
        assert rightT == rayT;
        ClosestHit(n.right, r, rayT, boxes, leafHit, id);
      } else if h.t < hitLeft.value.t {
        assert id in Leaves(n.right);
        NarrowedByLeft(n.left, r, rayT, leafHit, id);
        // min <= h.t < the left hit, so the right child's interval is not a single point
        LeTotalOrder(Fin(hitLeft.value.t), rayT.min, Fin(h.t));
        ClosestHit(n.right, r, rightT, boxes, leafHit, id);
      }
      NodeHitBelow(n, r, rayT, leafHit, h.t);
  }

}
