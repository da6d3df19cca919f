/**
 * The axis-aligned bounding boxes of src/core/aabb.h: three intervals, the
 * padding of thin axes, the union of boxes, offsets and the slab ray test.
 */
module Boxes {
  import opened Wrappers
  import opened Vectors
  import opened Intervals
  import opened Rays

  /** Axes narrower than this are padded by the three-interval constructor. */
  const Delta: real := 0.0001

  datatype Aabb = Aabb(x: Interval, y: Interval, z: Interval)

  /** The default-constructed box: all three axes empty. */
  const EmptyBox: Aabb := Aabb(Empty, Empty, Empty)

  /** `size() < delta`; a NaN size compares false. */
  predicate Narrow(i: Interval) {
    var s := i.Size();
    s.Some? && Lt(s.value, Fin(Delta))
  }

  function Pad(i: Interval): Interval {
    if Narrow(i) then i.Expand(Delta) else i
  }

  /** The constructor from three intervals, which pads every thin axis. */
  function FromIntervals(x: Interval, y: Interval, z: Interval): Aabb {
    Aabb(Pad(x), Pad(y), Pad(z))
  }

  function Ordered(a: real, b: real): Interval {
    if a <= b then Interval(Fin(a), Fin(b)) else Interval(Fin(b), Fin(a))
  }

  /** The constructor from two corners, in either order; it applies no padding. */
  function FromPoints(a: Vec3, b: Vec3): Aabb {
    Aabb(Ordered(a.x, b.x), Ordered(a.y, b.y), Ordered(a.z, b.z))
  }

  /** The constructor from two boxes: the hull on every axis, without padding. */
  function Enclosing(box0: Aabb, box1: Aabb): Aabb {
    Aabb(Hull(box0.x, box1.x), Hull(box0.y, box1.y), Hull(box0.z, box1.z))
  }

  /** `axis_interval(n)`: y for 1, z for 2 and x for every other n. */
  function AxisInterval(b: Aabb, n: int): Interval {
    if n == 1 then b.y else if n == 2 then b.z else b.x
  }

  /** `bbox + offset`: every axis shifted, rebuilt through the padding constructor. */
  function Offset(b: Aabb, offset: Vec3): Aabb {
    FromIntervals(b.x.Shift(offset.x), b.y.Shift(offset.y), b.z.Shift(offset.z))
  }

  /** `offset + bbox`, which forwards to `bbox + offset`. */
  function OffsetLeft(offset: Vec3, b: Aabb): Aabb {
    Offset(b, offset)
  }

  predicate ContainsPoint(b: Aabb, p: Vec3) {
    b.x.Contains(p.x) && b.y.Contains(p.y) && b.z.Contains(p.z)
  }

  predicate BoxWithin(a: Aabb, b: Aabb) {
    Within(a.x, b.x) && Within(a.y, b.y) && Within(a.z, b.z)
  }

  /** Box inclusion is transitive. */
  lemma BoxWithinTransitive(a: Aabb, b: Aabb, c: Aabb)
    requires BoxWithin(a, b) && BoxWithin(b, c)
    ensures BoxWithin(a, c)
  {
    LeTotalOrder(c.x.min, b.x.min, a.x.min);
    LeTotalOrder(a.x.max, b.x.max, c.x.max);
    LeTotalOrder(c.y.min, b.y.min, a.y.min);
    LeTotalOrder(a.y.max, b.y.max, c.y.max);
    LeTotalOrder(c.z.min, b.z.min, a.z.min);
    LeTotalOrder(a.z.max, b.z.max, c.z.max);
  }

  /** `axis_interval` picks the interval matching `operator[]` of a point. */
  lemma AxisIntervalSelects(b: Aabb, p: Vec3, n: int)
    ensures n != 1 && n != 2 ==> AxisInterval(b, n) == b.x
    ensures ContainsPoint(b, p) <==> forall k :: 0 <= k < 3 ==> AxisInterval(b, k).Contains(Component(p, k))
  {
    if !ContainsPoint(b, p) {
      if !b.x.Contains(p.x) {
        assert !AxisInterval(b, 0).Contains(Component(p, 0));
      } else if !b.y.Contains(p.y) {
        assert !AxisInterval(b, 1).Contains(Component(p, 1));
      } else {
        assert !AxisInterval(b, 2).Contains(Component(p, 2));
      }
    }
  }

  /** The two-corner constructor is order-independent, ordered, and holds both corners. */
  lemma FromPointsProperties(a: Vec3, b: Vec3)
    ensures FromPoints(a, b) == FromPoints(b, a)
    ensures var box := FromPoints(a, b);
      Le(box.x.min, box.x.max) && Le(box.y.min, box.y.max) && Le(box.z.min, box.z.max)
    ensures ContainsPoint(FromPoints(a, b), a) && ContainsPoint(FromPoints(a, b), b)
  {
  }

  /** The two-corner constructor applies no padding: equal corners give zero-width axes. */
  lemma FromPointsUnpadded(a: Vec3)
    ensures FromPoints(a, a) == Aabb(Interval(Fin(a.x), Fin(a.x)), Interval(Fin(a.y), Fin(a.y)), Interval(Fin(a.z), Fin(a.z)))
    ensures FromPoints(a, a).x.Size() == Some(Fin(0.0))
  {
  }

  /**
   * Padding widens exactly the axes narrower than Delta, by Delta in total,
   * so a non-empty finite axis ends at least Delta wide.
   */
  /** Padding only widens an axis: it keeps every value the axis surrounds. */
  lemma PadWidens(i: Interval, x: real)
    ensures Within(i, Pad(i))
    ensures i.Surrounds(x) ==> Pad(i).Surrounds(x)
  {
  }

  lemma PadProperties(i: Interval)
    ensures !Narrow(i) ==> Pad(i) == i
    ensures Narrow(i) ==> Pad(i) == i.Expand(Delta)
    ensures i.min.Fin? && i.max.Fin? && i.min.v <= i.max.v ==>
      Pad(i).Size().Some? && Pad(i).Size().value.Fin? && Pad(i).Size().value.v >= Delta
  {
    if i.min.Fin? && i.max.Fin? && i.min.v <= i.max.v && Narrow(i) {
      ExpandSizeAndMidpoint(i, Delta);
    }
  }

  /** The union constructor holds both boxes and does not depend on their order. */
  lemma EnclosingProperties(box0: Aabb, box1: Aabb)
    ensures BoxWithin(box0, Enclosing(box0, box1)) && BoxWithin(box1, Enclosing(box0, box1))
    ensures Enclosing(box0, box1) == Enclosing(box1, box0)
    ensures Enclosing(box0, box0) == box0
  {
    HullContains(box0.x, box1.x, 0.0);
    HullContains(box0.y, box1.y, 0.0);
    HullContains(box0.z, box1.z, 0.0);
    HullCommutes(box0.x, box1.x);
    HullCommutes(box0.y, box1.y);
    HullCommutes(box0.z, box1.z);
  }

  /** Shifting an axis does not change whether it is padded. */
  lemma PadShift(i: Interval, d: real)
    ensures Pad(i.Shift(d)) == Pad(i).Shift(d)
  {
    ShiftProperties(i, d, 0.0);
  }

  /**
   * `bbox + offset` is each padded axis shifted by the matching component,
   * and `offset + bbox` is the same box.
   */
  lemma OffsetShiftsEachAxis(b: Aabb, offset: Vec3)
    ensures Offset(b, offset) == Aabb(Pad(b.x).Shift(offset.x), Pad(b.y).Shift(offset.y), Pad(b.z).Shift(offset.z))
    ensures OffsetLeft(offset, b) == Offset(b, offset)
  {
    PadShift(b.x, offset.x);
    PadShift(b.y, offset.y);
    PadShift(b.z, offset.z);
  }

  // ---------------------------------------------------------------------
  // The slab test
  // ---------------------------------------------------------------------

  /** `a * k` for a finite non-zero k. */
  function Times(a: ExtReal, k: real): ExtReal
    requires k != 0.0
  {
    match a
    case Fin(x) => Fin(x * k)
    case PosInf => if k > 0.0 then PosInf else NegInf
    case NegInf => if k > 0.0 then NegInf else PosInf
  }

  /** The entry and exit parameters of one slab, as the loop body computes them. */
  function SlabEnds(ax: Interval, o: real, d: real): (ExtReal, ExtReal)
    requires d != 0.0
  {
    var adinv := 1.0 / d;
    (Times(Plus(ax.min, -o), adinv), Times(Plus(ax.max, -o), adinv))
  }

  /** One iteration of the loop in `aabb::hit`, updating the local copy of ray_t. */
  function SlabStep(t: Interval, ax: Interval, o: real, d: real): Interval
    requires d != 0.0
  {
    var (t0, t1) := SlabEnds(ax, o, d);
    if Lt(t0, t1) then
      Interval(if Lt(t.min, t0) then t0 else t.min, if Lt(t1, t.max) then t1 else t.max)
    else
      Interval(if Lt(t.min, t1) then t1 else t.min, if Lt(t0, t.max) then t0 else t.max)
  }

  /** The slab's parameter range [min(t0, t1), max(t0, t1)]. */
  function Slab(ax: Interval, o: real, d: real): Interval
    requires d != 0.0
  {
    var (t0, t1) := SlabEnds(ax, o, d);
    if Lt(t0, t1) then Interval(t0, t1) else Interval(t1, t0)
  }

  /** The intersection of two intervals. */
  function Meet(a: Interval, b: Interval): (m: Interval)
    ensures Within(m, a) && Within(m, b)
  {
    LeTotalOrder(a.min, b.min, a.min);
    LeTotalOrder(a.max, b.max, a.max);
    Interval(if Le(b.min, a.min) then a.min else b.min,
             if Le(a.max, b.max) then a.max else b.max)
  }

  function AxisSlab(b: Aabb, r: Ray, n: int): Interval
    requires 0 <= n < 3 && NonZeroDirection(r)
  {
    Slab(AxisInterval(b, n), Component(r.origin, n), Component(r.direction, n))
  }

  /** The three slabs intersected with ray_t. */
  function SlabRange(b: Aabb, r: Ray, rayT: Interval): Interval
    requires NonZeroDirection(r)
  {
    Meet(Meet(Meet(rayT, AxisSlab(b, r, 0)), AxisSlab(b, r, 1)), AxisSlab(b, r, 2))
  }

  /** The ray meets the box within ray_t: the slab range is non-empty. */
  predicate BoxHit(b: Aabb, r: Ray, rayT: Interval)
    requires NonZeroDirection(r)
  {
    var m := SlabRange(b, r, rayT);
    Lt(m.min, m.max)
  }

  /** ray_t after the first k iterations of the loop. */
  function Narrowed(b: Aabb, r: Ray, rayT: Interval, k: int): Interval
    requires 0 <= k <= 3 && NonZeroDirection(r)
  {
    if k == 0 then rayT
    else SlabStep(Narrowed(b, r, rayT, k - 1), AxisInterval(b, k - 1),
                  Component(r.origin, k - 1), Component(r.direction, k - 1))
  }

  /** Each iteration of the loop intersects ray_t with one slab. */
  lemma SlabStepIsMeet(t: Interval, ax: Interval, o: real, d: real)
    requires d != 0.0
    ensures SlabStep(t, ax, o, d) == Meet(t, Slab(ax, o, d))
  {
    var (t0, t1) := SlabEnds(ax, o, d);
    LeTotalOrder(t0, t1, t.min);
    LeTotalOrder(t.min, t0, t1);
    LeTotalOrder(t1, t.min, t0);
    LeTotalOrder(t0, t.max, t1);
    LeTotalOrder(t.max, t1, t0);
  }

  lemma NarrowedIsSlabRange(b: Aabb, r: Ray, rayT: Interval)
    requires NonZeroDirection(r)
    ensures Narrowed(b, r, rayT, 3) == SlabRange(b, r, rayT)
  {
    assert Narrowed(b, r, rayT, 0) == rayT;
    SlabStepIsMeet(rayT, AxisInterval(b, 0), Component(r.origin, 0), Component(r.direction, 0));
    var n1 := Narrowed(b, r, rayT, 1);
    assert n1 == Meet(rayT, AxisSlab(b, r, 0));
    SlabStepIsMeet(n1, AxisInterval(b, 1), Component(r.origin, 1), Component(r.direction, 1));
    var n2 := Narrowed(b, r, rayT, 2);
    assert n2 == Meet(n1, AxisSlab(b, r, 1));
    SlabStepIsMeet(n2, AxisInterval(b, 2), Component(r.origin, 2), Component(r.direction, 2));
    assert Narrowed(b, r, rayT, 3) == Meet(n2, AxisSlab(b, r, 2));
  }

  /** Once ray_t is empty, further iterations keep it empty. */
  lemma {:induction false} EmptyStaysEmpty(b: Aabb, r: Ray, rayT: Interval, k: int)
    requires 0 <= k <= 3 && NonZeroDirection(r)
    requires Le(Narrowed(b, r, rayT, k).max, Narrowed(b, r, rayT, k).min)
    ensures !BoxHit(b, r, rayT)
    decreases 3 - k
  {
    if k == 3 {
      NarrowedIsSlabRange(b, r, rayT);
      var m := Narrowed(b, r, rayT, 3);
      LeTotalOrder(m.max, m.min, m.max);
    } else {
      var t := Narrowed(b, r, rayT, k);
      var ax := AxisInterval(b, k);
      var o := Component(r.origin, k);
      var d := Component(r.direction, k);
      SlabStepIsMeet(t, ax, o, d);
      var m := Meet(t, Slab(ax, o, d));
      assert Narrowed(b, r, rayT, k + 1) == m;
      LeTotalOrder(m.max, t.max, t.min);
      LeTotalOrder(m.max, t.min, m.min);
      EmptyStaysEmpty(b, r, rayT, k + 1);
    }
  }

  /**
   * `aabb::hit`: the slab test. The loop narrows a local copy of ray_t (the
   * caller's interval is passed by value) and returns false as soon as it
   * is empty.
   */
  method Hit(b: Aabb, r: Ray, rayT: Interval) returns (hit: bool)
    requires NonZeroDirection(r)
    ensures hit == BoxHit(b, r, rayT)
  {
    var t := rayT;
    for axis := 0 to 3
      invariant t == Narrowed(b, r, rayT, axis)
      invariant axis > 0 ==> !Le(t.max, t.min)
    {
      var ax := AxisInterval(b, axis);
      var adinv := 1.0 / Component(r.direction, axis);
      var t0 := Times(Plus(ax.min, -Component(r.origin, axis)), adinv);
      var t1 := Times(Plus(ax.max, -Component(r.origin, axis)), adinv);
      if Lt(t0, t1) {
        if Lt(t.min, t0) {
          t := t.(min := t0);
        }
        if Lt(t1, t.max) {
          t := t.(max := t1);
        }
      } else {
        if Lt(t.min, t1) {
          t := t.(min := t1);
        }
        if Lt(t0, t.max) {
          t := t.(max := t0);
        }
      }
      if Le(t.max, t.min) {
        EmptyStaysEmpty(b, r, rayT, axis + 1);
        return false;
      }
    }
    NarrowedIsSlabRange(b, r, rayT);
    LeTotalOrder(t.min, t.max, t.min);
    return true;
  }

  // ---------------------------------------------------------------------
  // What the slab test decides about boxes that contain one another
  // ---------------------------------------------------------------------

  /** Every axis is ordered (min <= max), as in every box built from points. */
  predicate Proper(b: Aabb) {
    Le(b.x.min, b.x.max) && Le(b.y.min, b.y.max) && Le(b.z.min, b.z.max)
  }

  lemma MulMonotone(x: real, y: real, k: real)
    requires x <= y
    ensures k > 0.0 ==> x * k <= y * k
    ensures k < 0.0 ==> y * k <= x * k
  {
  }

  /** A positive factor keeps the order of the extended reals; a negative one reverses it. */
  lemma TimesMonotone(a: ExtReal, b: ExtReal, o: real, k: real)
    requires k != 0.0 && Le(a, b)
    ensures k > 0.0 ==> Le(Times(Plus(a, -o), k), Times(Plus(b, -o), k))
    ensures k < 0.0 ==> Le(Times(Plus(b, -o), k), Times(Plus(a, -o), k))
  {
    if a.Fin? && b.Fin? {
      MulMonotone(a.v - o, b.v - o, k);
    }
  }

  lemma ReciprocalSign(d: real)
    requires d != 0.0
    ensures 1.0 / d != 0.0
    ensures d > 0.0 ==> 1.0 / d > 0.0
    ensures d < 0.0 ==> 1.0 / d < 0.0
  {
  }

  /** The slab of an ordered axis lies inside the slab of any axis holding it. */
  lemma SlabGrows(a: Interval, b: Interval, o: real, d: real)
    requires d != 0.0 && Le(a.min, a.max) && Within(a, b)
    ensures Within(Slab(a, o, d), Slab(b, o, d))
  {
    var k := 1.0 / d;
    ReciprocalSign(d);
    LeTotalOrder(b.min, a.min, a.max);
    LeTotalOrder(b.min, a.max, b.max);
    TimesMonotone(b.min, a.min, o, k);
    TimesMonotone(a.min, a.max, o, k);
    TimesMonotone(a.max, b.max, o, k);
    TimesMonotone(b.min, b.max, o, k);
    var (a0, a1) := SlabEnds(a, o, d);
    var (b0, b1) := SlabEnds(b, o, d);
    LeTotalOrder(a0, a1, a0);
    LeTotalOrder(b0, b1, b0);
  }

  /** Intersection is monotone in both arguments. */
  lemma MeetGrows(a: Interval, a': Interval, b: Interval, b': Interval)
    requires Within(a, a') && Within(b, b')
    ensures Within(Meet(a, b), Meet(a', b'))
  {
    LeTotalOrder(a'.min, a.min, b.min);
    LeTotalOrder(b'.min, b.min, a.min);
    LeTotalOrder(a'.min, b'.min, a.min);
    LeTotalOrder(a.max, a'.max, b.max);
    LeTotalOrder(b.max, b'.max, a.max);
    LeTotalOrder(a'.max, b'.max, a.max);
  }

  /**
   * A ray that passes the slab test of an ordered box passes it for every
   * box that holds that box: the hit of a parent box never culls a child
   * the ray reaches.
   */
  lemma BoxHitGrows(a: Aabb, b: Aabb, r: Ray, rayT: Interval)
    requires NonZeroDirection(r) && Proper(a) && BoxWithin(a, b)
    requires BoxHit(a, r, rayT)
    ensures BoxHit(b, r, rayT)
  {
    SlabGrows(a.x, b.x, r.origin.x, r.direction.x);
    SlabGrows(a.y, b.y, r.origin.y, r.direction.y);
    SlabGrows(a.z, b.z, r.origin.z, r.direction.z);
    assert Within(rayT, rayT);
    var m1, m1' := Meet(rayT, AxisSlab(a, r, 0)), Meet(rayT, AxisSlab(b, r, 0));
    MeetGrows(rayT, rayT, AxisSlab(a, r, 0), AxisSlab(b, r, 0));
    var m2, m2' := Meet(m1, AxisSlab(a, r, 1)), Meet(m1', AxisSlab(b, r, 1));
    MeetGrows(m1, m1', AxisSlab(a, r, 1), AxisSlab(b, r, 1));
    MeetGrows(m2, m2', AxisSlab(a, r, 2), AxisSlab(b, r, 2));
    var m, m' := SlabRange(a, r, rayT), SlabRange(b, r, rayT);
    LeTotalOrder(m'.min, m.min, m.max);
    LeTotalOrder(m'.min, m.max, m'.max);
  }

  /**
   * An axis of zero width (min == max) makes the slab a single parameter,
   * so the slab test rejects every ray, whatever ray_t is.
   */
  lemma FlatAxisMissed(b: Aabb, r: Ray, rayT: Interval, n: int)
    requires NonZeroDirection(r) && 0 <= n < 3
    requires AxisInterval(b, n).min == AxisInterval(b, n).max
    ensures !BoxHit(b, r, rayT)
  {
    var s := AxisSlab(b, r, n);
    assert s.min == s.max;
    var m1 := Meet(rayT, AxisSlab(b, r, 0));
    var m2 := Meet(m1, AxisSlab(b, r, 1));
    var m := SlabRange(b, r, rayT);
    LeTotalOrder(m.min, m2.min, m1.min);
    LeTotalOrder(m1.max, m2.max, m.max);
    LeTotalOrder(s.min, m.min, m.max);
    LeTotalOrder(m.min, m.max, s.max);
  }

  lemma DivideBelow(x: real, t: real, d: real)
    requires d != 0.0
    ensures d > 0.0 && x < t * d ==> x * (1.0 / d) < t
    ensures d > 0.0 && t * d < x ==> t < x * (1.0 / d)
    ensures d < 0.0 && x < t * d ==> t < x * (1.0 / d)
    ensures d < 0.0 && t * d < x ==> x * (1.0 / d) < t
  {
  }

  /** A slab whose axis strictly holds the point o + t d strictly holds t. */
  lemma SlabSurrounds(ax: Interval, o: real, d: real, t: real)
    requires d != 0.0 && ax.Surrounds(o + t * d)
    ensures Slab(ax, o, d).Surrounds(t)
  {
    ReciprocalSign(d);
    var (t0, t1) := SlabEnds(ax, o, d);
    if ax.min.Fin? {
      DivideBelow(ax.min.v - o, t, d);
    }
    if ax.max.Fin? {
      DivideBelow(ax.max.v - o, t, d);
    }
    if d > 0.0 {
      assert Lt(t0, Fin(t)) && Lt(Fin(t), t1);
    } else {
      assert Lt(t1, Fin(t)) && Lt(Fin(t), t0);
    }
  }

  lemma MeetSurrounds(a: Interval, b: Interval, t: real)
    requires a.Surrounds(t) && b.Surrounds(t)
    ensures Meet(a, b).Surrounds(t)
  {
  }

  /** One axis of the interior-point argument. */
  lemma AxisSlabSurrounds(b: Aabb, r: Ray, n: int, t: real)
    requires 0 <= n < 3 && NonZeroDirection(r)
    requires AxisInterval(b, n).Surrounds(Component(At(r, t), n))
    ensures AxisSlab(b, r, n).Surrounds(t)
  {
    var o, d := Component(r.origin, n), Component(r.direction, n);
    assert d != 0.0 && Component(At(r, t), n) == o + t * d by {
      if n == 0 {
      } else if n == 1 {
      } else {
      }
    }
    SlabSurrounds(AxisInterval(b, n), o, d, t);
  }

  /** Intervals that all surround t meet in a non-empty interval. */
  lemma MeetsSurround(a: Interval, s0: Interval, s1: Interval, s2: Interval, t: real)
    requires a.Surrounds(t) && s0.Surrounds(t) && s1.Surrounds(t) && s2.Surrounds(t)
    ensures Lt(Meet(Meet(Meet(a, s0), s1), s2).min, Meet(Meet(Meet(a, s0), s1), s2).max)
  {
    MeetSurrounds(a, s0, t);
    MeetSurrounds(Meet(a, s0), s1, t);
    MeetSurrounds(Meet(Meet(a, s0), s1), s2, t);
  }

  /**
   * A ray whose point at a parameter strictly inside ray_t lies strictly
   * inside the box on every axis passes the slab test.
   */
  lemma InteriorPointHit(b: Aabb, r: Ray, rayT: Interval, t: real)
    requires NonZeroDirection(r) && rayT.Surrounds(t)
    requires b.x.Surrounds(At(r, t).x) && b.y.Surrounds(At(r, t).y) && b.z.Surrounds(At(r, t).z)
    ensures BoxHit(b, r, rayT)
  {
    AxisSlabSurrounds(b, r, 0, t);
    AxisSlabSurrounds(b, r, 1, t);
    AxisSlabSurrounds(b, r, 2, t);
    MeetsSurround(rayT, AxisSlab(b, r, 0), AxisSlab(b, r, 1), AxisSlab(b, r, 2), t);
  }

  /**
   * Meeting an interval that holds t and is not a single point with one
   * that strictly holds t leaves an interval of the same kind.
   */
  lemma MeetContainsSurrounds(a: Interval, b: Interval, t: real)
    requires a.Contains(t) && Lt(a.min, a.max) && b.Surrounds(t)
    ensures Meet(a, b).Contains(t) && Lt(Meet(a, b).min, Meet(a, b).max)
  {
    var m := Meet(a, b);
    LeTotalOrder(m.min, Fin(t), m.max);
    LeTotalOrder(a.min, Fin(t), a.max);
    LeTotalOrder(b.min, Fin(t), b.max);
  }

  /**
   * The inclusive form of `InteriorPointHit`: a ray whose point at a
   * parameter that ray_t contains lies strictly inside the box on every axis
   * passes the slab test, as long as ray_t is not a single point.
   */
  lemma ContainedPointHit(b: Aabb, r: Ray, rayT: Interval, t: real)
    requires NonZeroDirection(r) && rayT.Contains(t) && Lt(rayT.min, rayT.max)
    requires b.x.Surrounds(At(r, t).x) && b.y.Surrounds(At(r, t).y) && b.z.Surrounds(At(r, t).z)
    ensures BoxHit(b, r, rayT)
  {
    AxisSlabSurrounds(b, r, 0, t);
    AxisSlabSurrounds(b, r, 1, t);
    AxisSlabSurrounds(b, r, 2, t);
    var m1 := Meet(rayT, AxisSlab(b, r, 0));
    MeetContainsSurrounds(rayT, AxisSlab(b, r, 0), t);
    var m2 := Meet(m1, AxisSlab(b, r, 1));
    MeetContainsSurrounds(m1, AxisSlab(b, r, 1), t);
    MeetContainsSurrounds(m2, AxisSlab(b, r, 2), t);
  }

  /**
   * A ray_t that is a single point fails the slab test of every box: the
   * test asks for `ray_t.max > ray_t.min` after narrowing.
   */
  lemma SinglePointIntervalMissed(b: Aabb, r: Ray, x: ExtReal)
    requires NonZeroDirection(r)
    ensures !BoxHit(b, r, Interval(x, x))
  {
    var rayT := Interval(x, x);
    var m1 := Meet(rayT, AxisSlab(b, r, 0));
    var m2 := Meet(m1, AxisSlab(b, r, 1));
    var m := SlabRange(b, r, rayT);
    LeTotalOrder(m.min, m2.min, m1.min);
    LeTotalOrder(m1.max, m2.max, m.max);
    LeTotalOrder(x, m1.min, m2.min);
    LeTotalOrder(m2.max, m1.max, x);
    LeTotalOrder(x, m.min, m.max);
    LeTotalOrder(m.min, m.max, x);
  }
}
