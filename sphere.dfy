/** The sphere of src/geometry/sphere.cpp: bounding box and ray intersection. */
module Spheres {
  import opened Wrappers
  import opened Vectors
  import opened Intervals
  import opened Rays
  import opened Boxes
  import opened HitRecords

  datatype Sphere = Sphere(center: Vec3, radius: real, mat: MaterialRef, bbox: Aabb)

  /** The constructor: the box spans `center - (r,r,r)` to `center + (r,r,r)`, whatever the sign of `r`. */
  function NewSphere(center: Vec3, radius: real, mat: MaterialRef): (s: Sphere)
    ensures s.center == center && s.radius == radius && s.mat == mat
    ensures ContainsPoint(s.bbox, center)
    ensures radius >= 0.0 ==> s.bbox == FromPoints(Sub(center, Vec3(radius, radius, radius)), Add(center, Vec3(radius, radius, radius)))
  {
    var rvec := Vec3(radius, radius, radius);
    Sphere(center, radius, mat, FromPoints(Sub(center, rvec), Add(center, rvec)))
  }

  /** A negative radius gives the same box as its absolute value. */
  lemma NewSphereSignFree(center: Vec3, radius: real, mat: MaterialRef)
    ensures NewSphere(center, -radius, mat).bbox == NewSphere(center, radius, mat).bbox
  {
  }

  /** Coefficients of `a t^2 + 2 half_b t + c = 0`, whose roots are where the ray meets the sphere. */
  function QuadA(r: Ray): real { Dot(r.direction, r.direction) }
  function HalfB(s: Sphere, r: Ray): real { Dot(Sub(r.origin, s.center), r.direction) }
  function QuadC(s: Sphere, r: Ray): real
  {
    var oc := Sub(r.origin, s.center);
    Dot(oc, oc) - s.radius * s.radius
  }
  function Discriminant(s: Sphere, r: Ray): real
  {
    HalfB(s, r) * HalfB(s, r) - QuadA(r) * QuadC(s, r)
  }

  function NearRoot(s: Sphere, r: Ray, sqrtD: real): real
    requires QuadA(r) != 0.0
  {
    (-HalfB(s, r) - sqrtD) / QuadA(r)
  }

  function FarRoot(s: Sphere, r: Ray, sqrtD: real): real
    requires QuadA(r) != 0.0
  {
    (-HalfB(s, r) + sqrtD) / QuadA(r)
  }

  /** The nearer root comes first along the ray. */
  lemma RootsOrdered(s: Sphere, r: Ray, sqrtD: real)
    requires QuadA(r) != 0.0 && sqrtD >= 0.0
    ensures NearRoot(s, r, sqrtD) <= FarRoot(s, r, sqrtD)
  {
    var a, hb := QuadA(r), HalfB(s, r);
    assert a > 0.0 by { LengthSquaredIsDot(r.direction); }
    assert (-hb - sqrtD) / a <= (-hb + sqrtD) / a by {
      assert (-hb + sqrtD) / a - (-hb - sqrtD) / a == (2.0 * sqrtD) / a;
    }
  }

  /**
   * The outward normal `(p - center) / radius`. With a zero radius the source
   * divides by 0 and gets a NaN vector, which `real` cannot hold; the zero
   * vector stands for it, so `set_face_normal` stores a back face, as every
   * comparison with NaN is false.
   */
  function Outward(s: Sphere, p: Vec3): (n: Vec3)
    ensures s.radius != 0.0 ==> Scale(s.radius, n) == Sub(p, s.center)
    ensures s.radius == 0.0 ==> n == Zero
  {
    if s.radius == 0.0 then Zero else Div(Sub(p, s.center), s.radius)
  }

  /**
   * `sphere::hit` as a function. `sqrtD` stands for `std::sqrt(discriminant)`.
   * A zero direction makes both roots `0/0`, which is NaN and is surrounded by
   * no interval, so that case misses.
   */
  function Intersect(s: Sphere, r: Ray, rayT: Interval, sqrtD: real): (res: Option<Intersection>)
    requires Discriminant(s, r) >= 0.0 ==> IsSqrt(Discriminant(s, r), sqrtD)
    ensures Discriminant(s, r) < 0.0 ==> res.None?
    ensures res.Some? ==> rayT.Surrounds(res.value.t) && res.value.point == At(r, res.value.t)
    ensures res.Some? ==> res.value.mat == s.mat && Dot(r.direction, res.value.normal) <= 0.0
    ensures res.Some? ==> QuadA(r) != 0.0 && (res.value.t == NearRoot(s, r, sqrtD) || res.value.t == FarRoot(s, r, sqrtD))
    ensures QuadA(r) != 0.0 && Discriminant(s, r) >= 0.0 && rayT.Surrounds(NearRoot(s, r, sqrtD)) ==>
      res.Some? && res.value.t == NearRoot(s, r, sqrtD)
    ensures QuadA(r) != 0.0 && Discriminant(s, r) >= 0.0 && !rayT.Surrounds(NearRoot(s, r, sqrtD)) ==>
      (res.Some? <==> rayT.Surrounds(FarRoot(s, r, sqrtD)))
    ensures res.Some? ==> var f := FaceNormal(r, Outward(s, res.value.point));
      res.value.normal == f.normal && res.value.frontFace == f.frontFace
  {
    if Discriminant(s, r) < 0.0 || QuadA(r) == 0.0 then None
    else
      var root := if rayT.Surrounds(NearRoot(s, r, sqrtD)) then NearRoot(s, r, sqrtD) else FarRoot(s, r, sqrtD);
      if !rayT.Surrounds(root) then None
      else
        var p := At(r, root);
        var f := FaceNormal(r, Outward(s, p));
        Some(Intersection(root, p, f.normal, f.frontFace, s.mat))
  }

  /** `|u + t v|^2` expanded. */
  lemma LengthSquaredAlong(u: Vec3, v: Vec3, t: real)
    ensures LengthSquared(Add(u, Scale(t, v))) == Dot(u, u) + 2.0 * t * Dot(u, v) + t * t * Dot(v, v)
  {
    SquareAlong(u.x, v.x, t);
    SquareAlong(u.y, v.y, t);
    SquareAlong(u.z, v.z, t);
  }

  lemma SquareAlong(a: real, b: real, t: real)
    ensures (a + t * b) * (a + t * b) == a * a + 2.0 * t * (a * b) + t * t * (b * b)
  {
  }

  /** A root of the quadratic formula solves the quadratic. */
  lemma RootSolvesQuadratic(a: real, hb: real, c: real, sq: real, t: real)
    requires a != 0.0 && sq * sq == hb * hb - a * c
    requires t * a == -hb - sq || t * a == -hb + sq
    ensures a * t * t + 2.0 * hb * t + c == 0.0
  {
    var at := t * a;
    assert at * at + 2.0 * hb * at + a * c == 0.0;
    assert a * (a * t * t + 2.0 * hb * t + c) == at * at + 2.0 * hb * at + a * c;
  }

  /** `|k v|^2 = k^2 |v|^2`. */
  lemma LengthSquaredScale(k: real, v: Vec3)
    ensures LengthSquared(Scale(k, v)) == k * k * LengthSquared(v)
  {
  }

  /** A point whose parameter solves the quadratic lies on the sphere. */
  lemma OnSphere(s: Sphere, r: Ray, t: real)
    requires QuadA(r) * t * t + 2.0 * HalfB(s, r) * t + QuadC(s, r) == 0.0
    ensures LengthSquared(Sub(At(r, t), s.center)) == s.radius * s.radius
  {
    var oc := Sub(r.origin, s.center);
    assert Sub(At(r, t), s.center) == Add(oc, Scale(t, r.direction));
    LengthSquaredAlong(oc, r.direction, t);
  }

  /** Dividing a vector of length `|radius|` by `radius` gives a unit vector, in either orientation. */
  lemma UnitOutward(pc: Vec3, radius: real)
    requires radius != 0.0 && LengthSquared(pc) == radius * radius
    ensures LengthSquared(Div(pc, radius)) == 1.0
    ensures LengthSquared(Neg(Div(pc, radius))) == 1.0
  {
    var k := 1.0 / radius;
    LengthSquaredScale(k, pc);
    assert k * radius == 1.0;
    assert k * k * (radius * radius) == (k * radius) * (k * radius);
  }

  lemma RootTimesA(s: Sphere, r: Ray, sqrtD: real)
    requires QuadA(r) != 0.0
    ensures NearRoot(s, r, sqrtD) * QuadA(r) == -HalfB(s, r) - sqrtD
    ensures FarRoot(s, r, sqrtD) * QuadA(r) == -HalfB(s, r) + sqrtD
  {
  }

  /**
   * Every reported hit lies on the sphere, and the stored normal has unit
   * length: the intersection formula and the surface agree.
   */
  lemma HitOnSurface(s: Sphere, r: Ray, rayT: Interval, sqrtD: real)
    requires s.radius != 0.0
    requires Discriminant(s, r) >= 0.0 ==> IsSqrt(Discriminant(s, r), sqrtD)
    requires Intersect(s, r, rayT, sqrtD).Some?
    ensures LengthSquared(Sub(Intersect(s, r, rayT, sqrtD).value.point, s.center)) == s.radius * s.radius
    ensures LengthSquared(Intersect(s, r, rayT, sqrtD).value.normal) == 1.0
  {
    var h := Intersect(s, r, rayT, sqrtD).value;
    RootOnSphere(s, r, sqrtD, h.t);
    UnitOutward(Sub(h.point, s.center), s.radius);
  }

  /**
   * With a zero radius the discriminant is never positive: it is minus the
   * squared length of `oc x direction`, which vanishes for a ray along a line
   * through the centre.
   */
  lemma ZeroRadiusDiscriminant(s: Sphere, r: Ray)
    requires s.radius == 0.0
    ensures Discriminant(s, r) <= 0.0
    ensures Cross(Sub(r.origin, s.center), r.direction) == Zero ==> Discriminant(s, r) == 0.0
  {
    var oc := Sub(r.origin, s.center);
    CrossLength(oc, r.direction);
    LengthSquaredIsDot(oc);
    LengthSquaredIsDot(r.direction);
    var n := Cross(oc, r.direction);
    LengthSquaredIsDot(n);
    assert Discriminant(s, r) == -LengthSquared(n);
  }

  /**
   * A zero-radius sphere is hit only where the discriminant is exactly 0, and
   * the NaN normal of the source shows up as a back face.
   */
  lemma ZeroRadiusHit(s: Sphere, r: Ray, rayT: Interval, sqrtD: real)
    requires s.radius == 0.0
    requires Discriminant(s, r) >= 0.0 ==> IsSqrt(Discriminant(s, r), sqrtD)
    requires Intersect(s, r, rayT, sqrtD).Some?
    ensures Discriminant(s, r) == 0.0
    ensures !Intersect(s, r, rayT, sqrtD).value.frontFace && Intersect(s, r, rayT, sqrtD).value.normal == Zero
  {
    ZeroRadiusDiscriminant(s, r);
    var h := Intersect(s, r, rayT, sqrtD).value;
    assert Outward(s, h.point) == Zero;
    assert Dot(r.direction, Zero) == 0.0;
    assert Neg(Zero) == Zero;
  }

  /** Both roots of the quadratic are points of the sphere. */
  lemma RootOnSphere(s: Sphere, r: Ray, sqrtD: real, t: real)
    requires QuadA(r) != 0.0 && Discriminant(s, r) >= 0.0 && IsSqrt(Discriminant(s, r), sqrtD)
    requires t == NearRoot(s, r, sqrtD) || t == FarRoot(s, r, sqrtD)
    ensures LengthSquared(Sub(At(r, t), s.center)) == s.radius * s.radius
  {
    RootTimesA(s, r, sqrtD);
    RootSolvesQuadratic(QuadA(r), HalfB(s, r), QuadC(s, r), sqrtD, t);
    OnSphere(s, r, t);
  }

  /**
   * Lowering the upper end of `ray_t` to any value above the reported root
   * reports the same intersection: the nearer root is still tried first and
   * the interval still surrounds whichever root was chosen.
   */
  lemma NarrowingKeepsHit(s: Sphere, r: Ray, rayT: Interval, m: ExtReal, sqrtD: real)
    requires Discriminant(s, r) >= 0.0 ==> IsSqrt(Discriminant(s, r), sqrtD)
    requires Intersect(s, r, rayT, sqrtD).Some?
    requires Lt(Fin(Intersect(s, r, rayT, sqrtD).value.t), m) && Le(m, rayT.max)
    ensures Intersect(s, r, Interval(rayT.min, m), sqrtD) == Intersect(s, r, rayT, sqrtD)
  {
    var near := NearRoot(s, r, sqrtD);
    var narrowed := Interval(rayT.min, m);
    LeTotalOrder(Fin(near), m, rayT.max);
    LeTotalOrder(Fin(FarRoot(s, r, sqrtD)), m, rayT.max);
  }

  /**
   * `sphere::hit`: on a hit it fills `t`, `point`, the facing normal and the
   * material of `rec` and returns true; on a miss it leaves `rec` alone.
   */
  method Hit(s: Sphere, r: Ray, rayT: Interval, rec: HitRecord, sqrtD: real) returns (hit: bool)
    requires Discriminant(s, r) >= 0.0 ==> IsSqrt(Discriminant(s, r), sqrtD)
    modifies rec`t, rec`point, rec`normal, rec`frontFace, rec`mat
    ensures hit == Intersect(s, r, rayT, sqrtD).Some?
    ensures hit ==> rec.Records(Intersect(s, r, rayT, sqrtD).value)
    ensures !hit ==> unchanged(rec)
  {
    var oc := Sub(r.origin, s.center);
    var a := Dot(r.direction, r.direction);
    var halfB := Dot(oc, r.direction);
    var c := Dot(oc, oc) - s.radius * s.radius;
    var discriminant := halfB * halfB - a * c;
    assert a == QuadA(r) && halfB == HalfB(s, r) && c == QuadC(s, r);
    assert discriminant == Discriminant(s, r);
    if discriminant < 0.0 {
      return false;
    }
    if a == 0.0 {
      // both roots are 0/0 (NaN), which no interval surrounds
      return false;
    }
    var root := (-halfB - sqrtD) / a;
    assert root == NearRoot(s, r, sqrtD);
    if !rayT.Surrounds(root) {
      root := (-halfB + sqrtD) / a;
      assert root == FarRoot(s, r, sqrtD);
      if !rayT.Surrounds(root) {
        return false;
      }
    }
    ghost var h := Intersect(s, r, rayT, sqrtD).value;
    assert h.t == root;
    rec.t := root;
    rec.point := At(r, rec.t);
    var outward := Outward(s, rec.point);
    rec.SetFaceNormal(r, outward);
    rec.mat := s.mat;
    return true;
  }

  /** The box the constructor gives a sphere: `[c - radius, c + radius]` on every axis, in either orientation. */
  predicate ConstructedBox(s: Sphere) {
    s.bbox == NewSphere(s.center, s.radius, s.mat).bbox
  }

  lemma SquareNonNegative(x: real)
    ensures x * x >= 0.0
  {
    if x < 0.0 {
      assert x * x == (-x) * (-x);
    }
  }

  lemma NonNegativeProduct(p: real, q: real)
    requires p >= 0.0 && q >= 0.0
    ensures p * q >= 0.0
  {
  }

  lemma PositiveProduct(p: real, q: real)
    requires p > 0.0 && q > 0.0
    ensures p * q > 0.0
  {
  }

  /** A product with a non-zero factor is 0 only when the other factor is. */
  lemma ZeroFactor(x: real, d: real)
    requires x * d == 0.0 && d != 0.0
    ensures x == 0.0
  {
    var y := x * d;
    assert y / d == x;
  }

  /** Only 0 squares to 0. */
  lemma SquareZero(x: real)
    requires x * x == 0.0
    ensures x == 0.0
  {
    if x != 0.0 {
      ZeroFactor(x, x);
    }
  }

  /** A coordinate offset whose square is below `radius^2` lies strictly inside `(-|radius|, |radius|)`. */
  lemma SquareBelow(q: real, radius: real)
    requires q * q < radius * radius
    ensures -Abs(radius) < q < Abs(radius)
  {
    var a := Abs(radius);
    assert a * a == radius * radius;
    if q >= a {
      assert q * q - a * a == (q - a) * (q + a);
      NonNegativeProduct(q - a, q + a);
    } else if q <= -a {
      assert q * q - a * a == (-q - a) * (-q + a);
      NonNegativeProduct(-q - a, -q + a);
    }
  }

  /** The axis `[c - radius, c + radius]` of the box strictly contains `x` when `(x - c)^2 < radius^2`. */
  lemma AxisInside(c: real, radius: real, x: real)
    requires (x - c) * (x - c) < radius * radius
    ensures Ordered(c - radius, c + radius).Surrounds(x)
  {
    SquareBelow(x - c, radius);
  }

  /** The constructor's box, axis by axis. */
  lemma BoxAxes(s: Sphere)
    requires ConstructedBox(s)
    ensures s.bbox.x == Ordered(s.center.x - s.radius, s.center.x + s.radius)
    ensures s.bbox.y == Ordered(s.center.y - s.radius, s.center.y + s.radius)
    ensures s.bbox.z == Ordered(s.center.z - s.radius, s.center.z + s.radius)
  {
  }

  /** A point whose offset from the centre is below `|radius|` on every axis is strictly inside the box. */
  lemma AxesInsideBox(s: Sphere, p: Vec3)
    requires ConstructedBox(s)
    requires (p.x - s.center.x) * (p.x - s.center.x) < s.radius * s.radius
    requires (p.y - s.center.y) * (p.y - s.center.y) < s.radius * s.radius
    requires (p.z - s.center.z) * (p.z - s.center.z) < s.radius * s.radius
    ensures s.bbox.x.Surrounds(p.x) && s.bbox.y.Surrounds(p.y) && s.bbox.z.Surrounds(p.z)
  {
    BoxAxes(s);
    AxisInside(s.center.x, s.radius, p.x);
    AxisInside(s.center.y, s.radius, p.y);
    AxisInside(s.center.z, s.radius, p.z);
  }

  /** Inside the ball, every coordinate offset is below the radius. */
  lemma BallAxes(qx: real, qy: real, qz: real, radius: real)
    requires qx * qx + qy * qy + qz * qz < radius * radius
    ensures qx * qx < radius * radius && qy * qy < radius * radius && qz * qz < radius * radius
  {
    SquareNonNegative(qx);
    SquareNonNegative(qy);
    SquareNonNegative(qz);
  }

  /** A point strictly inside the ball is strictly inside the constructor's box on every axis. */
  lemma InsideBallInsideBox(s: Sphere, p: Vec3)
    requires ConstructedBox(s)
    requires LengthSquared(Sub(p, s.center)) < s.radius * s.radius
    ensures s.bbox.x.Surrounds(p.x) && s.bbox.y.Surrounds(p.y) && s.bbox.z.Surrounds(p.z)
  {
    var q := Sub(p, s.center);
    BallAxes(q.x, q.y, q.z, s.radius);
    AxesInsideBox(s, p);
  }

  /**
   * One axis of a tangent point: an offset `q` of length `|radius| > 0`
   * perpendicular to a direction whose components are all non-zero has no
   * component of full length.
   */
  lemma TangentAxis(qx: real, qy: real, qz: real, dx: real, dy: real, dz: real, radius: real)
    requires radius != 0.0 && dx != 0.0
    requires qx * qx + qy * qy + qz * qz == radius * radius
    requires qx * dx + qy * dy + qz * dz == 0.0
    ensures qx * qx < radius * radius
  {
    SquareNonNegative(qy);
    SquareNonNegative(qz);
    if qx * qx >= radius * radius {
      assert qy * qy == 0.0 && qz * qz == 0.0;
      SquareZero(qy);
      SquareZero(qz);
      assert qx * dx == 0.0;
      assert qx == 0.0;
      SquareZero(radius);
    }
  }

  /** A point of the sphere where the ray is tangent to it is strictly inside the box on every axis. */
  lemma TangentInsideBox(s: Sphere, p: Vec3, d: Vec3)
    requires ConstructedBox(s) && s.radius != 0.0
    requires d.x != 0.0 && d.y != 0.0 && d.z != 0.0
    requires LengthSquared(Sub(p, s.center)) == s.radius * s.radius
    requires Dot(Sub(p, s.center), d) == 0.0
    ensures s.bbox.x.Surrounds(p.x) && s.bbox.y.Surrounds(p.y) && s.bbox.z.Surrounds(p.z)
  {
    var q := Sub(p, s.center);
    TangentAxis(q.x, q.y, q.z, d.x, d.y, d.z, s.radius);
    TangentAxis(q.y, q.z, q.x, d.y, d.z, d.x, s.radius);
    TangentAxis(q.z, q.x, q.y, d.z, d.x, d.y, s.radius);
    AxesInsideBox(s, p);
  }

  /** The quadratic with roots `t1` and `t2` factors as `a (x - t1) (x - t2)`. */
  lemma QuadraticFactor(a: real, hb: real, c: real, sq: real, t1: real, t2: real, x: real)
    requires a != 0.0 && sq * sq == hb * hb - a * c
    requires t1 * a == -hb - sq && t2 * a == -hb + sq
    ensures a * x * x + 2.0 * hb * x + c == a * (x - t1) * (x - t2)
  {
    var ax := a * x;
    assert a * (a * (x - t1) * (x - t2)) == (ax - t1 * a) * (ax - t2 * a);
    assert (ax - t1 * a) * (ax - t2 * a) == (ax + hb) * (ax + hb) - sq * sq;
    assert a * (a * x * x + 2.0 * hb * x + c) == (ax + hb) * (ax + hb) - sq * sq;
  }

  /** Strictly between two distinct roots the quadratic, with `a > 0`, is negative. */
  lemma BetweenRootsNegative(a: real, hb: real, c: real, sq: real, t1: real, t2: real, x: real)
    requires a > 0.0 && sq * sq == hb * hb - a * c
    requires t1 * a == -hb - sq && t2 * a == -hb + sq
    requires t1 < x < t2
    ensures a * x * x + 2.0 * hb * x + c < 0.0
  {
    QuadraticFactor(a, hb, c, sq, t1, t2, x);
    PositiveProduct(a, x - t1);
    PositiveProduct(a * (x - t1), t2 - x);
    assert a * (x - t1) * (x - t2) == -(a * (x - t1) * (t2 - x));
  }

  /** A parameter strictly between `t1` and `t2` and strictly inside `(lo, hi)`, when these overlap. */
  function Between(lo: ExtReal, t1: real, t2: real, hi: ExtReal): (tau: real)
    requires t1 < t2 && Lt(lo, hi) && Lt(lo, Fin(t2)) && Lt(Fin(t1), hi)
    ensures t1 < tau < t2 && Lt(lo, Fin(tau)) && Lt(Fin(tau), hi)
  {
    var a := if lo.Fin? && lo.v > t1 then lo.v else t1;
    var b := if hi.Fin? && hi.v < t2 then hi.v else t2;
    (a + b) / 2.0
  }

  /** `(u + t v) . v` expanded. */
  lemma DotAlong(u: Vec3, v: Vec3, t: real)
    ensures Dot(Add(u, Scale(t, v)), v) == Dot(u, v) + t * Dot(v, v)
  {
  }

  /** Strictly between two distinct roots the ray is strictly inside the ball. */
  lemma InsideBetweenRoots(s: Sphere, r: Ray, sqrtD: real, tau: real)
    requires QuadA(r) > 0.0 && Discriminant(s, r) >= 0.0 && IsSqrt(Discriminant(s, r), sqrtD)
    requires NearRoot(s, r, sqrtD) < tau < FarRoot(s, r, sqrtD)
    ensures LengthSquared(Sub(At(r, tau), s.center)) < s.radius * s.radius
  {
    var oc := Sub(r.origin, s.center);
    var a, hb, c := QuadA(r), HalfB(s, r), QuadC(s, r);
    RootTimesA(s, r, sqrtD);
    BetweenRootsNegative(a, hb, c, sqrtD, NearRoot(s, r, sqrtD), FarRoot(s, r, sqrtD), tau);
    assert Sub(At(r, tau), s.center) == Add(oc, Scale(tau, r.direction));
    LengthSquaredAlong(oc, r.direction, tau);
    assert LengthSquared(Add(oc, Scale(tau, r.direction))) == a * tau * tau + 2.0 * hb * tau + c + s.radius * s.radius;
  }

  /** With a zero discriminant the ray touches the sphere at the root, perpendicular to the radius there. */
  lemma TouchingRoot(s: Sphere, r: Ray, sqrtD: real)
    requires QuadA(r) != 0.0 && Discriminant(s, r) == 0.0 && IsSqrt(Discriminant(s, r), sqrtD)
    ensures LengthSquared(Sub(At(r, NearRoot(s, r, sqrtD)), s.center)) == s.radius * s.radius
    ensures Dot(Sub(At(r, NearRoot(s, r, sqrtD)), s.center), r.direction) == 0.0
  {
    var t := NearRoot(s, r, sqrtD);
    var oc := Sub(r.origin, s.center);
    assert sqrtD == 0.0 by { SquareZero(sqrtD); }
    RootTimesA(s, r, sqrtD);
    assert Sub(At(r, t), s.center) == Add(oc, Scale(t, r.direction));
    DotAlong(oc, r.direction, t);
    RootOnSphere(s, r, sqrtD, t);
  }

  /**
   * Every hit on a sphere of non-zero radius passes the slab test of the
   * box its constructor gives it, over the same `ray_t`. When the ray
   * crosses the sphere, the points just inside the hit are strictly inside
   * the ball and so strictly inside the box; when it only touches the
   * sphere, the touching point is strictly inside the box, because a
   * direction with no zero component is never tangent at the centre of a
   * face of the box.
   */
  lemma HitPassesBox(s: Sphere, r: Ray, rayT: Interval, sqrtD: real)
    requires ConstructedBox(s) && s.radius != 0.0 && NonZeroDirection(r)
    requires Discriminant(s, r) >= 0.0 ==> IsSqrt(Discriminant(s, r), sqrtD)
    requires Intersect(s, r, rayT, sqrtD).Some?
    ensures BoxHit(s.bbox, r, rayT)
  {
    var t := Intersect(s, r, rayT, sqrtD).value.t;
    var a := QuadA(r);
    var t1, t2 := NearRoot(s, r, sqrtD), FarRoot(s, r, sqrtD);
    SquareNonNegative(r.direction.x);
    SquareNonNegative(r.direction.y);
    SquareNonNegative(r.direction.z);
    assert a > 0.0;
    RootTimesA(s, r, sqrtD);
    RootsOrdered(s, r, sqrtD);
    LeTotalOrder(rayT.min, Fin(t), rayT.max);
    if Discriminant(s, r) == 0.0 {
      TouchingRoot(s, r, sqrtD);
      assert sqrtD == 0.0 by { SquareZero(sqrtD); }
      assert t == t1;
      TangentInsideBox(s, At(r, t), r.direction);
      ContainedPointHit(s.bbox, r, rayT, t);
    } else {
      assert sqrtD > 0.0;
      assert (t2 - t1) * a == 2.0 * sqrtD;
      assert t1 < t2;
      LeTotalOrder(rayT.min, Fin(t), Fin(t2));
      LeTotalOrder(Fin(t1), Fin(t), rayT.max);
      var tau := Between(rayT.min, t1, t2, rayT.max);
      InsideBetweenRoots(s, r, sqrtD, tau);
      InsideBallInsideBox(s, At(r, tau));
      ContainedPointHit(s.bbox, r, rayT, tau);
    }
  }

  /**
   * A sphere of radius 0 gets a box of a single point, which no ray passes,
   * even though the sphere itself can be hit (`ZeroRadiusHit`).
   */
  lemma ZeroRadiusBoxMissed(s: Sphere, r: Ray, rayT: Interval)
    requires ConstructedBox(s) && s.radius == 0.0 && NonZeroDirection(r)
    ensures !BoxHit(s.bbox, r, rayT)
  {
    BoxAxes(s);
    FlatAxisMissed(s.bbox, r, rayT, 0);
  }
}
