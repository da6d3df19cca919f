/**
 * The planar quadrilateral of src/geometry/quad.h (a corner `q` and two edge
 * vectors `u`, `v`), its ray intersection, its light-sampling density and
 * the six-quad cube.
 */
module Quads {
  import opened Wrappers
  import opened Vectors
  import opened Intervals
  import opened Rays
  import opened Boxes
  import opened HitRecords
  import opened Scenes

  /** Below this `|normal . direction|` the ray counts as parallel to the plane. */
  const ParallelEpsilon: real := 0.00000001

  /** The nearest parameter `pdf_value` accepts. */
  const PdfMinT: real := 0.001

  datatype Quad = Quad(q: Vec3, u: Vec3, v: Vec3, w: Vec3, normal: Vec3, d: real,
                       mat: MaterialRef, bbox: Aabb, area: real)

  /** `nlen` is `|cross(u, v)|`, the area of the parallelogram the edges span. */
  predicate SpannedArea(u: Vec3, v: Vec3, nlen: real) {
    IsSqrt(LengthSquared(Cross(u, v)), nlen)
  }

  /** Edges that are not parallel: the area is positive and the normal exists. */
  predicate ValidEdges(u: Vec3, v: Vec3, nlen: real) {
    nlen > 0.0 && SpannedArea(u, v, nlen)
  }

  function Corners(q: Vec3, u: Vec3, v: Vec3): seq<Vec3> {
    [q, Add(q, u), Add(q, v), Add(Add(q, u), v)]
  }

  /** The box of the constructor: the union of the boxes spanned by the two diagonals. */
  function DiagonalBox(q: Vec3, u: Vec3, v: Vec3): Aabb {
    Enclosing(FromPoints(q, Add(Add(q, u), v)), FromPoints(Add(q, u), Add(q, v)))
  }

  /**
   * The box the constructor evidently means: the union of the two diagonal
   * boxes, with every axis thinner than `Delta` padded, as the constructor
   * from three intervals does.
   */
  function PaddedBox(q: Vec3, u: Vec3, v: Vec3): (b: Aabb)
    ensures BoxWithin(DiagonalBox(q, u, v), b)
  {
    var d := DiagonalBox(q, u, v);
    PadWidens(d.x, 0.0);
    PadWidens(d.y, 0.0);
    PadWidens(d.z, 0.0);
    FromIntervals(d.x, d.y, d.z)
  }

  /**
   * The constructor: the box spans both diagonals (padded, see `PaddedBox`), `normal` is the unit
   * `cross(u, v)`, `d` places the plane through `q`, `w = n / (n . n)` and
   * `area = |n|`, where `nlen` stands for `|n|`.
   *
   * Parallel edges give `n = 0`; then `normal`, `w` and `d` are `0/0`, NaN,
   * in every component. Reals have no NaN: the model stores zero there, which
   * keeps what NaN does in `hit`, namely that no ray ever hits such a quad
   * (`FlatQuadNeverHit`).
   */
  function NewQuad(q: Vec3, u: Vec3, v: Vec3, mat: MaterialRef, nlen: real): (quad: Quad)
    requires SpannedArea(u, v, nlen)
    ensures quad.q == q && quad.u == u && quad.v == v && quad.mat == mat
    ensures quad.bbox == PaddedBox(q, u, v)
    ensures quad.d == Dot(quad.normal, q) && quad.area == nlen
    ensures nlen > 0.0 ==> LengthSquared(quad.normal) == 1.0 && Scale(nlen, quad.normal) == Cross(u, v)
    ensures nlen == 0.0 ==> quad.normal == Zero
    ensures AreaAgrees(quad)
  {
    var n := Cross(u, v);
    LengthSquaredIsDot(n);
    if nlen == 0.0 then
      Quad(q, u, v, Zero, Zero, Dot(Zero, q), mat, PaddedBox(q, u, v), nlen)
    else
      var normal := UnitVector(n, nlen);
      Quad(q, u, v, Div(n, Dot(n, n)), normal, Dot(normal, q), mat, PaddedBox(q, u, v), nlen)
  }

  /**
   * What the constructor leaves between `area` and `normal`: the area is
   * positive, or it is 0 and the normal is the stand-in for NaN.
   */
  predicate AreaAgrees(quad: Quad) {
    quad.area > 0.0 || quad.normal == Zero
  }

  /** A quad whose normal is zero (parallel edges) is missed by every ray. */
  lemma FlatQuadNeverHit(quad: Quad, r: Ray, rayT: Interval)
    requires quad.normal == Zero
    ensures Intersect(quad, r, rayT).None?
  {
  }

  /** The constructor applied to parallel edges builds a quad no ray hits. */
  lemma ParallelEdgesNeverHit(q: Vec3, u: Vec3, v: Vec3, mat: MaterialRef, r: Ray, rayT: Interval)
    requires Cross(u, v) == Zero
    ensures SpannedArea(u, v, 0.0)
    ensures Intersect(NewQuad(q, u, v, mat, 0.0), r, rayT).None?
  {
    FlatQuadNeverHit(NewQuad(q, u, v, mat, 0.0), r, rayT);
  }

  /**
   * What the constructor establishes and the intersection relies on: `w`
   * is dual to `u x v`, the normal is perpendicular to both edges, and the
   * plane passes through `q`.
   */
  predicate WellFormed(quad: Quad) {
    Dot(quad.w, Cross(quad.u, quad.v)) == 1.0 &&
    Dot(quad.normal, quad.u) == 0.0 && Dot(quad.normal, quad.v) == 0.0 &&
    quad.d == Dot(quad.normal, quad.q)
  }

  /** Every quad the constructor builds is well formed. */
  lemma NewQuadWellFormed(q: Vec3, u: Vec3, v: Vec3, mat: MaterialRef, nlen: real)
    requires ValidEdges(u, v, nlen)
    ensures WellFormed(NewQuad(q, u, v, mat, nlen))
  {
    var quad := NewQuad(q, u, v, mat, nlen);
    var n := Cross(u, v);
    LengthSquaredIsDot(n);
    DualVector(n);
    DotSymmetric(quad.w, n);
    CrossOrthogonal(u, v);
    DotSymmetric(n, u);
    DotSymmetric(n, v);
    ScaledPerpendicular(nlen, quad.normal, u);
    ScaledPerpendicular(nlen, quad.normal, v);
  }

  /** `n / (n . n)` has dot product 1 with `n`. */
  lemma DualVector(n: Vec3)
    requires Dot(n, n) > 0.0
    ensures Dot(Div(n, Dot(n, n)), n) == 1.0
  {
    var k := Dot(n, n);
    DotScale(1.0 / k, n, n);
    assert (1.0 / k) * k == 1.0;
  }

  /** A vector whose positive multiple is perpendicular to `e` is itself perpendicular to `e`. */
  lemma ScaledPerpendicular(s: real, a: Vec3, e: Vec3)
    requires s > 0.0 && Dot(e, Scale(s, a)) == 0.0
    ensures Dot(a, e) == 0.0
  {
    DotScale(s, a, e);
    DotSymmetric(a, e);
  }

  /** A point inside one box lies inside every box that contains it. */
  lemma ContainsPointWithin(a: Aabb, b: Aabb, p: Vec3)
    requires ContainsPoint(a, p) && BoxWithin(a, b)
    ensures ContainsPoint(b, p)
  {
  }

  /** The constructor's box holds all four corners of the quad. */
  lemma DiagonalBoxCorners(q: Vec3, u: Vec3, v: Vec3)
    ensures forall p :: p in Corners(q, u, v) ==> ContainsPoint(DiagonalBox(q, u, v), p)
    ensures forall p :: p in Corners(q, u, v) ==> ContainsPoint(PaddedBox(q, u, v), p)
  {
    var d1 := FromPoints(q, Add(Add(q, u), v));
    var d2 := FromPoints(Add(q, u), Add(q, v));
    FromPointsProperties(q, Add(Add(q, u), v));
    FromPointsProperties(Add(q, u), Add(q, v));
    EnclosingProperties(d1, d2);
    ContainsPointWithin(d1, DiagonalBox(q, u, v), q);
    ContainsPointWithin(d1, DiagonalBox(q, u, v), Add(Add(q, u), v));
    ContainsPointWithin(d2, DiagonalBox(q, u, v), Add(q, u));
    ContainsPointWithin(d2, DiagonalBox(q, u, v), Add(q, v));
    forall p | p in Corners(q, u, v) ensures ContainsPoint(PaddedBox(q, u, v), p) {
      ContainsPointWithin(DiagonalBox(q, u, v), PaddedBox(q, u, v), p);
    }
  }

  /** `alpha = w . (p x v)`, the coordinate of a planar vector `p` along `u`. */
  function Alpha(quad: Quad, p: Vec3): real {
    Dot(quad.w, Cross(p, quad.v))
  }

  /** `beta = w . (u x p)`, the coordinate of a planar vector `p` along `v`. */
  function Beta(quad: Quad, p: Vec3): real {
    Dot(quad.w, Cross(quad.u, p))
  }

  /** `is_interior`: both coordinates in the closed unit interval. */
  predicate IsInterior(a: real, b: real) {
    var unit := Interval(Fin(0.0), Fin(1.0));
    unit.Contains(a) && unit.Contains(b)
  }

  /** The interior is exactly the closed unit square, edges and corners included. */
  lemma IsInteriorUnitSquare(a: real, b: real)
    ensures IsInterior(a, b) <==> 0.0 <= a <= 1.0 && 0.0 <= b <= 1.0
  {
  }

  lemma CrossCombinationLeft(s: real, t: real, u: Vec3, v: Vec3)
    ensures Cross(Add(Scale(s, u), Scale(t, v)), v) == Scale(s, Cross(u, v))
  {
    CrossAdd(Scale(s, u), Scale(t, v), v);
    CrossScaleLeft(s, u, v);
    CrossScaleLeft(t, v, v);
    CrossSelf(v);
  }

  lemma CrossCombinationRight(s: real, t: real, u: Vec3, v: Vec3)
    ensures Cross(u, Add(Scale(s, u), Scale(t, v))) == Scale(t, Cross(u, v))
  {
    CrossAdd(Scale(s, u), Scale(t, v), u);
    CrossScaleRight(s, u, u);
    CrossScaleRight(t, v, u);
    CrossSelf(u);
  }

  /**
   * `alpha` and `beta` recover the coordinates of `s u + t v`: the quad's
   * interior test measures positions in the frame of its edges.
   */
  lemma PlanarCoordinates(quad: Quad, s: real, t: real)
    requires Dot(quad.w, Cross(quad.u, quad.v)) == 1.0
    ensures Alpha(quad, Add(Scale(s, quad.u), Scale(t, quad.v))) == s
    ensures Beta(quad, Add(Scale(s, quad.u), Scale(t, quad.v))) == t
  {
    var n := Cross(quad.u, quad.v);
    CrossCombinationLeft(s, t, quad.u, quad.v);
    CrossCombinationRight(s, t, quad.u, quad.v);
    DotScale(s, n, quad.w);
    DotScale(t, n, quad.w);
  }

  /** A point `q + s u + t v` with `s` and `t` in the unit interval is interior. */
  lemma PointInterior(quad: Quad, p: Vec3, s: real, t: real)
    requires Dot(quad.w, Cross(quad.u, quad.v)) == 1.0
    requires Sub(p, quad.q) == Add(Scale(s, quad.u), Scale(t, quad.v))
    requires 0.0 <= s <= 1.0 && 0.0 <= t <= 1.0
    ensures IsInterior(Alpha(quad, Sub(p, quad.q)), Beta(quad, Sub(p, quad.q)))
  {
    PlanarCoordinates(quad, s, t);
  }

  /** The corners sit at coordinates (0,0), (1,0), (0,1) and (1,1), so each is interior. */
  lemma CornersInterior(quad: Quad)
    requires WellFormed(quad)
    ensures forall p :: p in Corners(quad.q, quad.u, quad.v) ==>
      IsInterior(Alpha(quad, Sub(p, quad.q)), Beta(quad, Sub(p, quad.q)))
  {
    var q, u, v := quad.q, quad.u, quad.v;
    assert Sub(q, q) == Add(Scale(0.0, u), Scale(0.0, v));
    PointInterior(quad, q, 0.0, 0.0);
    assert Sub(Add(q, u), q) == Add(Scale(1.0, u), Scale(0.0, v));
    PointInterior(quad, Add(q, u), 1.0, 0.0);
    assert Sub(Add(q, v), q) == Add(Scale(0.0, u), Scale(1.0, v));
    PointInterior(quad, Add(q, v), 0.0, 1.0);
    assert Sub(Add(Add(q, u), v), q) == Add(Scale(1.0, u), Scale(1.0, v));
    PointInterior(quad, Add(Add(q, u), v), 1.0, 1.0);
  }

  lemma DotAt(n: Vec3, r: Ray, t: real)
    ensures Dot(n, At(r, t)) == Dot(n, r.origin) + t * Dot(n, r.direction)
  {
  }

  /** The parameter `(D - n . origin) / (n . direction)` puts the ray's point on the plane. */
  lemma OnPlane(quad: Quad, r: Ray, t: real)
    requires Dot(quad.normal, r.direction) != 0.0
    requires t == (quad.d - Dot(quad.normal, r.origin)) / Dot(quad.normal, r.direction)
    ensures Dot(quad.normal, At(r, t)) == quad.d
  {
    var denom := Dot(quad.normal, r.direction);
    DotAt(quad.normal, r, t);
    assert t * denom == quad.d - Dot(quad.normal, r.origin);
  }

  /** `hit` as a function: the plane parameter, the range test, the interior test. */
  function Intersect(quad: Quad, r: Ray, rayT: Interval): (res: Option<Intersection>)
    ensures Abs(Dot(quad.normal, r.direction)) < ParallelEpsilon ==> res.None?
    ensures res.Some? ==> Abs(Dot(quad.normal, r.direction)) >= ParallelEpsilon
    ensures res.Some? ==> rayT.Contains(res.value.t) && res.value.point == At(r, res.value.t)
    ensures res.Some? ==> IsInterior(Alpha(quad, Sub(res.value.point, quad.q)), Beta(quad, Sub(res.value.point, quad.q)))
    ensures res.Some? ==> res.value.mat == quad.mat
    ensures res.Some? ==> res.value.normal == FaceNormal(r, quad.normal).normal && res.value.frontFace == FaceNormal(r, quad.normal).frontFace
    ensures res.Some? ==> Dot(quad.normal, res.value.point) == quad.d
  {
    var denom := Dot(quad.normal, r.direction);
    if Abs(denom) < ParallelEpsilon then None
    else
      var t := (quad.d - Dot(quad.normal, r.origin)) / denom;
      if !rayT.Contains(t) then None
      else
        var p := At(r, t);
        var hp := Sub(p, quad.q);
        if !IsInterior(Alpha(quad, hp), Beta(quad, hp)) then None
        else
          OnPlane(quad, r, t);
          var f := FaceNormal(r, quad.normal);
          Some(Intersection(t, p, f.normal, f.frontFace, quad.mat))
  }

  /** The plane parameter of a point `q + s u + t v` on the ray. */
  lemma PlaneParameter(quad: Quad, r: Ray, s: real, t: real, tHit: real)
    requires WellFormed(quad)
    requires At(r, tHit) == Add(quad.q, Add(Scale(s, quad.u), Scale(t, quad.v)))
    requires Dot(quad.normal, r.direction) != 0.0
    ensures (quad.d - Dot(quad.normal, r.origin)) / Dot(quad.normal, r.direction) == tHit
  {
    var n, denom := quad.normal, Dot(quad.normal, r.direction);
    var planar := Add(Scale(s, quad.u), Scale(t, quad.v));
    DotAt(n, r, tHit);
    DotLinear(quad.u, quad.v, n, s, t);
    DotSymmetric(planar, n);
    DotSymmetric(quad.u, n);
    DotSymmetric(quad.v, n);
    assert Dot(n, planar) == 0.0;
    assert Dot(n, Add(quad.q, planar)) == Dot(n, quad.q) + Dot(n, planar);
    assert Dot(n, r.origin) + tHit * denom == quad.d;
  }

  /**
   * Conversely, a ray that is not parallel to the plane and passes through
   * `q + s u + t v` with `(s, t)` in the unit square, at a parameter the
   * interval contains, hits the quad there.
   */
  lemma HitInside(quad: Quad, r: Ray, rayT: Interval, s: real, t: real, tHit: real)
    requires WellFormed(quad)
    requires 0.0 <= s <= 1.0 && 0.0 <= t <= 1.0
    requires At(r, tHit) == Add(quad.q, Add(Scale(s, quad.u), Scale(t, quad.v)))
    requires Abs(Dot(quad.normal, r.direction)) >= ParallelEpsilon
    requires rayT.Contains(tHit)
    ensures Intersect(quad, r, rayT).Some?
    ensures Intersect(quad, r, rayT).value.t == tHit
  {
    PlaneParameter(quad, r, s, t, tHit);
    assert Sub(At(r, tHit), quad.q) == Add(Scale(s, quad.u), Scale(t, quad.v));
    PlanarCoordinates(quad, s, t);
  }

  /** `x` lies strictly between 0 and `b`, or is 0 when `b` is. */
  predicate Offset(x: real, b: real) {
    (b > 0.0 ==> 0.0 < x < b) && (b < 0.0 ==> b < x < 0.0) && (b == 0.0 ==> x == 0.0)
  }

  /** Scaling by a factor strictly between 0 and 1 moves a value strictly toward 0. */
  lemma ScaledOffset(s: real, b: real)
    requires 0.0 < s < 1.0
    ensures Offset(s * b, b)
  {
  }

  /** The negative part of a value. */
  function Below(b: real): real { if b < 0.0 then b else 0.0 }

  /** The positive part of a value. */
  function Above(b: real): real { if b > 0.0 then b else 0.0 }

  /** On one axis, the hull of the corners `a`, `a + b + c`, `a + b` and `a + c`. */
  lemma CornerHull(a: real, b: real, c: real)
    ensures Hull(Ordered(a, a + b + c), Ordered(a + b, a + c)) == Interval(Fin(a + Below(b) + Below(c)), Fin(a + Above(b) + Above(c)))
  {
  }

  /** Padding a finite interval keeps what it surrounds, and makes a single point surrounded. */
  lemma PadSurrounds(lo: real, hi: real, p: real)
    requires lo < p < hi || lo == p == hi
    ensures Pad(Interval(Fin(lo), Fin(hi))).Surrounds(p)
  {
    if lo == hi {
      assert Narrow(Interval(Fin(lo), Fin(hi)));
    } else {
      PadWidens(Interval(Fin(lo), Fin(hi)), p);
    }
  }

  /**
   * Offsets strictly inside both edges sum to a value strictly between the
   * lowest and the highest corner, or to 0 when neither edge moves.
   */
  lemma OffsetSum(b: real, c: real, x: real, y: real)
    requires Offset(x, b) && Offset(y, c)
    ensures Below(b) + Below(c) < x + y < Above(b) + Above(c) || Below(b) + Below(c) == x + y == Above(b) + Above(c)
  {
  }

  /** On the x axis, the box as written spans the lowest to the highest corner. */
  lemma DiagonalBoxX(q: Vec3, u: Vec3, v: Vec3)
    ensures DiagonalBox(q, u, v).x == Interval(Fin(q.x + Below(u.x) + Below(v.x)), Fin(q.x + Above(u.x) + Above(v.x)))
  {
    CornerHull(q.x, u.x, v.x);
    var p1, p2 := FromPoints(q, Add(Add(q, u), v)), FromPoints(Add(q, u), Add(q, v));
    assert DiagonalBox(q, u, v).x == Hull(p1.x, p2.x);
    assert p1.x == Ordered(q.x, q.x + u.x + v.x);
    assert p2.x == Ordered(q.x + u.x, q.x + v.x);
  }

  /**
   * On the x axis, a point `q + x + y` whose offsets lie strictly inside the
   * edges lies strictly inside the corrected box: inside the hull of the
   * corners when an edge moves along the axis, inside the padding when
   * neither does.
   */
  lemma PaddedSurroundsX(q: Vec3, u: Vec3, v: Vec3, x: real, y: real, p: real)
    requires Offset(x, u.x) && Offset(y, v.x) && p == q.x + (x + y)
    ensures PaddedBox(q, u, v).x.Surrounds(p)
  {
    DiagonalBoxX(q, u, v);
    assert PaddedBox(q, u, v).x == Pad(DiagonalBox(q, u, v).x);
    OffsetSum(u.x, v.x, x, y);
    PadSurrounds(q.x + Below(u.x) + Below(v.x), q.x + Above(u.x) + Above(v.x), p);
  }

  /** On the y axis, the box as written spans the lowest to the highest corner. */
  lemma DiagonalBoxY(q: Vec3, u: Vec3, v: Vec3)
    ensures DiagonalBox(q, u, v).y == Interval(Fin(q.y + Below(u.y) + Below(v.y)), Fin(q.y + Above(u.y) + Above(v.y)))
  {
    CornerHull(q.y, u.y, v.y);
    var p1, p2 := FromPoints(q, Add(Add(q, u), v)), FromPoints(Add(q, u), Add(q, v));
    assert DiagonalBox(q, u, v).y == Hull(p1.y, p2.y);
    assert p1.y == Ordered(q.y, q.y + u.y + v.y);
    assert p2.y == Ordered(q.y + u.y, q.y + v.y);
  }

  /**
   * On the y axis, a point `q + x + y` whose offsets lie strictly inside the
   * edges lies strictly inside the corrected box: inside the hull of the
   * corners when an edge moves along the axis, inside the padding when
   * neither does.
   */
  lemma PaddedSurroundsY(q: Vec3, u: Vec3, v: Vec3, x: real, y: real, p: real)
    requires Offset(x, u.y) && Offset(y, v.y) && p == q.y + (x + y)
    ensures PaddedBox(q, u, v).y.Surrounds(p)
  {
    DiagonalBoxY(q, u, v);
    assert PaddedBox(q, u, v).y == Pad(DiagonalBox(q, u, v).y);
    OffsetSum(u.y, v.y, x, y);
    PadSurrounds(q.y + Below(u.y) + Below(v.y), q.y + Above(u.y) + Above(v.y), p);
  }

  /** On the z axis, the box as written spans the lowest to the highest corner. */
  lemma DiagonalBoxZ(q: Vec3, u: Vec3, v: Vec3)
    ensures DiagonalBox(q, u, v).z == Interval(Fin(q.z + Below(u.z) + Below(v.z)), Fin(q.z + Above(u.z) + Above(v.z)))
  {
    CornerHull(q.z, u.z, v.z);
    var p1, p2 := FromPoints(q, Add(Add(q, u), v)), FromPoints(Add(q, u), Add(q, v));
    assert DiagonalBox(q, u, v).z == Hull(p1.z, p2.z);
    assert p1.z == Ordered(q.z, q.z + u.z + v.z);
    assert p2.z == Ordered(q.z + u.z, q.z + v.z);
  }

  /**
   * On the z axis, a point `q + x + y` whose offsets lie strictly inside the
   * edges lies strictly inside the corrected box: inside the hull of the
   * corners when an edge moves along the axis, inside the padding when
   * neither does.
   */
  lemma PaddedSurroundsZ(q: Vec3, u: Vec3, v: Vec3, x: real, y: real, p: real)
    requires Offset(x, u.z) && Offset(y, v.z) && p == q.z + (x + y)
    ensures PaddedBox(q, u, v).z.Surrounds(p)
  {
    DiagonalBoxZ(q, u, v);
    assert PaddedBox(q, u, v).z == Pad(DiagonalBox(q, u, v).z);
    OffsetSum(u.z, v.z, x, y);
    PadSurrounds(q.z + Below(u.z) + Below(v.z), q.z + Above(u.z) + Above(v.z), p);
  }

  /**
   * A point `q + su + tv` whose offsets lie strictly inside the edges on
   * every axis lies strictly inside the corrected box.
   */
  lemma PaddedBoxSurrounds(q: Vec3, u: Vec3, v: Vec3, su: Vec3, tv: Vec3, p: Vec3)
    requires Offset(su.x, u.x) && Offset(su.y, u.y) && Offset(su.z, u.z)
    requires Offset(tv.x, v.x) && Offset(tv.y, v.y) && Offset(tv.z, v.z)
    requires p.x == q.x + (su.x + tv.x) && p.y == q.y + (su.y + tv.y) && p.z == q.z + (su.z + tv.z)
    ensures PaddedBox(q, u, v).x.Surrounds(p.x)
    ensures PaddedBox(q, u, v).y.Surrounds(p.y)
    ensures PaddedBox(q, u, v).z.Surrounds(p.z)
  {
    PaddedSurroundsX(q, u, v, su.x, tv.x, p.x);
    PaddedSurroundsY(q, u, v, su.y, tv.y, p.y);
    PaddedSurroundsZ(q, u, v, su.z, tv.z, p.z);
  }

  /** The offsets of a point `q + s u + t v` with `s` and `t` strictly between 0 and 1. */
  lemma ScaledOffsets(q: Vec3, u: Vec3, v: Vec3, s: real, t: real, p: Vec3)
    requires 0.0 < s < 1.0 && 0.0 < t < 1.0
    requires p == Add(q, Add(Scale(s, u), Scale(t, v)))
    ensures var su, tv := Scale(s, u), Scale(t, v);
      Offset(su.x, u.x) && Offset(su.y, u.y) && Offset(su.z, u.z) &&
      Offset(tv.x, v.x) && Offset(tv.y, v.y) && Offset(tv.z, v.z) &&
      p.x == q.x + (su.x + tv.x) && p.y == q.y + (su.y + tv.y) && p.z == q.z + (su.z + tv.z)
  {
    ScaledVectorOffsets(s, u);
    ScaledVectorOffsets(t, v);
    SumComponents(q, Scale(s, u), Scale(t, v), p);
  }

  lemma SumComponents(q: Vec3, a: Vec3, b: Vec3, p: Vec3)
    requires p == Add(q, Add(a, b))
    ensures p.x == q.x + (a.x + b.x) && p.y == q.y + (a.y + b.y) && p.z == q.z + (a.z + b.z)
  {
  }

  lemma ScaledVectorOffsets(s: real, u: Vec3)
    requires 0.0 < s < 1.0
    ensures Offset(Scale(s, u).x, u.x) && Offset(Scale(s, u).y, u.y) && Offset(Scale(s, u).z, u.z)
  {
    ScaledOffset(s, u.x);
    ScaledOffset(s, u.y);
    ScaledOffset(s, u.z);
  }

  /**
   * With the corrected box, a ray that meets the plane of the quad strictly
   * inside the quad, at a parameter strictly inside `ray_t`, passes the slab
   * test of the quad's box, so a BVH node above it never prunes it (such a
   * hit is reported by `hit`, see `HitInside`).
   */
  lemma PaddedBoxHit(q: Vec3, u: Vec3, v: Vec3, r: Ray, rayT: Interval, s: real, t: real, tHit: real)
    requires NonZeroDirection(r)
    requires 0.0 < s < 1.0 && 0.0 < t < 1.0
    requires At(r, tHit) == Add(q, Add(Scale(s, u), Scale(t, v)))
    requires rayT.Surrounds(tHit)
    ensures BoxHit(PaddedBox(q, u, v), r, rayT)
  {
    ScaledOffsets(q, u, v, s, t, At(r, tHit));
    PaddedBoxSurrounds(q, u, v, Scale(s, u), Scale(t, v), At(r, tHit));
    InteriorPointHit(PaddedBox(q, u, v), r, rayT, tHit);
  }

  /**
   * The inclusive form `hit` uses: the same crossing, at a parameter that a
   * ray_t of more than one point contains, passes the corrected box's slab
   * test.
   */
  lemma PaddedBoxHitContains(q: Vec3, u: Vec3, v: Vec3, r: Ray, rayT: Interval, s: real, t: real, tHit: real)
    requires NonZeroDirection(r)
    requires 0.0 < s < 1.0 && 0.0 < t < 1.0
    requires At(r, tHit) == Add(q, Add(Scale(s, u), Scale(t, v)))
    requires rayT.Contains(tHit) && Lt(rayT.min, rayT.max)
    ensures BoxHit(PaddedBox(q, u, v), r, rayT)
  {
    ScaledOffsets(q, u, v, s, t, At(r, tHit));
    PaddedBoxSurrounds(q, u, v, Scale(s, u), Scale(t, v), At(r, tHit));
    ContainedPointHit(PaddedBox(q, u, v), r, rayT, tHit);
  }

  /**
   * For a quad with the corrected box and a ray crossing it strictly inside,
   * every hit `hit` reports over a ray_t of more than one point is at that
   * crossing and passes the slab test of the quad's box.
   */
  lemma InteriorHitPassesBox(quad: Quad, r: Ray, rayT: Interval, s: real, t: real, tHit: real)
    requires WellFormed(quad) && quad.bbox == PaddedBox(quad.q, quad.u, quad.v) && NonZeroDirection(r)
    requires 0.0 < s < 1.0 && 0.0 < t < 1.0
    requires At(r, tHit) == Add(quad.q, Add(Scale(s, quad.u), Scale(t, quad.v)))
    requires Lt(rayT.min, rayT.max) && Intersect(quad, r, rayT).Some?
    ensures Intersect(quad, r, rayT).value.t == tHit
    ensures BoxHit(quad.bbox, r, rayT)
  {
    PlaneParameter(quad, r, s, t, tHit);
    PaddedBoxHitContains(quad.q, quad.u, quad.v, r, rayT, s, t, tHit);
  }

  /** The box as written is flat in z for a quad whose edges both lie in a plane z = const. */
  lemma FlatDiagonalBoxMissed(q: Vec3, u: Vec3, v: Vec3, r: Ray, rayT: Interval)
    requires NonZeroDirection(r) && u.z == 0.0 && v.z == 0.0
    ensures !BoxHit(DiagonalBox(q, u, v), r, rayT)
  {
    DiagonalBoxZ(q, u, v);
    FlatAxisMissed(DiagonalBox(q, u, v), r, rayT, 2);
  }

  /**
   * The box as written misses every quad parallel to the xy plane: both
   * diagonal boxes are flat in z, so the slab test rejects each ray that
   * `hit` reports crossing the quad strictly inside. The corrected box lets
   * all of them through.
   */
  lemma DiagonalBoxMissesFlatQuad(quad: Quad, r: Ray, rayT: Interval, s: real, t: real, tHit: real)
    requires WellFormed(quad) && NonZeroDirection(r) && quad.u.z == 0.0 && quad.v.z == 0.0
    requires 0.0 < s < 1.0 && 0.0 < t < 1.0
    requires At(r, tHit) == Add(quad.q, Add(Scale(s, quad.u), Scale(t, quad.v)))
    requires Abs(Dot(quad.normal, r.direction)) >= ParallelEpsilon
    requires rayT.Surrounds(tHit)
    ensures Intersect(quad, r, rayT).Some?
    ensures !BoxHit(DiagonalBox(quad.q, quad.u, quad.v), r, rayT)
    ensures BoxHit(PaddedBox(quad.q, quad.u, quad.v), r, rayT)
  {
    SurroundsImpliesContains(rayT, tHit);
    HitInside(quad, r, rayT, s, t, tHit);
    FlatDiagonalBoxMissed(quad.q, quad.u, quad.v, r, rayT);
    PaddedBoxHit(quad.q, quad.u, quad.v, r, rayT, s, t, tHit);
  }

  /**
   * The plane parameter does not depend on `ray_t`: any interval that still
   * contains it reports the same intersection.
   */
  lemma NarrowingKeepsHit(quad: Quad, r: Ray, rayT: Interval, narrowed: Interval)
    requires Intersect(quad, r, rayT).Some?
    requires narrowed.Contains(Intersect(quad, r, rayT).value.t)
    ensures Intersect(quad, r, narrowed) == Intersect(quad, r, rayT)
  {
  }

  /**
   * `hit`: on a hit it fills `t`, `point`, `mat` and the facing normal of
   * `rec` and returns true; otherwise `rec` is untouched.
   */
  method Hit(quad: Quad, r: Ray, rayT: Interval, rec: HitRecord) returns (hit: bool)
    modifies rec`t, rec`point, rec`normal, rec`frontFace, rec`mat
    ensures hit == Intersect(quad, r, rayT).Some?
    ensures hit ==> rec.Records(Intersect(quad, r, rayT).value)
    ensures !hit ==> unchanged(rec)
  {
    var denom := Dot(quad.normal, r.direction);
    if Abs(denom) < ParallelEpsilon {
      return false;
    }
    var t := (quad.d - Dot(quad.normal, r.origin)) / denom;
    if !rayT.Contains(t) {
      return false;
    }
    var intersection := At(r, t);
    var planarHitptVector := Sub(intersection, quad.q);
    var alpha := Dot(quad.w, Cross(planarHitptVector, quad.v));
    var beta := Dot(quad.w, Cross(quad.u, planarHitptVector));
    if !IsInterior(alpha, beta) {
      return false;
    }
    rec.t := t;
    rec.point := intersection;
    rec.mat := quad.mat;
    rec.SetFaceNormal(r, quad.normal);
    return true;
  }

  /** `random(origin)`: the vector from `origin` to `q + r1 u + r2 v`; `r1`, `r2` are the two draws. */
  function RandomToward(quad: Quad, origin: Vec3, r1: real, r2: real): Vec3 {
    Sub(Add(Add(quad.q, Scale(r1, quad.u)), Scale(r2, quad.v)), origin)
  }

  /** A sampled direction ends at an interior point of the quad when the draws lie in [0, 1). */
  lemma RandomTowardInterior(quad: Quad, origin: Vec3, r1: real, r2: real)
    requires WellFormed(quad)
    requires 0.0 <= r1 < 1.0 && 0.0 <= r2 < 1.0
    ensures var p := Sub(Add(origin, RandomToward(quad, origin, r1, r2)), quad.q);
      IsInterior(Alpha(quad, p), Beta(quad, p))
  {
    assert Sub(Add(origin, RandomToward(quad, origin, r1, r2)), quad.q) == Add(Scale(r1, quad.u), Scale(r2, quad.v));
    PlanarCoordinates(quad, r1, r2);
  }

  /** The interval `pdf_value` searches: `[0.001, +infinity]`. */
  const PdfRange: Interval := Interval(Fin(PdfMinT), PosInf)

  /**
   * The squared distance term of `pdf_value` as written:
   * `t * t * direction.length_squared()`. The ray it comes from has a
   * normalised direction, so `t` is already the distance.
   */
  function DistanceSquaredAsWritten(t: real, direction: Vec3): real {
    t * t * LengthSquared(direction)
  }

  /** The squared distance to the hit: the square of the parameter along the unit direction. */
  function DistanceSquared(t: real): real {
    t * t
  }

  /** The corrected distance term equals the squared distance from `origin` to the hit point. */
  lemma DistanceSquaredIsDistance(quad: Quad, origin: Vec3, direction: Vec3, dlen: real)
    requires dlen > 0.0 && IsSqrt(LengthSquared(direction), dlen)
    requires Intersect(quad, NewRay(origin, direction, dlen), PdfRange).Some?
    ensures var h := Intersect(quad, NewRay(origin, direction, dlen), PdfRange).value;
      DistanceSquared(h.t) == LengthSquared(Sub(h.point, origin))
  {
    var r := NewRay(origin, direction, dlen);
    var h := Intersect(quad, r, PdfRange).value;
    assert Sub(h.point, origin) == Scale(h.t, r.direction);
    LengthSquaredScale(h.t, r.direction);
  }

  /** The term as written is the true squared distance times `|direction|^2`. */
  lemma DistanceSquaredAsWrittenOverscales(quad: Quad, origin: Vec3, direction: Vec3, dlen: real)
    requires dlen > 0.0 && IsSqrt(LengthSquared(direction), dlen)
    requires Intersect(quad, NewRay(origin, direction, dlen), PdfRange).Some?
    ensures var h := Intersect(quad, NewRay(origin, direction, dlen), PdfRange).value;
      DistanceSquaredAsWritten(h.t, direction) == LengthSquared(direction) * LengthSquared(Sub(h.point, origin))
  {
    DistanceSquaredIsDistance(quad, origin, direction, dlen);
  }

  lemma LengthSquaredScale(k: real, v: Vec3)
    ensures LengthSquared(Scale(k, v)) == k * k * LengthSquared(v)
  {
  }

  /** The density term shared by both versions: `distance_squared / (cosine * area)`. */
  function Density(distanceSquared: real, cosine: real, area: real): real
    requires cosine * area != 0.0
  {
    distanceSquared / (cosine * area)
  }

  function Cosine(direction: Vec3, normal: Vec3, dlen: real): real
    requires dlen > 0.0
  {
    Abs(Dot(direction, normal) / dlen)
  }

  /** A hit in the `pdf_value` range leaves a positive cosine. */
  lemma HitCosinePositive(quad: Quad, origin: Vec3, direction: Vec3, dlen: real)
    requires dlen > 0.0 && IsSqrt(LengthSquared(direction), dlen)
    requires Intersect(quad, NewRay(origin, direction, dlen), PdfRange).Some?
    ensures quad.normal != Zero
    ensures var h := Intersect(quad, NewRay(origin, direction, dlen), PdfRange).value;
      h.t >= PdfMinT && Cosine(direction, h.normal, dlen) > 0.0
  {
    var r := NewRay(origin, direction, dlen);
    var h := Intersect(quad, r, PdfRange).value;
    DotSymmetric(quad.normal, r.direction);
    DotNeg(r.direction, quad.normal);
    assert Abs(Dot(r.direction, h.normal)) >= ParallelEpsilon;
    CosineOfDirection(direction, r.direction, h.normal, dlen);
  }

  /** Dividing by the length of `direction` gives the dot product with the unit direction. */
  lemma CosineOfDirection(direction: Vec3, unit: Vec3, n: Vec3, dlen: real)
    requires dlen > 0.0 && Scale(dlen, unit) == direction
    ensures Dot(direction, n) / dlen == Dot(unit, n)
  {
    DotScale(dlen, unit, n);
  }

  /** `pdf_value` as written, with the overscaled distance term. */
  function PdfValueAsWritten(quad: Quad, origin: Vec3, direction: Vec3, dlen: real): (pdf: real)
    requires dlen > 0.0 && IsSqrt(LengthSquared(direction), dlen)
    requires AreaAgrees(quad)
    ensures pdf >= 0.0
    ensures pdf == 0.0 <==> Intersect(quad, NewRay(origin, direction, dlen), PdfRange).None?
  {
    var hit := Intersect(quad, NewRay(origin, direction, dlen), PdfRange);
    if hit.None? then 0.0
    else
      HitCosinePositive(quad, origin, direction, dlen);
      LengthSquaredIsDot(direction);
      PositiveProduct(hit.value.t * hit.value.t, LengthSquared(direction));
      var cosine := Cosine(direction, hit.value.normal, dlen);
      PositiveProduct(cosine, quad.area);
      Density(DistanceSquaredAsWritten(hit.value.t, direction), cosine, quad.area)
  }

  lemma PositiveProduct(a: real, b: real)
    requires a > 0.0 && b > 0.0
    ensures a * b > 0.0
  {
  }

  lemma ScaledDiffers(y: real, k: real, x: real)
    requires x >= 0.0 && x != 0.0 && k != 1.0 && y == k * x
    ensures y != x
  {
    assert k * x - x == (k - 1.0) * x;
  }

  /**
   * `pdf_value`: zero exactly when the ray from `origin` misses the quad
   * within `[0.001, +infinity]`, otherwise the solid-angle density
   * `distance^2 / (cosine * area)`, which is positive.
   */
  function PdfValue(quad: Quad, origin: Vec3, direction: Vec3, dlen: real): (pdf: real)
    requires dlen > 0.0 && IsSqrt(LengthSquared(direction), dlen)
    requires AreaAgrees(quad)
    ensures pdf >= 0.0
    ensures pdf == 0.0 <==> Intersect(quad, NewRay(origin, direction, dlen), PdfRange).None?
  {
    var hit := Intersect(quad, NewRay(origin, direction, dlen), PdfRange);
    if hit.None? then 0.0
    else
      HitCosinePositive(quad, origin, direction, dlen);
      DistanceSquaredIsDistance(quad, origin, direction, dlen);
      PositiveProduct(hit.value.t, hit.value.t);
      var cosine := Cosine(direction, hit.value.normal, dlen);
      PositiveProduct(cosine, quad.area);
      Density(DistanceSquared(hit.value.t), cosine, quad.area)
  }

  /**
   * On a hit, `pdf_value` is the squared distance from `origin` to the hit
   * point over the projected area `cosine * area`, which is positive: the
   * solid-angle density of a uniform sample on the quad.
   */
  lemma PdfValueSolidAngle(quad: Quad, origin: Vec3, direction: Vec3, dlen: real, h: Intersection)
    requires dlen > 0.0 && IsSqrt(LengthSquared(direction), dlen)
    requires AreaAgrees(quad)
    requires Intersect(quad, NewRay(origin, direction, dlen), PdfRange) == Some(h)
    ensures Cosine(direction, h.normal, dlen) * quad.area > 0.0
    ensures PdfValue(quad, origin, direction, dlen)
      == Density(LengthSquared(Sub(h.point, origin)), Cosine(direction, h.normal, dlen), quad.area)
  {
    HitFacts(quad, origin, direction, dlen, h);
    PdfValueAtHit(quad, origin, direction, dlen, h);
  }

  lemma PdfValueAtHit(quad: Quad, origin: Vec3, direction: Vec3, dlen: real, h: Intersection)
    requires dlen > 0.0 && IsSqrt(LengthSquared(direction), dlen)
    requires AreaAgrees(quad)
    requires Intersect(quad, NewRay(origin, direction, dlen), PdfRange) == Some(h)
    requires Cosine(direction, h.normal, dlen) * quad.area > 0.0
    ensures PdfValue(quad, origin, direction, dlen) == Density(DistanceSquared(h.t), Cosine(direction, h.normal, dlen), quad.area)
  {
  }

  /** What `pdf_value` needs to know about a hit: a positive projected area and the distance. */
  lemma HitFacts(quad: Quad, origin: Vec3, direction: Vec3, dlen: real, h: Intersection)
    requires dlen > 0.0 && IsSqrt(LengthSquared(direction), dlen)
    requires AreaAgrees(quad)
    requires Intersect(quad, NewRay(origin, direction, dlen), PdfRange) == Some(h)
    ensures Cosine(direction, h.normal, dlen) * quad.area > 0.0
    ensures DistanceSquared(h.t) == LengthSquared(Sub(h.point, origin))
  {
    HitCosinePositive(quad, origin, direction, dlen);
    DistanceSquaredIsDistance(quad, origin, direction, dlen);
    PositiveProduct(Cosine(direction, h.normal, dlen), quad.area);
  }


  /**
   * The density as written is `|direction|^2` times the intended one.
   */
  lemma PdfValueAsWrittenOverscales(quad: Quad, origin: Vec3, direction: Vec3, dlen: real)
    requires dlen > 0.0 && IsSqrt(LengthSquared(direction), dlen)
    requires AreaAgrees(quad)
    ensures PdfValueAsWritten(quad, origin, direction, dlen) == LengthSquared(direction) * PdfValue(quad, origin, direction, dlen)
  {
    match Intersect(quad, NewRay(origin, direction, dlen), PdfRange)
    case None =>
    case Some(h) =>
      HitFacts(quad, origin, direction, dlen, h);
      PdfValueAtHit(quad, origin, direction, dlen, h);
      PdfValueAsWrittenAtHit(quad, origin, direction, dlen, h);
      DensityOverscales(h.t, direction, Cosine(direction, h.normal, dlen), quad.area);
  }

  lemma PdfValueAsWrittenAtHit(quad: Quad, origin: Vec3, direction: Vec3, dlen: real, h: Intersection)
    requires dlen > 0.0 && IsSqrt(LengthSquared(direction), dlen)
    requires AreaAgrees(quad)
    requires Intersect(quad, NewRay(origin, direction, dlen), PdfRange) == Some(h)
    requires Cosine(direction, h.normal, dlen) * quad.area > 0.0
    ensures PdfValueAsWritten(quad, origin, direction, dlen)
      == Density(DistanceSquaredAsWritten(h.t, direction), Cosine(direction, h.normal, dlen), quad.area)
  {
  }

  lemma DensityOverscales(t: real, direction: Vec3, cosine: real, area: real)
    requires cosine * area != 0.0
    ensures Density(DistanceSquaredAsWritten(t, direction), cosine, area)
      == LengthSquared(direction) * Density(DistanceSquared(t), cosine, area)
  {
    var m, x := LengthSquared(direction), DistanceSquared(t);
    assert DistanceSquaredAsWritten(t, direction) == m * x;
  }

  /** Hence on every hit along a direction that is not of unit length the two densities differ. */
  lemma PdfValueAsWrittenDiffers(quad: Quad, origin: Vec3, direction: Vec3, dlen: real, h: Intersection)
    requires dlen > 0.0 && IsSqrt(LengthSquared(direction), dlen)
    requires AreaAgrees(quad)
    requires Intersect(quad, NewRay(origin, direction, dlen), PdfRange) == Some(h)
    requires LengthSquared(direction) != 1.0
    ensures PdfValueAsWritten(quad, origin, direction, dlen) != PdfValue(quad, origin, direction, dlen)
  {
    PdfValueAsWrittenOverscales(quad, origin, direction, dlen);
    ScaledDiffers(PdfValueAsWritten(quad, origin, direction, dlen), LengthSquared(direction), PdfValue(quad, origin, direction, dlen));
  }

  function Min(a: real, b: real): real { if a <= b then a else b }
  function Max(a: real, b: real): real { if a <= b then b else a }

  /** `fmin` on each axis. */
  function Lo(a: Vec3, b: Vec3): Vec3 {
    Vec3(Min(a.x, b.x), Min(a.y, b.y), Min(a.z, b.z))
  }

  /** `fmax` on each axis. */
  function Hi(a: Vec3, b: Vec3): Vec3 {
    Vec3(Max(a.x, b.x), Max(a.y, b.y), Max(a.z, b.z))
  }

  /** Corners distinct on every axis: the cube is solid and every face has positive area. */
  predicate Solid(a: Vec3, b: Vec3) {
    a.x != b.x && a.y != b.y && a.z != b.z
  }

  lemma LoHi(a: Vec3, b: Vec3)
    ensures Lo(a, b) == Lo(b, a) && Hi(a, b) == Hi(b, a)
    ensures Lo(a, b).x <= Hi(a, b).x && Lo(a, b).y <= Hi(a, b).y && Lo(a, b).z <= Hi(a, b).z
    ensures Solid(a, b) <==> Lo(a, b).x < Hi(a, b).x && Lo(a, b).y < Hi(a, b).y && Lo(a, b).z < Hi(a, b).z
    ensures FromPoints(a, b) == FromPoints(Lo(a, b), Hi(a, b))
  {
  }

  /** Edges whose cross product lies along one axis with length `nlen`. */
  lemma AxisEdges(u: Vec3, v: Vec3, nlen: real)
    requires nlen >= 0.0
    requires Cross(u, v) in {Vec3(nlen, 0.0, 0.0), Vec3(-nlen, 0.0, 0.0), Vec3(0.0, nlen, 0.0),
                              Vec3(0.0, -nlen, 0.0), Vec3(0.0, 0.0, nlen), Vec3(0.0, 0.0, -nlen)}
    ensures SpannedArea(u, v, nlen)
  {
  }

  /** The cross products of the edge vectors along the three axes. */
  lemma AxisCrosses(ex: real, ey: real, ez: real)
    ensures var dx, dy, dz := Vec3(ex, 0.0, 0.0), Vec3(0.0, ey, 0.0), Vec3(0.0, 0.0, ez);
      && Cross(dx, dy) == Vec3(0.0, 0.0, ex * ey)
      && Cross(Neg(dz), dy) == Vec3(ez * ey, 0.0, 0.0)
      && Cross(Neg(dx), dy) == Vec3(0.0, 0.0, -(ex * ey))
      && Cross(dz, dy) == Vec3(-(ez * ey), 0.0, 0.0)
      && Cross(dx, Neg(dz)) == Vec3(0.0, ex * ez, 0.0)
      && Cross(dx, dz) == Vec3(0.0, -(ex * ez), 0.0)
  {
  }

  /** Where one face of a cube starts, its two edges and its area. */
  datatype Frame = Frame(corner: Vec3, u: Vec3, v: Vec3, area: real)

  /**
   * The corners, edges and areas of the six faces between `lo` and `hi`,
   * in the order the `cube` constructor adds them: front, right, back, left,
   * top, bottom.
   */
  function CubeFrames(lo: Vec3, hi: Vec3): seq<Frame> {
    FramesOf(lo, hi, hi.x - lo.x, hi.y - lo.y, hi.z - lo.z)
  }

  /** The six faces given the side lengths `ex`, `ey`, `ez` of the box. */
  function FramesOf(lo: Vec3, hi: Vec3, ex: real, ey: real, ez: real): (frames: seq<Frame>)
    ensures |frames| == 6
  {
    var dx, dy, dz := Vec3(ex, 0.0, 0.0), Vec3(0.0, ey, 0.0), Vec3(0.0, 0.0, ez);
    var areas := FaceAreas(ex, ey, ez);
    [ Frame(Vec3(lo.x, lo.y, hi.z), dx, dy, areas[0]),
      Frame(Vec3(hi.x, lo.y, hi.z), Neg(dz), dy, areas[1]),
      Frame(Vec3(hi.x, lo.y, lo.z), Neg(dx), dy, areas[2]),
      Frame(Vec3(lo.x, lo.y, lo.z), dz, dy, areas[3]),
      Frame(Vec3(lo.x, hi.y, hi.z), dx, Neg(dz), areas[4]),
      Frame(Vec3(lo.x, lo.y, lo.z), dx, dz, areas[5]) ]
  }

  /** The areas of the six faces of a box with side lengths `ex`, `ey`, `ez`, in face order. */
  function FaceAreas(ex: real, ey: real, ez: real): (areas: seq<real>)
    ensures |areas| == 6
  {
    [ex * ey, ez * ey, ex * ey, ez * ey, ex * ez, ex * ez]
  }

  /** The six areas are all positive exactly when every side is. */
  lemma FaceAreasPositive(ex: real, ey: real, ez: real)
    requires ex >= 0.0 && ey >= 0.0 && ez >= 0.0
    ensures forall i :: 0 <= i < 6 ==> FaceAreas(ex, ey, ez)[i] >= 0.0
    ensures (forall i :: 0 <= i < 6 ==> FaceAreas(ex, ey, ez)[i] > 0.0) <==> ex > 0.0 && ey > 0.0 && ez > 0.0
  {
    NonNegativeProduct(ex, ey);
    NonNegativeProduct(ez, ey);
    NonNegativeProduct(ex, ez);
    if ex > 0.0 && ey > 0.0 && ez > 0.0 {
      PositiveProduct(ex, ey);
      PositiveProduct(ez, ey);
      PositiveProduct(ex, ez);
    } else if ex == 0.0 {
      assert FaceAreas(ex, ey, ez)[0] == 0.0;
    } else if ey == 0.0 {
      assert FaceAreas(ex, ey, ez)[0] == 0.0;
    } else {
      assert FaceAreas(ex, ey, ez)[1] == 0.0;
    }
  }

  /** Between ordered corners every face's area is the length of its edges' cross product. */
  lemma CubeFramesValid(lo: Vec3, hi: Vec3)
    requires lo.x <= hi.x && lo.y <= hi.y && lo.z <= hi.z
    ensures |CubeFrames(lo, hi)| == 6
    ensures forall i :: 0 <= i < 6 ==>
      SpannedArea(CubeFrames(lo, hi)[i].u, CubeFrames(lo, hi)[i].v, CubeFrames(lo, hi)[i].area)
  {
    FramesOfSpanned(lo, hi, hi.x - lo.x, hi.y - lo.y, hi.z - lo.z);
  }

  lemma FramesOfSpanned(lo: Vec3, hi: Vec3, ex: real, ey: real, ez: real)
    requires ex >= 0.0 && ey >= 0.0 && ez >= 0.0
    ensures forall i :: 0 <= i < 6 ==> var f := FramesOf(lo, hi, ex, ey, ez)[i];
      SpannedArea(f.u, f.v, f.area)
  {
    BoxEdgesSpanned(ex, ey, ez);
  }

  /** The edges of a box's faces span the products of the side lengths. */
  lemma BoxEdgesSpanned(ex: real, ey: real, ez: real)
    requires ex >= 0.0 && ey >= 0.0 && ez >= 0.0
    ensures var dx, dy, dz := Vec3(ex, 0.0, 0.0), Vec3(0.0, ey, 0.0), Vec3(0.0, 0.0, ez);
      SpannedArea(dx, dy, ex * ey) && SpannedArea(Neg(dz), dy, ez * ey) &&
      SpannedArea(Neg(dx), dy, ex * ey) && SpannedArea(dz, dy, ez * ey) &&
      SpannedArea(dx, Neg(dz), ex * ez) && SpannedArea(dx, dz, ex * ez)
  {
    var dx, dy, dz := Vec3(ex, 0.0, 0.0), Vec3(0.0, ey, 0.0), Vec3(0.0, 0.0, ez);
    NonNegativeProduct(ex, ey);
    NonNegativeProduct(ez, ey);
    NonNegativeProduct(ex, ez);
    AxisCrosses(ex, ey, ez);
    SixFacesValid(dx, dy, dz, ex * ey, ez * ey, ex * ez);
  }

  /** All six areas are positive exactly when the corners differ on every axis. */
  lemma CubeFramesPositive(lo: Vec3, hi: Vec3)
    requires lo.x <= hi.x && lo.y <= hi.y && lo.z <= hi.z
    ensures |CubeFrames(lo, hi)| == 6
    ensures AllPositive(CubeFrames(lo, hi)) <==> lo.x < hi.x && lo.y < hi.y && lo.z < hi.z
  {
    var ex, ey, ez := hi.x - lo.x, hi.y - lo.y, hi.z - lo.z;
    assert CubeFrames(lo, hi) == FramesOf(lo, hi, ex, ey, ez);
    FramesOfPositive(lo, hi, ex, ey, ez);
  }

  /** Every face has positive area. */
  predicate AllPositive(frames: seq<Frame>) {
    forall i :: 0 <= i < |frames| ==> frames[i].area > 0.0
  }

  lemma FramesOfPositive(lo: Vec3, hi: Vec3, ex: real, ey: real, ez: real)
    requires ex >= 0.0 && ey >= 0.0 && ez >= 0.0
    ensures AllPositive(FramesOf(lo, hi, ex, ey, ez)) <==> ex > 0.0 && ey > 0.0 && ez > 0.0
  {
    var frames, areas := FramesOf(lo, hi, ex, ey, ez), FaceAreas(ex, ey, ez);
    assert forall i :: 0 <= i < 6 ==> frames[i].area == areas[i];
    FaceAreasPositive(ex, ey, ez);
  }

  lemma NonNegativeProduct(a: real, b: real)
    requires a >= 0.0 && b >= 0.0
    ensures a * b >= 0.0
  {
  }

  /** The six pairs of edges of a box's faces, given their cross products. */
  lemma SixFacesValid(dx: Vec3, dy: Vec3, dz: Vec3, axy: real, azy: real, axz: real)
    requires axy >= 0.0 && azy >= 0.0 && axz >= 0.0
    requires Cross(dx, dy) == Vec3(0.0, 0.0, axy) && Cross(Neg(dz), dy) == Vec3(azy, 0.0, 0.0)
    requires Cross(Neg(dx), dy) == Vec3(0.0, 0.0, -axy) && Cross(dz, dy) == Vec3(-azy, 0.0, 0.0)
    requires Cross(dx, Neg(dz)) == Vec3(0.0, axz, 0.0) && Cross(dx, dz) == Vec3(0.0, -axz, 0.0)
    ensures SpannedArea(dx, dy, axy) && SpannedArea(Neg(dz), dy, azy)
    ensures SpannedArea(Neg(dx), dy, axy) && SpannedArea(dz, dy, azy)
    ensures SpannedArea(dx, Neg(dz), axz) && SpannedArea(dx, dz, axz)
  {
    AxisEdges(dx, dy, axy);
    AxisEdges(Neg(dz), dy, azy);
    AxisEdges(Neg(dx), dy, axy);
    AxisEdges(dz, dy, azy);
    AxisEdges(dx, Neg(dz), axz);
    AxisEdges(dx, dz, axz);
  }

  /** Every corner of every face lies in the box between `lo` and `hi`. */
  lemma CubeFramesInsideBox(lo: Vec3, hi: Vec3)
    requires lo.x <= hi.x && lo.y <= hi.y && lo.z <= hi.z
    ensures forall i, p :: 0 <= i < |CubeFrames(lo, hi)| && p in Corners(CubeFrames(lo, hi)[i].corner, CubeFrames(lo, hi)[i].u, CubeFrames(lo, hi)[i].v) ==>
      ContainsPoint(FromPoints(lo, hi), p)
  {
    var ex, ey, ez := hi.x - lo.x, hi.y - lo.y, hi.z - lo.z;
    assert CubeFrames(lo, hi) == FramesOf(lo, hi, ex, ey, ez);
    FramesOfInside(lo, hi, ex, ey, ez);
  }

  lemma FramesOfInside(lo: Vec3, hi: Vec3, ex: real, ey: real, ez: real)
    requires lo.x <= hi.x && lo.y <= hi.y && lo.z <= hi.z
    requires ex == hi.x - lo.x && ey == hi.y - lo.y && ez == hi.z - lo.z
    ensures forall i, p :: 0 <= i < 6 && p in Corners(FramesOf(lo, hi, ex, ey, ez)[i].corner, FramesOf(lo, hi, ex, ey, ez)[i].u, FramesOf(lo, hi, ex, ey, ez)[i].v) ==>
      ContainsPoint(FromPoints(lo, hi), p)
  {
    var frames := FramesOf(lo, hi, ex, ey, ez);
    FrameInside(lo, hi, frames[0]);
    FrameInside(lo, hi, frames[1]);
    FrameInside(lo, hi, frames[2]);
    FrameInside(lo, hi, frames[3]);
    FrameInside(lo, hi, frames[4]);
    FrameInside(lo, hi, frames[5]);
  }

  predicate Between(lo: Vec3, hi: Vec3, p: Vec3) {
    lo.x <= p.x <= hi.x && lo.y <= p.y <= hi.y && lo.z <= p.z <= hi.z
  }

  lemma FrameInside(lo: Vec3, hi: Vec3, f: Frame)
    requires Between(lo, hi, f.corner) && Between(lo, hi, Add(f.corner, f.u))
    requires Between(lo, hi, Add(f.corner, f.v)) && Between(lo, hi, Add(Add(f.corner, f.u), f.v))
    ensures forall p :: p in Corners(f.corner, f.u, f.v) ==> ContainsPoint(FromPoints(lo, hi), p)
  {
  }

  /** One quad per frame, each built by the quad constructor; those of positive area are well formed. */
  lemma FramesWellFormed(frames: seq<Frame>, mat: MaterialRef)
    requires forall i :: 0 <= i < |frames| ==> SpannedArea(frames[i].u, frames[i].v, frames[i].area)
    ensures forall i :: 0 <= i < |frames| && frames[i].area > 0.0 ==>
      WellFormed(NewQuad(frames[i].corner, frames[i].u, frames[i].v, mat, frames[i].area))
  {
    forall i | 0 <= i < |frames| && frames[i].area > 0.0
      ensures WellFormed(NewQuad(frames[i].corner, frames[i].u, frames[i].v, mat, frames[i].area))
    {
      NewQuadWellFormed(frames[i].corner, frames[i].u, frames[i].v, mat, frames[i].area);
    }
  }

  /**
   * The six faces between the corners `lo` and `hi`. A face of positive
   * area is a well-formed quad; a face of zero area (the corners agree on
   * one of its axes) has a zero normal, so no ray hits it.
   */
  function Faces(lo: Vec3, hi: Vec3, mat: MaterialRef): (faces: seq<Quad>)
    requires lo.x <= hi.x && lo.y <= hi.y && lo.z <= hi.z
    ensures |faces| == 6
    ensures forall i :: 0 <= i < 6 ==> var f := CubeFrames(lo, hi)[i];
      faces[i].q == f.corner && faces[i].u == f.u && faces[i].v == f.v &&
      faces[i].mat == mat && faces[i].area == f.area >= 0.0
    ensures forall i :: 0 <= i < 6 ==> (faces[i].area > 0.0 ==> WellFormed(faces[i]))
    ensures forall i :: 0 <= i < 6 ==> (faces[i].area == 0.0 ==> faces[i].normal == Zero)
  {
    var frames := CubeFrames(lo, hi);
    CubeFramesValid(lo, hi);
    FramesWellFormed(frames, mat);
    seq(6, i requires 0 <= i < 6 => NewQuad(frames[i].corner, frames[i].u, frames[i].v, mat, frames[i].area))
  }

  /** The faces of the `cube` constructor for the box with opposite corners `a` and `b`. */
  function CubeFaces(a: Vec3, b: Vec3, mat: MaterialRef): (faces: seq<Quad>)
  {
    LoHi(a, b);
    Faces(Lo(a, b), Hi(a, b), mat)
  }

  /** The cube depends only on the box, not on which corner is named first. */
  lemma CubeFacesSymmetric(a: Vec3, b: Vec3, mat: MaterialRef)
    ensures CubeFaces(a, b, mat) == CubeFaces(b, a, mat)
  {
    LoHi(a, b);
  }

  /** Every corner of every face lies in the box spanned by `a` and `b`. */
  lemma CubeFacesInsideBox(a: Vec3, b: Vec3, mat: MaterialRef)
    ensures forall i, p :: 0 <= i < 6 && p in Corners(CubeFaces(a, b, mat)[i].q, CubeFaces(a, b, mat)[i].u, CubeFaces(a, b, mat)[i].v) ==>
      ContainsPoint(FromPoints(a, b), p)
  {
    LoHi(a, b);
    CubeFramesInsideBox(Lo(a, b), Hi(a, b));
  }

  /** Every face of the cube has positive area exactly when the corners differ on every axis. */
  lemma CubeFacesPositive(a: Vec3, b: Vec3, mat: MaterialRef)
    ensures (forall i :: 0 <= i < 6 ==> CubeFaces(a, b, mat)[i].area > 0.0) <==> Solid(a, b)
  {
    var lo, hi := Lo(a, b), Hi(a, b);
    LoHi(a, b);
    var faces, frames := Faces(lo, hi, mat), CubeFrames(lo, hi);
    assert CubeFaces(a, b, mat) == faces;
    CubeFramesPositive(lo, hi);
    assert (forall i :: 0 <= i < 6 ==> faces[i].area > 0.0) <==> AllPositive(frames);
  }

  /** The faces of zero area, which a cube with coinciding coordinates has, are missed by every ray. */
  lemma CubeFlatFacesMissed(a: Vec3, b: Vec3, mat: MaterialRef, r: Ray, rayT: Interval)
    ensures forall i :: 0 <= i < 6 && CubeFaces(a, b, mat)[i].area == 0.0 ==>
      Intersect(CubeFaces(a, b, mat)[i], r, rayT).None?
  {
    var faces := CubeFaces(a, b, mat);
    LoHi(a, b);
    forall i | 0 <= i < 6 && faces[i].area == 0.0
      ensures Intersect(faces[i], r, rayT).None?
    {
      FlatQuadNeverHit(faces[i], r, rayT);
    }
  }

  /** The `cube` constructor: a fresh scene holding the six faces, added in order. */
  method NewCube(a: Vec3, b: Vec3, mat: MaterialRef) returns (cube: Scene<Quad>)
    ensures fresh(cube) && cube.hittables == CubeFaces(a, b, mat)
  {
    var faces := CubeFaces(a, b, mat);
    cube := new Scene();
    cube.AddHittable(faces[0]);
    cube.AddHittable(faces[1]);
    cube.AddHittable(faces[2]);
    cube.AddHittable(faces[3]);
    cube.AddHittable(faces[4]);
    cube.AddHittable(faces[5]);
    SixElements(faces);
  }

  lemma SixElements<T>(s: seq<T>)
    requires |s| == 6
    ensures s == [] + [s[0]] + [s[1]] + [s[2]] + [s[3]] + [s[4]] + [s[5]]
  {
  }
}
