/**
 * The orthonormal basis of src/core/onb.h: `w` along a given normal, `v`
 * and `u` completed with cross products, and `transform` from basis
 * coordinates to world coordinates. The two square roots taken by
 * `unit_vector` are parameters.
 */
module Bases {
  import opened Vectors

  /** The axes `u()`, `v()` and `w()`. */
  datatype Onb = Onb(u: Vec3, v: Vec3, w: Vec3)

  /**
   * The helper axis: `(0, 1, 0)` when `w` is close to the x axis, otherwise
   * `(1, 0, 0)`. Either way it is far from parallel to a unit `w`.
   */
  function Helper(w: Vec3): (a: Vec3)
    ensures LengthSquared(w) == 1.0 ==> LengthSquared(Cross(w, a)) >= 0.19
  {
    if Abs(w.x) > 0.9 then
      assert w.x * w.x > 0.81 by { AbsSquare(w.x, 0.9); }
      Vec3(0.0, 1.0, 0.0)
    else
      assert w.x * w.x <= 0.81 by { AbsSquareAtMost(w.x, 0.9); }
      Vec3(1.0, 0.0, 0.0)
  }

  lemma AbsSquare(x: real, b: real)
    requires b >= 0.0 && Abs(x) > b
    ensures x * x > b * b
  {
    var a := Abs(x);
    assert x * x == a * a;
    assert a * a - b * b == (a - b) * (a + b);
    PositiveProduct(a - b, a + b);
  }

  lemma PositiveProduct(p: real, q: real)
    requires p > 0.0 && q > 0.0
    ensures p * q > 0.0
  {
  }

  lemma AbsSquareAtMost(x: real, b: real)
    requires Abs(x) <= b
    ensures x * x <= b * b
  {
    var a := Abs(x);
    assert x * x == a * a;
    assert b * b - a * a == (b - a) * (b + a);
    if b - a > 0.0 {
      PositiveProduct(b - a, b + a);
    }
  }

  /** The unit normal `w` of the basis built from `n`, given `nLen`, the length of `n`. */
  function WAxis(n: Vec3, nLen: real): (w: Vec3)
    requires nLen > 0.0 && IsSqrt(LengthSquared(n), nLen)
    ensures LengthSquared(w) == 1.0
  {
    UnitVector(n, nLen)
  }

  /**
   * The `onb(n)` constructor. `nLen` is the length of `n`, and `cLen` the
   * length of `cross(w, a)` for the helper axis `a`. The result is
   * orthonormal, `w` points along `n`, and `v` along `cross(w, a)`.
   */
  function NewOnb(n: Vec3, nLen: real, cLen: real): (b: Onb)
    requires nLen > 0.0 && IsSqrt(LengthSquared(n), nLen)
    requires IsSqrt(LengthSquared(Cross(WAxis(n, nLen), Helper(WAxis(n, nLen)))), cLen)
    ensures Orthonormal(b)
    ensures Scale(nLen, b.w) == n
    ensures Scale(cLen, b.v) == Cross(b.w, Helper(b.w))
    ensures b.u == Cross(b.w, b.v)
  {
    var w := WAxis(n, nLen);
    var c := Cross(w, Helper(w));
    assert cLen > 0.0;
    var v := UnitVector(c, cLen);
    var u := Cross(w, v);
    CrossOrthogonal(w, Helper(w));
    OrthonormalCompletion(w, c, cLen);
    Onb(u, v, w)
  }

  /**
   * `(a x b) x c = (a . c) b - (b . c) a`, the expansion of a double cross
   * product.
   */
  lemma DoubleCross(a: Vec3, b: Vec3, c: Vec3)
    ensures Cross(Cross(a, b), c) == Sub(Scale(Dot(a, c), b), Scale(Dot(b, c), a))
  {
    DoubleCrossX(a, b, c);
    DoubleCrossY(a, b, c);
    DoubleCrossZ(a, b, c);
    var rhs := Sub(Scale(Dot(a, c), b), Scale(Dot(b, c), a));
    assert rhs == Vec3(Dot(a, c) * b.x - Dot(b, c) * a.x, Dot(a, c) * b.y - Dot(b, c) * a.y, Dot(a, c) * b.z - Dot(b, c) * a.z);
  }

  lemma DoubleCrossX(a: Vec3, b: Vec3, c: Vec3)
    ensures Cross(Cross(a, b), c).x == Dot(a, c) * b.x - Dot(b, c) * a.x
  {
    var ab := Cross(a, b);
    assert ab.y * c.z == a.z * b.x * c.z - a.x * b.z * c.z;
    assert ab.z * c.y == a.x * b.y * c.y - a.y * b.x * c.y;
    assert Dot(a, c) * b.x == a.x * c.x * b.x + a.y * c.y * b.x + a.z * c.z * b.x;
    assert Dot(b, c) * a.x == b.x * c.x * a.x + b.y * c.y * a.x + b.z * c.z * a.x;
  }

  lemma DoubleCrossY(a: Vec3, b: Vec3, c: Vec3)
    ensures Cross(Cross(a, b), c).y == Dot(a, c) * b.y - Dot(b, c) * a.y
  {
    var ab := Cross(a, b);
    assert ab.z * c.x == a.x * b.y * c.x - a.y * b.x * c.x;
    assert ab.x * c.z == a.y * b.z * c.z - a.z * b.y * c.z;
    assert Dot(a, c) * b.y == a.x * c.x * b.y + a.y * c.y * b.y + a.z * c.z * b.y;
    assert Dot(b, c) * a.y == b.x * c.x * a.y + b.y * c.y * a.y + b.z * c.z * a.y;
  }

  lemma DoubleCrossZ(a: Vec3, b: Vec3, c: Vec3)
    ensures Cross(Cross(a, b), c).z == Dot(a, c) * b.z - Dot(b, c) * a.z
  {
    var ab := Cross(a, b);
    assert ab.x * c.y == a.y * b.z * c.y - a.z * b.y * c.y;
    assert ab.y * c.x == a.z * b.x * c.x - a.x * b.z * c.x;
    assert Dot(a, c) * b.z == a.x * c.x * b.z + a.y * c.y * b.z + a.z * c.z * b.z;
    assert Dot(b, c) * a.z == b.x * c.x * a.z + b.y * c.y * a.z + b.z * c.z * a.z;
  }

  /**
   * The basis as written is left-handed: `u x v = -w`, where a right-handed
   * `(u, v, w)` has `u x v = w`. Crossing `u = w x v` with the unit `v`
   * orthogonal to `w` gives back `w` reversed.
   */
  lemma NewOnbLeftHanded(n: Vec3, nLen: real, cLen: real)
    requires nLen > 0.0 && IsSqrt(LengthSquared(n), nLen)
    requires IsSqrt(LengthSquared(Cross(WAxis(n, nLen), Helper(WAxis(n, nLen)))), cLen)
    ensures var b := NewOnb(n, nLen, cLen); Cross(b.u, b.v) == Neg(b.w)
  {
    var b := NewOnb(n, nLen, cLen);
    DoubleCross(b.w, b.v, b.v);
    DotSymmetric(b.w, b.v);
    LengthSquaredIsDot(b.v);
  }

  /**
   * The right-handed basis the documentation of `onb` describes: the same
   * `w` and `v`, with `u = cross(v, w)`. It is orthonormal, `u` is the
   * reverse of the `u` written, and `u x v = w`.
   */
  function NewRightHandedOnb(n: Vec3, nLen: real, cLen: real): (b: Onb)
    requires nLen > 0.0 && IsSqrt(LengthSquared(n), nLen)
    requires IsSqrt(LengthSquared(Cross(WAxis(n, nLen), Helper(WAxis(n, nLen)))), cLen)
    ensures Orthonormal(b)
    ensures b.w == NewOnb(n, nLen, cLen).w && b.v == NewOnb(n, nLen, cLen).v
    ensures b.u == Neg(NewOnb(n, nLen, cLen).u)
    ensures Cross(b.u, b.v) == b.w
  {
    var written := NewOnb(n, nLen, cLen);
    var v, w := written.v, written.w;
    var u := Cross(v, w);
    CrossAntiCommutes(w, v);
    assert u == Neg(written.u);
    DoubleCross(v, w, v);
    DotSymmetric(w, v);
    LengthSquaredIsDot(v);
    NegKeepsOrthonormal(written);
    Onb(u, v, w)
  }

  /** Reversing `u` keeps a basis orthonormal. */
  lemma NegKeepsOrthonormal(b: Onb)
    requires Orthonormal(b)
    ensures Orthonormal(Onb(Neg(b.u), b.v, b.w))
  {
    DotNeg(b.u, b.v);
    DotNeg(b.u, b.w);
  }

  /** Three unit vectors, pairwise orthogonal. */
  predicate Orthonormal(b: Onb) {
    LengthSquared(b.u) == 1.0 && LengthSquared(b.v) == 1.0 && LengthSquared(b.w) == 1.0
    && Dot(b.u, b.v) == 0.0 && Dot(b.u, b.w) == 0.0 && Dot(b.v, b.w) == 0.0
  }

  /**
   * Normalising `c = cross(w, a)` for a unit `w` gives a unit `v` orthogonal
   * to `w`, and `cross(w, v)` is then a unit vector orthogonal to both.
   */
  lemma OrthonormalCompletion(w: Vec3, c: Vec3, cLen: real)
    requires LengthSquared(w) == 1.0 && cLen > 0.0 && IsSqrt(LengthSquared(c), cLen)
    requires Dot(c, w) == 0.0
    ensures Orthonormal(Onb(Cross(w, UnitVector(c, cLen)), UnitVector(c, cLen), w))
  {
    var v := UnitVector(c, cLen);
    var u := Cross(w, v);
    assert Dot(v, w) == 0.0 by {
      DotScale(cLen, v, w);
    }
    CrossOrthogonal(w, v);
    DotSymmetric(u, w);
    CrossLength(w, v);
    DotSymmetric(w, v);
  }

  /** `transform(c)`: the combination `c[0] u + c[1] v + c[2] w`. */
  function Transform(b: Onb, c: Vec3): Vec3 {
    Add(Add(Scale(c.x, b.u), Scale(c.y, b.v)), Scale(c.z, b.w))
  }

  lemma TransformComponents(b: Onb, c: Vec3)
    ensures Transform(b, c).x == c.x * b.u.x + c.y * b.v.x + c.z * b.w.x
    ensures Transform(b, c).y == c.x * b.u.y + c.y * b.v.y + c.z * b.w.y
    ensures Transform(b, c).z == c.x * b.u.z + c.y * b.v.z + c.z * b.w.z
  {
  }

  lemma PickThird(c: Vec3, p: real, q: real, r: real)
    requires c == Vec3(0.0, 0.0, 1.0)
    ensures c.x * p + c.y * q + c.z * r == r
  {
  }

  lemma TransformZAxisComponents(b: Onb, c: Vec3)
    requires c == Vec3(0.0, 0.0, 1.0)
    ensures Transform(b, c).x == b.w.x
    ensures Transform(b, c).y == b.w.y
    ensures Transform(b, c).z == b.w.z
  {
    TransformComponents(b, c);
    PickThird(c, b.u.x, b.v.x, b.w.x);
    PickThird(c, b.u.y, b.v.y, b.w.y);
    PickThird(c, b.u.z, b.v.z, b.w.z);
  }

  /** The third basis vector is `w`: `transform((0, 0, 1)) == w`. */
  lemma TransformZAxis(b: Onb)
    ensures Transform(b, Vec3(0.0, 0.0, 1.0)) == b.w
  {
    TransformZAxisComponents(b, Vec3(0.0, 0.0, 1.0));
  }

  lemma AddedCombination(c: Vec3, d: Vec3, p: real, q: real, r: real)
    ensures Add(c, d).x * p + Add(c, d).y * q + Add(c, d).z * r
         == (c.x * p + c.y * q + c.z * r) + (d.x * p + d.y * q + d.z * r)
  {
  }

  lemma ScaleTwice(s: real, t: real, v: Vec3)
    ensures Scale(s * t, v) == Scale(s, Scale(t, v))
  {
  }

  lemma ScaleSum(s: real, a: Vec3, c: Vec3)
    ensures Scale(s, Add(a, c)) == Add(Scale(s, a), Scale(s, c))
  {
  }

  /** `transform` is linear: it maps sums to sums ... */
  lemma TransformAdditive(b: Onb, c: Vec3, d: Vec3)
    ensures Transform(b, Add(c, d)) == Add(Transform(b, c), Transform(b, d))
  {
    TransformComponents(b, c);
    TransformComponents(b, d);
    TransformComponents(b, Add(c, d));
    AddedCombination(c, d, b.u.x, b.v.x, b.w.x);
    AddedCombination(c, d, b.u.y, b.v.y, b.w.y);
    AddedCombination(c, d, b.u.z, b.v.z, b.w.z);
  }

  /** ... and multiples to multiples. */
  lemma TransformHomogeneous(b: Onb, c: Vec3, s: real)
    ensures Transform(b, Scale(s, c)) == Scale(s, Transform(b, c))
  {
    var su, sv, sw := Scale(c.x, b.u), Scale(c.y, b.v), Scale(c.z, b.w);
    ScaleTwice(s, c.x, b.u);
    ScaleTwice(s, c.y, b.v);
    ScaleTwice(s, c.z, b.w);
    ScaleSum(s, su, sv);
    ScaleSum(s, Add(su, sv), sw);
    var sc := Scale(s, c);
    assert sc.x == s * c.x && sc.y == s * c.y && sc.z == s * c.z;
    calc {
      Transform(b, sc);
      Add(Add(Scale(s * c.x, b.u), Scale(s * c.y, b.v)), Scale(s * c.z, b.w));
      Add(Add(Scale(s, su), Scale(s, sv)), Scale(s, sw));
      Scale(s, Add(Add(su, sv), sw));
    }
  }

  /**
   * On an orthonormal basis, `transform` is undone by projecting onto the
   * axes: the coordinates of `transform(c)` along `u`, `v` and `w` are `c`.
   */
  lemma TransformCoordinates(b: Onb, c: Vec3)
    requires Orthonormal(b)
    ensures Dot(Transform(b, c), b.u) == c.x
    ensures Dot(Transform(b, c), b.v) == c.y
    ensures Dot(Transform(b, c), b.w) == c.z
  {
    var t := Transform(b, c);
    var uv := Add(Scale(c.x, b.u), Scale(c.y, b.v));
    assert t == Add(Scale(1.0, uv), Scale(c.z, b.w));
    DotLinear(uv, b.w, b.u, 1.0, c.z);
    DotLinear(uv, b.w, b.v, 1.0, c.z);
    DotLinear(uv, b.w, b.w, 1.0, c.z);
    DotLinear(b.u, b.v, b.u, c.x, c.y);
    DotLinear(b.u, b.v, b.v, c.x, c.y);
    DotLinear(b.u, b.v, b.w, c.x, c.y);
    DotSymmetric(b.u, b.v);
    DotSymmetric(b.u, b.w);
    DotSymmetric(b.v, b.w);
    LengthSquaredIsDot(b.u);
    LengthSquaredIsDot(b.v);
    LengthSquaredIsDot(b.w);
  }
}
