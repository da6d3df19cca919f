/**
 * The vector kernel of src/core/vec3.cpp: three-component values used as
 * points, directions and RGB colours. Doubles are modelled as reals, and a
 * square root is never computed: wherever the source calls `std::sqrt`, the
 * model receives the root as a parameter constrained by `IsSqrt`.
 */
module Vectors {

  datatype Vec3 = Vec3(x: real, y: real, z: real)

  /** The default-constructed vector (0, 0, 0). */
  const Zero: Vec3 := Vec3(0.0, 0.0, 0.0)

  /** `r` is the non-negative square root of `x`. */
  predicate IsSqrt(x: real, r: real) {
    r >= 0.0 && r * r == x
  }

  function Abs(r: real): real {
    if r < 0.0 then -r else r
  }

  /** `operator[]`: 0 is x, 1 is y, 2 is z. */
  function Component(v: Vec3, i: int): real
    requires 0 <= i < 3
  {
    if i == 0 then v.x else if i == 1 then v.y else v.z
  }

  function Neg(v: Vec3): Vec3 {
    Vec3(-v.x, -v.y, -v.z)
  }

  function Add(u: Vec3, v: Vec3): Vec3 {
    Vec3(u.x + v.x, u.y + v.y, u.z + v.z)
  }

  function Sub(u: Vec3, v: Vec3): Vec3 {
    Vec3(u.x - v.x, u.y - v.y, u.z - v.z)
  }

  /** Component-wise product `u * v`. */
  function Mul(u: Vec3, v: Vec3): Vec3 {
    Vec3(u.x * v.x, u.y * v.y, u.z * v.z)
  }

  /** `t * v` and `v * t`. */
  function Scale(t: real, v: Vec3): Vec3 {
    Vec3(t * v.x, t * v.y, t * v.z)
  }

  /** `v / t`, computed as `(1 / t) * v`. */
  function Div(v: Vec3, t: real): Vec3
    requires t != 0.0
  {
    Scale(1.0 / t, v)
  }

  function Dot(u: Vec3, v: Vec3): real {
    u.x * v.x + u.y * v.y + u.z * v.z
  }

  function Cross(u: Vec3, v: Vec3): Vec3 {
    Vec3(u.y * v.z - u.z * v.y,
         u.z * v.x - u.x * v.z,
         u.x * v.y - u.y * v.x)
  }

  function LengthSquared(v: Vec3): real {
    v.x * v.x + v.y * v.y + v.z * v.z
  }

  /** `unit_vector(v)`, given `len`, the square root of `v`'s squared length. */
  function UnitVector(v: Vec3, len: real): (r: Vec3)
    requires len > 0.0 && IsSqrt(LengthSquared(v), len)
    ensures LengthSquared(r) == 1.0
    ensures Scale(len, r) == v
  {
    var r := Div(v, len);
    assert LengthSquared(r) * (len * len) == LengthSquared(v) by {
      assert r.x * len == v.x && r.y * len == v.y && r.z * len == v.z;
    }
    r
  }

  /** True when every component is within 1e-8 of zero. */
  predicate NearZero(v: Vec3) {
    var s := 0.00000001;
    Abs(v.x) < s && Abs(v.y) < s && Abs(v.z) < s
  }

  /** `vec3::reflect`: mirror `v` about the plane whose normal is `n`. */
  function Reflect(v: Vec3, n: Vec3): Vec3 {
    Sub(v, Scale(2.0 * Dot(v, n), n))
  }

  /**
   * `random_on_hemisphere`, with the random unit vector passed in as `sample`:
   * keep the sample when it lies on the normal's side, otherwise negate it.
   */
  function OnHemisphere(sample: Vec3, normal: Vec3): (r: Vec3)
    ensures Dot(r, normal) >= 0.0
    ensures r == sample || r == Neg(sample)
    ensures Dot(sample, normal) > 0.0 ==> r == sample
    ensures Dot(sample, normal) <= 0.0 ==> r == Neg(sample)
  {
    if Dot(sample, normal) > 0.0 then sample else Neg(sample)
  }

  lemma DotSymmetric(u: Vec3, v: Vec3)
    ensures Dot(u, v) == Dot(v, u)
  {
  }

  lemma LengthSquaredIsDot(v: Vec3)
    ensures LengthSquared(v) == Dot(v, v) >= 0.0
  {
  }

  /** The dot product is linear in each argument. */
  lemma DotLinear(a: Vec3, b: Vec3, c: Vec3, s: real, t: real)
    ensures Dot(Add(Scale(s, a), Scale(t, b)), c) == s * Dot(a, c) + t * Dot(b, c)
  {
  }

  lemma DotScale(s: real, a: Vec3, c: Vec3)
    ensures Dot(Scale(s, a), c) == s * Dot(a, c)
    ensures Dot(c, Scale(s, a)) == s * Dot(c, a)
  {
  }

  lemma DotNeg(a: Vec3, c: Vec3)
    ensures Dot(a, Neg(c)) == -Dot(a, c)
    ensures Dot(Neg(a), c) == -Dot(a, c)
  {
  }

  /** The cross product is orthogonal to both of its arguments. */
  lemma CrossOrthogonal(u: Vec3, v: Vec3)
    ensures Dot(Cross(u, v), u) == 0.0
    ensures Dot(Cross(u, v), v) == 0.0
  {
  }

  lemma CrossAntiCommutes(u: Vec3, v: Vec3)
    ensures Cross(u, v) == Neg(Cross(v, u))
  {
  }

  /** The cross product distributes over addition on either side... */
  lemma CrossAdd(a: Vec3, b: Vec3, c: Vec3)
    ensures Cross(Add(a, b), c) == Add(Cross(a, c), Cross(b, c))
    ensures Cross(c, Add(a, b)) == Add(Cross(c, a), Cross(c, b))
  {
  }

  lemma ScaledDifferenceLeft(s: real, a1: real, a2: real, c1: real, c2: real)
    ensures (s * a1) * c2 - (s * a2) * c1 == s * (a1 * c2 - a2 * c1)
  {
  }

  lemma ScaledDifferenceRight(s: real, a1: real, a2: real, c1: real, c2: real)
    ensures c1 * (s * a2) - c2 * (s * a1) == s * (c1 * a2 - c2 * a1)
  {
  }

  /** ... and commutes with scaling on either side. */
  lemma CrossScaleLeft(s: real, a: Vec3, c: Vec3)
    ensures Cross(Scale(s, a), c) == Scale(s, Cross(a, c))
  {
    var l, r := Cross(Scale(s, a), c), Scale(s, Cross(a, c));
    assert l.x == r.x by { ScaledDifferenceLeft(s, a.y, a.z, c.y, c.z); }
    assert l.y == r.y by { ScaledDifferenceLeft(s, a.z, a.x, c.z, c.x); }
    assert l.z == r.z by { ScaledDifferenceLeft(s, a.x, a.y, c.x, c.y); }
  }

  lemma CrossScaleRight(s: real, a: Vec3, c: Vec3)
    ensures Cross(c, Scale(s, a)) == Scale(s, Cross(c, a))
  {
    var l, r := Cross(c, Scale(s, a)), Scale(s, Cross(c, a));
    assert l.x == r.x by { ScaledDifferenceRight(s, a.y, a.z, c.y, c.z); }
    assert l.y == r.y by { ScaledDifferenceRight(s, a.z, a.x, c.z, c.x); }
    assert l.z == r.z by { ScaledDifferenceRight(s, a.x, a.y, c.x, c.y); }
  }

  lemma CrossSelf(a: Vec3)
    ensures Cross(a, a) == Vec3(0.0, 0.0, 0.0)
  {
  }

  /** Lagrange's identity: |u x v|^2 = |u|^2 |v|^2 - (u . v)^2. */
  lemma CrossLength(u: Vec3, v: Vec3)
    ensures LengthSquared(Cross(u, v)) == LengthSquared(u) * LengthSquared(v) - Dot(u, v) * Dot(u, v)
  {
  }

  /**
   * Reflecting about a unit normal flips the normal component and keeps the
   * squared length.
   */
  lemma ReflectAboutUnitNormal(v: Vec3, n: Vec3)
    requires LengthSquared(n) == 1.0
    ensures Dot(Reflect(v, n), n) == -Dot(v, n)
    ensures LengthSquared(Reflect(v, n)) == LengthSquared(v)
  {
    var k := 2.0 * Dot(v, n);
    var r := Reflect(v, n);
    assert r == Add(Scale(1.0, v), Scale(-k, n));
    DotLinear(v, n, n, 1.0, -k);
    assert Dot(r, n) == Dot(v, n) - k * LengthSquared(n);
    DotLinear(v, n, r, 1.0, -k);
    DotLinear(v, n, v, 1.0, -k);
    assert Dot(r, r) == Dot(v, r) - k * Dot(n, r);
    assert Dot(v, r) == Dot(v, v) - k * Dot(n, v);
    assert Dot(n, r) == -Dot(v, n);
    assert LengthSquared(r) == Dot(r, r);
  }

  lemma NearZeroComponents(v: Vec3)
    ensures NearZero(v) <==> forall i :: 0 <= i < 3 ==> -0.00000001 < Component(v, i) < 0.00000001
  {
    if !NearZero(v) {
      if Abs(v.x) >= 0.00000001 {
        assert !(-0.00000001 < Component(v, 0) < 0.00000001);
      } else if Abs(v.y) >= 0.00000001 {
        assert !(-0.00000001 < Component(v, 1) < 0.00000001);
      } else {
        assert !(-0.00000001 < Component(v, 2) < 0.00000001);
      }
    }
  }

  /**
   * The in-place operators `+=`, `*=` and `/=` of `vec3`, which update the
   * three-element array `e`.
   */
  class MutableVec3 {
    const e: array<real>

    ghost predicate Valid()
      reads this
    {
      e.Length == 3
    }

    function Value(): Vec3
      reads this, e
      requires Valid()
    {
      Vec3(e[0], e[1], e[2])
    }

    constructor (v: Vec3)
      ensures Valid() && fresh(e) && Value() == v
    {
      e := new real[3][v.x, v.y, v.z];
    }

    method AddAssign(v: Vec3)
      requires Valid()
      modifies e
      ensures Valid() && Value() == Add(old(Value()), v)
    {
      e[0] := e[0] + v.x;
      e[1] := e[1] + v.y;
      e[2] := e[2] + v.z;
    }

    method MulAssign(t: real)
      requires Valid()
      modifies e
      ensures Valid() && Value() == Scale(t, old(Value()))
    {
      e[0] := e[0] * t;
      e[1] := e[1] * t;
      e[2] := e[2] * t;
    }

    /** `/= t` is `*= 1 / t`. */
    method DivAssign(t: real)
      requires Valid() && t != 0.0
      modifies e
      ensures Valid() && Value() == Div(old(Value()), t)
    {
      MulAssign(1.0 / t);
    }
  }
}
