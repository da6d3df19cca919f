/**
 * The diffuse material of src/core/lambertian.h. The random unit vector it
 * adds to the normal is passed in as `sample`.
 */
module Lambertians {
  import opened Vectors
  import opened Rays
  import opened HitRecords

  /** `lambertian(albedo)`. */
  datatype Lambertian = Lambertian(albedo: Vec3)

  /**
   * The scatter direction: the normal plus the sample, or the normal alone
   * when that sum is within 1e-8 of zero on every axis.
   */
  function ScatterDirection(normal: Vec3, sample: Vec3): (dir: Vec3)
    ensures dir == Add(normal, sample) || dir == normal
    ensures !NearZero(Add(normal, sample)) ==> dir == Add(normal, sample)
    ensures NearZero(Add(normal, sample)) ==> dir == normal
  {
    var sum := Add(normal, sample);
    if NearZero(sum) then normal else sum
  }

  /**
   * The fallback never leaves a degenerate direction behind: unless the
   * normal itself is near zero, neither is the scatter direction.
   */
  lemma ScatterDirectionNotNearZero(normal: Vec3, sample: Vec3)
    requires !NearZero(normal)
    ensures !NearZero(ScatterDirection(normal, sample))
  {
  }

  /** A unit normal is not near zero, so the scatter direction from a unit normal never is. */
  lemma UnitNotNearZero(n: Vec3)
    requires LengthSquared(n) == 1.0
    ensures !NearZero(n)
  {
    if NearZero(n) {
      var s := 0.00000001;
      SmallSquare(n.x, s);
      SmallSquare(n.y, s);
      SmallSquare(n.z, s);
      assert false;
    }
  }

  lemma NonNegativeProduct(p: real, q: real)
    requires p >= 0.0 && q >= 0.0
    ensures p * q >= 0.0
  {
  }

  lemma SmallSquare(x: real, s: real)
    requires 0.0 < s < 1.0 && Abs(x) < s
    ensures x * x < s
  {
    var a := Abs(x);
    assert x * x == a * a;
    assert 0.0 <= a < 1.0;
    NonNegativeProduct(a, 1.0 - a);
    assert a * (1.0 - a) == a - a * a;
  }

  /**
   * `lambertian::scatter`: start the new ray at the hit point along the
   * scatter direction and attenuate by the albedo; it always succeeds and
   * does not look at the incoming ray. `len` is the length of the scatter
   * direction, which the ray constructor divides by.
   */
  method Scatter(m: Lambertian, rIn: Ray, rec: HitRecord, sample: Vec3, len: real)
      returns (ok: bool, attenuation: Vec3, scattered: Ray)
    requires len > 0.0 && IsSqrt(LengthSquared(ScatterDirection(rec.normal, sample)), len)
    ensures ok && attenuation == m.albedo
    ensures scattered == NewRay(rec.point, ScatterDirection(rec.normal, sample), len)
  {
    var scatterDirection := Add(rec.normal, sample);
    if NearZero(scatterDirection) {
      scatterDirection := rec.normal;
    }
    scattered := NewRay(rec.point, scatterDirection, len);
    attenuation := m.albedo;
    ok := true;
  }
}
