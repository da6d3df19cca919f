/** The mirror-like material of src/core/metal.h. */
module Metals {
  import opened Vectors
  import opened Rays
  import opened HitRecords
  import opened ScatterRecords

  /** `metal(albedo, fuzz)`. */
  datatype Metal = Metal(albedo: Vec3, fuzz: real)

  /**
   * `metal::scatter`: reflect the incoming direction about the record's
   * normal and start the new ray at the hit point. It always succeeds,
   * attenuates by the albedo and never reads `fuzz`. `len` is the length of
   * the reflected direction, which the ray constructor divides by.
   */
  method Scatter(m: Metal, rIn: Ray, rec: HitRecord, srec: ScatterRecord, len: real) returns (ok: bool)
    requires len > 0.0 && IsSqrt(LengthSquared(Reflect(rIn.direction, rec.normal)), len)
    modifies srec
    ensures ok
    ensures srec.attenuation == m.albedo && srec.pdfNull && srec.skipPdf
    ensures srec.skipPdfRay == NewRay(rec.point, Reflect(rIn.direction, rec.normal), len)
  {
    var reflected := Reflect(rIn.direction, rec.normal);
    srec.attenuation := m.albedo;
    srec.pdfNull := true;
    srec.skipPdf := true;
    srec.skipPdfRay := NewRay(rec.point, reflected, len);
    ok := true;
  }

  /**
   * For a unit incoming direction and a unit normal, the reflection is
   * already a unit vector: the length the constructor divides by is 1, the
   * scattered direction is exactly the mirror image, and it leaves on the
   * normal's side exactly when the incoming ray arrived against it.
   */
  lemma UnitReflection(d: Vec3, n: Vec3, origin: Vec3)
    requires LengthSquared(d) == 1.0 && LengthSquared(n) == 1.0
    ensures IsSqrt(LengthSquared(Reflect(d, n)), 1.0)
    ensures NewRay(origin, Reflect(d, n), 1.0).direction == Reflect(d, n)
    ensures Dot(NewRay(origin, Reflect(d, n), 1.0).direction, n) == -Dot(d, n)
  {
    ReflectAboutUnitNormal(d, n);
    var r := NewRay(origin, Reflect(d, n), 1.0);
    assert Scale(1.0, r.direction) == r.direction;
  }
}
