/**
 * The glass-like material of src/core/dieletric.h: it reflects or refracts,
 * choosing by total internal reflection and by Schlick's approximation of
 * the reflectance against a random draw. The refracted direction comes from
 * `refract`, which is not part of this model and is passed in.
 */
module Dielectrics {
  import opened Vectors
  import opened Rays
  import opened HitRecords
  import opened ScatterRecords

  /** `dielectric(refraction_index)`. */
  datatype Dielectric = Dielectric(refractionIndex: real)

  /**
   * `ri`: the ratio of indices, inverted when the ray enters through the
   * front face. An index of 0 seen from the front would give an infinite
   * ratio, which `real` cannot hold.
   */
  function RefractionRatio(d: Dielectric, frontFace: bool): (ri: real)
    requires frontFace ==> d.refractionIndex != 0.0
    ensures frontFace ==> ri * d.refractionIndex == 1.0
    ensures !frontFace ==> ri == d.refractionIndex
  {
    if frontFace then 1.0 / d.refractionIndex else d.refractionIndex
  }

  /** `cos_theta = std::fmin(dot(-unit_direction, normal), 1.0)`. */
  function CosTheta(unitDirection: Vec3, normal: Vec3): (c: real)
    ensures c <= 1.0
    ensures c == Dot(Neg(unitDirection), normal) || c == 1.0
    ensures Dot(Neg(unitDirection), normal) <= 1.0 ==> c == Dot(Neg(unitDirection), normal)
  {
    var c := Dot(Neg(unitDirection), normal);
    if c < 1.0 then c else 1.0
  }

  function Pow5(x: real): real {
    x * x * x * x * x
  }

  /** Schlick's `r0`: the reflectance at normal incidence. */
  function R0(ri: real): (r0: real)
    requires ri != -1.0
    ensures r0 >= 0.0
  {
    var q := (1.0 - ri) / (1.0 + ri);
    q * q
  }

  /** `reflectance(cosine, refraction_index)`: Schlick's approximation. */
  function Reflectance(cosine: real, ri: real): real
    requires ri != -1.0
  {
    var r0 := R0(ri);
    r0 + (1.0 - r0) * Pow5(1.0 - cosine)
  }

  /** The reflectance is `r0` head-on and 1 at grazing incidence. */
  lemma ReflectanceEnds(ri: real)
    requires ri != -1.0
    ensures Reflectance(1.0, ri) == R0(ri)
    ensures Reflectance(0.0, ri) == 1.0
  {
  }

  /** For a positive ratio, `r0` lies in [0, 1). */
  lemma R0Bounds(ri: real)
    requires ri > 0.0
    ensures 0.0 <= R0(ri) < 1.0
  {
    var q := (1.0 - ri) / (1.0 + ri);
    assert q * (1.0 + ri) == 1.0 - ri;
    assert -1.0 < q < 1.0;
    SquareBelowOne(q);
  }

  lemma SquareBelowOne(q: real)
    requires -1.0 < q < 1.0
    ensures q * q < 1.0
  {
    if q >= 0.0 {
      assert q * q <= q * 1.0;
    } else {
      assert q * q <= (-q) * 1.0;
    }
  }

  /** Multiplying by a factor in [0, 1] keeps a non-negative value and does not increase it. */
  lemma ShrinkingProduct(a: real, f: real)
    requires 0.0 <= a && 0.0 <= f <= 1.0
    ensures 0.0 <= a * f <= a
  {
    assert a * f <= a * 1.0;
  }

  lemma Pow5UnitRange(x: real)
    requires 0.0 <= x <= 1.0
    ensures 0.0 <= Pow5(x) <= 1.0
  {
    ShrinkingProduct(x, x);
    ShrinkingProduct(x * x, x);
    ShrinkingProduct(x * x * x, x);
    ShrinkingProduct(x * x * x * x, x);
  }

  /** For a positive ratio and a cosine in [0, 1], the reflectance lies in [r0, 1]. */
  lemma ReflectanceBounds(cosine: real, ri: real)
    requires ri > 0.0 && 0.0 <= cosine <= 1.0
    ensures R0(ri) <= Reflectance(cosine, ri) <= 1.0
  {
    var r0 := R0(ri);
    R0Bounds(ri);
    var p := Pow5(1.0 - cosine);
    Pow5UnitRange(1.0 - cosine);
    ShrinkingProduct(1.0 - r0, p);
    assert Reflectance(cosine, ri) == r0 + (1.0 - r0) * p;
  }

  /** `cannot_refract`: Snell's law has no solution, the ray is totally reflected. */
  function CannotRefract(ri: real, sinTheta: real): bool
  {
    ri * sinTheta > 1.0
  }

  /**
   * `reflectance(cos_theta, ri) > random_double()` as the hardware evaluates
   * it. For `ri = -1` Schlick's `r0` divides 2 by 0, the reflectance comes
   * out as NaN, and NaN exceeds no draw.
   */
  function ReflectanceExceeds(cosine: real, ri: real, draw: real): bool
  {
    ri != -1.0 && Reflectance(cosine, ri) > draw
  }

  /**
   * The direction `scatter` picks: the reflection when refraction is
   * impossible (`ri * sin_theta > 1`) or when the reflectance exceeds the
   * draw, otherwise the refracted direction.
   */
  function ChosenDirection(ri: real, cosTheta: real, sinTheta: real, draw: real, reflected: Vec3, refracted: Vec3): Vec3
  {
    if CannotRefract(ri, sinTheta) || ReflectanceExceeds(cosTheta, ri, draw) then reflected else refracted
  }

  /** Total internal reflection: whatever the draw, the ray is reflected. */
  lemma TotalInternalReflection(ri: real, cosTheta: real, sinTheta: real, reflected: Vec3, refracted: Vec3)
    requires ri * sinTheta > 1.0
    ensures forall draw :: ChosenDirection(ri, cosTheta, sinTheta, draw, reflected, refracted) == reflected
  {
  }

  /**
   * A draw in [0, 1) below `r0` always reflects; otherwise refraction is
   * chosen only when it is possible and the draw is at least the reflectance.
   */
  lemma ChoiceByDraw(ri: real, cosTheta: real, sinTheta: real, draw: real, reflected: Vec3, refracted: Vec3)
    requires ri > 0.0 && 0.0 <= cosTheta <= 1.0 && draw < R0(ri)
    ensures ChosenDirection(ri, cosTheta, sinTheta, draw, reflected, refracted) == reflected
  {
    ReflectanceBounds(cosTheta, ri);
  }

  /**
   * An index of 0 seen from the back gives `ri = 0`, so `r0 = 1` and the
   * reflectance is 1 at every angle: every draw in [0, 1) reflects.
   */
  lemma ZeroIndexReflects(d: Dielectric, cosTheta: real, sinTheta: real, draw: real, reflected: Vec3, refracted: Vec3)
    requires d.refractionIndex == 0.0 && draw < 1.0
    ensures ChosenDirection(RefractionRatio(d, false), cosTheta, sinTheta, draw, reflected, refracted) == reflected
  {
    assert R0(0.0) == 1.0;
    assert Reflectance(cosTheta, 0.0) == 1.0;
  }

  /**
   * A ratio of -1 never reflects: `ri * sin_theta` is not positive for a
   * non-negative sine, and the NaN reflectance exceeds no draw.
   */
  lemma MinusOneRatioRefracts(cosTheta: real, sinTheta: real, draw: real, reflected: Vec3, refracted: Vec3)
    requires sinTheta >= 0.0
    ensures ChosenDirection(-1.0, cosTheta, sinTheta, draw, reflected, refracted) == refracted
  {
  }

  /**
   * `dielectric::scatter`. `uLen` is the length of the incoming direction,
   * `sinTheta` the root `std::sqrt(1 - cos_theta^2)`, `draw` the value of
   * `random_double()`, `refracted` what `refract` returns, and `len` the
   * length of the chosen direction, which the ray constructor divides by.
   * The record always gets a white attenuation, no density, and a ray from
   * the hit point along the chosen direction.
   */
  method Scatter(d: Dielectric, rIn: Ray, rec: HitRecord, srec: ScatterRecord,
                 uLen: real, sinTheta: real, draw: real, refracted: Vec3, len: real)
      returns (ok: bool)
    requires rec.frontFace ==> d.refractionIndex != 0.0
    requires uLen > 0.0 && IsSqrt(LengthSquared(rIn.direction), uLen)
    requires IsSqrt(1.0 - Square(CosTheta(UnitVector(rIn.direction, uLen), rec.normal)), sinTheta)
    requires var unit := UnitVector(rIn.direction, uLen);
             len > 0.0
             && IsSqrt(LengthSquared(ChosenDirection(RefractionRatio(d, rec.frontFace),
                                                     CosTheta(unit, rec.normal), sinTheta, draw,
                                                     Reflect(unit, rec.normal), refracted)), len)
    modifies srec
    ensures ok
    ensures srec.attenuation == Vec3(1.0, 1.0, 1.0) && srec.pdfNull && srec.skipPdf
    ensures var unit := UnitVector(rIn.direction, uLen);
            srec.skipPdfRay == NewRay(rec.point,
                                      ChosenDirection(RefractionRatio(d, rec.frontFace),
                                                      CosTheta(unit, rec.normal), sinTheta, draw,
                                                      Reflect(unit, rec.normal), refracted), len)
  {
    var ri := RefractionRatio(d, rec.frontFace);
    var unitDirection := UnitVector(rIn.direction, uLen);
    var cosTheta := CosTheta(unitDirection, rec.normal);
    var cannotRefract := CannotRefract(ri, sinTheta);
    var direction;
    if cannotRefract || ReflectanceExceeds(cosTheta, ri, draw) {
      direction := Reflect(unitDirection, rec.normal);
    } else {
      direction := refracted;
    }
    assert direction == ChosenDirection(ri, cosTheta, sinTheta, draw, Reflect(unitDirection, rec.normal), refracted);
    var scattered := NewRay(rec.point, direction, len);
    srec.attenuation := Vec3(1.0, 1.0, 1.0);
    srec.pdfNull := true;
    srec.skipPdf := true;
    srec.skipPdfRay := scattered;
    ok := true;
  }

  function Square(x: real): real {
    x * x
  }
}
