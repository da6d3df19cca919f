/**
 * The textures of src/core/texture.h: a constant colour, and a 3-D
 * checkerboard that hands the lookup to one of two child textures depending
 * on the parity of the cell that contains the point.
 */
module Textures {
  import opened Vectors

  /** `solid_color(albedo)` or `checker_texture(inv_scale, even, odd)`. */
  datatype Texture =
    | SolidColor(albedo: Vec3)
    | Checker(invScale: real, even: Texture, odd: Texture)

  /** `solid_color(red, green, blue)`. */
  function SolidRgb(red: real, green: real, blue: real): (t: Texture)
    ensures forall u, v, p :: Value(t, u, v, p) == Vec3(red, green, blue)
  {
    SolidColor(Vec3(red, green, blue))
  }

  /** `checker_texture(scale, even, odd)` stores the reciprocal of the scale. */
  function NewChecker(scale: real, even: Texture, odd: Texture): (t: Texture)
    requires scale != 0.0
    ensures t.Checker? && t.invScale * scale == 1.0
    ensures t.even == even && t.odd == odd
  {
    Checker(1.0 / scale, even, odd)
  }

  /** `checker_texture(scale, c1, c2)`: two solid colours. */
  function CheckerColors(scale: real, c1: Vec3, c2: Vec3): (t: Texture)
    requires scale != 0.0
    ensures t == NewChecker(scale, SolidColor(c1), SolidColor(c2))
  {
    NewChecker(scale, SolidColor(c1), SolidColor(c2))
  }

  /**
   * C++'s `a % 2` on `int`. The quotient is truncated toward zero, so the
   * remainder takes the sign of `a`: it is -1, 0 or 1, and `a` minus it is even.
   */
  function CppRem2(a: int): (r: int)
    ensures a >= 0 ==> 0 <= r <= 1
    ensures a < 0 ==> -1 <= r <= 0
    ensures (a - r) % 2 == 0
  {
    if a >= 0 then a % 2 else -((-a) % 2)
  }

  /** The integer cell coordinate `int(std::floor(inv_scale * c))` on one axis. */
  function Cell(invScale: real, c: real): int {
    (invScale * c).Floor
  }

  /** The sum of the three cell coordinates of `p`. */
  function CellSum(invScale: real, p: Vec3): int {
    Cell(invScale, p.x) + Cell(invScale, p.y) + Cell(invScale, p.z)
  }

  /** `isEven`: the cell sum modulo 2, as C++ computes it, is 0. */
  predicate IsEvenCell(invScale: real, p: Vec3) {
    CppRem2(CellSum(invScale, p)) == 0
  }

  /** The colours of the solid textures at the leaves of a texture. */
  function Colors(t: Texture): set<Vec3> {
    match t
    case SolidColor(a) => {a}
    case Checker(_, e, o) => Colors(e) + Colors(o)
  }

  /**
   * `value(u, v, p)`. A solid colour ignores its arguments; a checker passes
   * them unchanged to the child its cell selects. Every value is therefore
   * the colour of one of the texture's solid leaves.
   */
  function Value(t: Texture, u: real, v: real, p: Vec3): (c: Vec3)
    ensures c in Colors(t)
  {
    match t
    case SolidColor(a) => a
    case Checker(k, e, o) => if IsEvenCell(k, p) then Value(e, u, v, p) else Value(o, u, v, p)
  }

  /**
   * C++'s `% 2 == 0` on a negative sum still detects even sums: the
   * truncated remainder is 0 exactly when the sum is even, and -1 for odd
   * negative sums.
   */
  lemma TruncatedParity(n: int)
    ensures CppRem2(n) == 0 <==> n % 2 == 0
    ensures n < 0 && n % 2 == 1 ==> CppRem2(n) == -1
  {
  }

  /**
   * A two-colour checker shows `c1` on even cells and `c2` on odd cells,
   * whatever `u` and `v` are.
   */
  lemma CheckerColorsValue(scale: real, c1: Vec3, c2: Vec3, u: real, v: real, p: Vec3)
    requires scale != 0.0
    ensures CellSum(1.0 / scale, p) % 2 == 0 ==> Value(CheckerColors(scale, c1, c2), u, v, p) == c1
    ensures CellSum(1.0 / scale, p) % 2 != 0 ==> Value(CheckerColors(scale, c1, c2), u, v, p) == c2
  {
    TruncatedParity(CellSum(1.0 / scale, p));
  }

  /** Moving a point by one cell width along x moves its cell coordinate by one. */
  lemma CellStep(scale: real, x: real)
    requires scale != 0.0
    ensures Cell(1.0 / scale, x + scale) == Cell(1.0 / scale, x) + 1
  {
    var k := 1.0 / scale;
    assert k * scale == 1.0;
    assert k * (x + scale) == k * x + k * scale;
  }

  /**
   * Shifting a point by `scale` along the x axis moves it to a cell of the
   * other parity, so a checker made with that scale hands the lookup to
   * its other child.
   */
  lemma ShiftFlipsChild(scale: real, even: Texture, odd: Texture, u: real, v: real, p: Vec3)
    requires scale != 0.0
    ensures var q := Vec3(p.x + scale, p.y, p.z);
            var t := NewChecker(scale, even, odd);
            (IsEvenCell(t.invScale, q) <==> !IsEvenCell(t.invScale, p))
            && Value(t, u, v, q) == Value(if IsEvenCell(t.invScale, p) then odd else even, u, v, q)
  {
    var k := 1.0 / scale;
    var q := Vec3(p.x + scale, p.y, p.z);
    CellStep(scale, p.x);
    assert CellSum(k, q) == CellSum(k, p) + 1;
    TruncatedParity(CellSum(k, p));
    TruncatedParity(CellSum(k, q));
  }
}
