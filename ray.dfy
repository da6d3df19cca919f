/** The rays of src/core/ray.cpp: an origin and a direction normalised on construction. */
module Rays {
  import opened Vectors

  datatype Ray = Ray(origin: Vec3, direction: Vec3)

  /**
   * `ray(origin, direction)`: stores the origin and `unit_vector(direction)`.
   * `len` is the length of `direction` (the source's `std::sqrt`); a zero
   * direction has no such positive root, matching the division by zero in
   * the source.
   */
  function NewRay(origin: Vec3, direction: Vec3, len: real): (r: Ray)
    requires len > 0.0 && IsSqrt(LengthSquared(direction), len)
    ensures r.origin == origin
    ensures LengthSquared(r.direction) == 1.0
    ensures Scale(len, r.direction) == direction
  {
    Ray(origin, UnitVector(direction, len))
  }

  /** `at(t)`: the point origin + t * direction. */
  function At(r: Ray, t: real): Vec3 {
    Add(r.origin, Scale(t, r.direction))
  }

  lemma AtZero(r: Ray)
    ensures At(r, 0.0) == r.origin
  {
  }

  /** Every direction component is non-zero (the slab test divides by each). */
  predicate NonZeroDirection(r: Ray) {
    r.direction.x != 0.0 && r.direction.y != 0.0 && r.direction.z != 0.0
  }

  /** A ray object whose fields `operator=` overwrites. */
  class RayObject {
    var origin: Vec3
    var direction: Vec3

    function Value(): Ray
      reads this
    {
      Ray(origin, direction)
    }

    constructor (r: Ray)
      ensures Value() == r
    {
      origin := r.origin;
      direction := r.direction;
    }

    /** `operator=`: copy both fields unless assigning to itself. */
    method Assign(other: RayObject)
      modifies this
      ensures Value() == old(other.Value())
    {
      if this != other {
        origin := other.origin;
        direction := other.direction;
      }
    }
  }
}
