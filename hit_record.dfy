/** The hit record of src/core/hit_record.h and its front-face normal rule. */
module HitRecords {
  import opened Vectors
  import opened Rays

  /** Identifies a shared material (`std::shared_ptr<material>`). */
  type MaterialRef = nat

  /** The fields a successful `hit` writes into the record. */
  datatype Intersection = Intersection(t: real, point: Vec3, normal: Vec3, frontFace: bool, mat: MaterialRef)

  datatype Facing = Facing(frontFace: bool, normal: Vec3)

  /**
   * The outcome of `set_face_normal`: the ray hits the front face when it
   * travels against the outward normal, and the stored normal always opposes
   * the ray.
   */
  function FaceNormal(r: Ray, outward: Vec3): (f: Facing)
    ensures f.frontFace <==> Dot(r.direction, outward) < 0.0
    ensures f.frontFace ==> f.normal == outward
    ensures !f.frontFace ==> f.normal == Neg(outward)
    ensures Dot(r.direction, f.normal) <= 0.0
  {
    var front := Dot(r.direction, outward) < 0.0;
    Facing(front, if front then outward else Neg(outward))
  }

  class HitRecord {
    var point: Vec3
    var normal: Vec3
    var t: real
    var frontFace: bool
    var mat: MaterialRef
    var u: real
    var v: real

    /** A record about to be filled; the source leaves these fields uninitialised. */
    constructor ()
    {
    }

    /** The record holds exactly the fields of `h`. */
    predicate Records(h: Intersection)
      reads this
    {
      t == h.t && point == h.point && normal == h.normal && frontFace == h.frontFace && mat == h.mat
    }

    /**
     * `set_face_normal`: assigns `front_face` and `normal` and nothing else,
     * so repeating the call with the same arguments changes nothing more.
     */
    method SetFaceNormal(r: Ray, outward: Vec3)
      modifies this`frontFace, this`normal
      ensures frontFace == FaceNormal(r, outward).frontFace
      ensures normal == FaceNormal(r, outward).normal
      ensures Dot(r.direction, normal) <= 0.0
    {
      frontFace := Dot(r.direction, outward) < 0.0;
      normal := if frontFace then outward else Neg(outward);
    }
  }
}
