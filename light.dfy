/** The emissive material of src/core/light.h. */
module Lights {
  import opened Vectors
  import opened Rays
  import opened HitRecords
  import opened Textures

  /** `diffuse_light(tex)`. */
  datatype DiffuseLight = DiffuseLight(tex: Texture)

  /** `diffuse_light(emit)`: a light whose texture is the solid colour `emit`. */
  function LightOfColor(emit: Vec3): (l: DiffuseLight)
    ensures l.tex == SolidColor(emit)
  {
    DiffuseLight(SolidColor(emit))
  }

  /**
   * `emitted(r_in, rec, u, v, p)`: black when the ray hits the back face,
   * otherwise the texture's value at `(u, v, p)`. Either way the colour is
   * black or one of the texture's colours.
   */
  function Emitted(l: DiffuseLight, rIn: Ray, rec: HitRecord, u: real, v: real, p: Vec3): (c: Vec3)
    reads rec
    ensures c == Zero || c in Colors(l.tex)
    ensures !rec.frontFace ==> c == Zero
    ensures rec.frontFace ==> c == Value(l.tex, u, v, p)
  {
    if !rec.frontFace then Zero else Value(l.tex, u, v, p)
  }

  /** A light made from a colour emits that colour from its front face, everywhere. */
  lemma ColorLightEmits(emit: Vec3, rIn: Ray, rec: HitRecord, u: real, v: real, p: Vec3)
    requires rec.frontFace
    ensures Emitted(LightOfColor(emit), rIn, rec, u, v, p) == emit
  {
  }

  /** The incoming ray does not influence the emission. */
  lemma EmissionIgnoresRay(l: DiffuseLight, r1: Ray, r2: Ray, rec: HitRecord, u: real, v: real, p: Vec3)
    ensures Emitted(l, r1, rec, u, v, p) == Emitted(l, r2, rec, u, v, p)
  {
  }
}
