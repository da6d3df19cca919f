/**
 * The scatter record a material fills in. Its declaration (core/material.h)
 * is not part of this model; the fields below are the ones the materials
 * assign.
 */
module ScatterRecords {
  import opened Vectors
  import opened Rays

  class ScatterRecord {
    /** `attenuation`: the colour the scattered light is multiplied by. */
    var attenuation: Vec3
    /** `pdf_ptr == nullptr`. */
    var pdfNull: bool
    /** `skip_pdf`: the scattered ray is given explicitly instead of sampled from a density. */
    var skipPdf: bool
    /** `skip_pdf_ray`. */
    var skipPdfRay: Ray

    constructor ()
    {
    }
  }
}
