/** The named colours of src/consts.rs. */
module Consts {
  import opened Vectors

  /** `white()`. */
  const White := Vec3(1.0, 1.0, 1.0)

  /** `sky_blue()`. */
  const SkyBlue := Vec3(0.5, 0.7, 1.0)
}
