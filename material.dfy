/** The materials a surface can carry (src/material.rs declares the
    `Material` trait; src/diffuse.rs, src/metal.rs and src/dielectric.rs
    implement it). The trait objects become one closed datatype; the
    scattering rules live in the modules of the implementing files. */
module Materials {
  import opened Vectors
  import opened Rays
  import opened Textures

  /** A refractive index; `1 / refractive_index` and Schlick's
      `(1 - n) / (1 + n)` are only defined for a positive index. */
  type RefractiveIndex = n: real | 0.0 < n witness 1.0

  datatype Material =
    | Lambertian(texture: SolidColor)
    | Metal(albedo: Vec3, fuzziness: real)
    | Dielectric(refractiveIndex: RefractiveIndex)

  /** What `scatter` returns when the ray is not absorbed: the scattered ray
      and the attenuation applied to the light it brings back. */
  datatype Scattered = Scattered(ray: Ray, attenuation: Vec3)
}
