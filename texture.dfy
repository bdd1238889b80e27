/** Textures (src/texture.rs). `SolidColor` is the only texture of the
    tracer, so the `Texture` trait is modelled by that one datatype. */
module Textures {
  import opened Vectors

  /** `SolidColor { color }`; the derived `Default` is the zero colour. */
  datatype SolidColor = SolidColor(color: Vec3)

  const Default := SolidColor(Zero)

  /** `value(u, v, p)`: a solid colour ignores where it is looked up. */
  function Value(texture: SolidColor, u: real, v: real, p: Vec3): Vec3
  {
    texture.color
  }

  /** The colour does not depend on the texture coordinates or the point. */
  lemma ValueIgnoresLookup(texture: SolidColor, u: real, v: real, p: Vec3, u': real, v': real, p': Vec3)
    ensures Value(texture, u, v, p) == Value(texture, u', v', p')
  {
  }

  function New(color: Vec3): (texture: SolidColor)
    ensures forall u, v, p :: Value(texture, u, v, p) == color
  {
    SolidColor(color)
  }

  function NewFromRgb(r: real, g: real, b: real): (texture: SolidColor)
    ensures forall u, v, p :: Value(texture, u, v, p) == Vec3(r, g, b)
  {
    SolidColor(Vec3(r, g, b))
  }

  /** The default texture is black everywhere. */
  lemma DefaultIsBlack(u: real, v: real, p: Vec3)
    ensures Value(Default, u, v, p) == Zero
  {
  }
}
