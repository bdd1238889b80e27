/** The background-only renderer of src/bin/sky.rs: every pixel shows the
    vertical white-to-blue gradient that the path tracer also uses for rays
    that leave the scene. */
module Sky {
  import opened Utils
  import opened Vectors
  import opened Rays
  import opened Consts
  import opened Pixels

  /** The viewport of the fixed camera at the origin. */
  const LowerLeftCorner := Vec3(-2.0, -1.0, -1.0)
  const Horizontal := Vec3(4.0, 0.0, 0.0)
  const Vertical := Vec3(0.0, 2.0, 0.0)
  const Origin := Vec3(0.0, 0.0, 0.0)

  /** `lerp`: `(1 - t) * a + t * b`. */
  function Lerp(a: Vec3, b: Vec3, t: real): (c: Vec3)
    ensures t == 0.0 ==> c == a
    ensures t == 1.0 ==> c == b
  {
    Add(ScaleLeft(1.0 - t, a), ScaleLeft(t, b))
  }

  /** `c` lies between `a` and `b`, whichever of them is larger. */
  predicate Between(a: real, b: real, c: real)
  {
    Min(a, b) <= c <= Max(a, b)
  }

  /** For `t` in [0, 1] the blend `p + q` of two numbers, with
      `p = a * (1 - t)` and `q = b * t`, lies between them. */
  lemma MixBetween(a: real, b: real, t: real, p: real, q: real)
    requires 0.0 <= t <= 1.0 && p == a * (1.0 - t) && q == b * t
    ensures Between(a, b, p + q)
  {
    var d := b - a;
    assert p + q == a + t * d;
    if 0.0 <= d {
      MulLe(t, 1.0, d);
      MulNonNeg(t, d);
    } else {
      MulLe(t, 1.0, -d);
      MulNonNeg(t, -d);
    }
  }

  /** For `t` in [0, 1] every channel of the blend lies between the
      channels of the two ends. */
  lemma LerpBetween(a: Vec3, b: Vec3, t: real)
    requires 0.0 <= t <= 1.0
    ensures var c := Lerp(a, b, t);
      Between(a.x, b.x, c.x) && Between(a.y, b.y, c.y) && Between(a.z, b.z, c.z)
  {
    var p, q := Scale(a, 1.0 - t), Scale(b, t);
    assert Lerp(a, b, t) == Add(p, q);
    MixBetween(a.x, b.x, t, p.x, q.x);
    MixBetween(a.y, b.y, t, p.y, q.y);
    MixBetween(a.z, b.z, t, p.z, q.z);
  }

  /** `0.5 * (unit_direction.y + 1)`: the height of the direction mapped
      from [-1, 1] to [0, 1]. */
  function SkyParameter(direction: Vec3, sqrt: real -> real): real
  {
    0.5 * (Norm(direction, sqrt).y + 1.0)
  }

  /** Whatever the direction, the blend parameter lies in [0, 1]. */
  lemma SkyParameterInUnitInterval(direction: Vec3, sqrt: real -> real)
    requires IsSqrt(sqrt)
    ensures 0.0 <= SkyParameter(direction, sqrt) <= 1.0
  {
    NormHeight(direction, sqrt);
  }

  /** The normalised direction has its height in [-1, 1]; the zero vector,
      which the model leaves as it is, has height 0. */
  lemma NormHeight(direction: Vec3, sqrt: real -> real)
    requires IsSqrt(sqrt)
    ensures -1.0 <= Norm(direction, sqrt).y <= 1.0
  {
    if direction == Zero {
      NormZero(sqrt);
    } else {
      UnitComponents(Norm(direction, sqrt));
    }
  }

  lemma NormZero(sqrt: real -> real)
    requires IsSqrt(sqrt)
    ensures Norm(Zero, sqrt) == Zero
  {
    MagnitudeZero(Zero, sqrt);
  }

  /** The background colour seen along `direction`: white below, sky blue
      above. It stays between the two: red in [0.5, 1], green in [0.7, 1],
      blue exactly 1. */
  function Gradient(direction: Vec3, sqrt: real -> real): (c: Vec3)
    ensures IsSqrt(sqrt) ==> 0.5 <= c.x <= 1.0 && 0.7 <= c.y <= 1.0 && c.z == 1.0
  {
    SkyLerpBetween(direction, sqrt);
    Lerp(White, SkyBlue, SkyParameter(direction, sqrt))
  }

  lemma SkyLerpBetween(direction: Vec3, sqrt: real -> real)
    ensures IsSqrt(sqrt) ==>
      var c := Lerp(White, SkyBlue, SkyParameter(direction, sqrt));
      0.5 <= c.x <= 1.0 && 0.7 <= c.y <= 1.0 && c.z == 1.0
  {
    if IsSqrt(sqrt) {
      SkyParameterInUnitInterval(direction, sqrt);
      LerpBetween(White, SkyBlue, SkyParameter(direction, sqrt));
    }
  }

  /** Straight up the background is sky blue. */
  lemma GradientUp(sqrt: real -> real)
    requires IsSqrt(sqrt)
    ensures Gradient(Vec3(0.0, 1.0, 0.0), sqrt) == SkyBlue
  {
    var up := Vec3(0.0, 1.0, 0.0);
    UnitNorm(up, sqrt);
    var t := SkyParameter(up, sqrt);
    assert t == 1.0;
  }

  /** Straight down the background is white. */
  lemma GradientDown(sqrt: real -> real)
    requires IsSqrt(sqrt)
    ensures Gradient(Vec3(0.0, -1.0, 0.0), sqrt) == White
  {
    var down := Vec3(0.0, -1.0, 0.0);
    UnitNorm(down, sqrt);
    var t := SkyParameter(down, sqrt);
    assert t == 0.0;
  }

  /** Normalising a straight-up or straight-down vector leaves it as it is. */
  lemma UnitNorm(v: Vec3, sqrt: real -> real)
    requires IsSqrt(sqrt) && v.x == 0.0 && v.z == 0.0 && (v.y == 1.0 || v.y == -1.0)
    ensures Norm(v, sqrt) == v
  {
    assert Square(v.y) == 1.0;
    UnitMagnitude(v, sqrt);
    NormOfMagnitudeOne(v, sqrt);
  }

  lemma UnitMagnitude(v: Vec3, sqrt: real -> real)
    requires IsSqrt(sqrt) && LengthSquared(v) == 1.0
    ensures Magnitude(v, sqrt) == 1.0
  {
    SqrtOfOne(sqrt);
  }

  lemma NormOfMagnitudeOne(v: Vec3, sqrt: real -> real)
    requires Magnitude(v, sqrt) == 1.0
    ensures Norm(v, sqrt) == v
  {
    var m := Magnitude(v, sqrt);
    assert Norm(v, sqrt) == Vec3(v.x / m, v.y / m, v.z / m);
  }

  /** `ray_color`: the gradient, gamma corrected and packed into a pixel. */
  function RayColor(r: Ray, sqrt: real -> real): (p: Word)
    ensures p < 0x100_0000
    ensures Red(p) == GammaByte(Gradient(r.direction, sqrt).x, sqrt)
    ensures Green(p) == GammaByte(Gradient(r.direction, sqrt).y, sqrt)
    ensures Blue(p) == GammaByte(Gradient(r.direction, sqrt).z, sqrt)
  {
    var rgb := ToRgb(Gradient(r.direction, sqrt), sqrt);
    FromU8Rgb(rgb.0, rgb.1, rgb.2)
  }

  /** Every background pixel has a full blue byte. */
  lemma RayColorFullBlue(r: Ray, sqrt: real -> real)
    requires IsSqrt(sqrt)
    ensures Blue(RayColor(r, sqrt)) == 255
  {
    var c := Gradient(r.direction, sqrt);
    GammaOfOne(sqrt);
    assert ToRgb(c, sqrt).2 == 255;
  }

  /** A full channel is gamma corrected to the top byte. */
  lemma GammaOfOne(sqrt: real -> real)
    requires IsSqrt(sqrt)
    ensures GammaByte(1.0, sqrt) == 255
  {
    SqrtOfOne(sqrt);
    assert Clamp(sqrt(1.0), 0.0, 0.999) == 0.999;
  }

  /** The ray through column `i` of row `j`: `u = i / W`, `v = j / H`; the
      two-argument `Ray::new` gives time 0. */
  function PixelRay(j: nat, i: nat): (r: Ray)
    ensures j < ImageHeight && i < ImageWidth ==>
      r.origin == Origin &&
      -2.0 <= r.direction.x < 2.0 && -1.0 <= r.direction.y < 1.0 && r.direction.z == -1.0
  {
    var u := i as real / ImageWidth as real;
    var v := j as real / ImageHeight as real;
    Ray(Origin, Add(Add(LowerLeftCorner, ScaleLeft(u, Horizontal)), ScaleLeft(v, Vertical)), 0.0)
  }

  /** `get_background_image_data`: the buffer holds the background pixel
      of every position, rows from the top down, each row from left to
      right. */
  method BackgroundImageData(sqrt: real -> real) returns (buffer: seq<Word>)
    ensures |buffer| == ImageHeight * ImageWidth
    ensures RowsFromTop(buffer, (j: nat, i: nat) => RayColor(PixelRay(j, i), sqrt))
  {
    var pixel := (j: nat, i: nat) => RayColor(PixelRay(j, i), sqrt);
    buffer := [];
    for j := ImageHeight downto 0
      invariant |buffer| == (ImageHeight - j) * ImageWidth
      invariant RowsFromTop(buffer, pixel)
    {
      for i := 0 to ImageWidth
        invariant |buffer| == (ImageHeight - 1 - j) * ImageWidth + i
        invariant RowsFromTop(buffer, pixel)
      {
        var ray := PixelRay(j, i);
        PushPixel(buffer, pixel, j, i);
        buffer := buffer + [RayColor(ray, sqrt)];
      }
    }
  }
}
