/** Packing three colour bytes into the `0x00RRGGBB` pixel words the
    window buffer holds (`from_u8_rgb` in src/bin/sky.rs and
    src/bin/image_hello_world.rs, the tail of `vec_to_u32` in
    src/bin/trace.rs). */
module Pixels {
  /** A `u8`. */
  type Byte = b: int | 0 <= b < 0x100

  /** A `u32`. */
  type Word = w: int | 0 <= w < 0x1_0000_0000

  /** `(r << 16) | (g << 8) | b`. Shifting left by 16 and 8 multiplies by
      2^16 and 2^8, and the three bytes then occupy disjoint bits, so the
      `|` of the source is their sum. */
  function FromU8Rgb(r: Byte, g: Byte, b: Byte): (p: Word)
    ensures p < 0x100_0000
    ensures Red(p) == r && Green(p) == g && Blue(p) == b
  {
    var p := r * 0x1_0000 + g * 0x100 + b;
    assert p / 0x100 == r * 0x100 + g && p / 0x1_0000 == r;
    p
  }

  /** The byte in bits 16 to 23. */
  function Red(p: Word): Byte
  {
    p / 0x1_0000 % 0x100
  }

  /** The byte in bits 8 to 15. */
  function Green(p: Word): Byte
  {
    p / 0x100 % 0x100
  }

  /** The byte in bits 0 to 7. */
  function Blue(p: Word): Byte
  {
    p % 0x100
  }

  /** A word below 2^24 is the packing of its three bytes: packing and
      unpacking are inverse. */
  lemma Unpack(p: Word)
    requires p < 0x100_0000
    ensures FromU8Rgb(Red(p), Green(p), Blue(p)) == p
  {
    var q := p / 0x100;
    assert p == q * 0x100 + Blue(p);
    assert q == q / 0x100 * 0x100 + Green(p);
    assert p / 0x1_0000 == q / 0x100 < 0x100;
    assert Red(p) == q / 0x100;
    assert p == Red(p) * 0x1_0000 + Green(p) * 0x100 + Blue(p);
  }

  /** The window all three programs open: 200 columns by 100 rows. */
  const ImageWidth: nat := 200
  const ImageHeight: nat := 100

  /** Position `k` of a window buffer holds the pixel of row
      `H - 1 - k / W` and column `k % W`: the rows run from the top
      (`j = H - 1`) down, each from left to right. */
  predicate RowsFromTop(buffer: seq<Word>, pixel: (nat, nat) -> Word)
  {
    forall k :: 0 <= k < |buffer| ==>
      k / ImageWidth < ImageHeight && buffer[k] == pixel(ImageHeight - 1 - k / ImageWidth, k % ImageWidth)
  }

  /** Pushing the pixel of row `j`, column `i` onto a buffer holding every
      earlier position keeps the layout. */
  lemma PushPixel(buffer: seq<Word>, pixel: (nat, nat) -> Word, j: nat, i: nat)
    requires j < ImageHeight && i < ImageWidth
    requires |buffer| == (ImageHeight - 1 - j) * ImageWidth + i && RowsFromTop(buffer, pixel)
    ensures RowsFromTop(buffer + [pixel(j, i)], pixel)
  {
    var n := |buffer|;
    var pushed := buffer + [pixel(j, i)];
    RowMajor(ImageHeight - 1 - j, i);
    forall k | 0 <= k < |pushed|
      ensures k / ImageWidth < ImageHeight && pushed[k] == pixel(ImageHeight - 1 - k / ImageWidth, k % ImageWidth)
    {
      if k < n {
        assert pushed[k] == buffer[k];
      } else {
        assert k == n && ImageHeight - 1 - k / ImageWidth == j;
      }
    }
  }

  /** Position `row * W + column` holds that row and column. */
  lemma RowMajor(row: nat, column: nat)
    requires column < ImageWidth
    ensures (row * ImageWidth + column) / ImageWidth == row
    ensures (row * ImageWidth + column) % ImageWidth == column
  {
  }
}
