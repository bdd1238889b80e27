/** The first image of src/bin/image_hello_world.rs: red grows from left
    to right, green from bottom to top, blue is fixed at 0.2. */
module HelloWorld {
  import opened Pixels

  /** Rust's saturating `f64 as u8`: the fraction is dropped toward zero,
      values below 0 give 0 and values from 255 on give 255. */
  function CastU8(x: real): (b: Byte)
    ensures 0.0 <= x < 255.0 ==> b == x.Floor
    ensures x <= 0.0 ==> b == 0
    ensures 255.0 <= x ==> b == 255
  {
    if x <= 0.0 then 0
    else if 255.0 <= x then 255
    else x.Floor
  }

  /** The pixel of column `i` in row `j`. Inside the image its bytes are:
      red `floor(255.999 * i / W)`, green `floor(255.999 * j / H)`, and blue
      `floor(255.999 * 0.2) = 51` everywhere. */
  function Pixel(j: nat, i: nat): (p: Word)
    ensures i < ImageWidth ==> Red(p) == (255.999 * (i as real / ImageWidth as real)).Floor
    ensures j < ImageHeight ==> Green(p) == (255.999 * (j as real / ImageHeight as real)).Floor
    ensures Blue(p) == 51
  {
    var r := i as real / ImageWidth as real;
    var g := j as real / ImageHeight as real;
    var b := 0.2;
    ChannelsBelowTop(j, i);
    FromU8Rgb(CastU8(255.999 * r), CastU8(255.999 * g), CastU8(255.999 * b))
  }

  /** Inside the image both scaled ratios stay below 255. */
  lemma ChannelsBelowTop(j: nat, i: nat)
    ensures i < ImageWidth ==> 255.999 * (i as real / ImageWidth as real) < 255.0
    ensures j < ImageHeight ==> 255.999 * (j as real / ImageHeight as real) < 255.0
  {
  }

  /** `get_image_data`: the buffer holds every pixel, rows from the top
      down, each row from left to right. */
  method GetImageData() returns (buffer: seq<Word>)
    ensures |buffer| == ImageHeight * ImageWidth
    ensures RowsFromTop(buffer, Pixel)
  {
    buffer := [];
    for j := ImageHeight downto 0
      invariant |buffer| == (ImageHeight - j) * ImageWidth
      invariant RowsFromTop(buffer, Pixel)
    {
      for i := 0 to ImageWidth
        invariant |buffer| == (ImageHeight - 1 - j) * ImageWidth + i
        invariant RowsFromTop(buffer, Pixel)
      {
        var rgb := Pixel(j, i);
        PushPixel(buffer, Pixel, j, i);
        buffer := buffer + [rgb];
      }
    }
  }

  /** Because `i / W` stays below 1, the red byte never reaches 255: the
      rightmost column gets 254 and the first column 0. The green byte
      stops at 253 in the top row. */
  lemma ChannelRanges(j: nat, i: nat)
    requires j < ImageHeight && i < ImageWidth
    ensures Red(Pixel(j, i)) <= 254 && Green(Pixel(j, i)) <= 253
    ensures i == 0 ==> Red(Pixel(j, i)) == 0
    ensures i == ImageWidth - 1 ==> Red(Pixel(j, i)) == 254
    ensures j == ImageHeight - 1 ==> Green(Pixel(j, i)) == 253
  {
    assert 255.999 * (i as real / ImageWidth as real) < 255.0;
  }
}
