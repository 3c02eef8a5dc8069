/** Colours as the mosaic engine sees them: opaque RGB values and palette entries. */
module Colors {

  /** One 8-bit colour channel. */
  type Channel = x: int | 0 <= x < 256

  /** An opaque colour (java.awt.Color with alpha 255). */
  datatype Rgb = Rgb(red: Channel, green: Channel, blue: Channel)

  const White := Rgb(255, 255, 255)
  const Black := Rgb(0, 0, 0)

  /** A palette colour: its Rebrickable id and its RGB value. */
  datatype LegoColor = LegoColor(id: nat, rgb: Rgb)

  /**
   * The packed value Color.getRGB() returns: alpha 0xFF in the top byte, then
   * red, green and blue, read as a signed 32-bit Java int (so it is negative).
   */
  function Argb(c: Rgb): (v: int)
    ensures -0x100_0000 <= v < 0
  {
    0xFF * 0x100_0000 + c.red * 0x1_0000 + c.green * 0x100 + c.blue - 0x1_0000_0000
  }

  /** The three channels can be read back from the packed value. */
  lemma ArgbChannels(c: Rgb)
    ensures Argb(c) % 0x100 == c.blue
    ensures (Argb(c) / 0x100) % 0x100 == c.green
    ensures (Argb(c) / 0x1_0000) % 0x100 == c.red
  {
    var v := Argb(c);
    var k := c.red * 0x1_0000 + c.green * 0x100 + c.blue;
    assert v == k - 0x100_0000;
    assert v == (c.red * 0x100 + c.green - 0x1_0000) * 0x100 + c.blue;
    assert v / 0x100 == c.red * 0x100 + c.green - 0x1_0000;
    assert v / 0x100 == (c.red - 0x100) * 0x100 + c.green;
    assert v / 0x1_0000 == c.red - 0x100;
  }

  /** Different colours pack to different ints. */
  lemma ArgbInjective(c: Rgb, d: Rgb)
    ensures Argb(c) == Argb(d) ==> c == d
  {
    ArgbChannels(c);
    ArgbChannels(d);
  }

  /**
   * Perceptual luminance 0.299 R + 0.587 G + 0.114 B, scaled by 1000 so that
   * it is exact in integers.
   */
  function Luminance1000(c: Rgb): int
  {
    299 * c.red + 587 * c.green + 114 * c.blue
  }

  /** A colour is dark when its luminance is below 128. */
  predicate IsDark(c: Rgb)
  {
    Luminance1000(c) < 128_000
  }

  /** The label colour drawn over a stud of colour c. */
  function ContrastingTextColor(c: Rgb): (t: Rgb)
    ensures t == White || t == Black
    ensures t == White <==> Luminance1000(c) < 128_000
  {
    if IsDark(c) then White else Black
  }

  /** Black gets white text. */
  lemma ContrastOnBlack()
    ensures ContrastingTextColor(Black) == White
  {
  }

  /** White gets black text. */
  lemma ContrastOnWhite()
    ensures ContrastingTextColor(White) == Black
  {
  }

  /** A colour at least as bright in every channel as a light colour is light too. */
  lemma ContrastMonotone(c: Rgb, d: Rgb)
    requires c.red <= d.red && c.green <= d.green && c.blue <= d.blue
    ensures ContrastingTextColor(c) == Black ==> ContrastingTextColor(d) == Black
  {
  }
}
