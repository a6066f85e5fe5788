/** Conversion between a byte-range integer and its 8-bit pattern. */
module Bytes {
  lemma ByteValue(v: int)
    requires 0 <= v < 256
    ensures (v as bv8) as int == v
  {
  }
}

/**
 * Packed ARGB pixels, as `BufferedImage.getRGB` hands them out: a 32-bit word
 * with alpha in bits 24..31, red in 16..23, green in 8..15 and blue in 0..7.
 * A Java `int` and a `bv32` have the same bit pattern, so masking and shifting
 * behave identically here (the masks clear the sign bit before every shift).
 */
module Pixels {
  import opened Bytes

  type Pixel = bv32

  /** Channel extraction by mask and shift. */
  function Alpha(p: Pixel): bv8 { (p >> 24) as bv8 }
  function Red(p: Pixel): bv8 { ((p & 0xff0000) >> 16) as bv8 }
  function Green(p: Pixel): bv8 { ((p & 0xff00) >> 8) as bv8 }
  function Blue(p: Pixel): bv8 { (p & 0xff) as bv8 }

  /** An opaque pixel whose three colour channels are equal. */
  predicate IsGray(p: Pixel) {
    Alpha(p) == 0xff && Red(p) == Blue(p) && Green(p) == Blue(p)
  }

  /**
   * Packs one channel value into `0xff000000 | (c << 16 | c << 8 | c)`.
   * Unpacking it gives back the value in every colour channel and full alpha.
   */
  function Pack(c: bv8): (p: Pixel)
    ensures Alpha(p) == 0xff && Red(p) == c && Green(p) == c && Blue(p) == c
  {
    var w := c as bv32;
    0xff000000 | ((w << 16) | (w << 8) | w)
  }

  /** A gray pixel is exactly the packing of its blue channel. */
  lemma PackOfGray(p: Pixel)
    requires IsGray(p)
    ensures Pack(Blue(p)) == p
  {
  }

  /** The opaque gray pixel of intensity `v`, for an integer `0 <= v <= 255`. */
  function Gray(v: int): Pixel
    requires 0 <= v < 256
  {
    Pack(v as bv8)
  }

  /** Unpacking a packed intensity yields that intensity in every channel. */
  lemma GrayRoundTrip(v: int)
    requires 0 <= v < 256
    ensures Alpha(Gray(v)) == 0xff
    ensures Red(Gray(v)) as int == v && Green(Gray(v)) as int == v && Blue(Gray(v)) as int == v
    ensures IsGray(Gray(v))
  {
    ByteValue(v);
  }

  /** The integer mean `(r + g + b) / 3` of the colour channels. */
  function Average(p: Pixel): (v: int)
    ensures 0 <= v < 256
    ensures 3 * v <= Red(p) as int + Green(p) as int + Blue(p) as int < 3 * v + 3
  {
    (Red(p) as int + Green(p) as int + Blue(p) as int) / 3
  }

  /** The pixel that grayscale reduction writes in place of `p`. */
  function GrayOf(p: Pixel): Pixel
  {
    Gray(Average(p))
  }

  /**
   * The reduced pixel is opaque and each of its colour channels holds the
   * mean of the original pixel's channels.
   */
  lemma GrayOfChannels(p: Pixel)
    ensures Alpha(GrayOf(p)) == 0xff
    ensures Red(GrayOf(p)) as int == Average(p)
    ensures Green(GrayOf(p)) as int == Average(p)
    ensures Blue(GrayOf(p)) as int == Average(p)
  {
    GrayRoundTrip(Average(p));
  }

  /** Reducing a pixel that is already gray leaves it as it is. */
  lemma GrayOfFixesGray(p: Pixel)
    requires IsGray(p)
    ensures GrayOf(p) == p
  {
    var b := Blue(p) as int;
    assert Red(p) as int == b && Green(p) as int == b;
    assert Average(p) == b;
    assert (b as bv8) == Blue(p);
    PackOfGray(p);
  }

  /** Grayscale reduction is idempotent, pixel by pixel. */
  lemma GrayOfIdempotent(p: Pixel)
    ensures GrayOf(GrayOf(p)) == GrayOf(p)
  {
    GrayRoundTrip(Average(p));
    GrayOfFixesGray(GrayOf(p));
  }
}
