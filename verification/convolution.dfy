/**
 * What the convolution engine computes for one output pixel, as functions of
 * the source buffer. The buffer is a `width x height` array indexed `[x, y]`;
 * only the low (blue) byte of a source pixel is read, since the engine treats
 * its input as grayscale.
 *
 * For the pixel `(x, y)` the engine walks the kernel footprint with `fY` in
 * the outer loop and `fX` in the inner one, both from `-Half(k)` to
 * `Half(k)`. A tap whose source coordinate `(x + fX, y + fY)` lies outside
 * the buffer is handled by the boundary policy:
 *   - `None` leaves the inner loop (`break`), dropping every remaining tap of
 *     that `fY`, including taps that would be back in range;
 *   - any other policy adds a zero sample and goes on with the next tap.
 */
module Convolution {
  import opened Pixels
  import opened Kernels
  import opened Rounding
  import opened Bytes

  /** The engine's boundary policies; `Other` stands for every non-`None` value. */
  datatype BoundaryPolicy = None | Other

  predicate InImage(src: array2<Pixel>, i: int, j: int) {
    0 <= i < src.Length0 && 0 <= j < src.Length1
  }

  /** The intensity the engine reads from a source pixel: its low byte. */
  function Sample(src: array2<Pixel>, i: int, j: int): (v: int)
    requires InImage(src, i, j)
    reads src
    ensures 0 <= v < 256
  {
    Blue(src[i, j]) as int
  }

  /**
   * The weighted sample of tap `(fX, fY)`: the low byte of
   * `src[x + fX, y + fY]` times `k[fX + Half(k)][fY + Half(k)]`.
   */
  function Tap(src: array2<Pixel>, k: Kernel, x: int, y: int, fX: int, fY: int): int
    requires IsKernel(k) && -Half(k) <= fX <= Half(k) && -Half(k) <= fY <= Half(k)
    requires InImage(src, x + fX, y + fY)
    reads src
  {
    Sample(src, x + fX, y + fY) * k[fX + Half(k)][fY + Half(k)]
  }

  /**
   * What the inner loop adds for one `fY`, starting at tap `fX`: the loop as
   * the engine runs it, `break` included.
   */
  function RowFrom(src: array2<Pixel>, k: Kernel, p: BoundaryPolicy, x: int, y: int, fY: int, fX: int): int
    requires IsKernel(k) && -Half(k) <= fY <= Half(k) && -Half(k) <= fX <= Half(k) + 1
    reads src
    decreases Half(k) + 1 - fX
  {
    if fX > Half(k) then 0
    else if !InImage(src, x + fX, y + fY) then
      if p == None then 0 else RowFrom(src, k, p, x, y, fY, fX + 1)
    else
      Tap(src, k, x, y, fX, fY) + RowFrom(src, k, p, x, y, fY, fX + 1)
  }

  /** What the outer loop adds, starting at `fY`. */
  function RowsFrom(src: array2<Pixel>, k: Kernel, p: BoundaryPolicy, x: int, y: int, fY: int): int
    requires IsKernel(k) && -Half(k) <= fY <= Half(k) + 1
    reads src
    decreases Half(k) + 1 - fY
  {
    if fY > Half(k) then 0
    else RowFrom(src, k, p, x, y, fY, -Half(k)) + RowsFrom(src, k, p, x, y, fY + 1)
  }

  /** The accumulated weighted sum for output pixel `(x, y)`. */
  function PixelSum(src: array2<Pixel>, k: Kernel, p: BoundaryPolicy, x: int, y: int): int
    requires IsKernel(k)
    reads src
  {
    RowsFrom(src, k, p, x, y, -Half(k))
  }

  /** The channel value of output pixel `(x, y)`: rounded quotient, clamped. */
  function ConvolvedValue(src: array2<Pixel>, k: Kernel, p: BoundaryPolicy, x: int, y: int): int
    requires IsKernel(k)
    reads src
  {
    Clamp(RoundHalfUp(PixelSum(src, k, p, x, y), Divisor(k)))
  }

  /** The packed output pixel `(x, y)`. */
  function ConvolvedPixel(src: array2<Pixel>, k: Kernel, p: BoundaryPolicy, x: int, y: int): Pixel
    requires IsKernel(k)
    reads src
  {
    Gray(ConvolvedValue(src, k, p, x, y))
  }

  /**
   * The kernel walk for output pixel `(x, y)`: the two inner loops of the
   * engine, accumulating weighted low bytes of the source.
   */
  method AccumulateTaps(src: array2<Pixel>, filter: Kernel, p: BoundaryPolicy, x: int, y: int)
    returns (filterSum: int)
    requires IsKernel(filter)
    ensures filterSum == PixelSum(src, filter, p, x, y)
  {
    var width, height := src.Length0, src.Length1;
    var filterWidth := |filter[0]|;
    var filterHeight := |filter|;
    var fW := filterWidth / 2;
    var fH := filterHeight / 2;
    filterSum := 0;
    var fY := -fH;
    while fY <= fH
      invariant -fH <= fY <= fH + 1
      invariant filterSum + RowsFrom(src, filter, p, x, y, fY) == PixelSum(src, filter, p, x, y)
    {
      ghost var rowBase := filterSum;
      var fX := -fW;
      while fX <= fW
        invariant -fW <= fX <= fW + 1
        invariant filterSum + RowFrom(src, filter, p, x, y, fY, fX)
                  == rowBase + RowFrom(src, filter, p, x, y, fY, -fW)
      {
        var iX := x + fX;
        var iY := y + fY;
        var pixelValue := 0;
        if iX < 0 || iX >= width || iY < 0 || iY >= height {
          if p == None {
            break;
          }
        } else {
          pixelValue := Blue(src[iX, iY]) as int;
        }
        filterSum := filterSum + pixelValue * filter[fX + fW][fY + fH];
        fX := fX + 1;
      }
      fY := fY + 1;
    }
  }

  /**
   * Every output pixel is opaque gray, its channels holding the clamped,
   * rounded quotient of the tap sum by the (never zero) divisor.
   */
  lemma ConvolvedPixelIsGray(src: array2<Pixel>, k: Kernel, p: BoundaryPolicy, x: int, y: int)
    requires IsKernel(k)
    ensures IsGray(ConvolvedPixel(src, k, p, x, y))
    ensures Blue(ConvolvedPixel(src, k, p, x, y)) as int == ConvolvedValue(src, k, p, x, y)
    ensures 0 <= ConvolvedValue(src, k, p, x, y) <= 255
  {
    GrayRoundTrip(ConvolvedValue(src, k, p, x, y));
  }

  /**
   * For a kernel whose weights sum to zero (a derivative kernel such as
   * Sobel's) the divisor is 1: the tap sum itself is clamped.
   */
  lemma ZeroSumDividesByOne(src: array2<Pixel>, k: Kernel, p: BoundaryPolicy, x: int, y: int)
    requires IsKernel(k) && TotalWeight(k) == 0
    ensures ConvolvedValue(src, k, p, x, y) == Clamp(PixelSum(src, k, p, x, y))
  {
  }

  // ---------------------------------------------------------------------
  // Which taps contribute: closed forms of the loop with its `break`.
  // ---------------------------------------------------------------------

  /** The plain sum of taps `lo..hi` of one `fY`, all of them in range. */
  function Span(src: array2<Pixel>, k: Kernel, x: int, y: int, fY: int, lo: int, hi: int): int
    requires IsKernel(k) && -Half(k) <= fY <= Half(k)
    requires lo <= hi ==> -Half(k) <= lo && hi <= Half(k)
    requires lo <= hi ==> 0 <= x + lo && x + hi < src.Length0 && 0 <= y + fY < src.Length1
    reads src
    decreases hi - lo
  {
    if lo > hi then 0 else Tap(src, k, x, y, lo, fY) + Span(src, k, x, y, fY, lo + 1, hi)
  }

  function Min(a: int, b: int): int { if a <= b then a else b }
  function Max(a: int, b: int): int { if a >= b then a else b }

  /**
   * Under `None`, the taps from `fX` on contribute nothing when the row of
   * source pixels is out of range or the first tap is left of the buffer;
   * otherwise exactly the taps up to the right edge contribute.
   */
  lemma {:induction false} NoneRowSelection(src: array2<Pixel>, k: Kernel, x: int, y: int, fY: int, fX: int)
    requires IsKernel(k) && -Half(k) <= fY <= Half(k) && -Half(k) <= fX <= Half(k) + 1
    ensures RowFrom(src, k, None, x, y, fY, fX) ==
            if !(0 <= y + fY < src.Length1) || x + fX < 0 then 0
            else Span(src, k, x, y, fY, fX, Min(Half(k), src.Length0 - 1 - x))
    decreases Half(k) + 1 - fX
  {
    if fX <= Half(k) && InImage(src, x + fX, y + fY) {
      NoneRowSelection(src, k, x, y, fY, fX + 1);
    }
  }

  /**
   * Under any other policy, exactly the in-range taps from `fX` on
   * contribute; out-of-range taps add zero and the loop carries on.
   */
  lemma {:induction false} OtherRowSelection(src: array2<Pixel>, k: Kernel, x: int, y: int, fY: int, fX: int)
    requires IsKernel(k) && -Half(k) <= fY <= Half(k) && -Half(k) <= fX <= Half(k) + 1
    ensures RowFrom(src, k, Other, x, y, fY, fX) ==
            if !(0 <= y + fY < src.Length1) then 0
            else Span(src, k, x, y, fY, Max(fX, -x), Min(Half(k), src.Length0 - 1 - x))
    decreases Half(k) + 1 - fX
  {
    if fX <= Half(k) {
      OtherRowSelection(src, k, x, y, fY, fX + 1);
    }
  }

  /**
   * The left-edge artifact of `None`: when the kernel reaches past the left
   * border, the first tap of every `fY` is out of range, so the whole sum is 0
   * and the output pixel is black.
   */
  lemma {:induction false} LeftBorderIsBlack(src: array2<Pixel>, k: Kernel, x: int, y: int)
    requires IsKernel(k) && x < Half(k)
    ensures PixelSum(src, k, None, x, y) == 0
    ensures ConvolvedPixel(src, k, None, x, y) == Gray(0)
  {
    RowsFromLeftOfBorder(src, k, x, y, -Half(k));
    assert RoundHalfUp(0, Divisor(k)) == 0 by {
      RoundExact(0, Divisor(k));
    }
  }

  lemma {:induction false} RowsFromLeftOfBorder(src: array2<Pixel>, k: Kernel, x: int, y: int, fY: int)
    requires IsKernel(k) && x < Half(k) && -Half(k) <= fY <= Half(k) + 1
    ensures RowsFrom(src, k, None, x, y, fY) == 0
    decreases Half(k) + 1 - fY
  {
    if fY <= Half(k) {
      RowsFromLeftOfBorder(src, k, x, y, fY + 1);
    }
  }

  /**
   * Away from the left border, `None` and the other policy agree: at the
   * right border `None` only drops taps that are out of range anyway.
   */
  lemma PoliciesAgreeFromLeftBorder(src: array2<Pixel>, k: Kernel, x: int, y: int)
    requires IsKernel(k) && Half(k) <= x
    ensures PixelSum(src, k, None, x, y) == PixelSum(src, k, Other, x, y)
  {
    RowsAgree(src, k, x, y, -Half(k));
  }

  lemma {:induction false} RowsAgree(src: array2<Pixel>, k: Kernel, x: int, y: int, fY: int)
    requires IsKernel(k) && Half(k) <= x && -Half(k) <= fY <= Half(k) + 1
    ensures RowsFrom(src, k, None, x, y, fY) == RowsFrom(src, k, Other, x, y, fY)
    decreases Half(k) + 1 - fY
  {
    if fY <= Half(k) {
      NoneRowSelection(src, k, x, y, fY, -Half(k));
      OtherRowSelection(src, k, x, y, fY, -Half(k));
      RowsAgree(src, k, x, y, fY + 1);
    }
  }

  // ---------------------------------------------------------------------
  // What the engine reads.
  // ---------------------------------------------------------------------

  /** Two buffers of the same shape whose pixels agree in their low byte. */
  predicate SameSamples(a: array2<Pixel>, b: array2<Pixel>)
    reads a, b
  {
    a.Length0 == b.Length0 && a.Length1 == b.Length1 &&
    forall i, j :: 0 <= i < a.Length0 && 0 <= j < a.Length1 ==> Blue(a[i, j]) == Blue(b[i, j])
  }

  /** The output depends on the source only through its low bytes. */
  lemma ReadsOnlyLowByte(a: array2<Pixel>, b: array2<Pixel>, k: Kernel, p: BoundaryPolicy, x: int, y: int)
    requires IsKernel(k) && SameSamples(a, b)
    ensures ConvolvedPixel(a, k, p, x, y) == ConvolvedPixel(b, k, p, x, y)
  {
    RowsFromSameSamples(a, b, k, p, x, y, -Half(k));
  }

  lemma {:induction false} RowsFromSameSamples(a: array2<Pixel>, b: array2<Pixel>, k: Kernel, p: BoundaryPolicy, x: int, y: int, fY: int)
    requires IsKernel(k) && SameSamples(a, b) && -Half(k) <= fY <= Half(k) + 1
    ensures RowsFrom(a, k, p, x, y, fY) == RowsFrom(b, k, p, x, y, fY)
    decreases Half(k) + 1 - fY
  {
    if fY <= Half(k) {
      RowFromSameSamples(a, b, k, p, x, y, fY, -Half(k));
      RowsFromSameSamples(a, b, k, p, x, y, fY + 1);
    }
  }

  lemma {:induction false} RowFromSameSamples(a: array2<Pixel>, b: array2<Pixel>, k: Kernel, p: BoundaryPolicy, x: int, y: int, fY: int, fX: int)
    requires IsKernel(k) && SameSamples(a, b)
    requires -Half(k) <= fY <= Half(k) && -Half(k) <= fX <= Half(k) + 1
    ensures RowFrom(a, k, p, x, y, fY, fX) == RowFrom(b, k, p, x, y, fY, fX)
    decreases Half(k) + 1 - fX
  {
    if fX <= Half(k) {
      RowFromSameSamples(a, b, k, p, x, y, fY, fX + 1);
    }
  }

  /**
   * A 1x1 kernel `[[c]]` with `c != 0` reproduces a gray source pixel exactly,
   * under either policy.
   */
  lemma UnitKernelKeepsGray(src: array2<Pixel>, c: int, p: BoundaryPolicy, x: int, y: int)
    requires c != 0 && InImage(src, x, y) && IsGray(src[x, y])
    ensures ConvolvedPixel(src, [[c]], p, x, y) == src[x, y]
  {
    var k := [[c]];
    var b := Sample(src, x, y);
    assert RowFrom(src, k, p, x, y, 0, 1) == 0;
    assert RowsFrom(src, k, p, x, y, 1) == 0;
    assert PixelSum(src, k, p, x, y) == b * c;
    assert Sum(k[0]) == c by {
      assert k[0][..0] == [];
    }
    assert TotalWeight(k) == RowsWeight(k, 0) + Sum(k[0]) == c;
    RoundExact(b, c);
    assert ConvolvedValue(src, k, p, x, y) == b;
    PackOfGray(src[x, y]);
    ByteValue(b);
  }
}
