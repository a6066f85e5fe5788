# ImageProcessor: grayscale reduction and convolution, modelled in Dafny

This project models the `Image` class of the ImageProcessor edge-detection
program: a raster held as a `width x height` buffer of packed ARGB pixels
(`bv32`, indexed `[x, y]` like `getRGB(x, y)`), with

- grayscale reduction (`convertToGrayScale`), which rewrites every pixel in
  place as the opaque gray pixel whose channels hold `(r + g + b) / 3`;
- the convolution engine (`convolveImage` with `getFilterSum`), which walks
  the kernel footprint around every pixel, drops out-of-range taps according
  to the boundary policy, divides by the kernel's weight sum (or by 1 when
  that sum is zero), rounds half up, clamps into `[0, 255]` and writes an
  opaque gray pixel into a fresh buffer that then replaces the image.

Files:

- `pixels.dfy` (modules `Bytes` and `Pixels`): the value of an integer
  in `[0, 255]` as an 8-bit pattern, channel extraction by mask and shift,
  packing of a gray value, the mean, and the per-pixel grayscale map with
  its round-trip and idempotence lemmas.
- `kernels.dfy` (module `Kernels`): square kernels and square odd-sized ones, their
  total weight, the sum in the order the source visits `filter[x][y]`, the
  proof that both agree, and the zero-sum divisor.
- `rounding.dfy` (module `Rounding`): `Math.round` of an exact quotient and
  the clamp into the byte range, each with an independent characterisation.
- `convolution.dfy` (module `Convolution`): the boundary policy, the
  per-pixel tap sum as the loop runs it (`break` included), the kernel-walk
  method, and lemmas on which taps contribute, on what the engine reads and
  on the unit kernel.
- `image.dfy` (module `ImageProcessing`): the `Image` class with its buffer
  and dimensions, and the methods `ConvertToGrayScale`, `ConvolveImage`,
  `ConvolveImageDefault` and `GetFilterSum`.

`convolveImage` is modelled by `ConvolveImage`, whose two outer loops visit
the pixels and whose two inner loops, the walk over the kernel footprint for
one pixel, form the method `Convolution.AccumulateTaps`; splitting the four
nested loops this way keeps each proof small and changes nothing in the order
of the taps or in the `break`.

The `None` policy is modelled as written: an out-of-range tap ends the inner
`fX` loop for the current `fY`. At the left border the first tap of every
`fY` is already out of range, so under `None` the output pixels of the first
`Half(k)` columns are black (`LeftBorderIsBlack`), whereas from column
`Half(k)` on both policies give the same sum (`PoliciesAgreeFromLeftBorder`).

Kernel weights are integers and the arithmetic is exact: the source's
`float` accumulation becomes an `int` sum, the test
`Math.abs(fSum) < 0.0001` becomes `fSum == 0`, and `Math.round(filterSum /
fSum)` becomes `floor(filterSum / fSum + 1/2)` on the exact rational.

`Image.java` knows two boundary behaviours: under `BoundaryPolicies.None`
an out-of-range tap ends the inner `fX` loop, and under every other value it
adds a zero sample and the loop goes on (Image.java:144-152). The model has
the two policies `None` and `Other`. Kernels are read as
`filter[fX + fW][fY + fH]`, with `fW` half of `filter[0].length` and `fH`
half of `filter.length` (Image.java:127-128, 134-135, 152). The model keeps that exact
index order and takes square kernels of odd size (`IsKernel`). `getFilterSum`
reads `filter[x][y]` over the same bounds and needs only squareness
(`IsSquare`).

## Model

| member | source | states |
|---|---|---|
| `Pixels.Pack` | src/ImageProcessing/Image.java:80 | packing a channel value `c` into alpha `0xff` and `c` in each colour byte (the bitwise or of `0xff000000`, `c<<16`, `c<<8` and `c`) and unpacking it by mask and shift gives alpha `0xff` and `c` in red, green and blue |
| `Pixels.GrayRoundTrip` | src/ImageProcessing/Image.java:76-80 | for an integer `0 <= v <= 255`, the packed gray pixel unpacks to red = green = blue = `v` and alpha `0xff`, and is gray |
| `Pixels.Average` | src/ImageProcessing/Image.java:79 | the integer mean lies in `[0, 255]` and `3v <= r + g + b < 3v + 3`, i.e. it is the mean rounded down |
| `Pixels.GrayOfChannels` | src/ImageProcessing/Image.java:75-81 | the pixel written for `p` is opaque and each of its colour channels equals `(r + g + b) / 3` of `p` |
| `Pixels.GrayOfFixesGray` | src/ImageProcessing/Image.java:72-84 | reducing a pixel that is already opaque gray leaves it unchanged |
| `Pixels.GrayOfIdempotent` | src/ImageProcessing/Image.java:72-84 | reducing a reduced pixel gives the same pixel: grayscale reduction is idempotent |
| `ImageProcessing.Image.constructor` | src/ImageProcessing/Image.java:40-44 | the image shares the given buffer and records its width and height |
| `ImageProcessing.Image.ConvertToGrayScale` | src/ImageProcessing/Image.java:72-84 | in place, every pixel `(x, y)` of the `width x height` buffer becomes the reduction of its own old value; buffer and dimensions stay the same |
| `ImageProcessing.Image.ConvolveImageDefault` | src/ImageProcessing/Image.java:121-123 | convolution under the `None` policy, with the same guarantees as `ConvolveImage` |
| `ImageProcessing.Image.ConvolveImage` | src/ImageProcessing/Image.java:125-167 | the image becomes a fresh buffer of the same `width x height` whose pixel `(x, y)` is the convolved pixel computed from the old buffer alone |
| `ImageProcessing.Image.GetFilterSum` | src/ImageProcessing/Image.java:169-177 | for any square kernel, the loop over `filter[x][y]`, `y` outer, returns the total of every kernel weight |
| `Kernels.SourceOrderIsTotal` | src/ImageProcessing/Image.java:169-177 | for a square kernel, summing in the transposed order the source uses equals the row-by-row total of all weights |
| `Kernels.Divisor` | src/ImageProcessing/Image.java:129-132 | the divisor is never zero: it is 1 when the weight sum is zero, and the weight sum otherwise |
| `Rounding.RoundHalfUp` | src/ImageProcessing/Image.java:156 | `Math.round(n / d)`: the result `r` satisfies `r - 1/2 <= n / d < r + 1/2`, for either sign of `d` |
| `Rounding.RoundExact` | src/ImageProcessing/Image.java:156 | an exact multiple `b * d` rounds to `b` |
| `Rounding.Clamp` | src/ImageProcessing/Image.java:157-161 | the result lies in `[0, 255]` and is the value of that range nearest to the input |
| `Convolution.Sample` | src/ImageProcessing/Image.java:150 | the engine reads only the low byte of a source pixel, a value in `[0, 255]` |
| `Convolution.AccumulateTaps` | src/ImageProcessing/Image.java:138-154 | the kernel walk with its `break` returns the tap sum `PixelSum` of the policy |
| `Convolution.ConvolvedPixelIsGray` | src/ImageProcessing/Image.java:156-163 | every output pixel is opaque gray and its channels hold the rounded, clamped quotient, a value in `[0, 255]` |
| `Convolution.ZeroSumDividesByOne` | src/ImageProcessing/Image.java:129-132 | for a kernel whose weights sum to zero the tap sum is divided by 1, then clamped |
| `Convolution.NoneRowSelection` | src/ImageProcessing/Image.java:139-152 | under `None`, the taps of one `fY` contribute nothing when that source row is out of range or the first tap is left of the buffer, and otherwise exactly the taps up to the right edge contribute |
| `Convolution.OtherRowSelection` | src/ImageProcessing/Image.java:139-152 | under any other policy, exactly the in-range taps of one `fY` contribute; out-of-range taps add zero and the loop goes on |
| `Convolution.LeftBorderIsBlack` | src/ImageProcessing/Image.java:144-147 | under `None`, when the kernel reaches past the left border the tap sum is 0 and the output pixel is black, in-range taps included |
| `Convolution.PoliciesAgreeFromLeftBorder` | src/ImageProcessing/Image.java:139-152 | from column `Half(k)` on, `None` and the other policy give the same tap sum |
| `Convolution.ReadsOnlyLowByte` | src/ImageProcessing/Image.java:150 | two buffers of the same shape that agree in every low byte convolve to the same pixels |
| `Convolution.UnitKernelKeepsGray` | src/ImageProcessing/Image.java:126-166 | a 1x1 kernel `[[c]]` with `c != 0` reproduces every gray source pixel exactly, under either policy |

## Left out

- `generateGaussianKernel` (floating point, `Math.PI` and `Math.exp`) is not part of this model, nor is its integer division in the exponent.
- `detectEdgesSobel` has an empty body; `detectEdgesCanny` only builds the Gaussian kernel and convolves, so it adds nothing beyond `ConvolveImageDefault`.
- The file-loading constructor `Image(String)` (disk I/O), the blank-image constructor `Image(int, int, int)` and the getters `getWidth`, `getHeight`, `getImage` (wrappers over the Java imaging library) are left out; the buffer is a plain `array2` owned by the object.
- Pixel-format conversions of the Java imaging library are not modelled: every buffer is a plain array of packed ARGB words, read and written as they are.
- Floating-point rounding in the accumulation and the division is not modelled: weights are integers and the quotient is exact.
- `ConvolveImage`: kernels that are not square or have an even size are excluded by `IsKernel`. For an even size the tap index `fX + fW` reaches `filter.length`, and a non-square kernel is indexed with its two bounds swapped, so `convolveImage` can fail with an index error, which the model does not reproduce. `GetFilterSum` sums any square kernel and requires only `IsSquare`.
- `GetFilterSum`: a kernel whose inner arrays differ in length from the outer one is excluded by `IsSquare`; `getFilterSum` then reads with mismatched bounds.
- `detectEdgesCanny` ignores its `lowThreshold` and `highThreshold` arguments (Image.java:101-104); no threshold is modelled because the source uses none.
- The windowing form and the image panel are user-interface code and are not part of this model.
