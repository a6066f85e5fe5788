/**
 * The raster object: a `width x height` buffer of packed ARGB pixels,
 * indexed `[x, y]`, that grayscale reduction rewrites in place and that
 * convolution replaces with a freshly allocated buffer.
 */
module ImageProcessing {
  import opened Pixels
  import opened Kernels
  import opened Convolution

  class Image {
    var image: array2<Pixel>
    var width: nat
    var height: nat

    /** The recorded dimensions are those of the buffer. */
    ghost predicate Valid()
      reads this
    {
      image.Length0 == width && image.Length1 == height
    }

    /** Wraps an existing buffer (shared, not copied) and records its size. */
    constructor (srcImage: array2<Pixel>)
      ensures Valid()
      ensures image == srcImage
      ensures width == srcImage.Length0 && height == srcImage.Length1
    {
      image := srcImage;
      width := srcImage.Length0;
      height := srcImage.Length1;
    }

    /**
     * Replaces every pixel by the opaque gray pixel whose channels hold the
     * integer mean of its red, green and blue channels, row by row.
     */
    method ConvertToGrayScale()
      requires Valid()
      modifies image
      ensures Valid() && image == old(image)
      ensures width == old(width) && height == old(height)
      ensures forall x, y :: 0 <= x < width && 0 <= y < height ==>
                image[x, y] == GrayOf(old(image[x, y]))
    {
      var y := 0;
      while y < height
        invariant 0 <= y <= height
        invariant forall i, j :: 0 <= i < width && 0 <= j < y ==>
                    image[i, j] == GrayOf(old(image[i, j]))
        invariant forall i, j :: 0 <= i < width && y <= j < height ==>
                    image[i, j] == old(image[i, j])
      {
        var x := 0;
        while x < width
          invariant 0 <= x <= width
          invariant forall i, j :: 0 <= i < width && 0 <= j < y ==>
                      image[i, j] == GrayOf(old(image[i, j]))
          invariant forall i :: 0 <= i < x ==> image[i, y] == GrayOf(old(image[i, y]))
          invariant forall i, j :: 0 <= i < width && y <= j < height && (j > y || i >= x) ==>
                      image[i, j] == old(image[i, j])
        {
          var value := image[x, y];
          var red := Red(value) as int;
          var green := Green(value) as int;
          var blue := Blue(value) as int;
          var newValue := (red + green + blue) / 3;
          image[x, y] := Gray(newValue);
          x := x + 1;
        }
        y := y + 1;
      }
    }

    /** Convolution with the default boundary policy, `None`. */
    method ConvolveImageDefault(filter: Kernel)
      requires Valid() && IsKernel(filter)
      modifies this
      ensures Valid() && width == old(width) && height == old(height)
      ensures fresh(image)
      ensures forall x, y :: 0 <= x < width && 0 <= y < height ==>
                image[x, y] == old(ConvolvedPixel(image, filter, None, x, y))
    {
      ConvolveImage(filter, None);
    }

    /**
     * Convolves the buffer with `filter` under policy `p`. Each output pixel is
     * computed from the old buffer only, and the result is a new buffer of the
     * same shape that then becomes the image.
     */
    method ConvolveImage(filter: Kernel, p: BoundaryPolicy)
      requires Valid() && IsKernel(filter)
      modifies this
      ensures Valid() && width == old(width) && height == old(height)
      ensures fresh(image)
      ensures forall x, y :: 0 <= x < width && 0 <= y < height ==>
                image[x, y] == old(ConvolvedPixel(image, filter, p, x, y))
    {
      var src := image;
      var output := new Pixel[width, height];
      var fSum := GetFilterSum(filter);
      if fSum == 0 {
        fSum := 1;
      }
      assert fSum == Divisor(filter);

      var y := 0;
      while y < height
        modifies output
        invariant 0 <= y <= height
        invariant forall i, j :: 0 <= i < width && 0 <= j < y ==>
                    output[i, j] == ConvolvedPixel(src, filter, p, i, j)
      {
        var x := 0;
        while x < width
          modifies output
          invariant 0 <= x <= width
          invariant forall i, j :: 0 <= i < width && 0 <= j <= y && (j < y || i < x) ==>
                      output[i, j] == ConvolvedPixel(src, filter, p, i, j)
        {
          var filterSum := AccumulateTaps(src, filter, p, x, y);
          var filterTotal := Rounding.RoundHalfUp(filterSum, fSum);
          if filterTotal > 255 {
            filterTotal := 255;
          } else if filterTotal < 0 {
            filterTotal := 0;
          }
          assert filterTotal == Rounding.Clamp(Rounding.RoundHalfUp(filterSum, fSum));
          output[x, y] := Gray(filterTotal);
          x := x + 1;
        }
        y := y + 1;
      }
      image := output;
    }

    /**
     * Sums the kernel's weights, visiting `filter[x][y]` with `y` in the outer
     * loop; the result is the total of every weight.
     */
    method GetFilterSum(filter: Kernel) returns (sum: int)
      requires IsSquare(filter)
      ensures sum == TotalWeight(filter)
    {
      sum := 0;
      var y := 0;
      while y < |filter|
        invariant 0 <= y <= |filter|
        invariant sum == SourceOrderSum(filter, y)
      {
        var x := 0;
        while x < |filter[0]|
          invariant 0 <= x <= |filter|
          invariant sum == SourceOrderSum(filter, y) + ColumnSum(filter, y, x)
        {
          sum := sum + filter[x][y];
          x := x + 1;
        }
        y := y + 1;
      }
      SourceOrderIsTotal(filter);
    }
  }
}
