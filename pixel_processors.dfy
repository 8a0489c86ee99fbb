// The three processors that rewrite pixels one by one inside a rectangle:
// ColorMatrixProcessor.cs, AlphaProcessor.cs and OrderedDitherProcessor.cs.
// The pixel format's conversions, the companding curves, the matrix
// transform and the ditherer are supplied as functions; the model fixes
// which of them is applied to which pixel, in which order.

module PixelProcessors {
  import opened Wrappers
  import opened Common
  import opened Geometry
  import opened PixelLoops
  import opened Colors

  /** System.Numerics.Vector4, in exact arithmetic. */
  datatype Vector4 = Vector4(x: real, y: real, z: real, w: real)

  /** The component-wise product, Vector4 * Vector4. */
  function Times(a: Vector4, b: Vector4): Vector4 {
    Vector4(a.x * b.x, a.y * b.y, a.z * b.z, a.w * b.w)
  }

  /** Matrix4x4: sixteen entries, read only by the transform the model is given. */
  datatype Matrix4x4 = Matrix4x4(entries: seq<real>)

  /**
   * A pixel format TPixel: ToVector4, PackFromVector4, PackFromRgba32 (used
   * by Color.As), and whether it is Alpha8.
   */
  datatype PixelFormat<!P(!new)> = PixelFormat(
    toVector: P -> Vector4,
    pack: Vector4 -> P,
    fromColor: Color -> P,
    isAlpha8: bool)
  {
    /** Packing a pixel's own vector gives the pixel back. */
    ghost predicate RoundTrips() {
      forall p :: pack(toVector(p)) == p
    }
  }

  /** Vector4.Expand, Vector4.Compress and Vector4.Transform. */
  datatype VectorMath = VectorMath(
    expand: Vector4 -> Vector4,
    compress: Vector4 -> Vector4,
    transform: (Vector4, Matrix4x4) -> Vector4)

  // ---- ColorMatrixProcessor ----

  /** One pixel: expand if companding, transform by the matrix, compress if companding, pack. */
  function ColorMatrixPixel<P(!new)>(format: PixelFormat<P>, math: VectorMath, matrix: Matrix4x4, compand: bool, pixel: P): P {
    var v := format.toVector(pixel);
    var linear := if compand then math.expand(v) else v;
    var transformed := math.transform(linear, matrix);
    format.pack(if compand then math.compress(transformed) else transformed)
  }

  function ColorMatrixStep<P(!new)>(format: PixelFormat<P>, math: VectorMath, matrix: Matrix4x4, compand: bool): (int, int, P) -> P {
    (x: int, y: int, pixel: P) => ColorMatrixPixel(format, math, matrix, compand, pixel)
  }

  /**
   * A matrix that transforms every vector to itself leaves every pixel as
   * it is, provided companding (when on) and packing are lossless.
   */
  lemma ColorMatrixIdentity<P(!new)>(format: PixelFormat<P>, math: VectorMath, matrix: Matrix4x4, compand: bool, pixel: P)
    requires format.RoundTrips()
    requires forall v :: math.transform(v, matrix) == v
    requires compand ==> forall v :: math.compress(math.expand(v)) == v
    ensures ColorMatrixPixel(format, math, matrix, compand, pixel) == pixel
  {
    var v := format.toVector(pixel);
    if compand {
      assert math.compress(math.expand(v)) == v;
    }
  }

  /**
   * ColorMatrixProcessor: an abstract matrix filter; Compand defaults to
   * true here, overriding the false of ImageProcessor.
   */
  class ColorMatrixProcessor {
    const matrix: Matrix4x4
    var compand: bool

    constructor (matrix: Matrix4x4)
      ensures this.matrix == matrix && compand
    {
      this.matrix := matrix;
      compand := true;
    }

    /** OnApply: the matrix step over the clipped rectangle, with the companding flag read once. */
    method OnApply<P(!new)>(pixels: array2<P>, r: Rectangle, format: PixelFormat<P>, math: VectorMath)
      returns (outcome: Outcome)
      modifies pixels
      ensures Applied(pixels, r, ColorMatrixStep(format, math, matrix, compand), outcome)
    {
      var step := ColorMatrixStep(format, math, matrix, compand);
      ghost var visits;
      outcome, visits := ProcessRegion(pixels, r, step);
    }
  }

  // ---- AlphaProcessor ----

  /** One pixel: its vector times (1, 1, 1, value), packed. */
  function AlphaPixel<P(!new)>(format: PixelFormat<P>, value: real, pixel: P): P {
    format.pack(Times(format.toVector(pixel), Vector4(1.0, 1.0, 1.0, value)))
  }

  function AlphaStep<P(!new)>(format: PixelFormat<P>, value: real): (int, int, P) -> P {
    (x: int, y: int, pixel: P) => AlphaPixel(format, value, pixel)
  }

  /** The multiplication keeps red, green and blue and scales alpha by the value. */
  lemma AlphaScalesOnlyAlpha(v: Vector4, value: real)
    ensures var s := Times(v, Vector4(1.0, 1.0, 1.0, value));
      s.x == v.x && s.y == v.y && s.z == v.z && s.w == v.w * value
  {
  }

  /** With value 1 every vector is unchanged, and so is every pixel of a lossless format. */
  lemma AlphaOneIsIdentity<P(!new)>(format: PixelFormat<P>, pixel: P)
    requires format.RoundTrips()
    ensures AlphaPixel(format, 1.0, pixel) == pixel
  {
    var v := format.toVector(pixel);
    assert Times(v, Vector4(1.0, 1.0, 1.0, 1.0)) == v;
  }

  /** AlphaProcessor: Value is the accepted percentage. */
  class AlphaProcessor {
    const value: real

    constructor Init(percent: real)
      requires 0.0 <= percent <= 1.0
      ensures value == percent
    {
      value := percent;
    }

    /** new AlphaProcessor(percent): a percentage outside [0, 1] is rejected. */
    static method New(percent: real) returns (r: Result<AlphaProcessor, Error>)
      ensures r.Success? <==> 0.0 <= percent <= 1.0
      ensures r.Success? ==> fresh(r.value) && r.value.value == percent
      ensures r.Failure? ==> r.error == ArgumentOutOfRange("percent")
    {
      if percent < 0.0 || percent > 1.0 {
        return Failure(ArgumentOutOfRange("percent"));
      }
      var p := new AlphaProcessor.Init(percent);
      return Success(p);
    }

    method OnApply<P(!new)>(pixels: array2<P>, r: Rectangle, format: PixelFormat<P>)
      returns (outcome: Outcome)
      modifies pixels
      ensures Applied(pixels, r, AlphaStep(format, value), outcome)
    {
      ghost var visits;
      outcome, visits := ProcessRegion(pixels, r, AlphaStep(format, value));
    }
  }

  /**
   * With value 1 over a lossless format a completed pass changes nothing
   * anywhere in the image.
   */
  twostate lemma AlphaOneUnchanged<P(!new)>(pixels: array2<P>, r: Rectangle, format: PixelFormat<P>, outcome: Outcome)
    requires format.RoundTrips()
    requires Applied(pixels, r, AlphaStep(format, 1.0), outcome) && outcome == Done
    ensures forall row, col :: 0 <= row < pixels.Length0 && 0 <= col < pixels.Length1 ==>
      pixels[row, col] == old(pixels[row, col])
  {
    forall row, col | 0 <= row < pixels.Length0 && 0 <= col < pixels.Length1
      ensures pixels[row, col] == old(pixels[row, col])
    {
      AlphaOneIsIdentity(format, old(pixels[row, col]));
      assert AlphaStep(format, 1.0)(col, row, old(pixels[row, col])) == old(pixels[row, col]);
    }
  }

  // ---- OrderedDitherProcessor ----

  /**
   * IOrderedDither.Dither(image, source, upper, lower, bytes, index, x, y,
   * width, height), as the pixel it leaves at (x, y).
   */
  type Ditherer<!P(!new)> = (P, P, P, int, int, int, int, int) -> P

  function DitherStep<P(!new)>(dither: Ditherer<P>, upper: P, lower: P, index: int, maxX: int, maxY: int): (int, int, P) -> P {
    (x: int, y: int, pixel: P) => dither(pixel, upper, lower, index, x, y, maxX, maxY)
  }

  /** The component index tested: forced to 3 (alpha) for Alpha8 pixels. */
  function DitherIndex<P(!new)>(format: PixelFormat<P>, index: int): (i: int)
    ensures format.isAlpha8 ==> i == 3
    ensures !format.isAlpha8 ==> i == index
  {
    if format.isAlpha8 then 3 else index
  }

  class OrderedDitherProcessor<P(!new)> {
    const dither: Ditherer<P>
    const index: int
    var upperColor: Color
    var lowerColor: Color

    constructor Init(dither: Ditherer<P>, index: int)
      requires 0 <= index <= 3
      ensures this.dither == dither && this.index == index
      ensures upperColor == White && lowerColor == Black
    {
      this.dither := dither;
      this.index := index;
      upperColor := White;
      lowerColor := Black;
    }

    /**
     * new OrderedDitherProcessor(dither, index): a null ditherer, then an
     * index outside [0, 3], is rejected; colours default to white over black.
     */
    static method New(dither: Option<Ditherer<P>>, index: int) returns (r: Result<OrderedDitherProcessor<P>, Error>)
      ensures r.Success? <==> dither.Some? && 0 <= index <= 3
      ensures dither.None? ==> r == Failure(ArgumentNull("dither"))
      ensures dither.Some? && !(0 <= index <= 3) ==> r == Failure(ArgumentOutOfRange("index"))
      ensures r.Success? ==> fresh(r.value) && r.value.dither == dither.value && r.value.index == index
                             && r.value.upperColor == White && r.value.lowerColor == Black
    {
      if dither.None? {
        return Failure(ArgumentNull("dither"));
      }
      if index < 0 || index > 3 {
        return Failure(ArgumentOutOfRange("index"));
      }
      var p := new OrderedDitherProcessor.Init(dither.value, index);
      return Success(p);
    }

    /**
     * BeforeApply: the same rectangle goes through a fresh Bt709 grayscale
     * processor first; a failure there comes out wrapped by that processor's
     * Apply (unless a debug build).
     */
    method BeforeApply(pixels: array2<P>, r: Rectangle, format: PixelFormat<P>, math: VectorMath,
                       bt709: Matrix4x4, debug: bool)
      returns (outcome: Outcome)
      modifies pixels
      ensures var e := Align(r, pixels.Length1, pixels.Length0).OutOfRange(pixels.Length1, pixels.Length0);
        Applied(pixels, r, ColorMatrixStep(format, math, bt709, true), if outcome == Done then Done else Threw(e))
        && (outcome.Threw? ==> outcome.error == if debug then e else ImageProcessing("GrayscaleBt709Processor", e))
    {
      var grayscale := new ColorMatrixProcessor(bt709);
      var inner := grayscale.OnApply(pixels, r, format, math);
      if inner.Threw? {
        outcome := Threw(if debug then inner.error else ImageProcessing("GrayscaleBt709Processor", inner.error));
      } else {
        outcome := Done;
      }
    }

    /**
     * OnApply: each visited pixel, in raster order, is handed to the
     * ditherer with the upper and lower colours in the pixel format, the
     * component index, its own offsets and the loop bounds maxX and maxY.
     */
    method OnApply(pixels: array2<P>, r: Rectangle, format: PixelFormat<P>)
      returns (outcome: Outcome, ghost visits: seq<(int, int)>)
      modifies pixels
      ensures var g := Align(r, pixels.Length1, pixels.Length0);
        Applied(pixels, r,
                DitherStep(dither, format.fromColor(upperColor), format.fromColor(lowerColor),
                           DitherIndex(format, index), g.maxX, g.maxY),
                outcome)
        && (outcome == Done ==> Raster(visits) && forall c :: c in visits <==> g.Writes(c.0, c.1))
    {
      var i := DitherIndex(format, index);
      var g := Align(r, pixels.Length1, pixels.Length0);
      var upper := format.fromColor(upperColor);
      var lower := format.fromColor(lowerColor);
      outcome, visits := ProcessRegion(pixels, r, DitherStep(dither, upper, lower, i, g.maxX, g.maxY));
    }
  }
}
