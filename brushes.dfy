// The pattern brush (src/ImageSharp.Drawing/Brushes/PatternBrush.cs) and
// the image brush (src/ImageSharp.Drawing/Brushes/ImageBrush.cs): each
// creates an applicator that tiles its pattern or image over the target and
// blends one scanline of coverage amounts into a row of the target.
// Images are [row, column] buffers; the pixel blender is a parameter.

module Brushes {
  import opened Wrappers
  import opened Common
  import opened Colors

  // ---- C# integer remainder ----

  /** Taking a remainder moves a value by a multiple of the divisor, in either direction. */
  lemma RemainderGap(a: int, n: int)
    requires a >= 0 && n > 0
    ensures (a - a % n) % n == 0 && (-a + a % n) % n == 0
  {
    var q := a / n;
    assert a == q * n + a % n;
    DivModUnique(a - a % n, n, q, 0);
    assert -a + a % n == (-q) * n;
    DivModUnique(-a + a % n, n, -q, 0);
  }

  /** C#'s % on int: it truncates toward zero, so the remainder has the sign of the dividend. */
  function CRem(a: int, n: int): (r: int)
    requires n > 0
    ensures -n < r < n
    ensures a >= 0 ==> 0 <= r
    ensures a < 0 ==> r <= 0
    ensures (a - r) % n == 0
  {
    if a >= 0 then RemainderGap(a, n); a % n
    else RemainderGap(-a, n); -((-a) % n)
  }

  /** The remainder is not negative exactly when the dividend is not negative or is a multiple of n. */
  lemma CRemNonNegative(a: int, n: int)
    requires n > 0
    ensures CRem(a, n) >= 0 <==> a >= 0 || (-a) % n == 0
  {
  }

  /** For a dividend that is not negative, adding the divisor does not change the remainder. */
  lemma CRemPeriodic(a: int, n: int)
    requires n > 0 && a >= 0
    ensures CRem(a + n, n) == CRem(a, n)
  {
    var q := a / n;
    assert a == q * n + a % n;
    assert a + n == (q + 1) * n + a % n;
    DivModUnique(a + n, n, q + 1, a % n);
  }

  // ---- Shared parts of a brush applicator ----

  /** GraphicsOptions as the applicators use them: BlendPercentage and the pixel blender it selects. */
  datatype GraphicsOptions<!P> = GraphicsOptions(blendPercentage: real, blend: (P, P, real) -> P)

  /** GetRowSpan(x, y).Slice(0, n) on the target: row y, from column x, holds n pixels. */
  predicate Fits<P>(target: array2<P>, n: nat, x: int, y: int) {
    0 <= y < target.Length0 && 0 <= x && x + n <= target.Length1
  }

  /** A coverage amount scaled by BlendPercentage. */
  function Scale(coverage: real, blendPercentage: real): real {
    coverage * blendPercentage
  }

  /** Clamp(v, 0, 1): always in [0, 1], and v itself when v already is. */
  function Clamp01(v: real): (r: real)
    ensures 0.0 <= r <= 1.0
    ensures 0.0 <= v <= 1.0 ==> r == v
    ensures v < 0.0 ==> r == 0.0
    ensures v > 1.0 ==> r == 1.0
  {
    if v < 0.0 then 0.0 else if v > 1.0 then 1.0 else v
  }

  /**
   * Blender.Blend(destination, destination, overlay, amount) on the slice
   * of row y that starts at column x: each pixel of the slice becomes its
   * blend with the overlay pixel at the given amount; the rest of the target
   * is left alone.
   */
  method BlendRow<P>(target: array2<P>, x: int, y: int, overlay: seq<P>, amount: seq<real>, blend: (P, P, real) -> P)
    requires |amount| == |overlay| && Fits(target, |overlay|, x, y)
    modifies target
    ensures forall r, c :: 0 <= r < target.Length0 && 0 <= c < target.Length1 ==>
      target[r, c] == if r == y && x <= c < x + |overlay| then blend(old(target[r, c]), overlay[c - x], amount[c - x]) else old(target[r, c])
  {
    var i := 0;
    while i < |overlay|
      invariant 0 <= i <= |overlay|
      invariant forall r, c :: 0 <= r < target.Length0 && 0 <= c < target.Length1 ==>
        target[r, c] == if r == y && x <= c < x + i then blend(old(target[r, c]), overlay[c - x], amount[c - x]) else old(target[r, c])
    {
      target[y, x + i] := blend(target[y, x + i], overlay[i], amount[i]);
      i := i + 1;
    }
  }

  // ---- Fast2DArray ----

  /** Fast2DArray<T>: width x height cells held row by row in data; cell [row, column] is data[row * width + column]. */
  class Grid<T> {
    const width: nat
    const height: nat
    const data: array<T>

    ghost predicate Valid() {
      data.Length == width * height
    }

    constructor (width: nat, height: nat, data: array<T>)
      ensures this.width == width && this.height == height && this.data == data
    {
      this.width := width;
      this.height := height;
      this.data := data;
    }

    /** The cell [row, column]; an index outside the data throws. */
    function At(row: int, column: int): (c: Result<T, Error>)
      reads data
      ensures c.Success? <==> 0 <= row * width + column < data.Length
      ensures c.Success? ==> c.value == data[row * width + column]
      ensures c.Failure? ==> c.error == IndexOutOfRange
    {
      var i := row * width + column;
      if 0 <= i < data.Length then Success(data[i]) else Failure(IndexOutOfRange)
    }
  }

  /** Inside a valid grid, cell [row, column] exists. */
  lemma GridCell<T>(g: Grid<T>, row: int, column: int)
    requires g.Valid() && 0 <= row < g.height && 0 <= column < g.width
    ensures 0 <= row * g.width + column < g.data.Length
  {
    MulMonotone(row, g.height - 1, g.width);
    assert (g.height - 1) * g.width == g.height * g.width - g.width;
  }

  // ---- PatternBrush ----

  class PatternBrush {
    const foreColor: Color
    const backColor: Color
    const pattern: Grid<bool>

    constructor (foreColor: Color, backColor: Color, pattern: Grid<bool>)
      ensures this.foreColor == foreColor && this.backColor == backColor && this.pattern == pattern
    {
      this.foreColor := foreColor;
      this.backColor := backColor;
      this.pattern := pattern;
    }

    /** The copy constructor: the copy shares the other brush's pattern and has its colours. */
    constructor Copy(brush: PatternBrush)
      ensures pattern == brush.pattern && foreColor == brush.foreColor && backColor == brush.backColor
    {
      pattern := brush.pattern;
      backColor := brush.backColor;
      foreColor := brush.foreColor;
    }

    /** CreateApplicator: the colours converted to the pixel type; the region is not used. */
    method CreateApplicator<P(0), V(0)>(target: array2<P>, asPixel: Color -> P, toVector: P -> V, options: GraphicsOptions<P>)
      returns (applicator: PatternBrushApplicator<P, V>)
      requires pattern.Valid()
      ensures fresh(applicator) && fresh(applicator.pattern) && fresh(applicator.pattern.data)
      ensures applicator.target == target && applicator.options == options && applicator.Valid()
      ensures applicator.pattern.width == pattern.width && applicator.pattern.height == pattern.height
      ensures forall i :: 0 <= i < applicator.pattern.data.Length ==>
        applicator.pattern.data[i] == if pattern.data[i] then asPixel(foreColor) else asPixel(backColor)
    {
      applicator := new PatternBrushApplicator(target, pattern, asPixel(foreColor), asPixel(backColor), toVector, options);
    }
  }

  class PatternBrushApplicator<P(0), V(0)> {
    const target: array2<P>
    const options: GraphicsOptions<P>
    const pattern: Grid<P>
    const patternVector: Grid<V>

    /** Both grids have the flag pattern's shape and are distinct objects. */
    ghost predicate Valid() {
      pattern.Valid() && patternVector.Valid()
      && patternVector.width == pattern.width && patternVector.height == pattern.height
    }

    /**
     * The pattern keeps the flags' dimensions; each cell is the fore colour
     * where its flag is set and the back colour elsewhere, and the vector
     * grid holds each cell's vector.
     */
    constructor (target: array2<P>, flags: Grid<bool>, fore: P, back: P, toVector: P -> V, options: GraphicsOptions<P>)
      requires flags.Valid()
      ensures this.target == target && this.options == options && Valid()
      ensures fresh(pattern) && fresh(pattern.data) && fresh(patternVector) && fresh(patternVector.data)
      ensures pattern.width == flags.width && pattern.height == flags.height
      ensures forall i :: 0 <= i < pattern.data.Length ==>
        pattern.data[i] == (if flags.data[i] then fore else back) && patternVector.data[i] == toVector(pattern.data[i])
    {
      var foreVector := toVector(fore);
      var backVector := toVector(back);
      var cells := new P[flags.data.Length];
      var vectors := new V[flags.data.Length];
      var i := 0;
      while i < flags.data.Length
        invariant 0 <= i <= flags.data.Length
        invariant forall k :: 0 <= k < i ==> cells[k] == (if flags.data[k] then fore else back) && vectors[k] == toVector(cells[k])
      {
        if flags.data[i] {
          cells[i] := fore;
          vectors[i] := foreVector;
        } else {
          cells[i] := back;
          vectors[i] := backVector;
        }
        i := i + 1;
      }
      this.target := target;
      this.options := options;
      pattern := new Grid(flags.width, flags.height, cells);
      patternVector := new Grid(flags.width, flags.height, vectors);
    }

    /** The indexer: the cell [y % height, x % width], with C#'s remainder; a zero dimension divides by zero. */
    function Get(x: int, y: int): Result<P, Error>
      reads pattern.data
    {
      if pattern.width == 0 || pattern.height == 0 then Failure(DivideByZero)
      else pattern.At(CRem(y, pattern.height), CRem(x, pattern.width))
    }

    /**
     * For coordinates that are not negative the indexer finds the cell at
     * [y mod height, x mod width] and repeats with periods width and height.
     */
    lemma GetTiles(x: int, y: int)
      requires Valid() && pattern.width > 0 && pattern.height > 0 && x >= 0 && y >= 0
      ensures Get(x, y).Success? && Get(x, y) == pattern.At(y % pattern.height, x % pattern.width)
      ensures Get(x + pattern.width, y) == Get(x, y)
      ensures Get(x, y + pattern.height) == Get(x, y)
    {
      var w, h := pattern.width, pattern.height;
      var column, row := x % w, y % h;
      assert CRem(x, w) == column && CRem(y, h) == row;
      assert Get(x, y) == pattern.At(row, column);
      GridCell(pattern, row, column);
      CRemPeriodic(x, w);
      assert Get(x + w, y) == pattern.At(row, column);
      CRemPeriodic(y, h);
      assert Get(x, y + h) == pattern.At(row, column);
    }

    /** The indexer yields the fore or the back colour, as the flags say. */
    lemma GetIsForeOrBack(flags: Grid<bool>, fore: P, back: P, x: int, y: int)
      requires Valid() && pattern.width > 0 && pattern.height > 0 && x >= 0 && y >= 0
      requires flags.Valid() && flags.width == pattern.width && flags.height == pattern.height
      requires forall i :: 0 <= i < pattern.data.Length ==> pattern.data[i] == if flags.data[i] then fore else back
      ensures flags.At(y % pattern.height, x % pattern.width).Success?
      ensures Get(x, y) == Success(if flags.At(y % pattern.height, x % pattern.width).value then fore else back)
    {
      GetTiles(x, y);
      GridCell(flags, y % pattern.height, x % pattern.width);
    }

    /** Dispose does nothing. */
    method Dispose()
    {
    }

    /** Apply can read the overlay pixel for column x + i. */
    predicate Readable(x: int, y: int, i: int)
      reads pattern.data
    {
      Get(x + i, y).Success?
    }

    predicate RowReadable(n: nat, x: int, y: int)
      reads pattern.data
    {
      forall i :: 0 <= i < n ==> Readable(x, y, i)
    }

    /** overlay[i] of Apply: pattern[y % height, (x + i) % width]. */
    function Overlay(x: int, y: int, i: int): P
      requires Readable(x, y, i)
      reads pattern.data
    {
      Get(x + i, y).value
    }

    /**
     * Apply: overlay pixel i is the pattern at row y % height and column
     * (x + i) % width, its amount is scanline[i] * BlendPercentage clamped
     * to [0, 1], and row y of the target from column x for the scanline's
     * length is blended with them. A zero height throws before anything
     * else; a zero width throws once there is a pixel to read; a pattern
     * index out of range throws IndexOutOfRange, then a target slice out of
     * range ArgumentOutOfRange; on a throw the target is unchanged.
     */
    method Apply(scanline: seq<real>, x: int, y: int) returns (outcome: Outcome)
      requires Valid()
      modifies target
      ensures outcome == Done <==> pattern.height > 0 && RowReadable(|scanline|, x, y) && Fits(target, |scanline|, x, y)
      ensures outcome.Threw? ==> unchanged(target)
      ensures outcome.Threw? ==>
        outcome.error ==
          if pattern.height == 0 || (|scanline| > 0 && pattern.width == 0) then DivideByZero
          else if RowReadable(|scanline|, x, y) then SliceOutOfRange
          else IndexOutOfRange
      ensures outcome == Done ==> forall r, c :: 0 <= r < target.Length0 && 0 <= c < target.Length1 ==>
        target[r, c] == if r == y && x <= c < x + |scanline|
          then options.blend(old(target[r, c]), Overlay(x, y, c - x), Clamp01(Scale(scanline[c - x], options.blendPercentage)))
          else old(target[r, c])
    {
      if pattern.height == 0 {
        return Threw(DivideByZero);
      }
      var error, amount, overlay := Buffers(scanline, x, y);
      if error.Some? {
        return Threw(error.value);
      }
      if !Fits(target, |scanline|, x, y) {
        assert |scanline| > 0 ==> Readable(x, y, 0);
        return Threw(SliceOutOfRange);
      }
      BlendRow(target, x, y, overlay, amount, options.blend);
      outcome := Done;
    }

    /**
     * The loop of Apply, over its two buffers: the amounts and the overlay
     * pixels, or the exception of the first pixel that cannot be read.
     */
    method Buffers(scanline: seq<real>, x: int, y: int) returns (error: Option<Error>, amount: seq<real>, overlay: seq<P>)
      requires Valid() && pattern.height > 0
      ensures error.None? <==> RowReadable(|scanline|, x, y)
      ensures error.Some? ==> error.value == if pattern.width == 0 then DivideByZero else IndexOutOfRange
      ensures error.None? ==> |amount| == |scanline| && |overlay| == |scanline|
      ensures error.None? ==> forall k :: 0 <= k < |scanline| ==>
        amount[k] == Clamp01(Scale(scanline[k], options.blendPercentage)) && overlay[k] == Overlay(x, y, k)
    {
      var patternY := CRem(y, pattern.height);
      var n := |scanline|;
      var amountBuffer := new real[n];
      var overlayBuffer := new P[n];
      var i := 0;
      while i < n
        invariant 0 <= i <= n
        invariant RowReadable(i, x, y)
        invariant amountBuffer != overlayBuffer
        invariant forall k :: 0 <= k < i ==> amountBuffer[k] == Clamp01(Scale(scanline[k], options.blendPercentage))
        invariant forall k :: 0 <= k < i ==> overlayBuffer[k] == Overlay(x, y, k)
      {
        amountBuffer[i] := Clamp01(Scale(scanline[i], options.blendPercentage));
        if pattern.width == 0 {
          assert !Readable(x, y, i);
          return Some(DivideByZero), [], [];
        }
        var patternX := CRem(x + i, pattern.width);
        var cell := pattern.At(patternY, patternX);
        if cell.Failure? {
          assert !Readable(x, y, i);
          return Some(cell.error), [], [];
        }
        overlayBuffer[i] := cell.value;
        i := i + 1;
      }
      return None, amountBuffer[..], overlayBuffer[..];
    }
  }

  // ---- ImageBrush ----

  /** The brush's image: its pixels [row, column] and whether it has been disposed. */
  class BrushImage<P> {
    const pixels: array2<P>
    var disposed: bool

    constructor (pixels: array2<P>)
      ensures this.pixels == pixels && !disposed
    {
      this.pixels := pixels;
      disposed := false;
    }
  }

  class ImageBrush<P(0)> {
    const image: BrushImage<P>

    constructor (image: BrushImage<P>)
      ensures this.image == image
    {
      this.image := image;
    }

    /** CreateApplicator: an applicator over the brush's image, offset by the region's top left corner. */
    method CreateApplicator(target: array2<P>, regionLeft: real, regionTop: real, options: GraphicsOptions<P>)
      returns (applicator: ImageBrushApplicator<P>)
      ensures fresh(applicator) && applicator.source == image && applicator.target == target && applicator.options == options
      ensures applicator.offsetX == Max(regionLeft.Floor, 0) && applicator.offsetY == Max(regionTop.Floor, 0)
    {
      applicator := new ImageBrushApplicator(target, image, regionLeft, regionTop, options);
    }
  }

  class ImageBrushApplicator<P(0)> {
    const target: array2<P>
    const options: GraphicsOptions<P>
    const source: BrushImage<P>
    const xLength: nat
    const yLength: nat
    const offsetX: int
    const offsetY: int

    /**
     * The lengths are the brush image's width and height; the offsets are
     * the floors of the region's left and top edges, and never negative.
     */
    constructor (target: array2<P>, image: BrushImage<P>, regionLeft: real, regionTop: real, options: GraphicsOptions<P>)
      ensures this.target == target && this.options == options && source == image
      ensures xLength == image.pixels.Length1 && yLength == image.pixels.Length0
      ensures offsetX == Max(regionLeft.Floor, 0) && offsetY == Max(regionTop.Floor, 0)
      ensures offsetX >= 0 && offsetY >= 0
      ensures offsetX <= regionLeft.Floor || regionLeft < 0.0
    {
      this.target := target;
      this.options := options;
      source := image;
      xLength := image.pixels.Length1;
      yLength := image.pixels.Length0;
      offsetY := Max(regionTop.Floor, 0);
      offsetX := Max(regionLeft.Floor, 0);
    }

    /**
     * The indexer: source[(x - offsetX) % xLength, (y - offsetY) % yLength]
     * with C#'s remainder; a zero length divides by zero and a negative
     * remainder is out of range.
     */
    function Get(x: int, y: int): Result<P, Error>
      reads source.pixels
    {
      if xLength == 0 || yLength == 0 then Failure(DivideByZero)
      else
        var srcX := CRem(x - offsetX, xLength);
        var srcY := CRem(y - offsetY, yLength);
        if srcX < 0 || srcY < 0 then Failure(IndexOutOfRange)
        else if srcX < source.pixels.Length1 && srcY < source.pixels.Length0 then Success(source.pixels[srcY, srcX])
        else Failure(IndexOutOfRange)
    }

    /**
     * The indexer reads a pixel exactly when both differences from the
     * offsets are not negative or are multiples of the lengths: left of or
     * above the offset it is in range only on a whole tile boundary.
     */
    lemma GetInRange(x: int, y: int)
      requires xLength == source.pixels.Length1 && yLength == source.pixels.Length0
      requires xLength > 0 && yLength > 0
      ensures Get(x, y).Success? <==>
        (x >= offsetX || (offsetX - x) % xLength == 0) && (y >= offsetY || (offsetY - y) % yLength == 0)
    {
      CRemNonNegative(x - offsetX, xLength);
      CRemNonNegative(y - offsetY, yLength);
    }

    /** Just left of the offset, the indexer throws. */
    lemma GetLeftOfOffset(y: int)
      requires xLength == source.pixels.Length1 && yLength == source.pixels.Length0
      requires xLength > 1 && yLength > 0
      ensures Get(offsetX - 1, y) == Failure(IndexOutOfRange)
    {
    }

    /**
     * From the offsets on, the indexer reads the brush image at the
     * differences modulo the lengths, and tiles with periods xLength and yLength.
     */
    lemma GetTiles(x: int, y: int)
      requires xLength == source.pixels.Length1 && yLength == source.pixels.Length0
      requires xLength > 0 && yLength > 0 && x >= offsetX && y >= offsetY
      ensures Get(x, y) == Success(source.pixels[(y - offsetY) % yLength, (x - offsetX) % xLength])
      ensures Get(x + xLength, y) == Get(x, y)
      ensures Get(x, y + yLength) == Get(x, y)
    {
      CRemPeriodic(x - offsetX, xLength);
      CRemPeriodic(y - offsetY, yLength);
    }

    /** Dispose disposes the brush's image. */
    method Dispose()
      modifies source
      ensures source.disposed
    {
      source.disposed := true;
    }

    /** The source row Apply reads: (y - offsetY) % yLength, which may be negative. */
    function SourceRow(y: int): int
      requires yLength > 0
    {
      CRem(y - offsetY, yLength)
    }

    /** The source column Apply reads for overlay pixel i: (i + x - offsetX) % xLength. */
    function SourceColumn(x: int, i: int): int
      requires xLength > 0
    {
      CRem(i + (x - offsetX), xLength)
    }

    /** Apply can read the overlay pixel for column x + i. */
    predicate Readable(x: int, y: int, i: int) {
      xLength > 0 && yLength > 0
      && 0 <= SourceRow(y) < source.pixels.Length0 && 0 <= SourceColumn(x, i) < source.pixels.Length1
    }

    predicate RowReadable(n: nat, x: int, y: int) {
      yLength > 0 && 0 <= SourceRow(y) && forall i :: 0 <= i < n ==> Readable(x, y, i)
    }

    /** overlay[i] of Apply. */
    function Overlay(x: int, y: int, i: int): P
      requires Readable(x, y, i)
      reads source.pixels
    {
      source.pixels[SourceRow(y), SourceColumn(x, i)]
    }

    /**
     * Apply: overlay pixel i is the brush image at row (y - offsetY) %
     * yLength and column (i + x - offsetX) % xLength, its amount is
     * scanline[i] * BlendPercentage, not clamped, and row y of the target
     * from column x for the scanline's length is blended with them. A zero
     * height throws first, then a source row out of range (the span of
     * GetRowSpan), a zero width once there is a pixel to read, a source
     * column out of range (the row's indexer) and a target slice out of
     * range (Slice); on a throw the target is unchanged. The overlay is
     * read before anything is blended, so a brush image that is the target
     * itself is read as it was.
     */
    method Apply(scanline: seq<real>, x: int, y: int) returns (outcome: Outcome)
      requires xLength == source.pixels.Length1 && yLength == source.pixels.Length0
      modifies target
      ensures outcome == Done <==> RowReadable(|scanline|, x, y) && Fits(target, |scanline|, x, y)
      ensures outcome.Threw? ==> unchanged(target)
      ensures outcome.Threw? ==>
        outcome.error ==
          if yLength == 0 || (|scanline| > 0 && xLength == 0 && SourceRow(y) >= 0) then DivideByZero
          else if SourceRow(y) < 0 || RowReadable(|scanline|, x, y) then SliceOutOfRange
          else IndexOutOfRange
      ensures outcome == Done ==> forall r, c :: 0 <= r < target.Length0 && 0 <= c < target.Length1 ==>
        target[r, c] == if r == y && x <= c < x + |scanline|
          then options.blend(old(target[r, c]), old(Overlay(x, y, c - x)), Scale(scanline[c - x], options.blendPercentage))
          else old(target[r, c])
    {
      var error, amount, overlay := Buffers(scanline, x, y);
      if error.Some? {
        return Threw(error.value);
      }
      if !Fits(target, |scanline|, x, y) {
        assert |scanline| > 0 ==> Readable(x, y, 0);
        return Threw(SliceOutOfRange);
      }
      BlendRow(target, x, y, overlay, amount, options.blend);
      outcome := Done;
    }

    /**
     * The buffers of Apply: the amounts and the overlay pixels, or the
     * exception of the source row or of the first pixel that cannot be read.
     */
    method Buffers(scanline: seq<real>, x: int, y: int) returns (error: Option<Error>, amount: seq<real>, overlay: seq<P>)
      requires xLength == source.pixels.Length1 && yLength == source.pixels.Length0
      ensures error.None? <==> RowReadable(|scanline|, x, y)
      ensures error.Some? ==>
        error.value ==
          if yLength == 0 || (|scanline| > 0 && xLength == 0 && SourceRow(y) >= 0) then DivideByZero
          else if SourceRow(y) < 0 then SliceOutOfRange
          else IndexOutOfRange
      ensures error.None? ==> |amount| == |scanline| && |overlay| == |scanline|
      ensures error.None? ==> forall k :: 0 <= k < |scanline| ==>
        amount[k] == Scale(scanline[k], options.blendPercentage) && overlay[k] == Overlay(x, y, k)
    {
      var n := |scanline|;
      var amountBuffer := new real[n];
      var overlayBuffer := new P[n];
      if yLength == 0 {
        return Some(DivideByZero), [], [];
      }
      var sourceY := CRem(y - offsetY, yLength);
      var offset := x - offsetX;
      if sourceY < 0 {
        return Some(SliceOutOfRange), [], [];
      }
      var i := 0;
      while i < n
        invariant 0 <= i <= n
        invariant i > 0 ==> xLength > 0
        invariant sourceY == SourceRow(y)
        invariant amountBuffer != overlayBuffer
        invariant forall k :: 0 <= k < i ==> Readable(x, y, k)
        invariant forall k :: 0 <= k < i ==> amountBuffer[k] == Scale(scanline[k], options.blendPercentage)
        invariant forall k :: 0 <= k < i ==> overlayBuffer[k] == Overlay(x, y, k)
      {
        amountBuffer[i] := Scale(scanline[i], options.blendPercentage);
        if xLength == 0 {
          assert !Readable(x, y, i);
          return Some(DivideByZero), [], [];
        }
        var sourceX := CRem(i + offset, xLength);
        if sourceX < 0 {
          assert !Readable(x, y, i);
          return Some(IndexOutOfRange), [], [];
        }
        overlayBuffer[i] := source.pixels[sourceY, sourceX];
        i := i + 1;
      }
      return None, amountBuffer[..], overlayBuffer[..];
    }
  }
}
