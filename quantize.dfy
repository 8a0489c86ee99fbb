// QuantizeProcessor (src/ImageSharp/Quantizers/QuantizeProcessor.cs): the
// image is quantized once, in BeforeImageApply, and its pixel buffer is
// replaced by one filled from the palette; the per-frame hooks do nothing.
// The quantizer itself is not part of this model: how its call ends is a parameter.

module Quantization {
  import opened Wrappers
  import opened Common

  /**
   * QuantizedImage: its size, its palette and one palette index (a byte)
   * per pixel, row by row.
   */
  datatype QuantizedImage<P> = QuantizedImage(width: nat, height: nat, palette: seq<P>, pixels: seq<byte>)

  /**
   * The colour the fill loop writes at (x, y): the palette entry at the
   * pixel's index, clamped to the last entry; None where the index lies
   * past the pixel data or the palette is empty (an IndexOutOfRange).
   */
  function Lookup<P>(q: QuantizedImage<P>, x: nat, y: nat): (c: Option<P>)
    ensures c.Some? ==> c.value in q.palette
  {
    var i := x + y * q.width;
    if i < |q.pixels| && |q.palette| > 0 then
      Some(q.palette[Min(|q.palette| - 1, q.pixels[i] as int)])
    else None
  }

  /** Every pixel of the quantized image can be filled. */
  predicate Renders<P>(q: QuantizedImage<P>) {
    forall x: nat, y: nat :: x < q.width && y < q.height ==> Lookup(q, x, y).Some?
  }

  /**
   * The fill succeeds exactly when the image is empty, or the palette is
   * not empty and there is a pixel index for each of width x height pixels.
   */
  lemma RendersIff<P>(q: QuantizedImage<P>)
    ensures Renders(q) <==>
      q.width == 0 || q.height == 0 || (|q.palette| > 0 && q.width * q.height <= |q.pixels|)
  {
    var w, h := q.width, q.height;
    if w > 0 && h > 0 {
      assert (h - 1) * w == h * w - w;
      if Renders(q) {
        assert Lookup(q, w - 1, h - 1).Some?;
      }
      if |q.palette| > 0 && w * h <= |q.pixels| {
        forall x: nat, y: nat | x < w && y < h
          ensures Lookup(q, x, y).Some?
        {
          MulMonotone(y, h - 1, w);
        }
      }
    }
  }

  /** An index past the end of the palette gives the palette's last colour. */
  lemma LookupClamps<P>(q: QuantizedImage<P>, x: nat, y: nat)
    requires x + y * q.width < |q.pixels| && |q.palette| > 0
    requires q.pixels[x + y * q.width] as int >= |q.palette|
    ensures Lookup(q, x, y) == Some(q.palette[|q.palette| - 1])
  {
  }

  /** An index inside the palette is used as it is. */
  lemma LookupExact<P>(q: QuantizedImage<P>, x: nat, y: nat)
    requires x + y * q.width < |q.pixels|
    requires q.pixels[x + y * q.width] as int < |q.palette|
    ensures Lookup(q, x, y) == Some(q.palette[q.pixels[x + y * q.width]])
  {
  }

  /** An empty palette cannot fill a non-empty image. */
  lemma EmptyPaletteFails<P>(q: QuantizedImage<P>)
    requires q.palette == [] && q.width > 0 && q.height > 0
    ensures !Renders(q)
  {
    assert Lookup(q, 0, 0).None?;
  }

  /** ImageBase: the frame's pixel buffer, indexed [row, column]. */
  class ImageBase<P> {
    var pixels: array2<P>

    constructor (pixels: array2<P>)
      ensures this.pixels == pixels
    {
      this.pixels := pixels;
    }

    /** SwapPixelsBuffers: the image takes over the other buffer. */
    method SwapPixelsBuffers(other: array2<P>)
      modifies this
      ensures pixels == other
    {
      pixels := other;
    }
  }

  class QuantizeProcessor {
    /** Whether the quantizer the processor was built with is not null: the constructor does not check. */
    const hasQuantizer: bool
    const maxColors: int
    /** The maxColors of every call made to the quantizer, in order. */
    var quantizerCalls: seq<int>

    constructor (hasQuantizer: bool, maxColors: int)
      ensures this.hasQuantizer == hasQuantizer && this.maxColors == maxColors && quantizerCalls == []
    {
      this.hasQuantizer := hasQuantizer;
      this.maxColors := maxColors;
      quantizerCalls := [];
    }

    /**
     * BeforeImageApply: the quantizer is called once with maxColors, and
     * quantized is how that call ends: the exception it throws, null, or
     * the quantized image q. A new width x height buffer gets the palette
     * colour of every pixel of q and replaces the image's buffer; the
     * rectangle is not used. A null quantizer throws NullReferenceException
     * before any call, the quantizer's own exception propagates unchanged, a
     * null result throws NullReferenceException at its Palette, and an index
     * that cannot be looked up throws IndexOutOfRangeException; in every
     * one of these cases the image keeps its buffer.
     */
    method BeforeImageApply<P(0)>(source: ImageBase<P>, quantized: Result<Option<QuantizedImage<P>>, Error>)
      returns (outcome: Outcome)
      modifies this, source
      ensures quantizerCalls == if hasQuantizer then old(quantizerCalls) + [maxColors] else old(quantizerCalls)
      ensures !hasQuantizer ==> outcome == Threw(NullReference)
      ensures hasQuantizer && quantized.Failure? ==> outcome == Threw(quantized.error)
      ensures hasQuantizer && quantized == Success(None) ==> outcome == Threw(NullReference)
      ensures hasQuantizer && quantized.Success? && quantized.value.Some? ==>
        (outcome == Done <==> Renders(quantized.value.value))
        && (outcome.Threw? ==> outcome.error == IndexOutOfRange)
      ensures outcome.Threw? ==> source.pixels == old(source.pixels)
      ensures outcome == Done ==>
        hasQuantizer && quantized.Success? && quantized.value.Some?
        && var q := quantized.value.value;
        fresh(source.pixels)
        && source.pixels.Length0 == q.height && source.pixels.Length1 == q.width
        && forall y, x :: 0 <= y < q.height && 0 <= x < q.width ==> Some(source.pixels[y, x]) == Lookup(q, x, y)
    {
      if !hasQuantizer {
        return Threw(NullReference);
      }
      quantizerCalls := quantizerCalls + [maxColors];
      if quantized.Failure? {
        return Threw(quantized.error);
      }
      if quantized.value.None? {
        return Threw(NullReference);
      }
      var pixels;
      outcome, pixels := Fill(quantized.value.value);
      if outcome == Done {
        source.SwapPixelsBuffers(pixels);
      }
    }

    /** OnApply does nothing: quantization works on the image as a whole. */
    method OnApply<P>(source: ImageBase<P>)
      ensures source.pixels == old(source.pixels) && quantizerCalls == old(quantizerCalls)
    {
    }
  }

  /**
   * The fill loop of BeforeImageApply, row by row: pixel (x, y) of a new
   * width x height buffer gets the palette entry at index x + y * width,
   * clamped to the last entry.
   */
  method Fill<P(0)>(q: QuantizedImage<P>) returns (outcome: Outcome, pixels: array2<P>)
    ensures outcome == Done <==> Renders(q)
    ensures outcome.Threw? ==> outcome.error == IndexOutOfRange
    ensures fresh(pixels) && pixels.Length0 == q.height && pixels.Length1 == q.width
    ensures outcome == Done ==>
      forall y, x :: 0 <= y < q.height && 0 <= x < q.width ==> Some(pixels[y, x]) == Lookup(q, x, y)
  {
    var paletteCount := |q.palette| - 1;
    pixels := new P[q.height, q.width];
    var y := 0;
    while y < q.height
      invariant 0 <= y <= q.height
      invariant forall yy, x :: 0 <= yy < y && 0 <= x < q.width ==> Some(pixels[yy, x]) == Lookup(q, x, yy)
    {
      var x := 0;
      while x < q.width
        invariant 0 <= x <= q.width
        invariant forall yy, xx :: 0 <= yy < y && 0 <= xx < q.width ==> Some(pixels[yy, xx]) == Lookup(q, xx, yy)
        invariant forall xx :: 0 <= xx < x ==> Some(pixels[y, xx]) == Lookup(q, xx, y)
      {
        var i := x + y * q.width;
        if i >= |q.pixels| || paletteCount < 0 {
          assert Lookup(q, x, y).None?;
          return Threw(IndexOutOfRange), pixels;
        }
        pixels[y, x] := q.palette[Min(paletteCount, q.pixels[i] as int)];
        x := x + 1;
      }
      y := y + 1;
    }
    outcome := Done;
  }
}
