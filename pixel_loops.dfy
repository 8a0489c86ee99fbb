// The row-by-row, column-by-column loop of the per-pixel processors
// (ColorMatrixProcessor.OnApply, AlphaProcessor.OnApply,
// OrderedDitherProcessor.OnApply). The pixels are an array2 indexed
// [row, column]; the first row offset outside it fails as the span of
// GetRowSpan does, the first column offset outside it as the span's
// indexer does.

module PixelLoops {
  import opened Common
  import opened Geometry

  /** The visits of row cy, columns x0 <= cx < x1, left to right. */
  function RowOrder(cy: int, x0: int, x1: int): (v: seq<(int, int)>)
    ensures |v| == if x1 <= x0 then 0 else x1 - x0
    decreases x1 - x0
  {
    if x1 <= x0 then [] else RowOrder(cy, x0, x1 - 1) + [(x1 - 1, cy)]
  }

  /** The visits of the loops over rows g.minY <= y < y1, as (column, row) offsets. */
  function RasterOrder(g: Region, y1: int): seq<(int, int)>
    decreases y1 - g.minY
  {
    if y1 <= g.minY then []
    else RasterOrder(g, y1 - 1) + RowOrder(y1 - 1 - g.startY, g.minX - g.startX, g.maxX - g.startX)
  }

  /** The order the loops promise: row by row, and left to right in a row. */
  predicate Before(a: (int, int), b: (int, int)) {
    a.1 < b.1 || (a.1 == b.1 && a.0 < b.0)
  }

  predicate Raster(v: seq<(int, int)>) {
    forall i, j :: 0 <= i < j < |v| ==> Before(v[i], v[j])
  }

  lemma {:induction false} RowOrderShape(cy: int, x0: int, x1: int)
    ensures Raster(RowOrder(cy, x0, x1))
    ensures forall c :: c in RowOrder(cy, x0, x1) <==> c.1 == cy && x0 <= c.0 < x1
    decreases x1 - x0
  {
    if x0 < x1 {
      RowOrderShape(cy, x0, x1 - 1);
    }
  }

  /** Rows below row y, followed by row y in raster order, are in raster order. */
  lemma RasterAppend(prev: seq<(int, int)>, row: seq<(int, int)>, y: int)
    requires Raster(prev) && Raster(row)
    requires forall c :: c in prev ==> c.1 < y
    requires forall c :: c in row ==> c.1 == y
    ensures Raster(prev + row)
  {
    var v := prev + row;
    forall i, j | 0 <= i < j < |v|
      ensures Before(v[i], v[j])
    {
      if j < |prev| {
        assert v[i] == prev[i] && v[j] == prev[j];
      } else if i < |prev| {
        assert v[i] in prev && v[j] in row;
      } else {
        assert v[i] == row[i - |prev|] && v[j] == row[j - |prev|];
      }
    }
  }

  /** The visits of the rows up to y1 are exactly the cells the region writes in those rows. */
  lemma {:induction false} RasterOrderCells(g: Region, y1: int)
    requires y1 <= Max(g.minY, g.maxY)
    ensures forall c :: c in RasterOrder(g, y1) <==> g.Writes(c.0, c.1) && c.1 + g.startY < y1
    decreases y1 - g.minY
  {
    if g.minY < y1 {
      var prev := RasterOrder(g, y1 - 1);
      var row := RowOrder(y1 - 1 - g.startY, g.minX - g.startX, g.maxX - g.startX);
      RasterOrderCells(g, y1 - 1);
      RowOrderShape(y1 - 1 - g.startY, g.minX - g.startX, g.maxX - g.startX);
      forall c: (int, int)
        ensures c in prev + row <==> g.Writes(c.0, c.1) && c.1 + g.startY < y1
      {
        assert c in prev + row <==> c in prev || c in row;
      }
    }
  }

  /** The visits of the rows up to y1 are in raster order. */
  lemma {:induction false} RasterOrderSorted(g: Region, y1: int)
    requires y1 <= Max(g.minY, g.maxY)
    ensures Raster(RasterOrder(g, y1))
    decreases y1 - g.minY
  {
    if g.minY < y1 {
      var prev := RasterOrder(g, y1 - 1);
      var row := RowOrder(y1 - 1 - g.startY, g.minX - g.startX, g.maxX - g.startX);
      RasterOrderSorted(g, y1 - 1);
      RasterOrderCells(g, y1 - 1);
      RowOrderShape(y1 - 1 - g.startY, g.minX - g.startX, g.maxX - g.startX);
      RasterAppend(prev, row, y1 - 1 - g.startY);
    }
  }

  /**
   * The visits of the rows up to y1 are in raster order and are exactly
   * the cells the region writes in those rows; a raster sequence repeats no
   * cell, so each written pixel is visited once.
   */
  lemma RasterOrderShape(g: Region, y1: int)
    requires y1 <= Max(g.minY, g.maxY)
    ensures Raster(RasterOrder(g, y1))
    ensures forall c :: c in RasterOrder(g, y1) <==> g.Writes(c.0, c.1) && c.1 + g.startY < y1
  {
    RasterOrderSorted(g, y1);
    RasterOrderCells(g, y1);
  }

  /** A raster sequence holds no cell twice. */
  lemma RasterDistinct(v: seq<(int, int)>)
    requires Raster(v)
    ensures forall i, j :: 0 <= i < j < |v| ==> v[i] != v[j]
  {
    forall i, j | 0 <= i < j < |v|
      ensures v[i] != v[j]
    {
      assert Before(v[i], v[j]);
    }
  }

  /**
   * What a pass of f over the rectangle r did to the pixels: it completed
   * exactly when every offset it asked for was inside the buffer, and then
   * every visited pixel is f of its old value; no pixel outside the visited
   * region changed in any case.
   */
  twostate predicate Applied<P>(pixels: array2<P>, r: Rectangle, f: (int, int, P) -> P, outcome: Outcome)
    reads pixels
  {
    var g := Align(r, pixels.Length1, pixels.Length0);
    (outcome == Done <==> g.FitsIn(pixels.Length1, pixels.Length0))
    && (outcome.Threw? ==> outcome.error == g.OutOfRange(pixels.Length1, pixels.Length0))
    && (outcome == Done ==>
          forall row, col :: 0 <= row < pixels.Length0 && 0 <= col < pixels.Length1 ==>
            pixels[row, col] == if g.Writes(col, row) then f(col, row, old(pixels[row, col])) else old(pixels[row, col]))
    && (forall row, col :: 0 <= row < pixels.Length0 && 0 <= col < pixels.Length1 && !g.Writes(col, row) ==>
          pixels[row, col] == old(pixels[row, col]))
  }

  /**
   * The loops of the per-pixel processors over the rectangle r of the
   * pixels: for each row y of the region, ascending, the row at offset
   * y - startY is fetched; for each column x, ascending, the pixel at
   * x - startX becomes f(column offset, row offset, pixel).
   *
   * It completes exactly when every offset asked for lies in the buffer;
   * then every visited pixel is f of its old value, visited once and in
   * raster order, and no other pixel changes. On failure no pixel outside
   * the region has changed.
   */
  method ProcessRegion<P>(pixels: array2<P>, r: Rectangle, f: (int, int, P) -> P)
    returns (outcome: Outcome, ghost visits: seq<(int, int)>)
    modifies pixels
    ensures Applied(pixels, r, f, outcome)
    ensures var g := Align(r, pixels.Length1, pixels.Length0);
      outcome == Done ==>
        visits == RasterOrder(g, g.maxY)
        && Raster(visits) && (forall c :: c in visits <==> g.Writes(c.0, c.1))
  {
    var g := Align(r, pixels.Length1, pixels.Length0);
    AlignOffsets(r, pixels.Length1, pixels.Length0);
    outcome, visits := ProcessRows(pixels, g, f);
    if outcome == Done {
      RasterOrderShape(g, g.maxY);
    }
  }

  /**
   * The outer loop of ProcessRegion over the loop bounds g: the rows,
   * ascending. It completes exactly when every offset asked for lies in the
   * buffer; then each pixel g writes is f of its old value. No pixel that g
   * does not write changes in any case.
   */
  method ProcessRows<P>(pixels: array2<P>, g: Region, f: (int, int, P) -> P)
    returns (outcome: Outcome, ghost visits: seq<(int, int)>)
    requires g.startX <= g.minX && g.startY <= g.minY
    modifies pixels
    ensures outcome == Done <==> g.FitsIn(pixels.Length1, pixels.Length0)
    ensures outcome.Threw? ==> outcome.error == g.OutOfRange(pixels.Length1, pixels.Length0)
    ensures outcome == Done ==> visits == RasterOrder(g, g.maxY)
    ensures forall row, col :: 0 <= row < pixels.Length0 && 0 <= col < pixels.Length1 && !g.Writes(col, row) ==>
      pixels[row, col] == old(pixels[row, col])
    ensures outcome == Done ==> forall row, col :: 0 <= row < pixels.Length0 && 0 <= col < pixels.Length1 && g.Writes(col, row) ==>
      pixels[row, col] == f(col, row, old(pixels[row, col]))
  {
    visits := [];
    var y := g.minY;
    while y < g.maxY
      invariant g.minY <= y <= Max(g.minY, g.maxY)
      invariant y > g.minY ==>
        y - g.startY <= pixels.Length0 && (g.maxX <= g.minX || g.maxX - g.startX <= pixels.Length1)
      invariant visits == RasterOrder(g, y)
      invariant forall row, col :: 0 <= row < pixels.Length0 && 0 <= col < pixels.Length1 ==>
        pixels[row, col] == if g.Writes(col, row) && row + g.startY < y then f(col, row, old(pixels[row, col])) else old(pixels[row, col])
    {
      var offsetY := y - g.startY;
      if offsetY >= pixels.Length0 {
        return Threw(SliceOutOfRange), visits;
      }
      var rowOutcome, rowVisits := ProcessRow(pixels, g, y, f);
      visits := visits + rowVisits;
      if rowOutcome.Threw? {
        return rowOutcome, visits;
      }
      y := y + 1;
    }
    return Done, visits;
  }

  /**
   * The inner loop of ProcessRegion: the columns of loop row y, left to
   * right. It completes exactly when the row has no column or its last
   * column offset lies in the buffer, and then each pixel the region writes
   * in this row is f of its old value; no other pixel changes in any case.
   */
  method ProcessRow<P>(pixels: array2<P>, g: Region, y: int, f: (int, int, P) -> P)
    returns (outcome: Outcome, ghost visits: seq<(int, int)>)
    requires g.minY <= y < g.maxY && 0 <= y - g.startY < pixels.Length0 && g.startX <= g.minX
    modifies pixels
    ensures outcome == Done <==> g.maxX <= g.minX || g.maxX - g.startX <= pixels.Length1
    ensures outcome.Threw? ==> outcome.error == IndexOutOfRange
    ensures outcome == Done ==> visits == RowOrder(y - g.startY, g.minX - g.startX, g.maxX - g.startX)
    ensures forall row, col :: 0 <= row < pixels.Length0 && 0 <= col < pixels.Length1 && !(row + g.startY == y && g.Writes(col, row)) ==>
      pixels[row, col] == old(pixels[row, col])
    ensures outcome == Done ==> forall row, col :: 0 <= row < pixels.Length0 && 0 <= col < pixels.Length1 && row + g.startY == y && g.Writes(col, row) ==>
      pixels[row, col] == f(col, row, old(pixels[row, col]))
  {
    var offsetY := y - g.startY;
    visits := [];
    var x := g.minX;
    while x < g.maxX
      invariant g.minX <= x <= Max(g.minX, g.maxX)
      invariant x > g.minX ==> x - g.startX <= pixels.Length1
      invariant visits == RowOrder(offsetY, g.minX - g.startX, x - g.startX)
      invariant forall row, col :: 0 <= row < pixels.Length0 && 0 <= col < pixels.Length1 ==>
        pixels[row, col] == if row == offsetY && g.Writes(col, row) && col + g.startX < x
          then f(col, row, old(pixels[row, col])) else old(pixels[row, col])
    {
      var offsetX := x - g.startX;
      if offsetX >= pixels.Length1 {
        return Threw(IndexOutOfRange), visits;
      }
      pixels[offsetY, offsetX] := f(offsetX, offsetY, pixels[offsetY, offsetX]);
      visits := visits + [(offsetX, offsetY)];
      x := x + 1;
    }
    return Done, visits;
  }
}
