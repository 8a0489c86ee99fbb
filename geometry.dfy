// The rectangle arithmetic shared by the per-pixel processors
// (ColorMatrixProcessor.cs, AlphaProcessor.cs, OrderedDitherProcessor.cs):
// the processed rectangle is clipped to the image and the rows and columns
// it visits are turned into offsets into the pixel buffer.

module Geometry {
  import opened Common

  /** SixLabors.Primitives.Rectangle: integer position and size. */
  datatype Rectangle = Rectangle(x: int, y: int, width: int, height: int) {
    function Right(): int { x + width }
    function Bottom(): int { y + height }

    predicate Contains(px: int, py: int) {
      x <= px < Right() && y <= py < Bottom()
    }
  }

  /** Image.Bounds: the rectangle at the origin with the image's size. */
  function Bounds(width: nat, height: nat): Rectangle {
    Rectangle(0, 0, width, height)
  }

  /**
   * The loop bounds of a per-pixel processor: columns minX <= x < maxX and
   * rows minY <= y < maxY, each visited cell being the pixel at
   * (x - startX, y - startY).
   */
  datatype Region = Region(minX: int, maxX: int, minY: int, maxY: int, startX: int, startY: int) {
    /** The pixel at column cx and row cy is one the loops visit. */
    predicate Writes(cx: int, cy: int) {
      minX <= cx + startX < maxX && minY <= cy + startY < maxY
    }

    /**
     * Every row offset the loops ask for, and every column offset of a row
     * with at least one column, lies inside a width x height buffer.
     */
    predicate FitsIn(width: nat, height: nat) {
      maxY <= minY || (maxY - startY <= height && (maxX <= minX || maxX - startX <= width))
    }

    /**
     * The exception of the first offset outside a width x height buffer, in
     * loop order: the first row's span, then a column of that row, then a
     * later row's span.
     */
    function OutOfRange(width: nat, height: nat): Error {
      if minY - startY < height && minX < maxX && maxX - startX > width then IndexOutOfRange else SliceOutOfRange
    }
  }

  /**
   * "Align start/end positions" and "Reset offset if necessary": clip the
   * rectangle to the image, and keep the rectangle's own origin as offset
   * only on an axis where it does not start inside the image.
   */
  function Align(r: Rectangle, width: nat, height: nat): Region {
    var minX := Max(0, r.x);
    var maxX := Min(width, r.Right());
    var minY := Max(0, r.y);
    var maxY := Min(height, r.Bottom());
    Region(minX, maxX, minY, maxY, if minX > 0 then 0 else r.x, if minY > 0 then 0 else r.y)
  }

  /**
   * The offset kept is the rectangle's origin when that is left of (above)
   * the image or on its edge, and zero otherwise; so no offset is negative.
   */
  lemma AlignOffsets(r: Rectangle, width: nat, height: nat)
    ensures var g := Align(r, width, height);
      g.startX == Min(r.x, 0) && g.startY == Min(r.y, 0)
    ensures var g := Align(r, width, height);
      forall cx, cy :: g.Writes(cx, cy) ==> 0 <= cx && 0 <= cy
  {
  }

  /**
   * Which pixels are visited: the column cx is processed exactly when the
   * loop column cx + startX lies in both the image and the rectangle.
   */
  lemma AlignWrites(r: Rectangle, width: nat, height: nat, cx: int, cy: int)
    ensures var g := Align(r, width, height);
      g.Writes(cx, cy) <==>
        (0 <= cx + g.startX < width && 0 <= cy + g.startY < height && r.Contains(cx + g.startX, cy + g.startY))
  {
  }

  /**
   * A rectangle whose origin lies in the image (or on its top/left edge)
   * processes exactly its intersection with the image, and never leaves the
   * pixel buffer.
   */
  lemma AlignInsideImage(r: Rectangle, width: nat, height: nat)
    requires 0 <= r.x && 0 <= r.y
    ensures var g := Align(r, width, height);
      (forall cx, cy :: g.Writes(cx, cy) <==> 0 <= cx < width && 0 <= cy < height && r.Contains(cx, cy))
      && g.FitsIn(width, height)
  {
    var g := Align(r, width, height);
    AlignOffsets(r, width, height);
    forall cx, cy
      ensures g.Writes(cx, cy) <==> 0 <= cx < width && 0 <= cy < height && r.Contains(cx, cy)
    {
      AlignWrites(r, width, height, cx, cy);
    }
  }

  /** The image's own bounds process every pixel once. */
  lemma AlignBounds(width: nat, height: nat)
    ensures var g := Align(Bounds(width, height), width, height);
      (forall cx, cy :: g.Writes(cx, cy) <==> 0 <= cx < width && 0 <= cy < height)
      && g.FitsIn(width, height)
  {
    AlignInsideImage(Bounds(width, height), width, height);
  }

  /** A rectangle that misses the image, or is empty, processes nothing. */
  lemma AlignOutside(r: Rectangle, width: nat, height: nat)
    requires r.x >= width || r.y >= height || r.Right() <= 0 || r.Bottom() <= 0
             || r.width <= 0 || r.height <= 0
    ensures var g := Align(r, width, height);
      (forall cx, cy :: !g.Writes(cx, cy)) && (g.maxX <= g.minX || g.maxY <= g.minY)
  {
  }

  /**
   * A rectangle that starts left of the image is not clipped in place: the
   * processed pixels are shifted right by -r.x, and a rectangle wider than
   * the image then asks for a column past the end of the buffer.
   */
  lemma ShiftedLeftEdge()
    ensures var g := Align(Rectangle(-1, 0, 5, 1), 4, 4);
      !g.Writes(0, 0) && g.Writes(4, 0) && !g.FitsIn(4, 4)
  {
  }

  /**
   * A rectangle that starts one row above a non-empty image and reaches its
   * bottom keeps startY = -1, so its last row asks GetRowSpan for row
   * height: the span, not an element index, is out of range.
   */
  lemma ShiftedTopEdge(width: nat, height: nat)
    requires height > 0
    ensures var g := Align(Rectangle(0, -1, width, height + 1), width, height);
      g.startY == -1 && g.maxY == height && !g.FitsIn(width, height)
      && g.OutOfRange(width, height) == SliceOutOfRange
  {
  }
}
