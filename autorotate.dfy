// AutoRotateProcessor
// (src/ImageSharp/Processing/Processors/Transforms/AutoRotateProcessor.cs):
// the Exif Orientation value (tag 274, section 8 of the TIFF 6.0
// specification) is read, reset to TopLeft, and mapped to flip and rotate
// steps applied to the whole image. The flip and rotate processors are not
// part of this model: the image records which steps were applied to it.

module AutoRotate {
  import opened Wrappers
  import opened Common
  import opened Geometry
  import opened MetaData
  import opened Exif

  /** The Orientation values of TIFF 6.0; UnknownOrientation (0) is the library's own. */
  const UnknownOrientation: int := 0
  const TopLeft: int := 1
  const TopRight: int := 2
  const BottomRight: int := 3
  const BottomLeft: int := 4
  const LeftTop: int := 5
  const RightTop: int := 6
  const RightBottom: int := 7
  const LeftBottom: int := 8

  /** A step: a FlipProcessor, or a RotateProcessor with its angle in degrees and its Expand flag. */
  datatype Step = FlipHorizontal | FlipVertical | Rotate(angle: int, expand: bool)

  /** The switch of BeforeImageApply: the steps for each orientation, in order. */
  function Steps(orientation: int): seq<Step> {
    if orientation == TopRight then [FlipHorizontal]
    else if orientation == BottomRight then [Rotate(180, false)]
    else if orientation == BottomLeft then [FlipVertical]
    else if orientation == LeftTop then [Rotate(90, false), FlipHorizontal]
    else if orientation == RightTop then [Rotate(90, false)]
    else if orientation == RightBottom then [FlipVertical, Rotate(270, false)]
    else if orientation == LeftBottom then [Rotate(270, false)]
    else []
  }

  /**
   * Unknown, TopLeft and every value outside the enumeration do nothing;
   * only LeftTop and RightBottom take two steps; no rotation expands the
   * canvas, and every angle is a quarter turn.
   */
  lemma StepsShape(orientation: int)
    ensures Steps(orientation) == [] <==> !(TopRight <= orientation <= LeftBottom)
    ensures |Steps(orientation)| == 2 <==> orientation == LeftTop || orientation == RightBottom
    ensures |Steps(orientation)| <= 2
    ensures forall s :: s in Steps(orientation) && s.Rotate? ==> !s.expand && s.angle in {90, 180, 270}
  {
  }

  // ---- What the steps do to the picture ----

  /**
   * An element of the symmetry group of the square: first a horizontal
   * mirror when mirrored, then turns clockwise quarter turns.
   */
  datatype Symmetry = Symmetry(turns: int, mirrored: bool)

  const Identity: Symmetry := Symmetry(0, false)

  /** Quarter turns modulo 4. */
  function Turns(n: int): (t: int)
    ensures 0 <= t < 4
  {
    n % 4
  }

  /** after o before: a mirror reverses the direction of the turns it follows. */
  function Compose(after: Symmetry, before: Symmetry): Symmetry {
    if after.mirrored then Symmetry(Turns(after.turns - before.turns), !before.mirrored)
    else Symmetry(Turns(after.turns + before.turns), before.mirrored)
  }

  /**
   * A step as a symmetry, reading the rotate processor's angle as clockwise:
   * a vertical flip is a horizontal mirror followed by a half turn.
   */
  function Effect(s: Step): Symmetry {
    match s
    case FlipHorizontal => Symmetry(0, true)
    case FlipVertical => Symmetry(2, true)
    case Rotate(angle, _) => Symmetry(Turns(angle / 90), false)
  }

  /** The steps applied in order: the last one acts last. */
  function EffectOf(steps: seq<Step>): Symmetry
    decreases |steps|
  {
    if steps == [] then Identity
    else Compose(Effect(steps[|steps| - 1]), EffectOf(steps[..|steps| - 1]))
  }

  /**
   * How a stored image relates to the scene for each orientation of TIFF
   * 6.0 (where its 0th row and 0th column lie): mirrored (TopRight), turned
   * half way (BottomRight), flipped top to bottom (BottomLeft), transposed
   * (LeftTop), turned a quarter anticlockwise (RightTop), transposed across
   * the other diagonal (RightBottom), turned a quarter clockwise
   * (LeftBottom).
   */
  function Stored(orientation: int): Symmetry
    requires TopLeft <= orientation <= LeftBottom
  {
    if orientation == TopLeft then Identity
    else if orientation == TopRight then Symmetry(0, true)
    else if orientation == BottomRight then Symmetry(2, false)
    else if orientation == BottomLeft then Symmetry(2, true)
    else if orientation == LeftTop then Symmetry(3, true)
    else if orientation == RightTop then Symmetry(3, false)
    else if orientation == RightBottom then Symmetry(1, true)
    else Symmetry(1, false)
  }

  /**
   * For every orientation TIFF 6.0 defines, the steps undo the way the
   * picture was stored: the image ends up upright.
   */
  lemma StepsUndoOrientation(orientation: int)
    requires TopLeft <= orientation <= LeftBottom
    ensures Compose(EffectOf(Steps(orientation)), Stored(orientation)) == Identity
  {
    if orientation == TopRight {
      OneStep(FlipHorizontal);
    } else if orientation == BottomRight {
      OneStep(Rotate(180, false));
    } else if orientation == BottomLeft {
      OneStep(FlipVertical);
    } else if orientation == LeftTop {
      TwoSteps(Rotate(90, false), FlipHorizontal);
    } else if orientation == RightTop {
      OneStep(Rotate(90, false));
    } else if orientation == RightBottom {
      TwoSteps(FlipVertical, Rotate(270, false));
    } else if orientation == LeftBottom {
      OneStep(Rotate(270, false));
    }
  }

  lemma OneStep(a: Step)
    ensures EffectOf([a]) == Effect(a)
  {
    assert [a][..0] == [];
  }

  lemma TwoSteps(a: Step, b: Step)
    ensures EffectOf([a, b]) == Compose(Effect(b), Effect(a))
  {
    assert [a, b][..1] == [a];
    OneStep(a);
  }

  /** Distinct orientations get distinct corrections. */
  lemma CorrectionsDistinct(a: int, b: int)
    requires TopLeft <= a <= LeftBottom && TopLeft <= b <= LeftBottom && a != b
    ensures EffectOf(Steps(a)) != EffectOf(Steps(b))
  {
    StepsUndoOrientation(a);
    StepsUndoOrientation(b);
    StoredDistinct(a, b);
    ComposeCancels(EffectOf(Steps(a)), Stored(a), Stored(b));
  }

  /** Distinct orientations are stored differently, each with a normalised number of turns. */
  lemma StoredDistinct(a: int, b: int)
    requires TopLeft <= a <= LeftBottom && TopLeft <= b <= LeftBottom && a != b
    ensures Stored(a) != Stored(b)
    ensures 0 <= Stored(a).turns < 4 && 0 <= Stored(b).turns < 4
  {
  }

  /** Composing after the same symmetry tells normalised symmetries apart. */
  lemma ComposeCancels(e: Symmetry, x: Symmetry, y: Symmetry)
    requires 0 <= x.turns < 4 && 0 <= y.turns < 4
    ensures Compose(e, x) == Compose(e, y) ==> x == y
  {
    if e.mirrored {
      TurnsCancel(e.turns, -x.turns, -y.turns);
    } else {
      TurnsCancel(e.turns, x.turns, y.turns);
    }
  }

  /** Adding turns that differ by less than a full circle gives different results modulo 4. */
  lemma TurnsCancel(k: int, m: int, n: int)
    requires -4 < m - n < 4
    ensures Turns(k + m) == Turns(k + n) ==> m == n
  {
    var a, b := (k + m) / 4, (k + n) / 4;
    assert k + m == 4 * a + Turns(k + m);
    assert k + n == 4 * b + Turns(k + n);
  }

  // ---- Reading and resetting the Orientation value ----

  /**
   * Whether the (Orientation) cast unboxes the value: the enum's underlying
   * type is ushort, and an Exif value holds a boxed ushort exactly when it
   * is a single Short.
   */
  predicate UnboxesAsOrientation(v: ExifValue) {
    v.value.Int? && v.dataType == Short && !v.isArray
  }

  /**
   * GetExifOrientation before its write: Unknown without a profile or
   * without an Orientation value; otherwise the value unboxed, which throws
   * NullReferenceException for null and InvalidCastException for anything
   * but a single Short.
   */
  function ReadOrientation(values: Option<seq<ExifValue>>): Result<int, Error> {
    match values
    case None => Success(UnknownOrientation)
    case Some(vs) =>
      match FirstValue(vs, OrientationTag)
      case None => Success(UnknownOrientation)
      case Some(v) =>
        if v.value == Null then Failure(NullReference)
        else if UnboxesAsOrientation(v) then Success(v.value.i)
        else Failure(InvalidCast)
  }

  /** Orientation 6 stored as a 32-bit Long is not a boxed ushort: the cast throws, so nothing is rotated. */
  lemma LongOrientationThrows(rest: seq<ExifValue>)
    ensures ReadOrientation(Some([ExifValue(OrientationTag, Long, Int(6), false)] + rest)) == Failure(InvalidCast)
  {
  }

  /** A single Short Orientation value is read as its number. */
  lemma ShortOrientationRead(i: int, rest: seq<ExifValue>)
    ensures ReadOrientation(Some([ExifValue(OrientationTag, Short, Int(i), false)] + rest)) == Success(i)
  {
  }

  /** The image being rotated: its Exif profile (possibly null) and the steps applied to it, each with its rectangle. */
  class OrientedImage {
    const profile: ExifProfile?
    var transforms: seq<(Step, Rectangle)>

    constructor (profile: ExifProfile?)
      ensures this.profile == profile && transforms == []
    {
      this.profile := profile;
      transforms := [];
    }

    function ProfileValues(): Option<seq<ExifValue>>
      reads this, profile
    {
      if profile == null then None else Some(profile.values)
    }

    method Apply(step: Step, r: Rectangle)
      modifies this
      ensures transforms == old(transforms) + [(step, r)]
    {
      transforms := transforms + [(step, r)];
    }
  }

  /** The steps of an orientation, each over the rectangle. */
  function Over(steps: seq<Step>, r: Rectangle): (applied: seq<(Step, Rectangle)>)
    ensures |applied| == |steps|
    ensures forall i :: 0 <= i < |steps| ==> applied[i] == (steps[i], r)
  {
    if steps == [] then [] else [(steps[0], r)] + Over(steps[1..], r)
  }

  class AutoRotateProcessor {
    constructor ()
    {
    }

    /**
     * GetExifOrientation: the value read as ReadOrientation says; a value
     * that was read is overwritten with TopLeft.
     */
    static method GetExifOrientation(source: OrientedImage) returns (r: Result<int, Error>)
      modifies source.profile
      ensures r == ReadOrientation(old(source.ProfileValues()))
      ensures source.profile != null && r.Success? && FirstValue(old(source.profile.values), OrientationTag).Some? ==>
        source.profile.values == ProfileSet(old(source.profile.values), OrientationTag, Int(TopLeft), source.profile.declared)
      ensures source.profile != null && !(r.Success? && FirstValue(old(source.profile.values), OrientationTag).Some?) ==>
        source.profile.values == old(source.profile.values)
    {
      if source.profile == null {
        return Success(UnknownOrientation);
      }
      var value := source.profile.GetValue(OrientationTag);
      if value.None? {
        return Success(UnknownOrientation);
      }
      var v := value.value;
      if v.value == Null {
        return Failure(NullReference);
      }
      if !UnboxesAsOrientation(v) {
        return Failure(InvalidCast);
      }
      r := Success(v.value.i);
      source.profile.SetValue(OrientationTag, Int(TopLeft));
    }

    /**
     * BeforeImageApply: the orientation's steps, in order, each over the
     * source rectangle; nothing when reading the orientation throws.
     */
    method BeforeImageApply(source: OrientedImage, r: Rectangle) returns (outcome: Outcome)
      modifies source, source.profile
      ensures var read := ReadOrientation(old(source.ProfileValues()));
        (read.Failure? ==> outcome == Threw(read.error) && source.transforms == old(source.transforms))
        && (read.Success? ==> outcome == Done && source.transforms == old(source.transforms) + Over(Steps(read.value), r))
      ensures source.profile != null && outcome == Done && FirstValue(old(source.profile.values), OrientationTag).Some? ==>
        source.profile.values == ProfileSet(old(source.profile.values), OrientationTag, Int(TopLeft), source.profile.declared)
      ensures source.profile != null && !(outcome == Done && FirstValue(old(source.profile.values), OrientationTag).Some?) ==>
        source.profile.values == old(source.profile.values)
    {
      var orientation := GetExifOrientation(source);
      if orientation.Failure? {
        return Threw(orientation.error);
      }
      var o := orientation.value;
      if o == TopRight {
        source.Apply(FlipHorizontal, r);
      } else if o == BottomRight {
        source.Apply(Rotate(180, false), r);
      } else if o == BottomLeft {
        source.Apply(FlipVertical, r);
      } else if o == LeftTop {
        source.Apply(Rotate(90, false), r);
        source.Apply(FlipHorizontal, r);
      } else if o == RightTop {
        source.Apply(Rotate(90, false), r);
      } else if o == RightBottom {
        source.Apply(FlipVertical, r);
        source.Apply(Rotate(270, false), r);
      } else if o == LeftBottom {
        source.Apply(Rotate(270, false), r);
      }
      outcome := Done;
    }

    /** OnApply does nothing: the processor works on the image as a whole. */
    method OnApply(source: OrientedImage, r: Rectangle)
      ensures source.transforms == old(source.transforms)
    {
    }
  }

  /**
   * Once an Orientation value has been read and reset, reading again gives
   * TopLeft, whose steps are none: a second application changes nothing.
   */
  lemma SecondApplicationIsNoOp(vs: seq<ExifValue>, declared: int -> ExifDataType)
    requires FirstValue(vs, OrientationTag).Some? && ReadOrientation(Some(vs)).Success?
    ensures ReadOrientation(Some(ProfileSet(vs, OrientationTag, Int(TopLeft), declared))) == Success(TopLeft)
    ensures Steps(TopLeft) == []
  {
    ProfileSetGet(vs, OrientationTag, Int(TopLeft), declared, OrientationTag);
  }
}
