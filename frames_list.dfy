// FramesList (src/ImageSharp/Common/FramesList.cs): the frames of an image,
// held in a list that the operations change in place. Frames are compared
// with ==, as List<T> compares them with Equals; the typed view converts
// each frame with As<TPixel>, a parameter here.

module Frames {
  import opened Wrappers
  import opened Common

  /** List<T>.IndexOf: the index of the first occurrence of x, or -1. */
  function FirstIndex<F(==)>(s: seq<F>, x: F): (r: int)
    ensures -1 <= r < |s|
    ensures r == -1 <==> x !in s
    ensures r >= 0 ==> s[r] == x && x !in s[..r]
  {
    if s == [] then -1
    else if s[0] == x then 0
    else
      var r := FirstIndex(s[1..], x);
      if r == -1 then -1
      else
        assert s[..r + 1] == [s[0]] + s[1..][..r];
        r + 1
  }

  /** List<T>.Insert: x lands at index i, the items before it stay and the later ones move up by one. */
  function Inserted<F>(s: seq<F>, i: int, x: F): (r: seq<F>)
    requires 0 <= i <= |s|
    ensures |r| == |s| + 1 && r[i] == x
    ensures forall j :: 0 <= j < i ==> r[j] == s[j]
    ensures forall j :: i < j < |r| ==> r[j] == s[j - 1]
  {
    s[..i] + [x] + s[i..]
  }

  /** List<T>.RemoveAt: the item at index i goes, the items before it stay and the later ones move down by one. */
  function Removed<F>(s: seq<F>, i: int): (r: seq<F>)
    requires 0 <= i < |s|
    ensures |r| == |s| - 1
    ensures forall j :: 0 <= j < i ==> r[j] == s[j]
    ensures forall j :: i <= j < |r| ==> r[j] == s[j + 1]
  {
    s[..i] + s[i + 1..]
  }

  /** List<T>.Remove: the first occurrence of x goes; a list without x is left as it is. */
  function RemovedFirst<F(==)>(s: seq<F>, x: F): seq<F> {
    if x in s then Removed(s, FirstIndex(s, x)) else s
  }

  /** Removing at the index just inserted at gives the list back. */
  lemma RemoveInserted<F>(s: seq<F>, i: int, x: F)
    requires 0 <= i <= |s|
    ensures Removed(Inserted(s, i, x), i) == s
  {
    var t := Removed(Inserted(s, i, x), i);
    assert forall j :: 0 <= j < |s| ==> t[j] == s[j];
  }

  /** Remove takes out exactly one copy of x when there is one, and nothing otherwise. */
  lemma RemovedFirstMultiset<F>(s: seq<F>, x: F)
    ensures multiset(RemovedFirst(s, x)) == multiset(s) - multiset{x}
    ensures |RemovedFirst(s, x)| == if x in s then |s| - 1 else |s|
  {
    if x in s {
      var i := FirstIndex(s, x);
      assert s == s[..i] + [x] + s[i + 1..];
      assert multiset(s) == multiset(s[..i]) + multiset{x} + multiset(s[i + 1..]);
    }
  }

  /** After Add, IndexOf finds an earlier copy if there is one, and the new last index otherwise. */
  lemma {:induction false} FirstIndexAppend<F>(s: seq<F>, x: F, y: F)
    ensures FirstIndex(s + [x], y) == if y in s then FirstIndex(s, y) else if x == y then |s| else -1
  {
    if s != [] {
      assert (s + [x])[1..] == s[1..] + [x];
      FirstIndexAppend(s[1..], x, y);
    }
  }

  class FramesList<F(==), T> {
    /** The wrapped List<IImageFrame>. */
    var source: seq<F>
    /** As<TPixel>: a frame seen in the list's pixel format. */
    const asPixel: F -> T

    constructor (asPixel: F -> T)
      ensures source == [] && this.asPixel == asPixel
    {
      source := [];
      this.asPixel := asPixel;
    }

    function Count(): nat
      reads this
    {
      |source|
    }

    /** IsReadOnly: the wrapped List<T> never is. */
    const IsReadOnly: bool := false

    /** The untyped indexer: the frame at index, or ArgumentOutOfRange outside [0, Count). */
    function GetFrame(index: int): (r: Result<F, Error>)
      reads this
      ensures r.Success? <==> 0 <= index < Count()
      ensures r.Success? ==> r.value == source[index]
      ensures r.Failure? ==> r.error == ArgumentOutOfRange("index")
    {
      if 0 <= index < |source| then Success(source[index]) else Failure(ArgumentOutOfRange("index"))
    }

    /** The typed indexer: the frame at index converted with As<TPixel>. */
    function Get(index: int): (r: Result<T, Error>)
      reads this
      ensures r.Success? <==> GetFrame(index).Success?
      ensures r.Success? ==> r.value == asPixel(GetFrame(index).value)
    {
      match GetFrame(index)
      case Success(f) => Success(asPixel(f))
      case Failure(e) => Failure(e)
    }

    /** The indexer's setter: the frame at index is replaced; outside [0, Count) it throws and nothing changes. */
    method Set(index: int, item: F) returns (outcome: Outcome)
      modifies this
      ensures 0 <= index < |old(source)| ==> outcome == Done && source == old(source)[index := item]
      ensures !(0 <= index < |old(source)|) ==> outcome == Threw(ArgumentOutOfRange("index")) && source == old(source)
    {
      if !(0 <= index < |source|) {
        return Threw(ArgumentOutOfRange("index"));
      }
      source := source[index := item];
      outcome := Done;
    }

    /** Add: the frame goes at the end; earlier frames stay where they were. */
    method Add(item: F)
      modifies this
      ensures source == old(source) + [item]
      ensures Count() == old(Count()) + 1
    {
      source := source + [item];
    }

    /** Clear: the list is empty. */
    method Clear()
      modifies this
      ensures source == [] && Count() == 0
    {
      source := [];
    }

    /** Contains: whether the frame is in the list. */
    function Contains(item: F): (r: bool)
      reads this
      ensures r <==> item in source
    {
      FirstIndex(source, item) >= 0
    }

    /** IndexOf: the index of the frame's first occurrence, or -1 when it is absent. */
    function IndexOf(item: F): (r: int)
      reads this
      ensures r == -1 <==> !Contains(item)
      ensures r >= 0 ==> GetFrame(r) == Success(item) && item !in source[..r]
    {
      FirstIndex(source, item)
    }

    /** Insert: the frame lands at index and later frames move up; outside [0, Count] it throws and nothing changes. */
    method Insert(index: int, item: F) returns (outcome: Outcome)
      modifies this
      ensures 0 <= index <= |old(source)| ==> outcome == Done && source == Inserted(old(source), index, item)
      ensures !(0 <= index <= |old(source)|) ==> outcome == Threw(ArgumentOutOfRange("index")) && source == old(source)
    {
      if !(0 <= index <= |source|) {
        return Threw(ArgumentOutOfRange("index"));
      }
      source := source[..index] + [item] + source[index..];
      outcome := Done;
    }

    /** Remove: true exactly when the frame was present, and then its first occurrence is gone. */
    method Remove(item: F) returns (removed: bool)
      modifies this
      ensures removed <==> item in old(source)
      ensures source == RemovedFirst(old(source), item)
    {
      var i := IndexOf(item);
      if i < 0 {
        return false;
      }
      source := source[..i] + source[i + 1..];
      removed := true;
    }

    /** RemoveAt: the frame at index goes; outside [0, Count) it throws and nothing changes. */
    method RemoveAt(index: int) returns (outcome: Outcome)
      modifies this
      ensures 0 <= index < |old(source)| ==> outcome == Done && source == Removed(old(source), index)
      ensures !(0 <= index < |old(source)|) ==> outcome == Threw(ArgumentOutOfRange("index")) && source == old(source)
    {
      if !(0 <= index < |source|) {
        return Threw(ArgumentOutOfRange("index"));
      }
      source := source[..index] + source[index + 1..];
      outcome := Done;
    }

    /**
     * CopyTo: the frames, in order, into the array from arrayIndex on; a
     * negative arrayIndex or too little room throws before anything is copied.
     */
    method CopyTo(target: array<F>, arrayIndex: int) returns (outcome: Outcome)
      modifies target
      ensures arrayIndex < 0 ==> outcome == Threw(ArgumentOutOfRange("arrayIndex"))
      ensures arrayIndex >= 0 && target.Length - arrayIndex < |source| ==> outcome == Threw(Argument("arrayIndex"))
      ensures outcome.Threw? ==> target[..] == old(target[..])
      ensures outcome == Done <==> 0 <= arrayIndex && arrayIndex + |source| <= target.Length
      ensures outcome == Done ==>
        target[..] == old(target[..arrayIndex]) + source + old(target[arrayIndex + |source|..])
    {
      if arrayIndex < 0 {
        return Threw(ArgumentOutOfRange("arrayIndex"));
      }
      if target.Length - arrayIndex < |source| {
        return Threw(Argument("arrayIndex"));
      }
      var i := 0;
      while i < |source|
        invariant 0 <= i <= |source|
        invariant target[..] == old(target[..arrayIndex]) + source[..i] + old(target[arrayIndex + i..])
      {
        target[arrayIndex + i] := source[i];
        i := i + 1;
        assert source[..i] == source[..i - 1] + [source[i - 1]];
      }
      assert source[..i] == source;
      outcome := Done;
    }

    /**
     * The typed CopyTo: the same List<T>.CopyTo into an array of the typed
     * frame, with no As<TPixel>, so Array.Copy casts each frame and a frame
     * of another pixel format (isPixel false) throws InvalidCastException.
     * The range checks come first and change nothing; after a failed cast
     * .NET leaves the destination window unspecified, so only the cells
     * outside it are promised.
     */
    method CopyToTyped(target: array<F>, arrayIndex: int, isPixel: F -> bool) returns (outcome: Outcome)
      modifies target
      ensures arrayIndex < 0 ==> outcome == Threw(ArgumentOutOfRange("arrayIndex"))
      ensures arrayIndex >= 0 && target.Length - arrayIndex < |source| ==> outcome == Threw(Argument("arrayIndex"))
      ensures 0 <= arrayIndex && arrayIndex + |source| <= target.Length ==>
        (outcome == Done <==> forall i :: 0 <= i < |source| ==> isPixel(source[i]))
        && (outcome != Done ==> outcome == Threw(InvalidCast))
      ensures outcome.Threw? && outcome != Threw(InvalidCast) ==> target[..] == old(target[..])
      ensures outcome == Threw(InvalidCast) ==>
        0 <= arrayIndex && arrayIndex + |source| <= target.Length
        && target[..arrayIndex] == old(target[..arrayIndex])
        && target[arrayIndex + |source|..] == old(target[arrayIndex + |source|..])
      ensures outcome == Done ==>
        target[..] == old(target[..arrayIndex]) + source + old(target[arrayIndex + |source|..])
    {
      if arrayIndex < 0 {
        return Threw(ArgumentOutOfRange("arrayIndex"));
      }
      if target.Length - arrayIndex < |source| {
        return Threw(Argument("arrayIndex"));
      }
      var i := 0;
      while i < |source|
        invariant 0 <= i <= |source|
        invariant target[..] == old(target[..arrayIndex]) + source[..i] + old(target[arrayIndex + i..])
        invariant forall j :: 0 <= j < i ==> isPixel(source[j])
      {
        if !isPixel(source[i]) {
          assert target[..arrayIndex] == old(target[..arrayIndex]);
          assert target[arrayIndex + |source|..] == old(target[arrayIndex + |source|..]);
          return Threw(InvalidCast);
        }
        target[arrayIndex + i] := source[i];
        i := i + 1;
        assert source[..i] == source[..i - 1] + [source[i - 1]];
      }
      assert source[..i] == source;
      outcome := Done;
    }

    /** The typed enumeration: every frame in insertion order, converted with As<TPixel>. */
    method Enumerate() returns (frames: seq<T>)
      ensures |frames| == Count()
      ensures forall i :: 0 <= i < |frames| ==> Get(i) == Success(frames[i])
    {
      frames := [];
      var i := 0;
      while i < |source|
        invariant 0 <= i <= |source|
        invariant |frames| == i
        invariant forall k :: 0 <= k < i ==> frames[k] == asPixel(source[k])
      {
        frames := frames + [asPixel(source[i])];
        i := i + 1;
      }
    }
  }
}
