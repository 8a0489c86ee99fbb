// The metadata property store (src/ImageSharp/MetaData/ImageMetaData.cs),
// property tags (src/ImageSharp/MetaData/ImagePropertyTag.cs) and the
// memoising tag caches (ExifImagePropertyTag.cs, OtherPropertyTag.cs,
// OtherStringPropertyTag.cs). A tag is an object: properties are matched by
// tag identity, as the .NET code compares tag references.

module MetaData {
  import opened Wrappers
  import opened Common

  /** ExifDataType; Unlisted stands for a number cast to the enumeration that names none of its members. */
  datatype ExifDataType =
    | Unknown | Byte | Ascii | Short | Long | Rational | SignedByte | Undefined
    | SignedShort | SignedLong | SignedRational | SingleFloat | DoubleFloat
    | Unlisted(code: int)

  /** The boxed values a property or an Exif value holds, as far as the model tells them apart. */
  datatype Value = Null | Real(r: real) | Int(i: int) | Text(s: string) | Flag(b: bool) | Ratio(q: real)

  /** ExifValue: tag code, data type, value and whether it is an array. */
  datatype ExifValue = ExifValue(tag: int, dataType: ExifDataType, value: Value, isArray: bool)

  /** ExifTag codes the model names (TIFF 6.0 and Exif 2.2 tag numbers; Unknown is 0xFFFF). */
  const UnknownTag: int := 0xFFFF
  const OrientationTag: int := 0x0112
  const XResolutionTag: int := 0x011A
  const YResolutionTag: int := 0x011B

  /** value?.ToString(): null stays null, a string is itself, any other value is formatted by show. */
  function ToText(v: Value, show: Value -> string): (t: Option<string>)
    ensures t.None? <==> v == Null
  {
    match v
    case Null => None
    case Text(s) => Some(s)
    case _ => Some(show(v))
  }

  /** What a tag's ConvertToExifValues does with a property. */
  datatype Conversion =
    /** ImagePropertyTag's own: one Ascii value under ExifTag.Unknown, unless the value is null. */
    | AsText
    /** OtherPropertyTag's: nothing. */
    | NoValues

  class PropertyTag {
    const tagNamespace: string
    const name: string
    /** The raw name an Other tag was created for; the Name otherwise. */
    const tagName: string
    const allowMultiple: bool
    const conversion: Conversion

    constructor Init(tagNamespace: string, name: string, tagName: string, allowMultiple: bool, conversion: Conversion)
      requires name != []
      ensures this.tagNamespace == tagNamespace && this.name == name && this.tagName == tagName
      ensures this.allowMultiple == allowMultiple && this.conversion == conversion
    {
      this.tagNamespace := tagNamespace;
      this.name := name;
      this.tagName := tagName;
      this.allowMultiple := allowMultiple;
      this.conversion := conversion;
    }

    /** new ImagePropertyTag(name): a null or empty name is rejected. */
    static method New(tagNamespace: string, name: Option<string>) returns (r: Result<PropertyTag, Error>)
      ensures name.None? ==> r == Failure(ArgumentNull("name"))
      ensures name == Some([]) ==> r == Failure(Argument("name"))
      ensures r.Success? <==> name.Some? && name.value != []
      ensures r.Success? ==>
        fresh(r.value) && r.value.name == name.value && r.value.tagNamespace == tagNamespace
        && r.value.conversion == AsText
    {
      if name.None? {
        return Failure(ArgumentNull("name"));
      }
      if name.value == [] {
        return Failure(Argument("name"));
      }
      var t := new PropertyTag.Init(tagNamespace, name.value, name.value, false, AsText);
      return Success(t);
    }
  }

  /**
   * ImageProperty: a tag and a value; typed says whether it is an
   * ImageProperty<T> of its tag's type, as every property a tag creates is.
   */
  datatype Property = Property(tag: PropertyTag, value: Value, typed: bool)

  /** ConvertToExifValues of a property, through its tag. */
  function ConvertToExifValues(p: Property, show: Value -> string): seq<ExifValue> {
    match p.tag.conversion
    case AsText => if p.value == Null then [] else [ExifValue(UnknownTag, Ascii, Text(ToText(p.value, show).value), false)]
    case NoValues => []
  }

  /**
   * ImagePropertyTag's conversion yields nothing for a null value, and
   * otherwise exactly one Ascii value under ExifTag.Unknown holding the
   * value's string form; an Other tag's yields nothing.
   */
  lemma ConvertToExifValuesCases(p: Property, show: Value -> string)
    ensures p.tag.conversion == AsText && p.value == Null ==> ConvertToExifValues(p, show) == []
    ensures p.tag.conversion == AsText && p.value != Null ==>
      |ConvertToExifValues(p, show)| == 1
      && ConvertToExifValues(p, show)[0].tag == UnknownTag
      && ConvertToExifValues(p, show)[0].dataType == Ascii
      && Some(ConvertToExifValues(p, show)[0].value.s) == ToText(p.value, show)
    ensures p.tag.conversion == NoValues ==> ConvertToExifValues(p, show) == []
  {
  }

  // ---- The property list ----

  /** The properties with the tag, in order (GetProperties). */
  function WithTag(ps: seq<Property>, tag: PropertyTag): (r: seq<Property>)
    ensures |r| <= |ps|
    ensures forall i :: 0 <= i < |r| ==> r[i] in ps && r[i].tag == tag
    ensures forall i :: 0 <= i < |ps| && ps[i].tag == tag ==> ps[i] in r
  {
    if ps == [] then []
    else (if ps[0].tag == tag then [ps[0]] else []) + WithTag(ps[1..], tag)
  }

  /** The properties with other tags, in order. */
  function Without(ps: seq<Property>, tag: PropertyTag): (r: seq<Property>)
    ensures forall i :: 0 <= i < |r| ==> r[i] in ps && r[i].tag != tag
    ensures forall i :: 0 <= i < |ps| && ps[i].tag != tag ==> ps[i] in r
  {
    if ps == [] then []
    else (if ps[0].tag == tag then [] else [ps[0]]) + Without(ps[1..], tag)
  }

  /** The last property with the tag (LastOrDefault). */
  function Last(ps: seq<Property>, tag: PropertyTag): (r: Option<Property>)
    ensures r.Some? ==> r.value in ps && r.value.tag == tag
    ensures r.None? ==> forall i :: 0 <= i < |ps| ==> ps[i].tag != tag
  {
    if ps == [] then None
    else if ps[|ps| - 1].tag == tag then Some(ps[|ps| - 1])
    else Last(ps[..|ps| - 1], tag)
  }

  /** The last ImageProperty<T> with the tag (OfType, then LastOrDefault). */
  function LastTyped(ps: seq<Property>, tag: PropertyTag): (r: Option<Property>)
    ensures r.Some? ==> r.value in ps && r.value.tag == tag && r.value.typed
  {
    if ps == [] then None
    else if ps[|ps| - 1].tag == tag && ps[|ps| - 1].typed then Some(ps[|ps| - 1])
    else LastTyped(ps[..|ps| - 1], tag)
  }

  /** What SetProperty leaves: every property with p's tag removed, then p appended. */
  function Set(ps: seq<Property>, p: Property): seq<Property> {
    Without(ps, p.tag) + [p]
  }

  /** No two properties share a tag. */
  predicate UniqueTags(ps: seq<Property>) {
    forall i, j :: 0 <= i < j < |ps| ==> ps[i].tag != ps[j].tag
  }

  /** SetProperty for each of others, in order (LoadFrom). */
  function SetAll(ps: seq<Property>, others: seq<Property>): seq<Property>
    decreases |others|
  {
    if others == [] then ps else SetAll(Set(ps, others[0]), others[1..])
  }

  lemma {:induction false} WithoutKeepsOrder(ps: seq<Property>, tag: PropertyTag, other: PropertyTag)
    requires other != tag
    ensures WithTag(Without(ps, tag), other) == WithTag(ps, other)
  {
    if ps != [] {
      WithoutKeepsOrder(ps[1..], tag, other);
      assert Without(ps, tag) == (if ps[0].tag == tag then [] else [ps[0]]) + Without(ps[1..], tag);
      WithTagAppend(if ps[0].tag == tag then [] else [ps[0]], Without(ps[1..], tag), other);
    }
  }

  lemma {:induction false} WithTagAppend(a: seq<Property>, b: seq<Property>, tag: PropertyTag)
    ensures WithTag(a + b, tag) == WithTag(a, tag) + WithTag(b, tag)
  {
    if a != [] {
      assert (a + b)[1..] == a[1..] + b;
      WithTagAppend(a[1..], b, tag);
    } else {
      assert a + b == b;
    }
  }

  lemma {:induction false} LastOfAppend(a: seq<Property>, b: seq<Property>, tag: PropertyTag)
    ensures Last(a + b, tag) == if Last(b, tag).Some? then Last(b, tag) else Last(a, tag)
    ensures LastTyped(a + b, tag) == if LastTyped(b, tag).Some? then LastTyped(b, tag) else LastTyped(a, tag)
    decreases |b|
  {
    if b == [] {
      assert a + b == a;
    } else {
      assert (a + b)[..|a + b| - 1] == a + b[..|b| - 1];
      LastOfAppend(a, b[..|b| - 1], tag);
    }
  }

  lemma {:induction false} WithoutHidesTag(ps: seq<Property>, tag: PropertyTag)
    ensures Last(Without(ps, tag), tag) == None && LastTyped(Without(ps, tag), tag) == None
  {
    var w := Without(ps, tag);
    assert forall p :: p in w ==> p.tag != tag;
    NoTagNoLastTyped(w, tag);
  }

  lemma {:induction false} NoTagNoMatches(ps: seq<Property>, tag: PropertyTag)
    requires forall i :: 0 <= i < |ps| ==> ps[i].tag != tag
    ensures WithTag(ps, tag) == []
  {
    if ps != [] {
      NoTagNoMatches(ps[1..], tag);
    }
  }

  lemma {:induction false} NoTagNoLastTyped(ps: seq<Property>, tag: PropertyTag)
    requires forall p :: p in ps ==> p.tag != tag
    ensures LastTyped(ps, tag) == None
  {
    if ps != [] {
      assert forall p :: p in ps[..|ps| - 1] ==> p in ps;
      NoTagNoLastTyped(ps[..|ps| - 1], tag);
    }
  }

  lemma {:induction false} WithoutLast(ps: seq<Property>, tag: PropertyTag, other: PropertyTag)
    requires other != tag
    ensures Last(Without(ps, tag), other) == Last(ps, other)
    ensures LastTyped(Without(ps, tag), other) == LastTyped(ps, other)
    decreases |ps|
  {
    if ps != [] {
      var init := ps[..|ps| - 1];
      var x := ps[|ps| - 1];
      assert ps == init + [x];
      WithoutAppend(init, [x], tag);
      WithoutLast(init, tag, other);
      LastOfAppend(Without(init, tag), Without([x], tag), other);
      assert [x][1..] == [];
      assert Without([x], tag) == if x.tag == tag then [] else [x];
      assert [x][..0] == [];
      LastOfAppend(init, [x], other);
    }
  }

  lemma {:induction false} WithoutAppend(a: seq<Property>, b: seq<Property>, tag: PropertyTag)
    ensures Without(a + b, tag) == Without(a, tag) + Without(b, tag)
  {
    if a != [] {
      var head := if a[0].tag == tag then [] else [a[0]];
      assert (a + b)[0] == a[0] && (a + b)[1..] == a[1..] + b;
      assert Without(a + b, tag) == head + Without(a[1..] + b, tag);
      WithoutAppend(a[1..], b, tag);
      assert Without(a, tag) == head + Without(a[1..], tag);
      assert head + (Without(a[1..], tag) + Without(b, tag)) == head + Without(a[1..], tag) + Without(b, tag);
    } else {
      assert a + b == b;
    }
  }

  /**
   * After SetProperty(p) the one property with p's tag is p, and it is
   * last; every other tag's properties, and their order, are as before.
   */
  lemma SetProperty(ps: seq<Property>, p: Property)
    ensures WithTag(Set(ps, p), p.tag) == [p]
    ensures Set(ps, p)[|Set(ps, p)| - 1] == p
    ensures Last(Set(ps, p), p.tag) == Some(p)
    ensures LastTyped(Set(ps, p), p.tag) == if p.typed then Some(p) else None
    ensures forall t :: t != p.tag ==>
      WithTag(Set(ps, p), t) == WithTag(ps, t) && Last(Set(ps, p), t) == Last(ps, t)
      && LastTyped(Set(ps, p), t) == LastTyped(ps, t)
  {
    var w := Without(ps, p.tag);
    WithTagAppend(w, [p], p.tag);
    NoTagNoMatches(w, p.tag);
    assert [p][1..] == [];
    assert [p][..0] == [];
    LastOfAppend(w, [p], p.tag);
    WithoutHidesTag(ps, p.tag);
    forall t | t != p.tag
      ensures WithTag(Set(ps, p), t) == WithTag(ps, t) && Last(Set(ps, p), t) == Last(ps, t)
              && LastTyped(Set(ps, p), t) == LastTyped(ps, t)
    {
      WithTagAppend(w, [p], t);
      WithoutKeepsOrder(ps, p.tag, t);
      LastOfAppend(w, [p], t);
      WithoutLast(ps, p.tag, t);
    }
  }

  /** SetProperty keeps tags unique. */
  lemma SetKeepsUnique(ps: seq<Property>, p: Property)
    requires UniqueTags(ps)
    ensures UniqueTags(Set(ps, p))
  {
    WithoutUnique(ps, p.tag);
    var w := Without(ps, p.tag);
    forall i, j | 0 <= i < j < |Set(ps, p)|
      ensures Set(ps, p)[i].tag != Set(ps, p)[j].tag
    {
      if j == |w| {
        assert Set(ps, p)[i] in w;
      }
    }
  }

  lemma {:induction false} WithoutUnique(ps: seq<Property>, tag: PropertyTag)
    requires UniqueTags(ps)
    ensures UniqueTags(Without(ps, tag))
  {
    if ps != [] {
      WithoutUnique(ps[1..], tag);
      var rest := Without(ps[1..], tag);
      if ps[0].tag != tag {
        forall j | 0 < j < |[ps[0]] + rest|
          ensures ([ps[0]] + rest)[0].tag != ([ps[0]] + rest)[j].tag
        {
          assert ([ps[0]] + rest)[j] in ps[1..];
        }
      }
    }
  }

  /** With unique tags, a tag has at most one property, the one the indexer finds. */
  lemma {:induction false} UniqueWithTag(ps: seq<Property>, tag: PropertyTag)
    requires UniqueTags(ps)
    ensures WithTag(ps, tag) == if Last(ps, tag).Some? then [Last(ps, tag).value] else []
  {
    if ps != [] {
      var init := ps[..|ps| - 1];
      var x := ps[|ps| - 1];
      assert ps == init + [x];
      UniqueWithTag(init, tag);
      WithTagAppend(init, [x], tag);
      assert [x][1..] == [];
      if x.tag == tag {
        assert forall q :: q in init ==> q.tag != tag;
        assert Last(init, tag) == None;
      }
    }
  }

  /**
   * Loading a list whose tags are unique into empty metadata gives that list
   * back: the copy constructor copies.
   */
  lemma {:induction false} SetAllCopies(ps: seq<Property>, others: seq<Property>)
    requires UniqueTags(ps + others)
    ensures SetAll(ps, others) == ps + others
    decreases |others|
  {
    if others != [] {
      var o := others[0];
      assert forall q :: q in ps ==> q.tag != o.tag by {
        forall q | q in ps
          ensures q.tag != o.tag
        {
          var i :| 0 <= i < |ps| && ps[i] == q;
          assert (ps + others)[i] == q && (ps + others)[|ps|] == o;
        }
      }
      WithoutNoTag(ps, o.tag);
      assert Set(ps, o) == ps + [o];
      assert ps + [o] + others[1..] == ps + others;
      SetAllCopies(ps + [o], others[1..]);
    }
  }

  lemma {:induction false} WithoutNoTag(ps: seq<Property>, tag: PropertyTag)
    requires forall q :: q in ps ==> q.tag != tag
    ensures Without(ps, tag) == ps
  {
    if ps != [] {
      assert forall q :: q in ps[1..] ==> q in ps;
      WithoutNoTag(ps[1..], tag);
      assert [ps[0]] + ps[1..] == ps;
    }
  }

  /**
   * The removal loop of SetProperty: ps with its first n properties of the
   * tag removed.
   */
  function DropMatches(ps: seq<Property>, tag: PropertyTag, n: nat): seq<Property> {
    if ps == [] then []
    else if ps[0].tag == tag && n > 0 then DropMatches(ps[1..], tag, n - 1)
    else [ps[0]] + DropMatches(ps[1..], tag, n)
  }

  /** List.Remove: the first element equal to x goes. */
  function RemoveFirst(ps: seq<Property>, x: Property): seq<Property> {
    if ps == [] then []
    else if ps[0] == x then ps[1..]
    else [ps[0]] + RemoveFirst(ps[1..], x)
  }

  lemma {:induction false} DropNone(ps: seq<Property>, tag: PropertyTag)
    ensures DropMatches(ps, tag, 0) == ps
  {
    if ps != [] {
      DropNone(ps[1..], tag);
      assert [ps[0]] + ps[1..] == ps;
    }
  }

  /** Removing the next match found by the Where query drops one more match. */
  lemma {:induction false} RemoveNextMatch(ps: seq<Property>, tag: PropertyTag, n: nat)
    requires n < |WithTag(ps, tag)|
    ensures RemoveFirst(DropMatches(ps, tag, n), WithTag(ps, tag)[n]) == DropMatches(ps, tag, n + 1)
  {
    var x := WithTag(ps, tag)[n];
    if ps[0].tag == tag {
      assert WithTag(ps, tag) == [ps[0]] + WithTag(ps[1..], tag);
      if n > 0 {
        assert x == WithTag(ps[1..], tag)[n - 1];
        RemoveNextMatch(ps[1..], tag, n - 1);
      } else {
        DropNone(ps[1..], tag);
        DropNone(ps, tag);
      }
    } else {
      assert WithTag(ps, tag) == WithTag(ps[1..], tag);
      assert x in WithTag(ps, tag);
      RemoveNextMatch(ps[1..], tag, n);
    }
  }

  /** Dropping every match leaves the properties with other tags. */
  lemma {:induction false} DropAll(ps: seq<Property>, tag: PropertyTag)
    ensures DropMatches(ps, tag, |WithTag(ps, tag)|) == Without(ps, tag)
  {
    if ps != [] {
      DropAll(ps[1..], tag);
    }
  }

  /**
   * The well-known tags ImageMetaData uses (the static tag instances); they
   * are distinct objects.
   */
  class StandardTags {
    const horizontalResolution: PropertyTag
    const verticalResolution: PropertyTag
    const frameDelay: PropertyTag
    const quality: PropertyTag
    const repeatCount: PropertyTag
    const userComment: PropertyTag
    const software: PropertyTag

    predicate Distinct() {
      horizontalResolution != verticalResolution
    }

    constructor (hr: PropertyTag, vr: PropertyTag, fd: PropertyTag, q: PropertyTag, rc: PropertyTag,
                 comment: PropertyTag, software: PropertyTag)
      ensures horizontalResolution == hr && verticalResolution == vr && frameDelay == fd
      ensures quality == q && repeatCount == rc && userComment == comment && this.software == software
    {
      horizontalResolution := hr;
      verticalResolution := vr;
      frameDelay := fd;
      quality := q;
      repeatCount := rc;
      userComment := comment;
      this.software := software;
    }
  }

  /** DefaultHorizontalResolution and DefaultVerticalResolution, in dots per inch. */
  const DefaultResolution: real := 96.0

  /** The resolution setters: a positive value is stored, any other becomes 96. */
  function StoredResolution(value: real): (r: real)
    ensures r > 0.0
    ensures value > 0.0 ==> r == value
    ensures value <= 0.0 ==> r == DefaultResolution
  {
    if value > 0.0 then value else DefaultResolution
  }

  /**
   * The double a resolution property holds. A typed property of a double
   * tag always holds a Real; any other value reads as the default.
   */
  function RealOf(v: Value): real {
    if v.Real? then v.r else DefaultResolution
  }

  /** GetValue<T>(tag, defaultValue) over a property list. */
  function TypedValue(ps: seq<Property>, tag: PropertyTag, defaultValue: Value): Value {
    match LastTyped(ps, tag)
    case Some(p) => p.value
    case None => defaultValue
  }

  class ImageMetaData {
    const tags: StandardTags
    var properties: seq<Property>

    /** The list never holds two properties with the same tag. */
    ghost predicate Valid()
      reads this
    {
      UniqueTags(properties)
    }

    /** new ImageMetaData(): both resolutions set to 96. */
    constructor (tags: StandardTags)
      requires tags.Distinct()
      ensures this.tags == tags
      ensures properties == [Property(tags.horizontalResolution, Real(DefaultResolution), true),
                             Property(tags.verticalResolution, Real(DefaultResolution), true)]
      ensures Valid()
    {
      this.tags := tags;
      properties := [];
      new;
      var hr := Property(tags.horizontalResolution, Real(DefaultResolution), true);
      SetHorizontalResolution(DefaultResolution);
      assert properties == [hr];
      SetVerticalResolution(DefaultResolution);
      assert [hr][1..] == [];
      assert Without([hr], tags.verticalResolution) == [hr] + Without([], tags.verticalResolution);
    }

    /** new ImageMetaData(other): LoadFrom(other) into an empty list. */
    constructor Copy(other: ImageMetaData)
      requires other.Valid()
      ensures tags == other.tags
      ensures properties == other.properties
      ensures Valid()
    {
      tags := other.tags;
      properties := [];
      new;
      LoadFrom(other);
      SetAllCopies([], other.properties);
      assert [] + other.properties == other.properties;
    }

    /** The HorizontalResolution getter: the stored double, 96 when unset. */
    function HorizontalResolution(): real
      reads this
    {
      RealOf(TypedValue(properties, tags.horizontalResolution, Real(DefaultResolution)))
    }

    /** The VerticalResolution getter: the stored double, 96 when unset. */
    function VerticalResolution(): real
      reads this
    {
      RealOf(TypedValue(properties, tags.verticalResolution, Real(DefaultResolution)))
    }

    /** FrameDelay, Quality and RepeatCount: the stored value, 0 when unset. */
    function FrameDelay(): Value
      reads this
    {
      TypedValue(properties, tags.frameDelay, Int(0))
    }

    function Quality(): Value
      reads this
    {
      TypedValue(properties, tags.quality, Int(0))
    }

    function RepeatCount(): Value
      reads this
    {
      TypedValue(properties, tags.repeatCount, Int(0))
    }

    /** The indexer: the last property with the tag, or null. */
    function Get(tag: PropertyTag): Option<Property>
      reads this
    {
      Last(properties, tag)
    }

    /** GetValue(tag): the indexer's property's value, or null. */
    function GetValue(tag: PropertyTag): (v: Value)
      reads this
      ensures Get(tag).None? ==> v == Null
      ensures Get(tag).Some? ==> v == Get(tag).value.value
    {
      match Get(tag)
      case Some(p) => p.value
      case None => Null
    }

    /** GetValue<T>(tag, defaultValue). */
    function GetTypedValue(tag: PropertyTag, defaultValue: Value): Value
      reads this
    {
      TypedValue(properties, tag, defaultValue)
    }

    /** GetProperties(tag): every property with the tag, in order. */
    function GetProperties(tag: PropertyTag): seq<Property>
      reads this
    {
      WithTag(properties, tag)
    }

    /**
     * SetProperty: each property the Where query finds with p's tag is
     * removed from the list, then p is added at the end.
     */
    method SetProperty(p: Property)
      modifies this
      ensures properties == Set(old(properties), p)
      ensures old(Valid()) ==> Valid()
    {
      var matches := WithTag(properties, p.tag);
      ghost var original := properties;
      var i := 0;
      DropNone(original, p.tag);
      while i < |matches|
        invariant 0 <= i <= |matches|
        invariant properties == DropMatches(original, p.tag, i)
      {
        RemoveNextMatch(original, p.tag, i);
        properties := RemoveFirst(properties, matches[i]);
        i := i + 1;
      }
      DropAll(original, p.tag);
      properties := properties + [p];
      if UniqueTags(original) {
        SetKeepsUnique(original, p);
      }
    }

    /** SetValue<T>(tag, value): SetProperty of tag.Create(value). */
    method SetValue(tag: PropertyTag, value: Value)
      modifies this
      ensures properties == Set(old(properties), Property(tag, value, true))
      ensures old(Valid()) ==> Valid()
    {
      SetProperty(Property(tag, value, true));
    }

    method SetHorizontalResolution(value: real)
      modifies this
      ensures properties == Set(old(properties), Property(tags.horizontalResolution, Real(StoredResolution(value)), true))
      ensures old(Valid()) ==> Valid()
    {
      if value > 0.0 {
        SetValue(tags.horizontalResolution, Real(value));
      } else {
        SetValue(tags.horizontalResolution, Real(DefaultResolution));
      }
    }

    method SetVerticalResolution(value: real)
      modifies this
      ensures properties == Set(old(properties), Property(tags.verticalResolution, Real(StoredResolution(value)), true))
      ensures old(Valid()) ==> Valid()
    {
      if value > 0.0 {
        SetValue(tags.verticalResolution, Real(value));
      } else {
        SetValue(tags.verticalResolution, Real(DefaultResolution));
      }
    }

    /** Clear, as ReplaceWith calls it: no properties remain. */
    method Clear()
      modifies this
      ensures properties == [] && Valid()
    {
      properties := [];
    }

    /** LoadFrom(other): SetProperty of each of other's properties in turn; nothing when other is this. */
    method LoadFrom(other: ImageMetaData)
      modifies this
      ensures other == this ==> properties == old(properties)
      ensures other != this ==> properties == SetAll(old(properties), old(other.properties))
      ensures old(Valid()) ==> Valid()
    {
      if this != other {
        var source := other.properties;
        var i := 0;
        while i < |source|
          invariant 0 <= i <= |source|
          invariant SetAll(properties, source[i..]) == SetAll(old(properties), source)
          invariant old(Valid()) ==> Valid()
        {
          assert source[i..][1..] == source[i + 1..];
          SetProperty(source[i]);
          i := i + 1;
        }
        assert source[i..] == [];
      }
    }
  }

  /** A new ImageMetaData reads 96 for both resolutions, and 0 for the frame delay when its tag is not a resolution tag. */
  lemma NewMetaDataDefaults(tags: StandardTags)
    requires tags.Distinct()
    ensures var ps := [Property(tags.horizontalResolution, Real(DefaultResolution), true),
                       Property(tags.verticalResolution, Real(DefaultResolution), true)];
      TypedValue(ps, tags.horizontalResolution, Real(0.0)) == Real(DefaultResolution)
      && TypedValue(ps, tags.verticalResolution, Real(0.0)) == Real(DefaultResolution)
      && (tags.frameDelay != tags.horizontalResolution && tags.frameDelay != tags.verticalResolution ==>
            TypedValue(ps, tags.frameDelay, Int(0)) == Int(0))
  {
    var ps := [Property(tags.horizontalResolution, Real(DefaultResolution), true),
               Property(tags.verticalResolution, Real(DefaultResolution), true)];
    assert ps[..|ps| - 1] == [ps[0]];
    assert [ps[0]][..0] == [];
    assert LastTyped(ps, tags.verticalResolution) == Some(ps[1]);
    assert LastTyped(ps, tags.horizontalResolution) == LastTyped([ps[0]], tags.horizontalResolution) == Some(ps[0]);
  }

  /** SetValue then GetValue<T> of the same tag gives the value set; other tags read as before. */
  lemma SetThenGet(ps: seq<Property>, tag: PropertyTag, value: Value, other: PropertyTag, d: Value)
    ensures TypedValue(Set(ps, Property(tag, value, true)), tag, d) == value
    ensures other != tag ==> TypedValue(Set(ps, Property(tag, value, true)), other, d) == TypedValue(ps, other, d)
  {
    SetProperty(ps, Property(tag, value, true));
  }

  /** A tag none of the loaded properties carries reads as before LoadFrom. */
  lemma {:induction false} SetAllKeeps(ps: seq<Property>, others: seq<Property>, tag: PropertyTag, d: Value)
    requires forall i :: 0 <= i < |others| ==> others[i].tag != tag
    ensures TypedValue(SetAll(ps, others), tag, d) == TypedValue(ps, tag, d)
    decreases |others|
  {
    if others != [] {
      SetProperty(ps, others[0]);
      SetAllKeeps(Set(ps, others[0]), others[1..], tag, d);
    }
  }

  /**
   * LoadFrom is last-wins: a typed property that no later loaded property
   * shares a tag with is what GetValue<T> of its tag reads afterwards.
   */
  lemma {:induction false} SetAllLastWins(ps: seq<Property>, others: seq<Property>, i: nat, d: Value)
    requires i < |others| && others[i].typed
    requires forall j :: i < j < |others| ==> others[j].tag != others[i].tag
    ensures TypedValue(SetAll(ps, others), others[i].tag, d) == others[i].value
    decreases |others|
  {
    SetProperty(ps, others[0]);
    if i == 0 {
      SetAllKeeps(Set(ps, others[0]), others[1..], others[0].tag, d);
    } else {
      SetAllLastWins(Set(ps, others[0]), others[1..], i - 1, d);
    }
  }

  /** After a resolution setter the getter reads a positive value: the one set, or 96. */
  lemma ResolutionSetter(ps: seq<Property>, tag: PropertyTag, value: real)
    ensures TypedValue(Set(ps, Property(tag, Real(StoredResolution(value)), true)), tag, Real(DefaultResolution))
      == Real(if value > 0.0 then value else DefaultResolution)
  {
    SetThenGet(ps, tag, Real(StoredResolution(value)), tag, Real(DefaultResolution));
  }

  // ---- The tag caches ----

  /** ExifImagePropertyTag<T>'s static cache, keyed by ExifTag. */
  class ExifTagCache {
    /** ExifTag.ToString(): the enumeration's member names, not part of this model. */
    const tagNames: int -> string
    var cache: map<int, PropertyTag>

    constructor (tagNames: int -> string)
      ensures this.tagNames == tagNames && cache == map[]
    {
      this.tagNames := tagNames;
      cache := map[];
    }

    /**
     * GetTag: the cached tag, or a new one with namespace "Exif" and the
     * tag's name, added to the cache.
     */
    method GetTag(tag: int) returns (t: PropertyTag)
      requires tagNames(tag) != []
      modifies this
      ensures tag in old(cache) ==> t == old(cache)[tag] && cache == old(cache)
      ensures tag !in old(cache) ==>
        fresh(t) && cache == old(cache)[tag := t]
        && t.tagNamespace == "Exif" && t.name == tagNames(tag) && !t.allowMultiple
      ensures tag in cache && cache[tag] == t
    {
      if tag in cache {
        return cache[tag];
      }
      t := new PropertyTag.Init("Exif", tagNames(tag), tagNames(tag), false, AsText);
      cache := cache[tag := t];
    }
  }

  /** OtherPropertyTag's static cache, keyed by name. */
  class OtherTagCache {
    var cache: map<string, PropertyTag>

    constructor ()
      ensures cache == map[]
    {
      cache := map[];
    }

    /**
     * Create: the cached tag, or a new one named "Other - " + name that
     * allows multiple values, converts to no Exif values and keeps the
     * raw name.
     */
    method Create(name: string) returns (t: PropertyTag)
      modifies this
      ensures name in old(cache) ==> t == old(cache)[name] && cache == old(cache)
      ensures name !in old(cache) ==>
        fresh(t) && cache == old(cache)[name := t]
        && t.name == "Other - " + name && t.tagName == name && t.allowMultiple && t.conversion == NoValues
      ensures name in cache && cache[name] == t
    {
      if name in cache {
        return cache[name];
      }
      t := new PropertyTag.Init("", "Other - " + name, name, true, NoValues);
      cache := cache[name := t];
    }
  }

  /** OtherStringPropertyTag's static cache; its constructor is private, so Get is the only source of instances. */
  class OtherStringTagCache {
    var cache: map<string, PropertyTag>

    constructor ()
      ensures cache == map[]
    {
      cache := map[];
    }

    method Get(name: string) returns (t: PropertyTag)
      modifies this
      ensures name in old(cache) ==> t == old(cache)[name] && cache == old(cache)
      ensures name !in old(cache) ==>
        fresh(t) && cache == old(cache)[name := t]
        && t.name == "Other - " + name && t.tagName == name && t.allowMultiple && t.conversion == AsText
      ensures name in cache && cache[name] == t
    {
      if name in cache {
        return cache[name];
      }
      t := new PropertyTag.Init("", "Other - " + name, name, true, AsText);
      cache := cache[name := t];
    }
  }
}
