// Synchronisation between an Exif profile and the image metadata
// (src/ImageSharp/MetaData/Profiles/Exif/ExifProfile.MetaData.cs and
// ExifProfileExtensions.cs). The profile's own value store is reduced to
// what these two files use: a list of values, GetValue/SetValue by tag and
// the resolution accessors.

module Exif {
  import opened Wrappers
  import opened Common
  import opened MetaData

  /** XResolution and YResolution: kept in the profile's own resolution fields, not copied as generic tags. */
  predicate HardCoded(tag: int) {
    tag == XResolutionTag || tag == YResolutionTag
  }

  /** GetValue: the first value with the tag. */
  function FirstValue(vs: seq<ExifValue>, tag: int): (r: Option<ExifValue>)
    ensures r.Some? ==> r.value in vs && r.value.tag == tag
    ensures r.None? ==> forall i :: 0 <= i < |vs| ==> vs[i].tag != tag
  {
    if vs == [] then None
    else if vs[0].tag == tag then Some(vs[0])
    else FirstValue(vs[1..], tag)
  }

  /**
   * SetValue: the first value with the tag takes the new value; without one
   * a new value of the tag's declared data type is appended.
   */
  function ProfileSet(vs: seq<ExifValue>, tag: int, value: Value, declared: int -> ExifDataType): seq<ExifValue> {
    if vs == [] then [ExifValue(tag, declared(tag), value, false)]
    else if vs[0].tag == tag then [vs[0].(value := value)] + vs[1..]
    else [vs[0]] + ProfileSet(vs[1..], tag, value, declared)
  }

  /** GetResolution: the rational value of the tag as a double; None when it is absent. */
  function Resolution(vs: seq<ExifValue>, tag: int): Option<real> {
    match FirstValue(vs, tag)
    case Some(v) => if v.value.Ratio? then Some(v.value.q) else None
    case None => None
  }

  /**
   * After SetValue(tag, value) GetValue(tag) finds the value set; every
   * other tag finds what it found before. The list grows only when the tag
   * was absent.
   */
  lemma {:induction false} ProfileSetGet(vs: seq<ExifValue>, tag: int, value: Value, declared: int -> ExifDataType, other: int)
    ensures FirstValue(ProfileSet(vs, tag, value, declared), tag).Some?
    ensures FirstValue(ProfileSet(vs, tag, value, declared), tag).value.value == value
    ensures FirstValue(vs, tag).Some? ==>
      FirstValue(ProfileSet(vs, tag, value, declared), tag) == Some(FirstValue(vs, tag).value.(value := value))
    ensures other != tag ==> FirstValue(ProfileSet(vs, tag, value, declared), other) == FirstValue(vs, other)
    ensures |ProfileSet(vs, tag, value, declared)| == if FirstValue(vs, tag).Some? then |vs| else |vs| + 1
  {
    if vs != [] && vs[0].tag != tag {
      ProfileSetGet(vs[1..], tag, value, declared, other);
      assert ProfileSet(vs, tag, value, declared)[1..] == ProfileSet(vs[1..], tag, value, declared);
    }
  }

  /** SetResolution then GetResolution of the same tag reads the value back. */
  lemma ResolutionRoundTrip(vs: seq<ExifValue>, tag: int, r: real, declared: int -> ExifDataType, other: int)
    ensures Resolution(ProfileSet(vs, tag, Ratio(r), declared), tag) == Some(r)
    ensures other != tag ==> Resolution(ProfileSet(vs, tag, Ratio(r), declared), other) == Resolution(vs, other)
  {
    ProfileSetGet(vs, tag, Ratio(r), declared, other);
  }

  // ---- LoadFrom: metadata to profile ----

  /** The Exif tag a property is copied to: only an "exif"-namespace property whose name parses as an ExifTag has one. */
  function TargetTag(p: Property, parse: string -> Option<int>): Option<int> {
    if p.tag.tagNamespace == "exif" then parse(p.tag.name) else None
  }

  /** The foreach of LoadFrom over the metadata's properties, in order. */
  function LoadAll(vs: seq<ExifValue>, ps: seq<Property>, parse: string -> Option<int>, declared: int -> ExifDataType): seq<ExifValue>
    decreases |ps|
  {
    if ps == [] then vs
    else
      var before := LoadAll(vs, ps[..|ps| - 1], parse, declared);
      var p := ps[|ps| - 1];
      match TargetTag(p, parse)
      case Some(t) => ProfileSet(before, t, p.value, declared)
      case None => before
  }

  /** LoadFrom: both resolutions first, then the generic properties. */
  function Loaded(vs: seq<ExifValue>, horizontal: real, vertical: real, ps: seq<Property>,
                  parse: string -> Option<int>, declared: int -> ExifDataType): seq<ExifValue>
  {
    var withX := ProfileSet(vs, XResolutionTag, Ratio(horizontal), declared);
    var withY := ProfileSet(withX, YResolutionTag, Ratio(vertical), declared);
    LoadAll(withY, ps, parse, declared)
  }

  /** A tag no property is copied to keeps its value through the loop. */
  lemma {:induction false} LoadAllKeeps(vs: seq<ExifValue>, ps: seq<Property>, parse: string -> Option<int>,
                                        declared: int -> ExifDataType, tag: int)
    requires forall i :: 0 <= i < |ps| ==> TargetTag(ps[i], parse) != Some(tag)
    ensures FirstValue(LoadAll(vs, ps, parse, declared), tag) == FirstValue(vs, tag)
    decreases |ps|
  {
    if ps != [] {
      LoadAllKeeps(vs, ps[..|ps| - 1], parse, declared, tag);
      var before := LoadAll(vs, ps[..|ps| - 1], parse, declared);
      var p := ps[|ps| - 1];
      match TargetTag(p, parse)
      case Some(t) => ProfileSetGet(before, t, p.value, declared, tag);
      case None =>
    }
  }

  /** Properties outside the "exif" namespace, or whose names do not parse, are not copied at all. */
  lemma {:induction false} LoadAllSkips(vs: seq<ExifValue>, ps: seq<Property>, parse: string -> Option<int>,
                                        declared: int -> ExifDataType)
    requires forall i :: 0 <= i < |ps| ==> TargetTag(ps[i], parse).None?
    ensures LoadAll(vs, ps, parse, declared) == vs
    decreases |ps|
  {
    if ps != [] {
      LoadAllSkips(vs, ps[..|ps| - 1], parse, declared);
    }
  }

  /**
   * The tags the Exif tag cache creates have namespace "Exif", which the
   * case-sensitive "exif" test of LoadFrom never matches: a property under
   * such a tag is not copied back into a profile.
   */
  lemma CachedExifTagsNotLoaded(p: Property, parse: string -> Option<int>)
    requires p.tag.tagNamespace == "Exif"
    ensures TargetTag(p, parse) == None
  {
    assert "Exif"[0] != "exif"[0];
  }

  /**
   * LoadFrom sets XResolution from HorizontalResolution and YResolution
   * from VerticalResolution; unless a generic property is copied over them,
   * the profile reads them back.
   */
  lemma LoadedResolutions(vs: seq<ExifValue>, horizontal: real, vertical: real, ps: seq<Property>,
                          parse: string -> Option<int>, declared: int -> ExifDataType)
    requires forall i :: 0 <= i < |ps| ==> TargetTag(ps[i], parse) != Some(XResolutionTag)
    requires forall i :: 0 <= i < |ps| ==> TargetTag(ps[i], parse) != Some(YResolutionTag)
    ensures Resolution(Loaded(vs, horizontal, vertical, ps, parse, declared), XResolutionTag) == Some(horizontal)
    ensures Resolution(Loaded(vs, horizontal, vertical, ps, parse, declared), YResolutionTag) == Some(vertical)
  {
    var withX := ProfileSet(vs, XResolutionTag, Ratio(horizontal), declared);
    var withY := ProfileSet(withX, YResolutionTag, Ratio(vertical), declared);
    ProfileSetGet(vs, XResolutionTag, Ratio(horizontal), declared, YResolutionTag);
    ProfileSetGet(withX, YResolutionTag, Ratio(vertical), declared, XResolutionTag);
    LoadAllKeeps(withY, ps, parse, declared, XResolutionTag);
    LoadAllKeeps(withY, ps, parse, declared, YResolutionTag);
  }

  // ---- PopulateTo: profile to metadata ----

  /** Whether PopulateTo unboxes values of this data type with a cast to one .NET type. */
  predicate Unboxed(d: ExifDataType) {
    !(d.Unknown? || d.Undefined? || d.Ascii? || d.Unlisted?)
  }

  /**
   * The value written for an Exif value, or the exception its conversion
   * throws. Unknown and Undefined pass the boxed object through and Ascii
   * goes through ToString (null stays null). Every other listed type is
   * unboxed to one .NET type (byte, short, ulong, SignedRational, sbyte,
   * long, float or double): a null value throws NullReferenceException and
   * a boxed object of another type throws InvalidCastException. Value does
   * not carry the boxed .NET type, so unboxes(v) says whether it is the
   * target type of the cast for v.dataType.
   */
  function Converted(v: ExifValue, show: Value -> string, unboxes: ExifValue -> bool): Result<Value, Error> {
    if v.dataType == Ascii then
      match ToText(v.value, show)
      case Some(s) => Success(Text(s))
      case None => Success(Null)
    else if !Unboxed(v.dataType) then Success(v.value)
    else if v.value == Null then Failure(NullReference)
    else if !unboxes(v) then Failure(InvalidCast)
    else Success(v.value)
  }

  /** Whether the generic loop of PopulateTo writes the value: not hard-coded, and a listed data type. */
  predicate Copied(v: ExifValue) {
    !HardCoded(v.tag) && !v.dataType.Unlisted?
  }

  /** Whether the generic loop reaches v and writes it: copied, and its conversion does not throw. */
  predicate Written(v: ExifValue, show: Value -> string, unboxes: ExifValue -> bool) {
    Copied(v) && Converted(v, show, unboxes).Success?
  }

  /** The exception of the first copied value whose conversion throws: where the generic loop stops. */
  function FirstFailure(vs: seq<ExifValue>, show: Value -> string, unboxes: ExifValue -> bool): Option<Error>
    decreases |vs|
  {
    if vs == [] then None
    else
      var before := FirstFailure(vs[..|vs| - 1], show, unboxes);
      var v := vs[|vs| - 1];
      if before.None? && Copied(v) && Converted(v, show, unboxes).Failure? then Some(Converted(v, show, unboxes).error)
      else before
  }

  /**
   * The generic loop of PopulateTo over the profile's values, in order; the
   * properties written before an exception stay in the metadata.
   */
  function PopulateAll(ps: seq<Property>, vs: seq<ExifValue>, otherTag: (int, ExifDataType) -> PropertyTag,
                       show: Value -> string, unboxes: ExifValue -> bool): seq<Property>
    decreases |vs|
  {
    if vs == [] then ps
    else
      var init := vs[..|vs| - 1];
      var before := PopulateAll(ps, init, otherTag, show, unboxes);
      var v := vs[|vs| - 1];
      if FirstFailure(init, show, unboxes).None? && Written(v, show, unboxes) then
        Set(before, Property(otherTag(v.tag, v.dataType), Converted(v, show, unboxes).value, true))
      else before
  }

  /**
   * PopulateTo: HorizontalResolution from XResolution when present, then
   * VerticalResolution also from XResolution, then the generic loop.
   */
  function Populated(ps: seq<Property>, vs: seq<ExifValue>, tags: StandardTags,
                     otherTag: (int, ExifDataType) -> PropertyTag, show: Value -> string,
                     unboxes: ExifValue -> bool): seq<Property>
  {
    var x := Resolution(vs, XResolutionTag);
    var withH := if x.Some? then Set(ps, Property(tags.horizontalResolution, Real(StoredResolution(x.value)), true)) else ps;
    var withV := if x.Some? then Set(withH, Property(tags.verticalResolution, Real(StoredResolution(x.value)), true)) else withH;
    PopulateAll(withV, vs, otherTag, show, unboxes)
  }

  /** The generic loop ends without an exception exactly when every copied value converts. */
  lemma {:induction false} NoFailure(vs: seq<ExifValue>, show: Value -> string, unboxes: ExifValue -> bool)
    ensures FirstFailure(vs, show, unboxes).None? <==>
      forall j :: 0 <= j < |vs| && Copied(vs[j]) ==> Converted(vs[j], show, unboxes).Success?
    decreases |vs|
  {
    if vs != [] {
      var init := vs[..|vs| - 1];
      NoFailure(init, show, unboxes);
      assert forall j :: 0 <= j < |init| ==> init[j] == vs[j];
    }
  }

  /** Once the loop has thrown on a prefix, the values after it change neither the exception nor the metadata. */
  lemma {:induction false} StoppedStaysStopped(ps: seq<Property>, vs: seq<ExifValue>, otherTag: (int, ExifDataType) -> PropertyTag,
                                               show: Value -> string, unboxes: ExifValue -> bool, n: nat)
    requires n <= |vs| && FirstFailure(vs[..n], show, unboxes).Some?
    ensures FirstFailure(vs, show, unboxes) == FirstFailure(vs[..n], show, unboxes)
    ensures PopulateAll(ps, vs, otherTag, show, unboxes) == PopulateAll(ps, vs[..n], otherTag, show, unboxes)
    decreases |vs|
  {
    if n == |vs| {
      assert vs[..n] == vs;
    } else {
      var init := vs[..|vs| - 1];
      assert init[..n] == vs[..n];
      StoppedStaysStopped(ps, init, otherTag, show, unboxes, n);
    }
  }

  /**
   * The first copied value whose cast throws stops PopulateTo: its exception
   * escapes, and the metadata holds what the values before it wrote.
   */
  lemma PopulateStops(ps: seq<Property>, vs: seq<ExifValue>, otherTag: (int, ExifDataType) -> PropertyTag,
                      show: Value -> string, unboxes: ExifValue -> bool, i: nat)
    requires i < |vs| && Copied(vs[i]) && Converted(vs[i], show, unboxes).Failure?
    requires FirstFailure(vs[..i], show, unboxes).None?
    ensures FirstFailure(vs, show, unboxes) == Some(Converted(vs[i], show, unboxes).error)
    ensures PopulateAll(ps, vs, otherTag, show, unboxes) == PopulateAll(ps, vs[..i], otherTag, show, unboxes)
  {
    var upto := vs[..i + 1];
    assert upto[..i] == vs[..i] && upto[i] == vs[i];
    StoppedStaysStopped(ps, vs, otherTag, show, unboxes, i + 1);
  }

  /** A Byte-typed value holding null: the (byte) unboxing throws NullReferenceException. */
  lemma NullByteThrows(tag: int, show: Value -> string, unboxes: ExifValue -> bool)
    requires !HardCoded(tag)
    ensures FirstFailure([ExifValue(tag, Byte, Null, false)], show, unboxes) == Some(NullReference)
  {
    var vs := [ExifValue(tag, Byte, Null, false)];
    assert vs[..0] == [];
  }

  /** The values the generic loop writes. */
  function CopiedValues(vs: seq<ExifValue>): (r: seq<ExifValue>)
    ensures forall i :: 0 <= i < |r| ==> Copied(r[i]) && r[i] in vs
  {
    if vs == [] then []
    else CopiedValues(vs[..|vs| - 1]) + (if Copied(vs[|vs| - 1]) then [vs[|vs| - 1]] else [])
  }

  /** Only the copied values matter: XResolution, YResolution and unlisted data types never become generic tags and never throw. */
  lemma {:induction false} PopulateOnlyCopied(ps: seq<Property>, vs: seq<ExifValue>,
                                              otherTag: (int, ExifDataType) -> PropertyTag, show: Value -> string,
                                              unboxes: ExifValue -> bool)
    ensures FirstFailure(vs, show, unboxes) == FirstFailure(CopiedValues(vs), show, unboxes)
    ensures PopulateAll(ps, vs, otherTag, show, unboxes) == PopulateAll(ps, CopiedValues(vs), otherTag, show, unboxes)
    decreases |vs|
  {
    if vs != [] {
      var init := vs[..|vs| - 1];
      var v := vs[|vs| - 1];
      PopulateOnlyCopied(ps, init, otherTag, show, unboxes);
      assert vs[..|vs| - 1] == init;
      if Copied(v) {
        var c := CopiedValues(init) + [v];
        assert CopiedValues(vs) == c;
        assert c[..|c| - 1] == CopiedValues(init);
      } else {
        assert CopiedValues(vs) == CopiedValues(init) + [];
        assert CopiedValues(init) + [] == CopiedValues(init);
      }
    }
  }

  /** A metadata tag the generic loop never writes keeps its properties, in order, whether or not a cast throws. */
  lemma {:induction false} PopulateKeeps(ps: seq<Property>, vs: seq<ExifValue>,
                                         otherTag: (int, ExifDataType) -> PropertyTag, show: Value -> string,
                                         unboxes: ExifValue -> bool, tag: PropertyTag)
    requires forall i :: 0 <= i < |vs| && Copied(vs[i]) ==> otherTag(vs[i].tag, vs[i].dataType) != tag
    ensures WithTag(PopulateAll(ps, vs, otherTag, show, unboxes), tag) == WithTag(ps, tag)
    ensures TypedValue(PopulateAll(ps, vs, otherTag, show, unboxes), tag, Null) == TypedValue(ps, tag, Null)
    decreases |vs|
  {
    if vs != [] {
      var init := vs[..|vs| - 1];
      var v := vs[|vs| - 1];
      PopulateKeeps(ps, init, otherTag, show, unboxes, tag);
      if FirstFailure(init, show, unboxes).None? && Written(v, show, unboxes) {
        SetProperty(PopulateAll(ps, init, otherTag, show, unboxes),
                    Property(otherTag(v.tag, v.dataType), Converted(v, show, unboxes).value, true));
      }
    }
  }

  /**
   * The last copied value of each target tag wins: when no value up to it
   * throws and no later copied value writes the same metadata tag,
   * GetValue<T> of that tag reads the value's conversion. A later value
   * that throws stops the loop and leaves the tag alone.
   */
  lemma {:induction false} PopulateLastWins(ps: seq<Property>, vs: seq<ExifValue>,
                                            otherTag: (int, ExifDataType) -> PropertyTag, show: Value -> string,
                                            unboxes: ExifValue -> bool, i: nat)
    requires i < |vs| && Copied(vs[i])
    requires FirstFailure(vs[..i + 1], show, unboxes).None?
    requires forall j :: i < j < |vs| && Copied(vs[j]) ==>
      otherTag(vs[j].tag, vs[j].dataType) != otherTag(vs[i].tag, vs[i].dataType)
    ensures Converted(vs[i], show, unboxes).Success?
    ensures TypedValue(PopulateAll(ps, vs, otherTag, show, unboxes), otherTag(vs[i].tag, vs[i].dataType), Null)
         == Converted(vs[i], show, unboxes).value
    decreases |vs|
  {
    var init := vs[..|vs| - 1];
    var v := vs[|vs| - 1];
    var t := otherTag(vs[i].tag, vs[i].dataType);
    if i == |vs| - 1 {
      assert vs[..i + 1] == vs;
      SetThenGet(PopulateAll(ps, init, otherTag, show, unboxes), t, Converted(v, show, unboxes).value, t, Null);
    } else {
      assert init[i] == vs[i];
      assert init[..i + 1] == vs[..i + 1];
      PopulateLastWins(ps, init, otherTag, show, unboxes, i);
      if FirstFailure(init, show, unboxes).None? && Written(v, show, unboxes) {
        SetThenGet(PopulateAll(ps, init, otherTag, show, unboxes), otherTag(v.tag, v.dataType),
                   Converted(v, show, unboxes).value, t, Null);
      }
    }
  }

  /**
   * As written, both resolutions come from XResolution: when it is present
   * and no generic tag lands on them, the metadata reads it (or 96 for a
   * non-positive value) as HorizontalResolution and as VerticalResolution,
   * whether or not a later cast throws.
   */
  lemma PopulatedResolutions(ps: seq<Property>, vs: seq<ExifValue>, tags: StandardTags,
                             otherTag: (int, ExifDataType) -> PropertyTag, show: Value -> string,
                             unboxes: ExifValue -> bool, x: real)
    requires tags.Distinct()
    requires Resolution(vs, XResolutionTag) == Some(x)
    requires forall i :: 0 <= i < |vs| && Copied(vs[i]) ==>
      otherTag(vs[i].tag, vs[i].dataType) != tags.horizontalResolution
      && otherTag(vs[i].tag, vs[i].dataType) != tags.verticalResolution
    ensures TypedValue(Populated(ps, vs, tags, otherTag, show, unboxes), tags.horizontalResolution, Null) == Real(StoredResolution(x))
    ensures TypedValue(Populated(ps, vs, tags, otherTag, show, unboxes), tags.verticalResolution, Null) == Real(StoredResolution(x))
  {
    var withH := Set(ps, Property(tags.horizontalResolution, Real(StoredResolution(x)), true));
    var withV := Set(withH, Property(tags.verticalResolution, Real(StoredResolution(x)), true));
    SetThenGet(ps, tags.horizontalResolution, Real(StoredResolution(x)), tags.verticalResolution, Null);
    SetThenGet(withH, tags.verticalResolution, Real(StoredResolution(x)), tags.horizontalResolution, Null);
    PopulateKeeps(withV, vs, otherTag, show, unboxes, tags.horizontalResolution);
    PopulateKeeps(withV, vs, otherTag, show, unboxes, tags.verticalResolution);
  }

  /** YResolution is never read: setting it in the profile changes neither what PopulateTo writes nor whether it throws. */
  lemma YResolutionIgnored(ps: seq<Property>, vs: seq<ExifValue>, tags: StandardTags,
                           otherTag: (int, ExifDataType) -> PropertyTag, show: Value -> string,
                           unboxes: ExifValue -> bool, y: Value, declared: int -> ExifDataType)
    ensures Populated(ps, ProfileSet(vs, YResolutionTag, y, declared), tags, otherTag, show, unboxes)
         == Populated(ps, vs, tags, otherTag, show, unboxes)
    ensures FirstFailure(ProfileSet(vs, YResolutionTag, y, declared), show, unboxes) == FirstFailure(vs, show, unboxes)
  {
    var vs' := ProfileSet(vs, YResolutionTag, y, declared);
    ProfileSetGet(vs, YResolutionTag, y, declared, XResolutionTag);
    CopiedIgnoresY(vs, y, declared);
    var x := Resolution(vs, XResolutionTag);
    var withH := if x.Some? then Set(ps, Property(tags.horizontalResolution, Real(StoredResolution(x.value)), true)) else ps;
    var withV := if x.Some? then Set(withH, Property(tags.verticalResolution, Real(StoredResolution(x.value)), true)) else withH;
    PopulateOnlyCopied(withV, vs, otherTag, show, unboxes);
    PopulateOnlyCopied(withV, vs', otherTag, show, unboxes);
  }

  lemma {:induction false} CopiedIgnoresY(vs: seq<ExifValue>, y: Value, declared: int -> ExifDataType)
    ensures CopiedValues(ProfileSet(vs, YResolutionTag, y, declared)) == CopiedValues(vs)
  {
    if vs == [] {
      var one := [ExifValue(YResolutionTag, declared(YResolutionTag), y, false)];
      assert one[..0] == [];
    } else {
      var r := ProfileSet(vs, YResolutionTag, y, declared);
      var rest := if vs[0].tag == YResolutionTag then vs[1..] else ProfileSet(vs[1..], YResolutionTag, y, declared);
      CopiedIgnoresY(vs[1..], y, declared);
      CopiedPrepend(r[0], rest);
      CopiedPrepend(vs[0], vs[1..]);
      assert r == [r[0]] + rest;
      assert vs == [vs[0]] + vs[1..];
    }
  }

  lemma {:induction false} CopiedPrepend(v: ExifValue, vs: seq<ExifValue>)
    ensures CopiedValues([v] + vs) == (if Copied(v) then [v] else []) + CopiedValues(vs)
    decreases |vs|
  {
    if vs != [] {
      var whole := [v] + vs;
      assert whole[..|whole| - 1] == [v] + vs[..|vs| - 1];
      CopiedPrepend(v, vs[..|vs| - 1]);
    } else {
      assert ([v] + vs)[..0] == [];
    }
  }

  // ---- The profile ----

  class ExifProfile {
    /** The data type ExifValue.Create gives a new value of each tag. */
    const declared: int -> ExifDataType
    var values: seq<ExifValue>

    constructor (declared: int -> ExifDataType)
      ensures this.declared == declared && values == []
    {
      this.declared := declared;
      values := [];
    }

    function GetValue(tag: int): Option<ExifValue>
      reads this
    {
      FirstValue(values, tag)
    }

    function GetResolution(tag: int): Option<real>
      reads this
    {
      Resolution(values, tag)
    }

    method SetValue(tag: int, value: Value)
      modifies this
      ensures values == ProfileSet(old(values), tag, value, declared)
    {
      values := ProfileSet(values, tag, value, declared);
    }

    method SetResolution(tag: int, r: real)
      modifies this
      ensures values == ProfileSet(old(values), tag, Ratio(r), declared)
    {
      SetValue(tag, Ratio(r));
    }

    /**
     * LoadFrom: XResolution from HorizontalResolution, YResolution from
     * VerticalResolution, then every "exif"-namespace property whose name
     * parses (Enum.TryParse, given as parse) as an ExifTag.
     */
    method LoadFrom(metaData: ImageMetaData, parse: string -> Option<int>)
      modifies this
      ensures values == Loaded(old(values), metaData.HorizontalResolution(), metaData.VerticalResolution(),
                               metaData.properties, parse, declared)
    {
      SetResolution(XResolutionTag, metaData.HorizontalResolution());
      SetResolution(YResolutionTag, metaData.VerticalResolution());
      ghost var start := values;
      var ps := metaData.properties;
      var i := 0;
      while i < |ps|
        invariant 0 <= i <= |ps|
        invariant values == LoadAll(start, ps[..i], parse, declared)
      {
        assert ps[..i + 1][..i] == ps[..i];
        var p := ps[i];
        if p.tag.tagNamespace == "exif" {
          var t := parse(p.tag.name);
          if t.Some? {
            SetValue(t.value, p.value);
          }
        }
        i := i + 1;
      }
      assert ps[..i] == ps;
    }

    /**
     * PopulateTo: both resolutions of the metadata from XResolution, then
     * each value that is not hard-coded and has a listed data type, as an
     * "exif"-namespace tag named after its ExifTag (otherTag stands for that
     * registry lookup). The first cast that throws ends the loop with its
     * exception, returned here as error; what was written before stays.
     */
    method PopulateTo(metaData: ImageMetaData, otherTag: (int, ExifDataType) -> PropertyTag, show: Value -> string,
                      unboxes: ExifValue -> bool)
      returns (error: Option<Error>)
      modifies metaData
      ensures metaData.properties == Populated(old(metaData.properties), values, metaData.tags, otherTag, show, unboxes)
      ensures error == FirstFailure(values, show, unboxes)
      ensures old(metaData.Valid()) ==> metaData.Valid()
    {
      var horizontal := GetResolution(XResolutionTag);
      if horizontal.Some? {
        metaData.SetHorizontalResolution(horizontal.value);
      }
      var vertical := GetResolution(XResolutionTag);
      if vertical.Some? {
        metaData.SetVerticalResolution(vertical.value);
      }
      ghost var start := metaData.properties;
      var vs := values;
      error := None;
      var i := 0;
      while i < |vs| && error.None?
        invariant 0 <= i <= |vs|
        invariant metaData.properties == PopulateAll(start, vs[..i], otherTag, show, unboxes)
        invariant error == FirstFailure(vs[..i], show, unboxes)
        invariant old(metaData.Valid()) ==> metaData.Valid()
      {
        assert vs[..i + 1][..i] == vs[..i];
        var v := vs[i];
        if !HardCoded(v.tag) && !v.dataType.Unlisted? {
          var converted := Converted(v, show, unboxes);
          if converted.Success? {
            metaData.SetValue(otherTag(v.tag, v.dataType), converted.value);
          } else {
            error := Some(converted.error);
          }
        }
        i := i + 1;
      }
      if error.Some? {
        StoppedStaysStopped(start, vs, otherTag, show, unboxes, i);
      } else {
        assert vs[..i] == vs;
      }
    }
  }

  /** The ExifProfile(metadata) extension: a fresh profile filled by LoadFrom. */
  method ExifProfileOf(metaData: ImageMetaData, parse: string -> Option<int>, declared: int -> ExifDataType)
    returns (profile: ExifProfile)
    ensures fresh(profile) && profile.declared == declared
    ensures profile.values == Loaded([], metaData.HorizontalResolution(), metaData.VerticalResolution(),
                                     metaData.properties, parse, declared)
  {
    profile := new ExifProfile(declared);
    profile.LoadFrom(metaData, parse);
  }

  /**
   * ReplaceWith: the metadata is cleared, then holds only what PopulateTo
   * writes, up to the first cast that throws.
   */
  method ReplaceWith(metaData: ImageMetaData, profile: ExifProfile, otherTag: (int, ExifDataType) -> PropertyTag,
                     show: Value -> string, unboxes: ExifValue -> bool)
    returns (error: Option<Error>)
    modifies metaData
    ensures metaData.properties == Populated([], profile.values, metaData.tags, otherTag, show, unboxes)
    ensures error == FirstFailure(profile.values, show, unboxes)
    ensures metaData.Valid()
  {
    metaData.Clear();
    error := profile.PopulateTo(metaData, otherTag, show, unboxes);
  }

  /**
   * Metadata to profile and back: the horizontal resolution h survives
   * (96 when it was not positive), and the vertical one becomes h too,
   * whatever it was, even when a later cast throws.
   */
  lemma MetaDataRoundTrip(horizontal: real, vertical: real, ps: seq<Property>, parse: string -> Option<int>,
                            declared: int -> ExifDataType, tags: StandardTags,
                            otherTag: (int, ExifDataType) -> PropertyTag, show: Value -> string,
                            unboxes: ExifValue -> bool)
    requires tags.Distinct()
    requires forall i :: 0 <= i < |ps| ==> TargetTag(ps[i], parse) != Some(XResolutionTag)
    requires forall i :: 0 <= i < |ps| ==> TargetTag(ps[i], parse) != Some(YResolutionTag)
    requires forall t: int, d: ExifDataType :: otherTag(t, d) != tags.horizontalResolution && otherTag(t, d) != tags.verticalResolution
    ensures var vs := Loaded([], horizontal, vertical, ps, parse, declared);
      TypedValue(Populated([], vs, tags, otherTag, show, unboxes), tags.horizontalResolution, Null) == Real(StoredResolution(horizontal))
      && TypedValue(Populated([], vs, tags, otherTag, show, unboxes), tags.verticalResolution, Null) == Real(StoredResolution(horizontal))
  {
    var vs := Loaded([], horizontal, vertical, ps, parse, declared);
    LoadedResolutions([], horizontal, vertical, ps, parse, declared);
    PopulatedResolutions([], vs, tags, otherTag, show, unboxes, horizontal);
  }
}
