// The two PngMetaData classes. Both declare ImageSharp.Formats.PngMetaData;
// here they are two modules. src/ImageSharp/Formats/Png/PngMetaData.cs holds
// the append-only key/value log; src/ImageSharp/MetaData/Profiles/Png/PngMetaData.cs
// has the same log plus the synchronisation with the image metadata.

module PngFormat {
  import opened Wrappers

  /** A KeyValuePair<string, string>; a null value is None. */
  type Entry = (string, Option<string>)

  /** GetValue: the value of the last entry with the key; null when there is none. */
  function LastValue(log: seq<Entry>, key: string): (v: Option<string>)
    ensures v.Some? ==> (key, v) in log
    ensures (forall i :: 0 <= i < |log| ==> log[i].0 != key) ==> v == None
  {
    if log == [] then None
    else if log[|log| - 1].0 == key then log[|log| - 1].1
    else LastValue(log[..|log| - 1], key)
  }

  /**
   * Appending (key, value) makes GetValue(key) return value, and leaves
   * GetValue of every other key as it was.
   */
  lemma AppendThenGet(log: seq<Entry>, key: string, value: Option<string>, other: string)
    ensures LastValue(log + [(key, value)], key) == value
    ensures other != key ==> LastValue(log + [(key, value)], other) == LastValue(log, other)
  {
    assert (log + [(key, value)])[..|log|] == log;
  }

  /** GetValue reads the value of the last entry with the key: no later entry has it. */
  lemma {:induction false} LastValueIsLast(log: seq<Entry>, key: string, i: nat)
    requires i < |log| && log[i].0 == key
    requires forall j :: i < j < |log| ==> log[j].0 != key
    ensures LastValue(log, key) == log[i].1
    decreases |log|
  {
    if i < |log| - 1 {
      var init := log[..|log| - 1];
      assert init[i] == log[i];
      LastValueIsLast(init, key, i);
    }
  }

  class PngMetaData {
    var properties: seq<Entry>
    var quality: real
    var horizontalResolution: real
    var verticalResolution: real

    constructor ()
      ensures properties == []
    {
      properties := [];
      quality := 0.0;
      horizontalResolution := 0.0;
      verticalResolution := 0.0;
    }

    /** SetValue: the pair is appended; earlier pairs stay. */
    method SetValue(key: string, value: Option<string>)
      modifies this
      ensures properties == old(properties) + [(key, value)]
      ensures GetValue(key) == value
      ensures forall k :: k != key ==> GetValue(k) == old(GetValue(k))
    {
      properties := properties + [(key, value)];
      forall k
        ensures LastValue(properties, k) == if k == key then value else LastValue(old(properties), k)
      {
        AppendThenGet(old(properties), key, value, k);
      }
    }

    function GetValue(key: string): Option<string>
      reads this
    {
      LastValue(properties, key)
    }
  }
}

module PngProfile {
  import opened Wrappers
  import opened MetaData
  import opened PngFormat

  /** "Comment" and "Software" are written to their own tags, not copied as generic ones. */
  predicate HardCoded(key: string) {
    key == "Comment" || key == "Software"
  }

  /** The entries LoadFrom appends: each "png"-namespace property's name and value string, in order. */
  function PngEntries(ps: seq<Property>, show: Value -> string): (es: seq<Entry>)
    ensures |es| <= |ps|
    decreases |ps|
  {
    if ps == [] then []
    else
      var p := ps[|ps| - 1];
      PngEntries(ps[..|ps| - 1], show) + (if p.tag.tagNamespace == "png" then [(p.tag.name, ToText(p.value, show))] else [])
  }

  /**
   * Every appended entry comes from a "png"-namespace property, keeping its
   * name and its value's string form (null stays null); every such
   * property gives one.
   */
  lemma {:induction false} PngEntriesFrom(ps: seq<Property>, show: Value -> string)
    ensures forall e :: e in PngEntries(ps, show) ==>
      exists j :: 0 <= j < |ps| && ps[j].tag.tagNamespace == "png" && e == (ps[j].tag.name, ToText(ps[j].value, show))
    ensures forall j :: 0 <= j < |ps| && ps[j].tag.tagNamespace == "png" ==>
      (ps[j].tag.name, ToText(ps[j].value, show)) in PngEntries(ps, show)
    decreases |ps|
  {
    if ps != [] {
      var init := ps[..|ps| - 1];
      PngEntriesFrom(init, show);
      forall e | e in PngEntries(ps, show)
        ensures exists j :: 0 <= j < |ps| && ps[j].tag.tagNamespace == "png" && e == (ps[j].tag.name, ToText(ps[j].value, show))
      {
        if e in PngEntries(init, show) {
          var j :| 0 <= j < |init| && init[j].tag.tagNamespace == "png" && e == (init[j].tag.name, ToText(init[j].value, show));
          assert ps[j] == init[j];
        } else {
          assert e == (ps[|ps| - 1].tag.name, ToText(ps[|ps| - 1].value, show));
        }
      }
      forall j | 0 <= j < |ps| && ps[j].tag.tagNamespace == "png"
        ensures (ps[j].tag.name, ToText(ps[j].value, show)) in PngEntries(ps, show)
      {
        if j < |ps| - 1 {
          assert ps[j] == init[j];
        }
      }
    }
  }

  /** Some entry of the log has the key. */
  predicate HasKey(log: seq<Entry>, key: string) {
    exists i :: 0 <= i < |log| && log[i].0 == key
  }

  /** The keys of the log, each once, in the order of their first entry (GroupBy's group order). */
  function FirstKeys(log: seq<Entry>): (ks: seq<string>)
    ensures forall i, j :: 0 <= i < j < |ks| ==> ks[i] != ks[j]
    ensures forall k :: k in ks <==> HasKey(log, k)
    decreases |log|
  {
    if log == [] then []
    else
      var init := log[..|log| - 1];
      var ks := FirstKeys(init);
      var k := log[|log| - 1].0;
      assert forall key :: HasKey(log, key) <==> HasKey(init, key) || key == k by {
        forall key | HasKey(log, key)
          ensures HasKey(init, key) || key == k
        {
          var i :| 0 <= i < |log| && log[i].0 == key;
          if i < |log| - 1 {
            assert init[i] == log[i];
          }
        }
        forall key | HasKey(init, key)
          ensures HasKey(log, key)
        {
          var i :| 0 <= i < |init| && init[i].0 == key;
          assert log[i] == init[i];
        }
      }
      if k in ks then ks else ks + [k]
  }

  /** The last entry of each group whose key is not hard-coded, in group order. */
  function LastOfGroups(log: seq<Entry>, ks: seq<string>): (es: seq<Entry>)
    ensures forall i :: 0 <= i < |es| ==> es[i].0 in ks && !HardCoded(es[i].0) && es[i].1 == LastValue(log, es[i].0)
  {
    if ks == [] then []
    else (if HardCoded(ks[0]) then [] else [(ks[0], LastValue(log, ks[0]))]) + LastOfGroups(log, ks[1..])
  }

  /** Some entry of es has the key. */
  predicate WritesKey(es: seq<Entry>, key: string) {
    exists i :: 0 <= i < |es| && es[i].0 == key
  }

  lemma {:induction false} LastOfGroupsCovers(log: seq<Entry>, ks: seq<string>, key: string)
    requires key in ks && !HardCoded(key)
    ensures WritesKey(LastOfGroups(log, ks), key)
  {
    var head := if HardCoded(ks[0]) then [] else [(ks[0], LastValue(log, ks[0]))];
    var rest := LastOfGroups(log, ks[1..]);
    if ks[0] == key {
      assert LastOfGroups(log, ks)[0].0 == key;
    } else {
      LastOfGroupsCovers(log, ks[1..], key);
      var i :| 0 <= i < |rest| && rest[i].0 == key;
      assert LastOfGroups(log, ks)[|head| + i] == rest[i];
    }
  }

  /** No key occurs twice. */
  predicate DistinctKeys(es: seq<Entry>) {
    forall i, j :: 0 <= i < j < |es| ==> es[i].0 != es[j].0
  }

  lemma {:induction false} LastOfGroupsDistinct(log: seq<Entry>, ks: seq<string>)
    requires forall i, j :: 0 <= i < j < |ks| ==> ks[i] != ks[j]
    ensures DistinctKeys(LastOfGroups(log, ks))
  {
    if ks != [] {
      LastOfGroupsDistinct(log, ks[1..]);
      var head := if HardCoded(ks[0]) then [] else [(ks[0], LastValue(log, ks[0]))];
      var rest := LastOfGroups(log, ks[1..]);
      var es := head + rest;
      assert es == LastOfGroups(log, ks);
      assert ks[0] !in ks[1..] by {
        forall m | 0 <= m < |ks[1..]|
          ensures ks[1..][m] != ks[0]
        {
          assert ks[1..][m] == ks[m + 1];
        }
      }
      forall i, j | 0 <= i < j < |es|
        ensures es[i].0 != es[j].0
      {
        if i < |head| {
          assert es[i].0 == ks[0];
          assert es[j] == rest[j - |head|];
          assert es[j].0 in ks[1..];
        } else {
          assert es[i] == rest[i - |head|] && es[j] == rest[j - |head|];
        }
      }
    }
  }

  /** GroupBy(key).Select(Last).Where(not hard-coded). */
  function LastProperties(log: seq<Entry>): seq<Entry> {
    LastOfGroups(log, FirstKeys(log))
  }

  /**
   * The generic part of PopulateTo writes a key exactly when the log has it
   * and it is not hard-coded; it writes each key once, with its last value.
   */
  lemma LastPropertiesSpec(log: seq<Entry>, key: string)
    ensures WritesKey(LastProperties(log), key) <==> HasKey(log, key) && !HardCoded(key)
    ensures DistinctKeys(LastProperties(log))
    ensures forall i :: 0 <= i < |LastProperties(log)| ==> LastProperties(log)[i].1 == LastValue(log, LastProperties(log)[i].0)
  {
    LastOfGroupsDistinct(log, FirstKeys(log));
    if HasKey(log, key) && !HardCoded(key) {
      LastOfGroupsCovers(log, FirstKeys(log), key);
    }
  }

  /** A string property value: null or the string. */
  function ValueOf(s: Option<string>): Value {
    match s
    case Some(t) => Text(t)
    case None => Null
  }

  /** The properties the loop of PopulateTo sets, one per entry, under the "png"-namespace tag of its key. */
  function Written(es: seq<Entry>, otherTag: string -> PropertyTag): (ps: seq<Property>)
    ensures |ps| == |es|
    ensures forall i :: 0 <= i < |es| ==> ps[i] == Property(otherTag(es[i].0), ValueOf(es[i].1), true)
  {
    if es == [] then [] else [Property(otherTag(es[0].0), ValueOf(es[0].1), true)] + Written(es[1..], otherTag)
  }

  /** PopulateTo: UserComment and Software first, then the last value of every other key. */
  function Populated(ps: seq<Property>, log: seq<Entry>, tags: StandardTags, otherTag: string -> PropertyTag): seq<Property> {
    var withComment := Set(ps, Property(tags.userComment, ValueOf(LastValue(log, "Comment")), true));
    var withSoftware := Set(withComment, Property(tags.software, ValueOf(LastValue(log, "Software")), true));
    SetAll(withSoftware, Written(LastProperties(log), otherTag))
  }

  /**
   * After PopulateTo, with a registry that gives distinct keys distinct
   * tags and never the comment or software tag: UserComment and Software
   * read the last "Comment" and "Software" values (null included), and
   * every other key's tag reads that key's last value.
   */
  lemma PopulatedReads(ps: seq<Property>, log: seq<Entry>, tags: StandardTags, otherTag: string -> PropertyTag, key: string)
    requires tags.userComment != tags.software
    requires forall a, b :: a != b ==> otherTag(a) != otherTag(b)
    requires forall k :: otherTag(k) != tags.userComment && otherTag(k) != tags.software
    ensures TypedValue(Populated(ps, log, tags, otherTag), tags.userComment, Null) == ValueOf(LastValue(log, "Comment"))
    ensures TypedValue(Populated(ps, log, tags, otherTag), tags.software, Null) == ValueOf(LastValue(log, "Software"))
    ensures !HardCoded(key) && HasKey(log, key) ==>
      TypedValue(Populated(ps, log, tags, otherTag), otherTag(key), Null) == ValueOf(LastValue(log, key))
  {
    PopulatedHardCoded(ps, log, tags, otherTag);
    if !HardCoded(key) && HasKey(log, key) {
      PopulatedOther(ps, log, tags, otherTag, key);
    }
  }

  /** The comment and software tags read the last "Comment" and "Software" values. */
  lemma PopulatedHardCoded(ps: seq<Property>, log: seq<Entry>, tags: StandardTags, otherTag: string -> PropertyTag)
    requires tags.userComment != tags.software
    requires forall a, b :: a != b ==> otherTag(a) != otherTag(b)
    requires forall k :: otherTag(k) != tags.userComment && otherTag(k) != tags.software
    ensures TypedValue(Populated(ps, log, tags, otherTag), tags.userComment, Null) == ValueOf(LastValue(log, "Comment"))
    ensures TypedValue(Populated(ps, log, tags, otherTag), tags.software, Null) == ValueOf(LastValue(log, "Software"))
  {
    var c := ValueOf(LastValue(log, "Comment"));
    var sw := ValueOf(LastValue(log, "Software"));
    var withComment := Set(ps, Property(tags.userComment, c, true));
    var withSoftware := Set(withComment, Property(tags.software, sw, true));
    var w := Written(LastProperties(log), otherTag);
    SetThenGet(ps, tags.userComment, c, tags.software, Null);
    SetThenGet(withComment, tags.software, sw, tags.userComment, Null);
    SetAllKeeps(withSoftware, w, tags.userComment, Null);
    SetAllKeeps(withSoftware, w, tags.software, Null);
  }

  /** Every other key present in the log reads its last value through its own tag. */
  lemma PopulatedOther(ps: seq<Property>, log: seq<Entry>, tags: StandardTags, otherTag: string -> PropertyTag, key: string)
    requires tags.userComment != tags.software
    requires forall a, b :: a != b ==> otherTag(a) != otherTag(b)
    requires forall k :: otherTag(k) != tags.userComment && otherTag(k) != tags.software
    requires !HardCoded(key) && HasKey(log, key)
    ensures TypedValue(Populated(ps, log, tags, otherTag), otherTag(key), Null) == ValueOf(LastValue(log, key))
  {
    var withComment := Set(ps, Property(tags.userComment, ValueOf(LastValue(log, "Comment")), true));
    var withSoftware := Set(withComment, Property(tags.software, ValueOf(LastValue(log, "Software")), true));
    var es := LastProperties(log);
    var w := Written(es, otherTag);
    LastPropertiesSpec(log, key);
    var i :| 0 <= i < |es| && es[i].0 == key;
    SetAllLastWins(withSoftware, w, i, Null);
  }

  class PngMetaData {
    var properties: seq<Entry>

    constructor ()
      ensures properties == []
    {
      properties := [];
    }

    method SetValue(key: string, value: Option<string>)
      modifies this
      ensures properties == old(properties) + [(key, value)]
    {
      properties := properties + [(key, value)];
    }

    function GetValue(key: string): Option<string>
      reads this
    {
      LastValue(properties, key)
    }

    /** LoadFrom: each "png"-namespace property is appended as its name and its value's string form. */
    method LoadFrom(metadata: ImageMetaData, show: Value -> string)
      modifies this
      ensures properties == old(properties) + PngEntries(metadata.properties, show)
    {
      var ps := metadata.properties;
      var i := 0;
      while i < |ps|
        invariant 0 <= i <= |ps|
        invariant properties == old(properties) + PngEntries(ps[..i], show)
      {
        assert ps[..i + 1][..i] == ps[..i];
        var p := ps[i];
        if p.tag.tagNamespace == "png" {
          SetValue(p.tag.name, ToText(p.value, show));
        }
        i := i + 1;
      }
      assert ps[..i] == ps;
    }

    /**
     * PopulateTo: UserComment from "Comment" and Software from "Software",
     * null or not; then, for each key that is not hard-coded, its last value
     * under the "png"-namespace tag of the key (otherTag stands for that
     * registry lookup).
     */
    method PopulateTo(metadata: ImageMetaData, otherTag: string -> PropertyTag)
      modifies metadata
      ensures metadata.properties == Populated(old(metadata.properties), properties, metadata.tags, otherTag)
      ensures old(metadata.Valid()) ==> metadata.Valid()
    {
      metadata.SetValue(metadata.tags.userComment, ValueOf(GetValue("Comment")));
      metadata.SetValue(metadata.tags.software, ValueOf(GetValue("Software")));
      var lastProperties := LastProperties(properties);
      ghost var start := metadata.properties;
      var i := 0;
      while i < |lastProperties|
        invariant 0 <= i <= |lastProperties|
        invariant SetAll(metadata.properties, Written(lastProperties[i..], otherTag))
               == SetAll(start, Written(lastProperties, otherTag))
        invariant old(metadata.Valid()) ==> metadata.Valid()
      {
        var p := lastProperties[i];
        assert Written(lastProperties[i..], otherTag)[1..] == Written(lastProperties[i + 1..], otherTag);
        metadata.SetValue(otherTag(p.0), ValueOf(p.1));
        i := i + 1;
      }
      assert Written(lastProperties[i..], otherTag) == [];
    }
  }
}
