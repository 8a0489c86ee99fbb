// ImageOperations (src/ImageSharp/ImageOperations.cs) and the Mutate,
// Generate and Run extensions (src/ImageSharp/ApplyProcessors.cs). An
// image is known here by its size, its frame count and the history of
// (processor, rectangle) pairs handed to its ApplyProcessor; what a
// processor then does to the pixels is the protocol of module Processing.

module Operations {
  import opened Wrappers
  import opened Common
  import opened Geometry
  import opened Processing

  class Image {
    const width: nat
    const height: nat
    const frameCount: nat
    /** Every processor applied to this image, with its rectangle, in order. */
    var applied: seq<(ImageProcessor, Rectangle)>

    function Bounds(): Rectangle {
      Geometry.Bounds(width, height)
    }

    constructor (width: nat, height: nat, frameCount: nat)
      ensures this.width == width && this.height == height && this.frameCount == frameCount
      ensures applied == []
    {
      this.width := width;
      this.height := height;
      this.frameCount := frameCount;
      applied := [];
    }

    /** new Image<TPixel>(source) and source.Clone(): a copy with the source's content. */
    constructor Clone(source: Image)
      ensures width == source.width && height == source.height && frameCount == source.frameCount
      ensures applied == source.applied
    {
      width := source.width;
      height := source.height;
      frameCount := source.frameCount;
      applied := source.applied;
    }

    /** IImage.ApplyProcessor: the image records the processor and its rectangle. */
    method ApplyProcessor(processor: ImageProcessor, r: Rectangle)
      modifies this
      ensures applied == old(applied) + [(processor, r)]
    {
      applied := applied + [(processor, r)];
    }
  }

  /**
   * One call a caller's Action<IImageOperations> makes on the operations
   * object it is handed.
   */
  datatype Operation =
    | ApplyIn(processor: ImageProcessor, rect: Rectangle)
    | ApplyWhole(processor: ImageProcessor)
    | ApplyEach(processors: seq<ImageProcessor>)
    | Run(action: Option<Action>)

  /**
   * What a script of operations hands to an image with the given bounds:
   * ApplyEach hands over only its first processor, and Run a delegate
   * processor for its action over the whole image.
   */
  predicate Performs(script: seq<Operation>, bounds: Rectangle, added: seq<(ImageProcessor, Rectangle)>)
    decreases |script|
  {
    if script == [] then added == []
    else
      match script[0]
      case ApplyIn(p, r) =>
        |added| > 0 && added[0] == (p, r) && Performs(script[1..], bounds, added[1..])
      case ApplyWhole(p) =>
        |added| > 0 && added[0] == (p, bounds) && Performs(script[1..], bounds, added[1..])
      case ApplyEach(ps) =>
        if ps == [] then Performs(script[1..], bounds, added)
        else |added| > 0 && added[0] == (ps[0], bounds) && Performs(script[1..], bounds, added[1..])
      case Run(a) =>
        |added| > 0 && added[0].0.kind == Delegate(a) && added[0].1 == bounds
        && Performs(script[1..], bounds, added[1..])
  }

  /** How many processors a script hands to the image: one per call, none for an empty ApplyEach. */
  function Steps(script: seq<Operation>): nat {
    if script == [] then 0
    else (if script[0] == ApplyEach([]) then 0 else 1) + Steps(script[1..])
  }

  class ImageOperations {
    const image: Image

    constructor (image: Image)
      ensures this.image == image
    {
      this.image := image;
    }

    /** ApplyProcessor(processor, rectangle): forwarded once to the image; returns this. */
    method ApplyProcessorIn(processor: ImageProcessor, r: Rectangle) returns (ops: ImageOperations)
      modifies image
      ensures image.applied == old(image.applied) + [(processor, r)]
      ensures ops == this
    {
      image.ApplyProcessor(processor, r);
      return this;
    }

    /** ApplyProcessor(processor): over the image's bounds. */
    method ApplyProcessor(processor: ImageProcessor) returns (ops: ImageOperations)
      modifies image
      ensures image.applied == old(image.applied) + [(processor, image.Bounds())]
      ensures ops == this
    {
      ops := ApplyProcessorIn(processor, image.Bounds());
    }

    /**
     * ApplyProcessors: the return sits inside the foreach, so the loop body
     * runs at most once and only the first processor of a non-empty
     * sequence reaches the image.
     */
    method ApplyProcessors(processors: seq<ImageProcessor>) returns (ops: ImageOperations)
      modifies image
      ensures image.applied == old(image.applied) + if processors == [] then [] else [(processors[0], image.Bounds())]
      ensures ops == this
    {
      if |processors| > 0 {
        ops := ApplyProcessor(processors[0]);
        return;
      }
      return this;
    }

    /** The Run extension: a new DelegateImageProcessor for the action, over the whole image. */
    method Run(action: Option<Action>) returns (ops: ImageOperations)
      modifies image
      ensures |image.applied| == |old(image.applied)| + 1
      ensures image.applied[..|old(image.applied)|] == old(image.applied)
      ensures var last := image.applied[|old(image.applied)|];
        fresh(last.0) && last.0.kind == Delegate(action) && last.1 == image.Bounds()
      ensures ops == this
    {
      var delegate := new ImageProcessor.Delegating(action);
      ops := ApplyProcessor(delegate);
    }

    /** One operation of a caller's script. */
    method Perform(op: Operation) returns (ghost added: seq<(ImageProcessor, Rectangle)>)
      modifies image
      ensures image.applied == old(image.applied) + added
      ensures Performs([op], image.Bounds(), added)
    {
      var ops;
      match op
      case ApplyIn(p, r) =>
        ops := ApplyProcessorIn(p, r);
        added := [(p, r)];
      case ApplyWhole(p) =>
        ops := ApplyProcessor(p);
        added := [(p, image.Bounds())];
      case ApplyEach(ps) =>
        ops := ApplyProcessors(ps);
        added := if ps == [] then [] else [(ps[0], image.Bounds())];
      case Run(a) =>
        ghost var before := image.applied;
        ops := Run(a);
        added := image.applied[|before|..];
        assert image.applied == before + added;
      assert [op][1..] == [];
    }

    /** Every operation of the script, in order, against this object's image. */
    method PerformAll(script: seq<Operation>) returns (ghost added: seq<(ImageProcessor, Rectangle)>)
      modifies image
      ensures image.applied == old(image.applied) + added
      ensures Performs(script, image.Bounds(), added)
    {
      added := [];
      ghost var suffixes: seq<seq<(ImageProcessor, Rectangle)>> := [];
      var k := 0;
      while k < |script|
        invariant 0 <= k <= |script|
        invariant image.applied == old(image.applied) + added
        invariant |suffixes| == k
        invariant added == Concat(suffixes)
        invariant forall j :: 0 <= j < k ==> Performs([script[j]], image.Bounds(), suffixes[j])
      {
        ghost var piece := Perform(script[k]);
        suffixes := suffixes + [piece];
        ConcatSnoc(suffixes[..k], piece);
        assert suffixes[..k] + [piece] == suffixes;
        added := added + piece;
        k := k + 1;
      }
      PerformsConcat(script, image.Bounds(), suffixes);
    }
  }

  ghost function Concat(pieces: seq<seq<(ImageProcessor, Rectangle)>>): seq<(ImageProcessor, Rectangle)> {
    if pieces == [] then [] else pieces[0] + Concat(pieces[1..])
  }

  lemma {:induction false} ConcatSnoc(pieces: seq<seq<(ImageProcessor, Rectangle)>>, last: seq<(ImageProcessor, Rectangle)>)
    ensures Concat(pieces + [last]) == Concat(pieces) + last
  {
    if pieces == [] {
      assert [last][1..] == [];
    } else {
      assert (pieces + [last])[1..] == pieces[1..] + [last];
      ConcatSnoc(pieces[1..], last);
    }
  }

  /** A script performs the concatenation of what its operations perform one by one. */
  lemma {:induction false} PerformsConcat(script: seq<Operation>, bounds: Rectangle, pieces: seq<seq<(ImageProcessor, Rectangle)>>)
    requires |pieces| == |script|
    requires forall j :: 0 <= j < |script| ==> Performs([script[j]], bounds, pieces[j])
    ensures Performs(script, bounds, Concat(pieces))
    decreases |script|
  {
    if script != [] {
      PerformsConcat(script[1..], bounds, pieces[1..]);
      assert [script[0]][1..] == [];
      assert Performs([script[0]], bounds, pieces[0]);
      PerformsPrepend(script[0], script[1..], bounds, pieces[0], Concat(pieces[1..]));
      assert [script[0]] + script[1..] == script;
    }
  }

  lemma PerformsPrepend(op: Operation, rest: seq<Operation>, bounds: Rectangle,
                        head: seq<(ImageProcessor, Rectangle)>, tail: seq<(ImageProcessor, Rectangle)>)
    requires Performs([op], bounds, head)
    requires Performs(rest, bounds, tail)
    ensures Performs([op] + rest, bounds, head + tail)
  {
    assert ([op] + rest)[1..] == rest;
    assert [op][1..] == [];
    if |head| > 0 {
      assert head[1..] == [];
      assert (head + tail)[1..] == tail;
    } else {
      assert head + tail == tail;
    }
  }

  /** A script hands over exactly Steps(script) processors, one per call except an empty ApplyEach. */
  lemma {:induction false} PerformsLength(script: seq<Operation>, bounds: Rectangle, added: seq<(ImageProcessor, Rectangle)>)
    requires Performs(script, bounds, added)
    ensures |added| == Steps(script)
    decreases |script|
  {
    if script != [] {
      match script[0]
      case ApplyEach(ps) =>
        if ps == [] {
          PerformsLength(script[1..], bounds, added);
        } else {
          PerformsLength(script[1..], bounds, added[1..]);
        }
      case _ =>
        PerformsLength(script[1..], bounds, added[1..]);
    }
  }

  /**
   * ApplyEach applies only the first processor: whatever follows it in the
   * sequence never reaches the image.
   */
  lemma ApplyEachFirstOnly(ps: seq<ImageProcessor>, bounds: Rectangle, added: seq<(ImageProcessor, Rectangle)>)
    ensures Performs([ApplyEach(ps)], bounds, added) <==>
      added == if ps == [] then [] else [(ps[0], bounds)]
  {
    assert [ApplyEach(ps)][1..] == [];
    if ps != [] && |added| > 0 {
      assert added == [added[0]] + added[1..];
    }
  }

  /** Successive calls reach the image in call order. */
  lemma {:induction false} PerformsInOrder(ps: seq<ImageProcessor>, bounds: Rectangle, added: seq<(ImageProcessor, Rectangle)>)
    requires Performs(Wholes(ps), bounds, added)
    ensures |added| == |ps| && forall j :: 0 <= j < |ps| ==> added[j] == (ps[j], bounds)
    decreases |ps|
  {
    if ps != [] {
      assert Wholes(ps)[1..] == Wholes(ps[1..]);
      PerformsInOrder(ps[1..], bounds, added[1..]);
    }
  }

  /** The script that applies each processor of ps in turn over the whole image. */
  function Wholes(ps: seq<ImageProcessor>): (script: seq<Operation>)
    ensures |script| == |ps|
  {
    if ps == [] then [] else [ApplyWhole(ps[0])] + Wholes(ps[1..])
  }

  // ---- The extension methods of ApplyProcessors.cs ----

  /** Mutate(source, operations): the operations run against the source itself. */
  method Mutate(source: Image, operations: Option<seq<Operation>>)
    returns (outcome: Outcome, ghost added: seq<(ImageProcessor, Rectangle)>)
    modifies source
    ensures operations.None? ==> outcome == Threw(ArgumentNull("operations")) && source.applied == old(source.applied)
    ensures operations.Some? ==>
      outcome == Done && source.applied == old(source.applied) + added
      && Performs(operations.value, source.Bounds(), added)
  {
    added := [];
    if operations.None? {
      return Threw(ArgumentNull("operations")), added;
    }
    var runner := new ImageOperations(source);
    added := runner.PerformAll(operations.value);
    outcome := Done;
  }

  /** Mutate(source, params processors): through ApplyProcessors, so only the first is applied. */
  method MutateAll(source: Image, processors: Option<seq<ImageProcessor>>) returns (outcome: Outcome)
    modifies source
    ensures processors.None? ==>
      outcome == Threw(ArgumentNull("operations")) && source.applied == old(source.applied)
    ensures processors.Some? ==>
      outcome == Done
      && source.applied == old(source.applied) + if processors.value == [] then [] else [(processors.value[0], source.Bounds())]
  {
    if processors.None? {
      return Threw(ArgumentNull("operations"));
    }
    var runner := new ImageOperations(source);
    var ops := runner.ApplyProcessors(processors.value);
    outcome := Done;
  }

  /**
   * Generate(source, operations), both overloads: the operations run against
   * a fresh copy, which is returned; the source is left untouched.
   */
  method Generate(source: Image, operations: Option<seq<Operation>>)
    returns (result: Result<Image, Error>, ghost added: seq<(ImageProcessor, Rectangle)>)
    ensures unchanged(source)
    ensures operations.None? <==> result.Failure?
    ensures operations.None? ==> result.error == ArgumentNull("operations")
    ensures result.Success? ==>
      var generated := result.value;
      fresh(generated)
      && generated.width == source.width && generated.height == source.height
      && generated.frameCount == source.frameCount
      && generated.applied == source.applied + added
      && Performs(operations.value, generated.Bounds(), added)
  {
    added := [];
    if operations.None? {
      return Failure(ArgumentNull("operations")), added;
    }
    var generated := new Image.Clone(source);
    var runner := new ImageOperations(generated);
    added := runner.PerformAll(operations.value);
    return Success(generated), added;
  }

  /** Generate(source, params processors), both overloads: a copy, of which only the first processor reaches. */
  method GenerateAll(source: Image, processors: Option<seq<ImageProcessor>>) returns (result: Result<Image, Error>)
    ensures unchanged(source)
    ensures processors.None? <==> result.Failure?
    ensures processors.None? ==> result.error == ArgumentNull("operations")
    ensures result.Success? ==>
      var generated := result.value;
      fresh(generated)
      && generated.width == source.width && generated.height == source.height
      && generated.frameCount == source.frameCount
      && generated.applied == source.applied + if processors.value == [] then [] else [(processors.value[0], source.Bounds())]
  {
    if processors.None? {
      return Failure(ArgumentNull("operations"));
    }
    var generated := new Image.Clone(source);
    var runner := new ImageOperations(generated);
    var ops := runner.ApplyProcessors(processors.value);
    return Success(generated);
  }
}
