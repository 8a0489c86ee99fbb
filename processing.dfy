// The processor application protocol (src/ImageSharp/Processing/ImageProcessor.cs)
// and the delegate processor (src/ImageSharp/Processing/DelegateImageProcessor.cs).
// A processor's stage hooks are what a concrete processor overrides; the
// model records every hook call in order and lets a hook fail with an
// exception, which stops the remaining stages.

module Processing {
  import opened Wrappers
  import opened Common
  import opened Geometry

  /** The overridable hooks of ImageProcessor. */
  datatype Stage = BeforeImageApply | BeforeApply | OnApply | AfterApply | AfterImageApply

  /**
   * What a hook is handed: the image it was applied to, or one of its
   * frames. The frame loop of Apply(Image) never hands a frame, which
   * FrameTriplesShape states against this alternative.
   */
  datatype Target = Source | Frame(index: nat)

  datatype Call = Call(stage: Stage, target: Target, rect: Rectangle)

  /** A concrete processor's hooks, as the exception each call raises (None: it returns). */
  type Hooks = Call -> Option<Error>

  /** Configuration.ParallelOptions: only its identity matters to the protocol. */
  datatype ParallelOptions = ParallelOptions(maxDegreeOfParallelism: int)

  /** The before/on/after triple for one target. */
  function Triple(t: Target, r: Rectangle): seq<Call> {
    [Call(BeforeApply, t, r), Call(OnApply, t, r), Call(AfterApply, t, r)]
  }

  /**
   * The triples of the frame loop of Apply(Image) over k frames. As written
   * every iteration hands the hooks `source`, not the frame.
   */
  function FrameTriples(k: nat, r: Rectangle): (s: seq<Call>)
    ensures |s| == 3 * k
  {
    if k == 0 then [] else FrameTriples(k - 1, r) + Triple(Source, r)
  }

  /** Every hook call Apply(Image) asks for, in order, for an image of k frames. */
  function ImageSchedule(k: nat, r: Rectangle): seq<Call> {
    [Call(BeforeImageApply, Source, r)] + Triple(Source, r) + FrameTriples(k, r) + [Call(AfterImageApply, Source, r)]
  }

  /** Every hook call Apply(ImageBase) asks for. */
  function BaseSchedule(r: Rectangle): seq<Call> {
    Triple(Source, r)
  }

  /** The exception of the first call of s that raises one. */
  function FirstError(s: seq<Call>, hooks: Hooks): Option<Error> {
    if s == [] then None
    else
      match FirstError(s[..|s| - 1], hooks)
      case Some(e) => Some(e)
      case None => hooks(s[|s| - 1])
  }

  /** The calls of s that are made: all of them, or those up to and including the first that raises. */
  function Executed(s: seq<Call>, hooks: Hooks): seq<Call> {
    if s == [] then []
    else if FirstError(s[..|s| - 1], hooks).Some? then Executed(s[..|s| - 1], hooks)
    else Executed(s[..|s| - 1], hooks) + [s[|s| - 1]]
  }

  /** The try/catch of both Apply overloads: release builds wrap, debug builds rethrow. */
  function Wrapped(name: string, error: Option<Error>, debug: bool): (o: Outcome)
    ensures error.None? <==> o == Done
  {
    match error
    case None => Done
    case Some(e) => Threw(if debug then e else ImageProcessing(name, e))
  }

  function Occurrences(s: seq<Call>, stage: Stage): nat {
    if s == [] then 0
    else Occurrences(s[..|s| - 1], stage) + (if s[|s| - 1].stage == stage then 1 else 0)
  }

  // ---- Properties of the schedules ----

  lemma {:induction false} OccurrencesAppend(s: seq<Call>, t: seq<Call>, stage: Stage)
    ensures Occurrences(s + t, stage) == Occurrences(s, stage) + Occurrences(t, stage)
    decreases |t|
  {
    if t == [] {
      assert s + t == s;
    } else {
      assert (s + t)[..|s + t| - 1] == s + t[..|t| - 1];
      OccurrencesAppend(s, t[..|t| - 1], stage);
    }
  }

  lemma {:induction false} FrameTriplesShape(k: nat, r: Rectangle)
    ensures forall c :: c in FrameTriples(k, r) ==> c in Triple(Source, r)
    ensures forall c :: c in FrameTriples(k, r) ==> c.target == Source && c.rect == r
  {
    if k > 0 {
      FrameTriplesShape(k - 1, r);
    }
  }

  /** The frame loop calls each of BeforeApply, OnApply and AfterApply once per frame. */
  lemma {:induction false} FrameTriplesCount(k: nat, r: Rectangle, stage: Stage)
    ensures Occurrences(FrameTriples(k, r), stage) ==
      if stage == BeforeApply || stage == OnApply || stage == AfterApply then k else 0
  {
    if k > 0 {
      FrameTriplesCount(k - 1, r, stage);
      OccurrencesAppend(FrameTriples(k - 1, r), Triple(Source, r), stage);
      OccurrencesOfParts(r, stage);
    }
  }

  /**
   * Apply(Image) on k frames: BeforeImageApply once and first,
   * AfterImageApply once and last, and k + 1 before/on/after triples in
   * between, every one of them handed the image itself.
   */
  lemma ImageScheduleShape(k: nat, r: Rectangle)
    ensures var s := ImageSchedule(k, r);
      |s| == 3 * (k + 1) + 2
      && s[0].stage == BeforeImageApply && s[|s| - 1].stage == AfterImageApply
      && Occurrences(s, BeforeImageApply) == 1 && Occurrences(s, AfterImageApply) == 1
      && Occurrences(s, BeforeApply) == k + 1 && Occurrences(s, OnApply) == k + 1
      && Occurrences(s, AfterApply) == k + 1
      && (forall i :: 1 <= i < |s| - 1 ==> s[i] == Triple(Source, r)[(i - 1) % 3])
      && (forall c :: c in s ==> c.target == Source && c.rect == r)
  {
    var first := [Call(BeforeImageApply, Source, r)];
    var last := [Call(AfterImageApply, Source, r)];
    var s := ImageSchedule(k, r);
    FrameTriplesShape(k, r);
    TriplesRepeat(k, r);
    ImageScheduleCounts(k, r, BeforeImageApply);
    ImageScheduleCounts(k, r, AfterImageApply);
    ImageScheduleCounts(k, r, BeforeApply);
    ImageScheduleCounts(k, r, OnApply);
    ImageScheduleCounts(k, r, AfterApply);
    forall i | 1 <= i < |s| - 1
      ensures s[i] == Triple(Source, r)[(i - 1) % 3]
    {
      if i >= 4 {
        assert s[i] == FrameTriples(k, r)[i - 4];
      }
    }
  }

  lemma ImageScheduleCounts(k: nat, r: Rectangle, stage: Stage)
    ensures Occurrences(ImageSchedule(k, r), stage) ==
      if stage == BeforeImageApply || stage == AfterImageApply then 1 else k + 1
  {
    var first := [Call(BeforeImageApply, Source, r)];
    var last := [Call(AfterImageApply, Source, r)];
    FrameTriplesCount(k, r, stage);
    OccurrencesAppend(first, Triple(Source, r), stage);
    OccurrencesAppend(first + Triple(Source, r), FrameTriples(k, r), stage);
    OccurrencesAppend(first + Triple(Source, r) + FrameTriples(k, r), last, stage);
    OccurrencesOfParts(r, stage);
  }

  /** How often each stage occurs in the fixed parts of the schedules. */
  lemma OccurrencesOfParts(r: Rectangle, stage: Stage)
    ensures Occurrences([Call(BeforeImageApply, Source, r)], stage) == if stage == BeforeImageApply then 1 else 0
    ensures Occurrences([Call(AfterImageApply, Source, r)], stage) == if stage == AfterImageApply then 1 else 0
    ensures Occurrences(Triple(Source, r), stage) ==
      if stage == BeforeApply || stage == OnApply || stage == AfterApply then 1 else 0
  {
    var t := Triple(Source, r);
    assert [Call(BeforeImageApply, Source, r)][..0] == [];
    assert [Call(AfterImageApply, Source, r)][..0] == [];
    var t0 := [t[0]];
    var t1 := [t[0], t[1]];
    assert t0[..0] == [] && t1[..1] == t0 && t[..2] == t1;
    assert Occurrences(t0, stage) == if t[0].stage == stage then 1 else 0;
    assert Occurrences(t1, stage) == Occurrences(t0, stage) + if t[1].stage == stage then 1 else 0;
    assert Occurrences(t, stage) == Occurrences(t1, stage) + if t[2].stage == stage then 1 else 0;
  }

  /** The frame loop repeats the same triple. */
  lemma {:induction false} TriplesRepeat(k: nat, r: Rectangle)
    ensures forall j :: 0 <= j < 3 * k ==> FrameTriples(k, r)[j] == Triple(Source, r)[j % 3]
  {
    if k > 0 {
      TriplesRepeat(k - 1, r);
    }
  }

  /** Apply(ImageBase) never reaches the image-level hooks. */
  lemma BaseScheduleShape(r: Rectangle)
    ensures Occurrences(BaseSchedule(r), BeforeImageApply) == 0
    ensures Occurrences(BaseSchedule(r), AfterImageApply) == 0
    ensures BaseSchedule(r) == [Call(BeforeApply, Source, r), Call(OnApply, Source, r), Call(AfterApply, Source, r)]
  {
    NoStageNoOccurrence(BaseSchedule(r), BeforeImageApply);
    NoStageNoOccurrence(BaseSchedule(r), AfterImageApply);
  }

  /** The calls made are a prefix of the schedule, and all of it when no hook raises. */
  lemma {:induction false} ExecutedIsPrefix(s: seq<Call>, hooks: Hooks)
    ensures var e := Executed(s, hooks);
      |e| <= |s| && e == s[..|e|] && (FirstError(s, hooks).None? ==> e == s)
  {
    if s != [] {
      var init := s[..|s| - 1];
      ExecutedIsPrefix(init, hooks);
      var e := Executed(init, hooks);
      if FirstError(init, hooks).None? {
        assert s == init + [s[|s| - 1]];
      } else {
        assert init[..|e|] == s[..|e|];
      }
    }
  }

  /** No hook raises exactly when every call of the schedule returns. */
  lemma {:induction false} FirstErrorNoneIff(s: seq<Call>, hooks: Hooks)
    ensures FirstError(s, hooks).None? <==> forall c :: c in s ==> hooks(c).None?
  {
    if s != [] {
      var init := s[..|s| - 1];
      FirstErrorNoneIff(init, hooks);
      assert forall c :: c in s <==> c in init || c == s[|s| - 1] by {
        assert s == init + [s[|s| - 1]];
      }
    }
  }

  /**
   * When a hook raises, the last call made is the one that raised, with the
   * exception FirstError reports, and every earlier call returned.
   */
  lemma {:induction false} ExecutedEndsAtError(s: seq<Call>, hooks: Hooks)
    requires FirstError(s, hooks).Some?
    ensures var e := Executed(s, hooks);
      |e| > 0 && hooks(e[|e| - 1]) == FirstError(s, hooks)
      && forall j :: 0 <= j < |e| - 1 ==> hooks(e[j]).None?
  {
    var init := s[..|s| - 1];
    if FirstError(init, hooks).Some? {
      ExecutedEndsAtError(init, hooks);
    } else {
      ExecutedIsPrefix(init, hooks);
      FirstErrorNoneIff(init, hooks);
      var e := Executed(s, hooks);
      assert e == init + [s[|s| - 1]];
      forall j | 0 <= j < |e| - 1
        ensures hooks(e[j]).None?
      {
        assert e[j] == init[j] && init[j] in init;
      }
    }
  }

  /** Running s and then t is running s + t, and t is not reached once s raised. */
  lemma {:induction false} ExecutedAppend(s: seq<Call>, t: seq<Call>, hooks: Hooks)
    ensures FirstError(s, hooks).Some? ==>
      Executed(s + t, hooks) == Executed(s, hooks) && FirstError(s + t, hooks) == FirstError(s, hooks)
    ensures FirstError(s, hooks).None? ==>
      Executed(s + t, hooks) == Executed(s, hooks) + Executed(t, hooks) && FirstError(s + t, hooks) == FirstError(t, hooks)
    decreases |t|
  {
    if t == [] {
      assert s + t == s;
    } else {
      assert (s + t)[..|s + t| - 1] == s + t[..|t| - 1];
      ExecutedAppend(s, t[..|t| - 1], hooks);
    }
  }

  lemma AppendAssoc(a: seq<Call>, b: seq<Call>, c: seq<Call>)
    ensures a + b + c == a + (b + c)
  {
  }

  /** One more frame triple, after frames that raised nothing, runs after them. */
  lemma FrameStep(prefix: seq<Call>, frame: nat, r: Rectangle, hooks: Hooks)
    requires FirstError(prefix + FrameTriples(frame, r), hooks).None?
    ensures Executed(prefix + FrameTriples(frame + 1, r), hooks)
      == Executed(prefix + FrameTriples(frame, r), hooks) + Executed(Triple(Source, r), hooks)
    ensures FirstError(prefix + FrameTriples(frame + 1, r), hooks) == FirstError(Triple(Source, r), hooks)
  {
    var done := prefix + FrameTriples(frame, r);
    assert prefix + FrameTriples(frame + 1, r) == done + Triple(Source, r);
    ExecutedAppend(done, Triple(Source, r), hooks);
  }

  // ---- ImageProcessor ----

  /**
   * The processor kinds whose hooks the model spells out; every other
   * processor is Plain and its hooks are given to Apply.
   */
  datatype Kind = Plain | Delegate(action: Option<Action>)

  /** An Action<IImage> supplied by the caller: the exception it raises when invoked, if any. */
  datatype Action = Action(raises: Option<Error>)

  /**
   * DelegateImageProcessor: BeforeImageApply invokes the action when there
   * is one; OnApply (and every other hook) does nothing.
   */
  function DelegateHooks(action: Option<Action>): Hooks {
    (c: Call) => if c.stage == BeforeImageApply && action.Some? then action.value.raises else None
  }

  class ImageProcessor {
    /** GetType().Name, used in the wrapping exception. */
    const name: string
    const kind: Kind
    var parallelOptions: Option<ParallelOptions>
    var compand: bool
    /** Every hook call this processor has received, in order. */
    var calls: seq<Call>

    /** A new processor: no ParallelOptions yet and Compand false. */
    constructor (name: string, kind: Kind)
      ensures this.name == name && this.kind == kind
      ensures parallelOptions == None && !compand && calls == []
    {
      this.name := name;
      this.kind := kind;
      parallelOptions := None;
      compand := false;
      calls := [];
    }

    /** new DelegateImageProcessor(action); a null action is accepted. */
    constructor Delegating(action: Option<Action>)
      ensures name == "DelegateImageProcessor" && kind == Delegate(action)
      ensures parallelOptions == None && !compand && calls == []
    {
      name := "DelegateImageProcessor";
      kind := Delegate(action);
      parallelOptions := None;
      compand := false;
      calls := [];
    }

    /** The hooks this processor's kind defines; a Plain processor uses the given ones. */
    function HooksOf(given: Hooks): Hooks {
      match kind
      case Plain => given
      case Delegate(action) => DelegateHooks(action)
    }

    /** Calls the hooks of s in order until one raises. */
    method RunStages(s: seq<Call>, hooks: Hooks) returns (error: Option<Error>)
      modifies this
      ensures calls == old(calls) + Executed(s, hooks)
      ensures error == FirstError(s, hooks)
      ensures parallelOptions == old(parallelOptions) && compand == old(compand)
    {
      var i := 0;
      error := None;
      while i < |s|
        invariant 0 <= i <= |s|
        invariant calls == old(calls) + Executed(s[..i], hooks)
        invariant error == FirstError(s[..i], hooks) && error.None?
        invariant parallelOptions == old(parallelOptions) && compand == old(compand)
      {
        assert s[..i + 1][..i] == s[..i];
        AppendAssoc(old(calls), Executed(s[..i], hooks), [s[i]]);
        calls := calls + [s[i]];
        error := hooks(s[i]);
        i := i + 1;
        if error.Some? {
          assert s[..i] + s[i..] == s;
          ExecutedAppend(s[..i], s[i..], hooks);
          return;
        }
      }
      assert s[..i] == s;
    }

    /**
     * Apply(Image, rectangle) for an image of frameCount frames:
     * ParallelOptions is taken from the configuration only if still unset;
     * the hooks run in the order of ImageSchedule until one raises, and its
     * exception comes out wrapped (release) or unchanged (debug).
     */
    method ApplyImage(frameCount: nat, configuration: ParallelOptions, r: Rectangle, given: Hooks, debug: bool)
      returns (outcome: Outcome)
      modifies this
      ensures parallelOptions == if old(parallelOptions).None? then Some(configuration) else old(parallelOptions)
      ensures compand == old(compand)
      ensures calls == old(calls) + Executed(ImageSchedule(frameCount, r), HooksOf(given))
      ensures outcome == Wrapped(name, FirstError(ImageSchedule(frameCount, r), HooksOf(given)), debug)
    {
      if parallelOptions == None {
        parallelOptions := Some(configuration);
      }
      var error := RunImageSchedule(frameCount, r, HooksOf(given));
      outcome := Wrapped(name, error, debug);
    }

    /**
     * The body of the try block of Apply(Image): BeforeImageApply, the
     * triple for the image, one triple per frame, AfterImageApply, each
     * reached only when nothing before it raised.
     */
    method RunImageSchedule(frameCount: nat, r: Rectangle, hooks: Hooks) returns (error: Option<Error>)
      modifies this
      ensures calls == old(calls) + Executed(ImageSchedule(frameCount, r), hooks)
      ensures error == FirstError(ImageSchedule(frameCount, r), hooks)
      ensures parallelOptions == old(parallelOptions) && compand == old(compand)
    {
      var prefix := [Call(BeforeImageApply, Source, r)] + Triple(Source, r);
      error := RunStages(prefix, hooks);
      var frame;
      error, frame := RunFrames(frameCount, r, hooks, prefix, old(calls), error);
      ImageRunComposes(frameCount, frame, r, hooks);
      if error.None? {
        ghost var done := prefix + FrameTriples(frame, r);
        var last := [Call(AfterImageApply, Source, r)];
        error := RunStages(last, hooks);
        AppendAssoc(old(calls), Executed(done, hooks), Executed(last, hooks));
      }
    }

    /**
     * The frame loop of Apply(Image): one triple per frame, stopping at the
     * first exception; `prefix` is what ran before it.
     */
    method RunFrames(frameCount: nat, r: Rectangle, hooks: Hooks, ghost prefix: seq<Call>, ghost before: seq<Call>, error0: Option<Error>)
      returns (error: Option<Error>, frame: nat)
      requires calls == before + Executed(prefix, hooks) && error0 == FirstError(prefix, hooks)
      modifies this
      ensures frame <= frameCount && (frame < frameCount ==> error.Some?)
      ensures calls == before + Executed(prefix + FrameTriples(frame, r), hooks)
      ensures error == FirstError(prefix + FrameTriples(frame, r), hooks)
      ensures parallelOptions == old(parallelOptions) && compand == old(compand)
    {
      error, frame := error0, 0;
      assert prefix + FrameTriples(0, r) == prefix;
      while error.None? && frame < frameCount
        invariant 0 <= frame <= frameCount
        invariant calls == before + Executed(prefix + FrameTriples(frame, r), hooks)
        invariant error == FirstError(prefix + FrameTriples(frame, r), hooks)
        invariant parallelOptions == old(parallelOptions) && compand == old(compand)
      {
        ghost var ran := Executed(prefix + FrameTriples(frame, r), hooks);
        error := RunStages(Triple(Source, r), hooks);
        FrameStep(prefix, frame, r, hooks);
        AppendAssoc(before, ran, Executed(Triple(Source, r), hooks));
        frame := frame + 1;
      }
    }

    /**
     * Apply(ImageBase, rectangle): only BeforeApply, OnApply and AfterApply,
     * with the same exception handling.
     */
    method ApplyBase(configuration: ParallelOptions, r: Rectangle, given: Hooks, debug: bool)
      returns (outcome: Outcome)
      modifies this
      ensures parallelOptions == if old(parallelOptions).None? then Some(configuration) else old(parallelOptions)
      ensures compand == old(compand)
      ensures calls == old(calls) + Executed(BaseSchedule(r), HooksOf(given))
      ensures outcome == Wrapped(name, FirstError(BaseSchedule(r), HooksOf(given)), debug)
    {
      if parallelOptions == None {
        parallelOptions := Some(configuration);
      }
      var error := RunStages(BaseSchedule(r), HooksOf(given));
      outcome := Wrapped(name, error, debug);
    }
  }

  lemma {:induction false} FrameTriplesPrefix(j: nat, k: nat, r: Rectangle)
    requires j <= k
    ensures FrameTriples(k, r)[..3 * j] == FrameTriples(j, r)
    decreases k
  {
    if j < k {
      FrameTriplesPrefix(j, k - 1, r);
      assert FrameTriples(k, r)[..3 * (k - 1)] == FrameTriples(k - 1, r);
    }
  }

  /**
   * Where the frame loop of Apply(Image) stopped: after the first frame
   * whose triple raised, or after the last frame.
   */
  lemma ImageRunComposes(k: nat, frame: nat, r: Rectangle, hooks: Hooks)
    requires frame <= k
    requires frame < k ==> FirstError([Call(BeforeImageApply, Source, r)] + Triple(Source, r) + FrameTriples(frame, r), hooks).Some?
    ensures var done := [Call(BeforeImageApply, Source, r)] + Triple(Source, r) + FrameTriples(frame, r);
      var last := [Call(AfterImageApply, Source, r)];
      (FirstError(done, hooks).Some? ==>
         Executed(ImageSchedule(k, r), hooks) == Executed(done, hooks)
         && FirstError(ImageSchedule(k, r), hooks) == FirstError(done, hooks))
      && (FirstError(done, hooks).None? ==>
         Executed(ImageSchedule(k, r), hooks) == Executed(done, hooks) + Executed(last, hooks)
         && FirstError(ImageSchedule(k, r), hooks) == FirstError(last, hooks))
  {
    var done := [Call(BeforeImageApply, Source, r)] + Triple(Source, r) + FrameTriples(frame, r);
    var rest := FrameTriples(k, r)[3 * frame..] + [Call(AfterImageApply, Source, r)];
    FrameTriplesPrefix(frame, k, r);
    assert FrameTriples(k, r) == FrameTriples(frame, r) + FrameTriples(k, r)[3 * frame..];
    assert ImageSchedule(k, r) == done + rest;
    ExecutedAppend(done, rest, hooks);
    if FirstError(done, hooks).None? {
      assert rest == [Call(AfterImageApply, Source, r)];
    }
  }

  // ---- What the delegate processor does under each overload ----

  /** The number of times the action is invoked: once per BeforeImageApply call made. */
  function ActionInvocations(made: seq<Call>, action: Option<Action>): nat {
    if action.None? then 0 else Occurrences(made, BeforeImageApply)
  }

  /**
   * Through Apply(Image) the action runs exactly once, first, whatever it
   * does; with a null action nothing raises and every stage runs.
   */
  lemma DelegateOnImage(k: nat, r: Rectangle, action: Option<Action>)
    ensures var made := Executed(ImageSchedule(k, r), DelegateHooks(action));
      ActionInvocations(made, action) == (if action.Some? then 1 else 0)
      && |made| > 0 && made[0] == Call(BeforeImageApply, Source, r)
    ensures action.None? ==>
      Executed(ImageSchedule(k, r), DelegateHooks(action)) == ImageSchedule(k, r)
      && FirstError(ImageSchedule(k, r), DelegateHooks(action)) == None
    ensures action.Some? && action.value.raises.Some? ==>
      Executed(ImageSchedule(k, r), DelegateHooks(action)) == [Call(BeforeImageApply, Source, r)]
  {
    var hooks := DelegateHooks(action);
    var first := [Call(BeforeImageApply, Source, r)];
    OnlyImageStartRaises(k, r, hooks);
    var made := Executed(ImageSchedule(k, r), hooks);
    if action.Some? {
      OccurrencesOfParts(r, BeforeImageApply);
      if hooks(first[0]).None? {
        ImageScheduleShape(k, r);
      }
    }
  }

  /**
   * Hooks of which only BeforeImageApply can raise: Apply(Image) stops
   * right after it when it raises and otherwise makes every call.
   */
  lemma OnlyImageStartRaises(k: nat, r: Rectangle, hooks: Hooks)
    requires forall c: Call :: c.stage != BeforeImageApply ==> hooks(c).None?
    ensures var first := Call(BeforeImageApply, Source, r);
      FirstError(ImageSchedule(k, r), hooks) == hooks(first)
      && Executed(ImageSchedule(k, r), hooks) == if hooks(first).Some? then [first] else ImageSchedule(k, r)
  {
    var first := [Call(BeforeImageApply, Source, r)];
    var rest := Triple(Source, r) + FrameTriples(k, r) + [Call(AfterImageApply, Source, r)];
    assert ImageSchedule(k, r) == first + rest;
    assert first[..0] == [];
    assert FirstError(first, hooks) == hooks(first[0]);
    assert Executed(first, hooks) == first;
    RestHasNoImageStart(k, r);
    NoErrorWithoutStage(rest, hooks);
    ExecutedAppend(first, rest, hooks);
  }

  /** After the first call, Apply(Image) asks for no BeforeImageApply. */
  lemma RestHasNoImageStart(k: nat, r: Rectangle)
    ensures forall c :: c in Triple(Source, r) + FrameTriples(k, r) + [Call(AfterImageApply, Source, r)] ==>
      c.stage != BeforeImageApply
  {
    FrameTriplesShape(k, r);
  }

  /** Through Apply(ImageBase) the action is never invoked. */
  lemma DelegateOnBase(r: Rectangle, action: Option<Action>)
    ensures ActionInvocations(Executed(BaseSchedule(r), DelegateHooks(action)), action) == 0
    ensures Executed(BaseSchedule(r), DelegateHooks(action)) == BaseSchedule(r)
    ensures FirstError(BaseSchedule(r), DelegateHooks(action)) == None
  {
    NoErrorWithoutStage(BaseSchedule(r), DelegateHooks(action));
    BaseScheduleShape(r);
  }

  lemma {:induction false} NoErrorWithoutStage(s: seq<Call>, action: Hooks)
    requires forall c :: c in s ==> action(c).None?
    ensures FirstError(s, action) == None && Executed(s, action) == s
  {
    if s != [] {
      assert forall c :: c in s[..|s| - 1] ==> c in s;
      NoErrorWithoutStage(s[..|s| - 1], action);
      assert s[..|s| - 1] + [s[|s| - 1]] == s;
    }
  }

  lemma {:induction false} NoStageNoOccurrence(s: seq<Call>, stage: Stage)
    requires forall c :: c in s ==> c.stage != stage
    ensures Occurrences(s, stage) == 0
  {
    if s != [] {
      assert forall c :: c in s[..|s| - 1] ==> c in s;
      NoStageNoOccurrence(s[..|s| - 1], stage);
    }
  }
}
