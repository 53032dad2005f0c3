/** The probe's nested loops over its configuration, and the attempts of its special mode
    (cmd/nvprobe/main.go, buildSpecialAttempts). */
module NvAttempts {
  import opened NvEncoder
  import opened Lists

  datatype Mode = Special | Empty | Hello | OtherMode(name: string)

  datatype Config = Config(
    mode: Mode, frameStyles: seq<Style>, serviceTags: seq<int>, commandTags: seq<int>, payloadTags: seq<int>,
    inputTags: seq<int>, specialTags: seq<int>, serviceIDs: seq<int>, commandIDs: seq<int>,
    inputTypes: seq<int>, specialInputs: seq<int>, helloPreamble: bool)

  const BLANK := Attempt(Raw, 0, 0, 0, 0, 0, 0, 0, 0, 0, "", NoDesc, NoDesc, false, [], [])

  /** The numeric fields of an attempt that a loop runs over. */
  datatype Axis = ServiceTag | CommandTag | ServiceID | CommandID | PayloadTag | InputTag | SpecialTag
                | InputType | SpecialInput

  const EMPTY_AXES := [ServiceTag, CommandTag, ServiceID, CommandID]
  const SPECIAL_AXES := [ServiceTag, CommandTag, ServiceID, CommandID, PayloadTag, InputTag, SpecialTag,
                         InputType, SpecialInput]
  const HELLO_AXES := [ServiceTag, CommandTag, ServiceID, CommandID, PayloadTag]

  function Choices(cfg: Config, ax: Axis): seq<int> {
    match ax
    case ServiceTag => cfg.serviceTags
    case CommandTag => cfg.commandTags
    case ServiceID => cfg.serviceIDs
    case CommandID => cfg.commandIDs
    case PayloadTag => cfg.payloadTags
    case InputTag => cfg.inputTags
    case SpecialTag => cfg.specialTags
    case InputType => cfg.inputTypes
    case SpecialInput => cfg.specialInputs
  }

  function Value(a: Attempt, ax: Axis): int {
    match ax
    case ServiceTag => a.serviceTag
    case CommandTag => a.commandTag
    case ServiceID => a.serviceID
    case CommandID => a.commandID
    case PayloadTag => a.payloadTag
    case InputTag => a.inputTag
    case SpecialTag => a.specialTag
    case InputType => a.inputType
    case SpecialInput => a.specialInput
  }

  function Put(a: Attempt, ax: Axis, v: int): Attempt {
    match ax
    case ServiceTag => a.(serviceTag := v)
    case CommandTag => a.(commandTag := v)
    case ServiceID => a.(serviceID := v)
    case CommandID => a.(commandID := v)
    case PayloadTag => a.(payloadTag := v)
    case InputTag => a.(inputTag := v)
    case SpecialTag => a.(specialTag := v)
    case InputType => a.(inputType := v)
    case SpecialInput => a.(specialInput := v)
  }

  /** The condition under which a loop does not skip a value, in terms of the attempt's own fields. */
  predicate Allowed(mode: Mode, a: Attempt, ax: Axis) {
    match ax
    case CommandTag => a.commandTag != a.serviceTag
    case PayloadTag => a.payloadTag != a.serviceTag && a.payloadTag != a.commandTag && (mode == Hello ==> a.payloadTag > 0)
    case SpecialTag => a.inputTag != a.specialTag
    case _ => true
  }

  // ------------------------------------------------------------------ nested loops as one recursion

  /** What nested loops over these axes append, outermost first, starting from a partial attempt. */
  function Loops(cfg: Config, axes: seq<Axis>, a: Attempt): seq<Attempt>
    decreases |axes|, if axes == [] then 0 else |Choices(cfg, axes[0])| + 1
  {
    if axes == [] then [a] else LoopsFrom(cfg, axes, a, 0)
  }

  /** The same from the i-th value of the outermost axis on. */
  function LoopsFrom(cfg: Config, axes: seq<Axis>, a: Attempt, i: nat): seq<Attempt>
    requires axes != [] && i <= |Choices(cfg, axes[0])|
    decreases |axes|, |Choices(cfg, axes[0])| - i
  {
    if i == |Choices(cfg, axes[0])| then []
    else Branch(cfg, axes, Put(a, axes[0], Choices(cfg, axes[0])[i])) + LoopsFrom(cfg, axes, a, i + 1)
  }

  /** One pass of the outermost loop: nothing if its value is skipped. */
  function Branch(cfg: Config, axes: seq<Axis>, a: Attempt): seq<Attempt>
    requires axes != []
    decreases |axes|, 0
  {
    if Allowed(cfg.mode, a, axes[0]) then Loops(cfg, axes[1..], a) else []
  }

  function AllStyles(cfg: Config, axes: seq<Axis>, i: nat): seq<Attempt>
    requires i <= |cfg.frameStyles|
    decreases |cfg.frameStyles| - i
  {
    if i == |cfg.frameStyles| then []
    else Loops(cfg, axes, BLANK.(frameStyle := cfg.frameStyles[i])) + AllStyles(cfg, axes, i + 1)
  }

  // ------------------------------------------------------------------ the loops of the source

  /** The definitions of Branch and LoopsFrom at one value, for use where they are hidden. */
  lemma LoopStep(cfg: Config, axes: seq<Axis>, a: Attempt, i: nat)
    requires axes != [] && i < |Choices(cfg, axes[0])|
    ensures LoopsFrom(cfg, axes, a, i) ==
            Branch(cfg, axes, Put(a, axes[0], Choices(cfg, axes[0])[i])) + LoopsFrom(cfg, axes, a, i + 1)
  {
  }

  /** How a loop goes on after its i-th value: skipped, or with the inner loops' output appended. */
  lemma Advance(cfg: Config, axes: seq<Axis>, a: Attempt, i: nat, before: seq<Attempt>)
    requires axes != [] && i < |Choices(cfg, axes[0])|
    ensures var b := Put(a, axes[0], Choices(cfg, axes[0])[i]);
            before + LoopsFrom(cfg, axes, a, i) ==
            (if Allowed(cfg.mode, b, axes[0]) then before + Loops(cfg, axes[1..], b) else before)
            + LoopsFrom(cfg, axes, a, i + 1)
  {
    hide Loops;
    LoopStep(cfg, axes, a, i);
    var b := Put(a, axes[0], Choices(cfg, axes[0])[i]);
    assert before + (Branch(cfg, axes, b) + LoopsFrom(cfg, axes, a, i + 1))
        == before + Branch(cfg, axes, b) + LoopsFrom(cfg, axes, a, i + 1);
    assert before + [] == before;
  }

  lemma Innermost(cfg: Config)
    ensures Nest(9) == []
    ensures forall a :: Loops(cfg, [], a) == [a]
  {
  }

  lemma OpenLoop(cfg: Config, axes: seq<Axis>, a: Attempt, before: seq<Attempt>)
    requires axes != []
    ensures before + LoopsFrom(cfg, axes, a, 0) == before + Loops(cfg, axes, a)
  {
  }

  lemma CloseLoop(cfg: Config, axes: seq<Axis>, a: Attempt, before: seq<Attempt>)
    requires axes != []
    ensures before + LoopsFrom(cfg, axes, a, |Choices(cfg, axes[0])|) == before
  {
  }

  /** The special-input loops from the k-th numeric one inwards. */
  function Nest(k: nat): (r: seq<Axis>)
    requires k <= 9
    ensures |r| == 9 - k
    ensures k < 9 ==> r[0] == SPECIAL_AXES[k] && r[1..] == SPECIAL_AXES[k + 1..]
  {
    assert SPECIAL_AXES[k..] == [] || SPECIAL_AXES[k..][1..] == SPECIAL_AXES[k + 1..];
    SPECIAL_AXES[k..]
  }

  /** The ten nested loops, two or three levels a method. */
  method BuildSpecialAttempts(cfg: Config) returns (attempts: seq<Attempt>)
    requires cfg.mode == Special
    ensures attempts == AllStyles(cfg, SPECIAL_AXES, 0)
  {
    hide Loops, LoopsFrom, Branch;
    assert Nest(0) == SPECIAL_AXES;
    attempts := [];
    for i := 0 to |cfg.frameStyles|
      invariant attempts + AllStyles(cfg, Nest(0), i) == AllStyles(cfg, Nest(0), 0)
    {
      var a0 := BLANK.(frameStyle := cfg.frameStyles[i]);
      ghost var before := attempts;
      OpenLoop(cfg, Nest(0), a0, attempts);
      ghost var g0 := attempts + Loops(cfg, Nest(0), a0);
      for i0 := 0 to |cfg.serviceTags|
        invariant attempts + LoopsFrom(cfg, Nest(0), a0, i0) == g0
      {
        var a1 := a0.(serviceTag := cfg.serviceTags[i0]);
        Advance(cfg, Nest(0), a0, i0, attempts);
        OpenLoop(cfg, Nest(1), a1, attempts);
        ghost var g1 := attempts + Loops(cfg, Nest(1), a1);
        for i1 := 0 to |cfg.commandTags|
          invariant attempts + LoopsFrom(cfg, Nest(1), a1, i1) == g1
        {
          var a2 := a1.(commandTag := cfg.commandTags[i1]);
          Advance(cfg, Nest(1), a1, i1, attempts);
          if a2.commandTag == a2.serviceTag {
            continue;
          }
          attempts := AppendServices(cfg, a2, attempts);
        }
        CloseLoop(cfg, Nest(1), a1, attempts);
      }
      CloseLoop(cfg, Nest(0), a0, attempts);
      assert before + (Loops(cfg, Nest(0), a0) + AllStyles(cfg, Nest(0), i + 1))
          == before + Loops(cfg, Nest(0), a0) + AllStyles(cfg, Nest(0), i + 1);
    }
  }

  method AppendServices(cfg: Config, a2: Attempt, sofar: seq<Attempt>) returns (attempts: seq<Attempt>)
    requires cfg.mode == Special
    ensures attempts == sofar + Loops(cfg, Nest(2), a2)
  {
    hide Loops, LoopsFrom, Branch;
    attempts := sofar;
    OpenLoop(cfg, Nest(2), a2, attempts);
    ghost var g2 := attempts + Loops(cfg, Nest(2), a2);
    for i2 := 0 to |cfg.serviceIDs|
      invariant attempts + LoopsFrom(cfg, Nest(2), a2, i2) == g2
    {
      var a3 := a2.(serviceID := cfg.serviceIDs[i2]);
      Advance(cfg, Nest(2), a2, i2, attempts);
      OpenLoop(cfg, Nest(3), a3, attempts);
      ghost var g3 := attempts + Loops(cfg, Nest(3), a3);
      for i3 := 0 to |cfg.commandIDs|
        invariant attempts + LoopsFrom(cfg, Nest(3), a3, i3) == g3
      {
        var a4 := a3.(commandID := cfg.commandIDs[i3]);
        Advance(cfg, Nest(3), a3, i3, attempts);
        OpenLoop(cfg, Nest(4), a4, attempts);
        ghost var g4 := attempts + Loops(cfg, Nest(4), a4);
        for i4 := 0 to |cfg.payloadTags|
          invariant attempts + LoopsFrom(cfg, Nest(4), a4, i4) == g4
        {
          var a5 := a4.(payloadTag := cfg.payloadTags[i4]);
          Advance(cfg, Nest(4), a4, i4, attempts);
          if a5.payloadTag == a5.serviceTag || a5.payloadTag == a5.commandTag {
            continue;
          }
          attempts := AppendInputs(cfg, a5, attempts);
        }
        CloseLoop(cfg, Nest(4), a4, attempts);
      }
      CloseLoop(cfg, Nest(3), a3, attempts);
    }
    CloseLoop(cfg, Nest(2), a2, attempts);
  }

  method AppendInputs(cfg: Config, a5: Attempt, sofar: seq<Attempt>) returns (attempts: seq<Attempt>)
    requires cfg.mode == Special
    ensures attempts == sofar + Loops(cfg, Nest(5), a5)
  {
    hide Loops, LoopsFrom, Branch;
    attempts := sofar;
    OpenLoop(cfg, Nest(5), a5, attempts);
    ghost var g5 := attempts + Loops(cfg, Nest(5), a5);
    for i5 := 0 to |cfg.inputTags|
      invariant attempts + LoopsFrom(cfg, Nest(5), a5, i5) == g5
    {
      var a6 := a5.(inputTag := cfg.inputTags[i5]);
      Advance(cfg, Nest(5), a5, i5, attempts);
      OpenLoop(cfg, Nest(6), a6, attempts);
      ghost var g6 := attempts + Loops(cfg, Nest(6), a6);
      for i6 := 0 to |cfg.specialTags|
        invariant attempts + LoopsFrom(cfg, Nest(6), a6, i6) == g6
      {
        var a7 := a6.(specialTag := cfg.specialTags[i6]);
        Advance(cfg, Nest(6), a6, i6, attempts);
        if a7.inputTag == a7.specialTag {
          continue;
        }
        attempts := AppendSpecials(cfg, a7, attempts);
      }
      CloseLoop(cfg, Nest(6), a6, attempts);
    }
    CloseLoop(cfg, Nest(5), a5, attempts);
  }

  method AppendSpecials(cfg: Config, a7: Attempt, sofar: seq<Attempt>) returns (attempts: seq<Attempt>)
    ensures attempts == sofar + Loops(cfg, Nest(7), a7)
  {
    hide Loops, LoopsFrom, Branch;
    attempts := sofar;
    Innermost(cfg);
    OpenLoop(cfg, Nest(7), a7, attempts);
    ghost var g7 := attempts + Loops(cfg, Nest(7), a7);
    for i7 := 0 to |cfg.inputTypes|
      invariant attempts + LoopsFrom(cfg, Nest(7), a7, i7) == g7
    {
      var a8 := a7.(inputType := cfg.inputTypes[i7]);
      Advance(cfg, Nest(7), a7, i7, attempts);
      OpenLoop(cfg, Nest(8), a8, attempts);
      ghost var g8 := attempts + Loops(cfg, Nest(8), a8);
      for i8 := 0 to |cfg.specialInputs|
        invariant attempts + LoopsFrom(cfg, Nest(8), a8, i8) == g8
      {
        var a9 := a8.(specialInput := cfg.specialInputs[i8]);
        Advance(cfg, Nest(8), a8, i8, attempts);
        attempts := attempts + [a9];
      }
      CloseLoop(cfg, Nest(8), a8, attempts);
    }
    CloseLoop(cfg, Nest(7), a7, attempts);
  }

  // ------------------------------------------------------------------ exactly once

  /** Everything of an attempt that no loop sets. */
  function Rest(a: Attempt): Attempt {
    BLANK.(frameStyle := a.frameStyle, template := a.template, payloadDesc := a.payloadDesc,
           preambleDesc := a.preambleDesc, hasCustomPayload := a.hasCustomPayload,
           payloadBytes := a.payloadBytes, preambleBytes := a.preambleBytes)
  }

  /** x and a agree outside the given axes. */
  ghost predicate AgreeOutside(a: Attempt, x: Attempt, axes: seq<Axis>) {
    Rest(a) == Rest(x) && forall ax: Axis :: ax !in axes ==> Value(a, ax) == Value(x, ax)
  }

  /** x's values on the axes come from the configured lists and are not skipped. */
  ghost predicate Chosen(cfg: Config, x: Attempt, axes: seq<Axis>) {
    forall ax: Axis :: ax in axes ==> Value(x, ax) in Choices(cfg, ax) && Allowed(cfg.mode, x, ax)
  }

  /** The axes whose values decide whether a value of ax is skipped. */
  function Reads(ax: Axis): set<Axis> {
    match ax
    case CommandTag => {ServiceTag}
    case PayloadTag => {ServiceTag, CommandTag}
    case SpecialTag => {InputTag}
    case _ => {}
  }

  /** The nesting order of the source's loops; a skip only depends on loops further out. */
  function Depth(ax: Axis): nat {
    match ax
    case ServiceTag => 0
    case CommandTag => 1
    case ServiceID => 2
    case CommandID => 3
    case PayloadTag => 4
    case InputTag => 5
    case SpecialTag => 6
    case InputType => 7
    case SpecialInput => 8
  }

  /** Loops are nested in the source's order, each axis once. */
  ghost predicate WellNested(axes: seq<Axis>) {
    forall i, j :: 0 <= i < j < |axes| ==> Depth(axes[i]) < Depth(axes[j])
  }

  lemma NestedTail(axes: seq<Axis>)
    requires WellNested(axes) && axes != []
    ensures WellNested(axes[1..]) && axes[0] !in axes[1..]
    ensures forall d :: d in Reads(axes[0]) ==> d !in axes[1..]
  {
    forall d | d == axes[0] || d in Reads(axes[0]) ensures d !in axes[1..] {
      assert Depth(d) <= Depth(axes[0]);
    }
  }

  lemma SameEverywhere(a: Attempt, x: Attempt)
    requires AgreeOutside(a, x, [])
    ensures a == x
  {
    assert Value(a, ServiceTag) == Value(x, ServiceTag) && Value(a, CommandTag) == Value(x, CommandTag)
        && Value(a, ServiceID) == Value(x, ServiceID) && Value(a, CommandID) == Value(x, CommandID)
        && Value(a, PayloadTag) == Value(x, PayloadTag) && Value(a, InputTag) == Value(x, InputTag)
        && Value(a, SpecialTag) == Value(x, SpecialTag) && Value(a, InputType) == Value(x, InputType)
        && Value(a, SpecialInput) == Value(x, SpecialInput);
  }

  lemma AllowedTransfers(mode: Mode, a: Attempt, x: Attempt, ax: Axis, rest: seq<Axis>)
    requires AgreeOutside(a, x, rest) && ax !in rest && forall d :: d in Reads(ax) ==> d !in rest
    ensures Allowed(mode, a, ax) == Allowed(mode, x, ax)
  {
    assert Value(a, ax) == Value(x, ax);
    assert forall d :: d in Reads(ax) ==> Value(a, d) == Value(x, d);
    assert ax == CommandTag ==> Value(a, ServiceTag) == Value(x, ServiceTag);
    assert ax == PayloadTag ==> Value(a, ServiceTag) == Value(x, ServiceTag) && Value(a, CommandTag) == Value(x, CommandTag);
    assert ax == SpecialTag ==> Value(a, InputTag) == Value(x, InputTag);
  }

  /** What nested loops produce: exactly the attempts that agree with the partial one elsewhere and whose
      looped values are configured and not skipped. */
  lemma {:induction false} LoopsMembers(cfg: Config, axes: seq<Axis>, a: Attempt, x: Attempt)
    requires WellNested(axes)
    ensures x in Loops(cfg, axes, a) <==> AgreeOutside(a, x, axes) && Chosen(cfg, x, axes)
    decreases |axes|, if axes == [] then 0 else |Choices(cfg, axes[0])| + 1
  {
    if axes == [] {
      if AgreeOutside(a, x, axes) {
        SameEverywhere(a, x);
      }
    } else {
      LoopsFromMembers(cfg, axes, a, x, 0);
      if AgreeOutside(a, x, axes) && Chosen(cfg, x, axes) {
        assert Value(x, axes[0]) in Choices(cfg, axes[0]);
      }
    }
  }

  lemma {:induction false} LoopsFromMembers(cfg: Config, axes: seq<Axis>, a: Attempt, x: Attempt, i: nat)
    requires WellNested(axes) && axes != [] && i <= |Choices(cfg, axes[0])|
    ensures x in LoopsFrom(cfg, axes, a, i) <==>
            AgreeOutside(a, x, axes) && Chosen(cfg, x, axes) && Value(x, axes[0]) in Choices(cfg, axes[0])[i..]
    decreases |axes|, |Choices(cfg, axes[0])| - i
  {
    var ax, vs := axes[0], Choices(cfg, axes[0]);
    if i < |vs| {
      var b := Put(a, ax, vs[i]);
      NestedTail(axes);
      LoopsFromMembers(cfg, axes, a, x, i + 1);
      LoopsMembers(cfg, axes[1..], b, x);
      BranchMembers(cfg, axes, a, x, vs[i]);
      assert vs[i..] == [vs[i]] + vs[i + 1..];
    }
  }

  /** One pass of the outermost loop contributes the attempts with its value. */
  lemma BranchMembers(cfg: Config, axes: seq<Axis>, a: Attempt, x: Attempt, v: int)
    requires WellNested(axes) && axes != [] && v in Choices(cfg, axes[0])
    requires x in Loops(cfg, axes[1..], Put(a, axes[0], v)) <==>
             AgreeOutside(Put(a, axes[0], v), x, axes[1..]) && Chosen(cfg, x, axes[1..])
    ensures x in Branch(cfg, axes, Put(a, axes[0], v)) <==>
            AgreeOutside(a, x, axes) && Chosen(cfg, x, axes) && Value(x, axes[0]) == v
  {
    hide Loops, Choices;
    var ax, rest := axes[0], axes[1..];
    NestedTail(axes);
    var b := Put(a, ax, v);
    assert forall y: Axis :: y in axes <==> y == ax || y in rest;
    PutValue(a, ax, v);
    if AgreeOutside(b, x, rest) {
      AllowedTransfers(cfg.mode, b, x, ax, rest);
      assert AgreeOutside(a, x, axes) && Value(x, ax) == v;
    }
    if AgreeOutside(a, x, axes) && Value(x, ax) == v {
      assert AgreeOutside(b, x, rest);
    }
  }

  lemma PutValue(a: Attempt, ax: Axis, v: int)
    ensures Value(Put(a, ax, v), ax) == v && Rest(Put(a, ax, v)) == Rest(a)
    ensures forall y: Axis :: y != ax ==> Value(Put(a, ax, v), y) == Value(a, y)
  {
  }

  ghost predicate DistinctChoices(cfg: Config, axes: seq<Axis>) {
    forall ax: Axis :: ax in axes ==> NoRepeats(Choices(cfg, ax))
  }

  /** Lists without repetitions give attempts without repetitions. */
  lemma {:induction false} LoopsNoDup(cfg: Config, axes: seq<Axis>, a: Attempt)
    requires WellNested(axes) && DistinctChoices(cfg, axes)
    ensures NoRepeats(Loops(cfg, axes, a))
    decreases |axes|, if axes == [] then 0 else |Choices(cfg, axes[0])| + 1
  {
    if axes != [] {
      LoopsFromNoDup(cfg, axes, a, 0);
    }
  }

  lemma {:induction false} LoopsFromNoDup(cfg: Config, axes: seq<Axis>, a: Attempt, i: nat)
    requires WellNested(axes) && axes != [] && DistinctChoices(cfg, axes) && i <= |Choices(cfg, axes[0])|
    ensures NoRepeats(LoopsFrom(cfg, axes, a, i))
    decreases |axes|, |Choices(cfg, axes[0])| - i
  {
    hide WellNested, AgreeOutside, Chosen, Choices;
    var vs := Choices(cfg, axes[0]);
    if i < |vs| {
      var b := Put(a, axes[0], vs[i]);
      NestedTail(axes);
      assert forall y: Axis :: y in axes[1..] ==> y in axes;
      LoopsFromNoDup(cfg, axes, a, i + 1);
      LoopsNoDup(cfg, axes[1..], b);
      assert axes[0] in axes && NoRepeats(vs);
      forall x | x in Branch(cfg, axes, b) ensures x !in LoopsFrom(cfg, axes, a, i + 1) {
        LoopsMembers(cfg, axes[1..], b, x);
        BranchMembers(cfg, axes, a, x, vs[i]);
        LoopsFromMembers(cfg, axes, a, x, i + 1);
        assert vs[i] !in vs[i + 1..];
      }
      NoRepeatsConcat(Branch(cfg, axes, b), LoopsFrom(cfg, axes, a, i + 1));
    }
  }

  lemma {:induction false} StylesMembers(cfg: Config, axes: seq<Axis>, x: Attempt, i: nat)
    requires WellNested(axes) && i <= |cfg.frameStyles|
    ensures x in AllStyles(cfg, axes, i) <==>
            && x.frameStyle in cfg.frameStyles[i..]
            && AgreeOutside(BLANK.(frameStyle := x.frameStyle), x, axes)
            && Chosen(cfg, x, axes)
    decreases |cfg.frameStyles| - i
  {
    hide Loops, Chosen, WellNested;
    if i < |cfg.frameStyles| {
      var a := BLANK.(frameStyle := cfg.frameStyles[i]);
      StylesMembers(cfg, axes, x, i + 1);
      LoopsMembers(cfg, axes, a, x);
      assert cfg.frameStyles[i..] == [cfg.frameStyles[i]] + cfg.frameStyles[i + 1..];
      if AgreeOutside(a, x, axes) {
        assert Rest(a) == Rest(x);
      }
    }
  }

  lemma {:induction false} StylesNoDup(cfg: Config, axes: seq<Axis>, i: nat)
    requires WellNested(axes) && DistinctChoices(cfg, axes) && NoRepeats(cfg.frameStyles) && i <= |cfg.frameStyles|
    ensures NoRepeats(AllStyles(cfg, axes, i))
    decreases |cfg.frameStyles| - i
  {
    hide Loops, Chosen, WellNested, DistinctChoices;
    if i < |cfg.frameStyles| {
      var a := BLANK.(frameStyle := cfg.frameStyles[i]);
      StylesNoDup(cfg, axes, i + 1);
      LoopsNoDup(cfg, axes, a);
      forall x | x in Loops(cfg, axes, a) ensures x !in AllStyles(cfg, axes, i + 1) {
        LoopsMembers(cfg, axes, a, x);
        StylesMembers(cfg, axes, x, i + 1);
        assert Rest(a) == Rest(x);
        assert cfg.frameStyles[i] !in cfg.frameStyles[i + 1..];
      }
      NoRepeatsConcat(Loops(cfg, axes, a), AllStyles(cfg, axes, i + 1));
    }
  }

  lemma SpecialNested()
    ensures WellNested(SPECIAL_AXES)
    ensures forall ax: Axis :: ax in SPECIAL_AXES
  {
    forall i | 0 <= i < 9 ensures Depth(SPECIAL_AXES[i]) == i {
    }
    forall ax: Axis ensures ax in SPECIAL_AXES {
      assert SPECIAL_AXES[Depth(ax)] == ax;
    }
  }

  /** Exactly-once enumeration: given lists without repetitions, the special attempts are exactly the tuples
      of configured values with command tag other than service tag, payload tag other than both and special
      tag other than input tag, each of them once. */
  lemma SpecialExactlyOnce(cfg: Config, x: Attempt)
    requires cfg.mode == Special && NoRepeats(cfg.frameStyles) && DistinctChoices(cfg, SPECIAL_AXES)
    ensures NoRepeats(AllStyles(cfg, SPECIAL_AXES, 0))
    ensures x in AllStyles(cfg, SPECIAL_AXES, 0) <==> Bare(x) && SpecialTuple(cfg, x)
  {
    hide AllStyles, WellNested, DistinctChoices, SpecialTuple;
    SpecialNested();
    StylesNoDup(cfg, SPECIAL_AXES, 0);
    SpecialMembers(cfg, x);
  }

  /** No template, description, payload or preamble is attached. */
  ghost predicate Bare(x: Attempt) {
    && x.template == "" && x.payloadDesc == NoDesc && x.preambleDesc == NoDesc
    && !x.hasCustomPayload && x.payloadBytes == [] && x.preambleBytes == []
  }

  ghost predicate SpecialTuple(cfg: Config, x: Attempt) {
    && x.frameStyle in cfg.frameStyles
    && x.serviceTag in cfg.serviceTags && x.commandTag in cfg.commandTags && x.commandTag != x.serviceTag
    && x.serviceID in cfg.serviceIDs && x.commandID in cfg.commandIDs
    && x.payloadTag in cfg.payloadTags && x.payloadTag != x.serviceTag && x.payloadTag != x.commandTag
    && x.inputTag in cfg.inputTags && x.specialTag in cfg.specialTags && x.inputTag != x.specialTag
    && x.inputType in cfg.inputTypes && x.specialInput in cfg.specialInputs
  }

  lemma SpecialMembers(cfg: Config, x: Attempt)
    requires cfg.mode == Special
    ensures x in AllStyles(cfg, SPECIAL_AXES, 0) <==> Bare(x) && SpecialTuple(cfg, x)
  {
    hide AllStyles, WellNested;
    SpecialNested();
    StylesMembers(cfg, SPECIAL_AXES, x, 0);
    assert cfg.frameStyles[0..] == cfg.frameStyles;
    ChosenSpecial(cfg, x);
  }

  lemma ChosenSpecial(cfg: Config, x: Attempt)
    requires cfg.mode == Special && forall ax: Axis :: ax in SPECIAL_AXES
    ensures Chosen(cfg, x, SPECIAL_AXES) <==>
            && x.serviceTag in cfg.serviceTags && x.commandTag in cfg.commandTags && x.commandTag != x.serviceTag
            && x.serviceID in cfg.serviceIDs && x.commandID in cfg.commandIDs
            && x.payloadTag in cfg.payloadTags && x.payloadTag != x.serviceTag && x.payloadTag != x.commandTag
            && x.inputTag in cfg.inputTags && x.specialTag in cfg.specialTags && x.inputTag != x.specialTag
            && x.inputType in cfg.inputTypes && x.specialInput in cfg.specialInputs
  {
    hide SPECIAL_AXES;
    if Chosen(cfg, x, SPECIAL_AXES) {
      assert Value(x, ServiceTag) in Choices(cfg, ServiceTag);
      assert Value(x, CommandTag) in Choices(cfg, CommandTag);
      assert Value(x, ServiceID) in Choices(cfg, ServiceID);
      assert Value(x, CommandID) in Choices(cfg, CommandID);
      assert Value(x, PayloadTag) in Choices(cfg, PayloadTag);
      assert Value(x, InputTag) in Choices(cfg, InputTag);
      assert Value(x, SpecialTag) in Choices(cfg, SpecialTag);
      assert Value(x, InputType) in Choices(cfg, InputType);
      assert Value(x, SpecialInput) in Choices(cfg, SpecialInput);
    }
  }

  // ------------------------------------------------------------------ in which order

  /** v stands before w somewhere in the list. */
  ghost predicate Before<T>(vs: seq<T>, v: T, w: T) {
    exists i, j :: 0 <= i < j < |vs| && vs[i] == v && vs[j] == w
  }

  /** x comes before y: on the first of the axes where they may differ, its value stands before y's. */
  ghost predicate Precedes(cfg: Config, axes: seq<Axis>, x: Attempt, y: Attempt)
    decreases |axes|
  {
    && axes != []
    && var vx, vy := Value(x, axes[0]), Value(y, axes[0]);
       Before(Choices(cfg, axes[0]), vx, vy) || (vx == vy && Precedes(cfg, axes[1..], x, y))
  }

  ghost predicate InOrder(cfg: Config, axes: seq<Axis>, xs: seq<Attempt>) {
    forall i, j :: 0 <= i < j < |xs| ==> Precedes(cfg, axes, xs[i], xs[j])
  }

  lemma OrderConcat(cfg: Config, axes: seq<Axis>, xs: seq<Attempt>, ys: seq<Attempt>)
    requires InOrder(cfg, axes, xs) && InOrder(cfg, axes, ys)
    requires forall x, y :: x in xs && y in ys ==> Precedes(cfg, axes, x, y)
    ensures InOrder(cfg, axes, xs + ys)
  {
    hide Precedes;
    var all := xs + ys;
    forall i, j | 0 <= i < j < |all| ensures Precedes(cfg, axes, all[i], all[j]) {
      if i < |xs| && j >= |xs| {
        assert xs[i] in xs && ys[j - |xs|] in ys;
      }
    }
  }

  /** Nested loops append in lexicographic order, the outermost axis deciding first. */
  lemma {:induction false} LoopsInOrder(cfg: Config, axes: seq<Axis>, a: Attempt)
    requires WellNested(axes)
    ensures InOrder(cfg, axes, Loops(cfg, axes, a))
    decreases |axes|, if axes == [] then 0 else |Choices(cfg, axes[0])| + 1
  {
    if axes != [] {
      LoopsFromInOrder(cfg, axes, a, 0);
    }
  }

  lemma {:induction false} LoopsFromInOrder(cfg: Config, axes: seq<Axis>, a: Attempt, i: nat)
    requires WellNested(axes) && axes != [] && i <= |Choices(cfg, axes[0])|
    ensures InOrder(cfg, axes, LoopsFrom(cfg, axes, a, i))
    decreases |axes|, |Choices(cfg, axes[0])| - i
  {
    hide WellNested, AgreeOutside, Chosen, Choices, Loops, LoopsFrom, Branch, InOrder, Precedes, Before;
    var vs := Choices(cfg, axes[0]);
    if i == |vs| {
      LoopOver(cfg, axes, a);
    } else {
      var b := Put(a, axes[0], vs[i]);
      NestedTail(axes);
      LoopsFromInOrder(cfg, axes, a, i + 1);
      LoopsInOrder(cfg, axes[1..], b);
      LoopStep(cfg, axes, a, i);
      var here, rest := Branch(cfg, axes, b), LoopsFrom(cfg, axes, a, i + 1);
      forall x | x in here ensures Value(x, axes[0]) == vs[i] {
        LoopsMembers(cfg, axes[1..], b, x);
        BranchMembers(cfg, axes, a, x, vs[i]);
      }
      forall y | y in rest ensures Value(y, axes[0]) in vs[i + 1..] {
        LoopsFromMembers(cfg, axes, a, y, i + 1);
      }
      BranchInOrder(cfg, axes, b, vs[i]);
      forall x, y | x in here && y in rest ensures Precedes(cfg, axes, x, y) {
        LaterValue(cfg, axes, x, y, i);
      }
      OrderConcat(cfg, axes, here, rest);
    }
  }

  lemma LoopOver(cfg: Config, axes: seq<Axis>, a: Attempt)
    requires axes != []
    ensures InOrder(cfg, axes, LoopsFrom(cfg, axes, a, |Choices(cfg, axes[0])|))
  {
  }

  lemma BranchInOrder(cfg: Config, axes: seq<Axis>, b: Attempt, v: int)
    requires axes != [] && InOrder(cfg, axes[1..], Loops(cfg, axes[1..], b))
    requires forall x :: x in Branch(cfg, axes, b) ==> Value(x, axes[0]) == v
    ensures InOrder(cfg, axes, Branch(cfg, axes, b))
  {
    hide Loops, Before;
    var xs := Branch(cfg, axes, b);
    forall i, j | 0 <= i < j < |xs| ensures Precedes(cfg, axes, xs[i], xs[j]) {
      assert xs[i] in xs && xs[j] in xs;
    }
  }

  lemma LaterValue(cfg: Config, axes: seq<Axis>, x: Attempt, y: Attempt, i: nat)
    requires axes != [] && i < |Choices(cfg, axes[0])| && Value(x, axes[0]) == Choices(cfg, axes[0])[i]
    requires Value(y, axes[0]) in Choices(cfg, axes[0])[i + 1..]
    ensures Precedes(cfg, axes, x, y)
  {
    var vs := Choices(cfg, axes[0]);
    var j :| 0 <= j < |vs[i + 1..]| && vs[i + 1..][j] == Value(y, axes[0]);
    assert vs[i + 1 + j] == Value(y, axes[0]);
  }

  /** The frame style decides before all axes. */
  ghost predicate ComesFirst(cfg: Config, axes: seq<Axis>, x: Attempt, y: Attempt) {
    || Before(cfg.frameStyles, x.frameStyle, y.frameStyle)
    || (x.frameStyle == y.frameStyle && Precedes(cfg, axes, x, y))
  }

  ghost predicate AllInOrder(cfg: Config, axes: seq<Axis>, xs: seq<Attempt>) {
    forall i, j :: 0 <= i < j < |xs| ==> ComesFirst(cfg, axes, xs[i], xs[j])
  }

  lemma {:induction false} StylesInOrder(cfg: Config, axes: seq<Axis>, s: nat)
    requires WellNested(axes) && s <= |cfg.frameStyles|
    ensures AllInOrder(cfg, axes, AllStyles(cfg, axes, s))
    decreases |cfg.frameStyles| - s
  {
    hide Loops, Chosen, WellNested, Precedes, Before, InOrder, AllInOrder;
    if s == |cfg.frameStyles| {
      NoneInOrder(cfg, axes);
    } else {
      var a := BLANK.(frameStyle := cfg.frameStyles[s]);
      var here, rest := Loops(cfg, axes, a), AllStyles(cfg, axes, s + 1);
      StylesInOrder(cfg, axes, s + 1);
      LoopsInOrder(cfg, axes, a);
      forall x | x in here ensures x.frameStyle == cfg.frameStyles[s] {
        LoopsMembers(cfg, axes, a, x);
        assert Rest(a) == Rest(x);
      }
      forall y | y in rest ensures Before(cfg.frameStyles, cfg.frameStyles[s], y.frameStyle) {
        StylesMembers(cfg, axes, y, s + 1);
        LaterStyle(cfg, y.frameStyle, s);
      }
      StyleThenRest(cfg, axes, s, here, rest);
    }
  }

  lemma NoneInOrder(cfg: Config, axes: seq<Axis>)
    ensures AllInOrder(cfg, axes, [])
  {
  }

  lemma StyleThenRest(cfg: Config, axes: seq<Axis>, s: nat, here: seq<Attempt>, rest: seq<Attempt>)
    requires s < |cfg.frameStyles| && InOrder(cfg, axes, here) && AllInOrder(cfg, axes, rest)
    requires forall x :: x in here ==> x.frameStyle == cfg.frameStyles[s]
    requires forall y :: y in rest ==> Before(cfg.frameStyles, cfg.frameStyles[s], y.frameStyle)
    ensures AllInOrder(cfg, axes, here + rest)
  {
    hide Precedes, Before;
    var xs := here + rest;
    forall i, j | 0 <= i < j < |xs| ensures ComesFirst(cfg, axes, xs[i], xs[j]) {
      if i < |here| {
        assert here[i] in here;
        if j < |here| {
          assert here[j] in here;
        } else {
          assert rest[j - |here|] in rest;
        }
      }
    }
  }

  lemma LaterStyle(cfg: Config, y: Style, s: nat)
    requires s < |cfg.frameStyles| && y in cfg.frameStyles[s + 1..]
    ensures Before(cfg.frameStyles, cfg.frameStyles[s], y)
  {
    var later := cfg.frameStyles[s + 1..];
    var j :| 0 <= j < |later| && later[j] == y;
    assert cfg.frameStyles[s + 1 + j] == y;
  }

  /** The order in which special attempts are made: frame styles outermost, then service tags, command tags, service
      ids, command ids, payload tags, input tags, special tags, input types and special inputs, each in the order
      configured. */
  lemma SpecialInOrder(cfg: Config, i: nat, j: nat)
    requires i < j < |AllStyles(cfg, SPECIAL_AXES, 0)|
    ensures var xs := AllStyles(cfg, SPECIAL_AXES, 0);
            ComesFirst(cfg, [ServiceTag, CommandTag, ServiceID, CommandID, PayloadTag, InputTag, SpecialTag, InputType,
                             SpecialInput], xs[i], xs[j])
  {
    hide AllStyles, WellNested, ComesFirst;
    SpecialNested();
    StylesInOrder(cfg, SPECIAL_AXES, 0);
    assert AllInOrder(cfg, SPECIAL_AXES, AllStyles(cfg, SPECIAL_AXES, 0));
  }

  // ------------------------------------------------------------------ how many

  /** How many of these values differ from x. */
  function Others(ys: seq<int>, x: int): nat {
    if ys == [] then 0 else (if ys[0] == x then 0 else 1) + Others(ys[1..], x)
  }

  /** How many of these values are neither x nor y. */
  function Thirds(zs: seq<int>, x: int, y: int): nat {
    if zs == [] then 0 else (if zs[0] == x || zs[0] == y then 0 else 1) + Thirds(zs[1..], x, y)
  }

  /** Pairs of different values. */
  function Pairs(xs: seq<int>, ys: seq<int>): nat {
    if xs == [] then 0 else Others(ys, xs[0]) + Pairs(xs[1..], ys)
  }

  /** Choices of a second and third value, given the first, all three different. */
  function TriplesWith(ys: seq<int>, zs: seq<int>, x: int): nat {
    if ys == [] then 0 else (if ys[0] == x then 0 else Thirds(zs, x, ys[0])) + TriplesWith(ys[1..], zs, x)
  }

  function Triples(xs: seq<int>, ys: seq<int>, zs: seq<int>): nat {
    if xs == [] then 0 else TriplesWith(ys, zs, xs[0]) + Triples(xs[1..], ys, zs)
  }

  lemma Distribute(k: nat, l: nat, n: nat)
    ensures (k + l) * n == k * n + l * n
  {
  }

  /** A loop whose every pass contributes n attempts. */
  lemma {:induction false} CountUniform(cfg: Config, axes: seq<Axis>, a: Attempt, i: nat, n: nat)
    requires axes != [] && i <= |Choices(cfg, axes[0])|
    requires forall v :: |Branch(cfg, axes, Put(a, axes[0], v))| == n
    ensures |LoopsFrom(cfg, axes, a, i)| == (|Choices(cfg, axes[0])| - i) * n
    decreases |Choices(cfg, axes[0])| - i
  {
    hide Branch;
    var vs := Choices(cfg, axes[0]);
    if i < |vs| {
      CountUniform(cfg, axes, a, i + 1, n);
      assert (|vs| - (i + 1)) * n + n == (|vs| - i) * n;
    }
  }

  /** A loop that skips the value x and otherwise contributes n attempts a pass. */
  lemma {:induction false} CountOthers(cfg: Config, axes: seq<Axis>, a: Attempt, i: nat, x: int, n: nat)
    requires axes != [] && i <= |Choices(cfg, axes[0])|
    requires forall v :: |Branch(cfg, axes, Put(a, axes[0], v))| == if v == x then 0 else n
    ensures |LoopsFrom(cfg, axes, a, i)| == Others(Choices(cfg, axes[0])[i..], x) * n
    decreases |Choices(cfg, axes[0])| - i
  {
    hide Branch;
    var vs := Choices(cfg, axes[0]);
    if i < |vs| {
      CountOthers(cfg, axes, a, i + 1, x, n);
      assert vs[i..][1..] == vs[i + 1..];
      var k := Others(vs[i + 1..], x);
      Distribute(1, k, n);
    }
  }

  lemma {:induction false} CountThirds(cfg: Config, axes: seq<Axis>, a: Attempt, i: nat, x: int, y: int, n: nat)
    requires axes != [] && i <= |Choices(cfg, axes[0])|
    requires forall v :: |Branch(cfg, axes, Put(a, axes[0], v))| == if v == x || v == y then 0 else n
    ensures |LoopsFrom(cfg, axes, a, i)| == Thirds(Choices(cfg, axes[0])[i..], x, y) * n
    decreases |Choices(cfg, axes[0])| - i
  {
    hide Branch;
    var vs := Choices(cfg, axes[0]);
    if i < |vs| {
      CountThirds(cfg, axes, a, i + 1, x, y, n);
      assert vs[i..][1..] == vs[i + 1..];
      var k := Thirds(vs[i + 1..], x, y);
      Distribute(1, k, n);
    }
  }

  /** Input and special tags, input types and special inputs. */
  function InputCount(cfg: Config): nat {
    Pairs(cfg.inputTags, cfg.specialTags) * (|cfg.inputTypes| * |cfg.specialInputs|)
  }

  lemma CountLeaf(cfg: Config, a: Attempt)
    ensures |Loops(cfg, Nest(9), a)| == 1
  {
    Innermost(cfg);
  }

  lemma CountValues(cfg: Config, a: Attempt)
    ensures |Loops(cfg, Nest(7), a)| == |cfg.inputTypes| * |cfg.specialInputs|
  {
    forall w ensures |Branch(cfg, Nest(7), Put(a, InputType, w))| == |cfg.specialInputs| {
      var b := Put(a, InputType, w);
      forall v ensures |Branch(cfg, Nest(8), Put(b, SpecialInput, v))| == 1 {
        CountLeaf(cfg, Put(b, SpecialInput, v));
      }
      CountUniform(cfg, Nest(8), b, 0, 1);
    }
    CountUniform(cfg, Nest(7), a, 0, |cfg.specialInputs|);
  }

  lemma {:induction false} CountInputsFrom(cfg: Config, a: Attempt, i: nat)
    requires i <= |cfg.inputTags| && cfg.mode == Special
    ensures |LoopsFrom(cfg, Nest(5), a, i)| ==
            Pairs(cfg.inputTags[i..], cfg.specialTags) * (|cfg.inputTypes| * |cfg.specialInputs|)
    decreases |cfg.inputTags| - i
  {
    hide Loops, LoopsFrom, Branch, Others;
    var vs, n := cfg.inputTags, |cfg.inputTypes| * |cfg.specialInputs|;
    if i == |vs| {
      LoopsOver(cfg, Nest(5), a);
    } else {
      CountInputsFrom(cfg, a, i + 1);
      LoopStep(cfg, Nest(5), a, i);
      CountSpecialTags(cfg, Put(a, InputTag, vs[i]), n);
      assert vs[i..][1..] == vs[i + 1..];
      var k, l := Others(cfg.specialTags, vs[i]), Pairs(vs[i + 1..], cfg.specialTags);
      Distribute(k, l, n);
    }
  }

  lemma LoopsOver(cfg: Config, axes: seq<Axis>, a: Attempt)
    requires axes != []
    ensures LoopsFrom(cfg, axes, a, |Choices(cfg, axes[0])|) == []
  {
  }

  lemma CountSpecialTags(cfg: Config, a: Attempt, n: nat)
    requires n == |cfg.inputTypes| * |cfg.specialInputs|
    ensures |Branch(cfg, Nest(5), a)| == Others(cfg.specialTags, a.inputTag) * n
  {
    forall v ensures |Branch(cfg, Nest(6), Put(a, SpecialTag, v))| == if v == a.inputTag then 0 else n {
      CountValues(cfg, Put(a, SpecialTag, v));
    }
    CountOthers(cfg, Nest(6), a, 0, a.inputTag, n);
    assert cfg.specialTags[0..] == cfg.specialTags;
  }

  lemma CountInputs(cfg: Config, a: Attempt)
    requires cfg.mode == Special
    ensures |Loops(cfg, Nest(5), a)| == InputCount(cfg)
  {
    CountInputsFrom(cfg, a, 0);
    assert cfg.inputTags[0..] == cfg.inputTags;
  }

  lemma CountPayloads(cfg: Config, a: Attempt)
    requires cfg.mode == Special
    ensures |Loops(cfg, Nest(4), a)| == Thirds(cfg.payloadTags, a.serviceTag, a.commandTag) * InputCount(cfg)
  {
    hide InputCount;
    forall v ensures |Branch(cfg, Nest(4), Put(a, PayloadTag, v))| ==
                     if v == a.serviceTag || v == a.commandTag then 0 else InputCount(cfg) {
      CountInputs(cfg, Put(a, PayloadTag, v));
    }
    CountThirds(cfg, Nest(4), a, 0, a.serviceTag, a.commandTag, InputCount(cfg));
    assert cfg.payloadTags[0..] == cfg.payloadTags;
  }

  /** Everything below the command tag. */
  function ServiceCount(cfg: Config, thirds: nat): nat {
    |cfg.serviceIDs| * (|cfg.commandIDs| * (thirds * InputCount(cfg)))
  }

  lemma CountServices(cfg: Config, a: Attempt)
    requires cfg.mode == Special
    ensures |Loops(cfg, Nest(2), a)| == ServiceCount(cfg, Thirds(cfg.payloadTags, a.serviceTag, a.commandTag))
  {
    hide InputCount, Thirds;
    var n := Thirds(cfg.payloadTags, a.serviceTag, a.commandTag) * InputCount(cfg);
    forall v: int ensures |Loops(cfg, Nest(3), Put(a, ServiceID, v))| == |cfg.commandIDs| * n {
      var b := Put(a, ServiceID, v);
      forall w ensures |Branch(cfg, Nest(3), Put(b, CommandID, w))| == n {
        CountPayloads(cfg, Put(b, CommandID, w));
      }
      CountUniform(cfg, Nest(3), b, 0, n);
    }
    CountUniform(cfg, Nest(2), a, 0, |cfg.commandIDs| * n);
  }

  /** The factor all passes share. */
  function Common(cfg: Config): nat {
    |cfg.serviceIDs| * |cfg.commandIDs| * InputCount(cfg)
  }

  lemma ServiceCountIs(cfg: Config, thirds: nat)
    ensures ServiceCount(cfg, thirds) == thirds * Common(cfg)
  {
    var s, c, n := |cfg.serviceIDs|, |cfg.commandIDs|, InputCount(cfg);
    assert c * (thirds * n) == thirds * (c * n);
    assert s * (thirds * (c * n)) == thirds * (s * (c * n));
    assert s * (c * n) == s * c * n;
  }

  lemma {:induction false} CountCommandsFrom(cfg: Config, a: Attempt, i: nat)
    requires i <= |cfg.commandTags| && cfg.mode == Special
    ensures |LoopsFrom(cfg, Nest(1), a, i)| == TriplesWith(cfg.commandTags[i..], cfg.payloadTags, a.serviceTag) * Common(cfg)
    decreases |cfg.commandTags| - i
  {
    hide Loops, LoopsFrom, Common, ServiceCount;
    var vs, n := cfg.commandTags, Common(cfg);
    if i == |vs| {
      LoopsOver(cfg, Nest(1), a);
    } else {
      CountCommandsFrom(cfg, a, i + 1);
      LoopStep(cfg, Nest(1), a, i);
      var b := Put(a, CommandTag, vs[i]);
      CountServices(cfg, b);
      var k := Thirds(cfg.payloadTags, a.serviceTag, vs[i]);
      ServiceCountIs(cfg, k);
      assert vs[i..][1..] == vs[i + 1..];
      var l := TriplesWith(vs[i + 1..], cfg.payloadTags, a.serviceTag);
      Distribute(k, l, n);
    }
  }

  lemma {:induction false} CountTagsFrom(cfg: Config, a: Attempt, i: nat)
    requires i <= |cfg.serviceTags| && cfg.mode == Special
    ensures |LoopsFrom(cfg, Nest(0), a, i)| ==
            Triples(cfg.serviceTags[i..], cfg.commandTags, cfg.payloadTags) * Common(cfg)
    decreases |cfg.serviceTags| - i
  {
    hide LoopsFrom, Common;
    var vs, n := cfg.serviceTags, Common(cfg);
    if i == |vs| {
      LoopsOver(cfg, Nest(0), a);
    } else {
      CountTagsFrom(cfg, a, i + 1);
      LoopStep(cfg, Nest(0), a, i);
      var b := Put(a, ServiceTag, vs[i]);
      CountCommandsFrom(cfg, b, 0);
      assert cfg.commandTags[0..] == cfg.commandTags;
      assert vs[i..][1..] == vs[i + 1..];
      var k, l := TriplesWith(cfg.commandTags, cfg.payloadTags, vs[i]), Triples(vs[i + 1..], cfg.commandTags, cfg.payloadTags);
      Distribute(k, l, n);
    }
  }

  lemma {:induction false} CountStyles(cfg: Config, i: nat, n: nat)
    requires i <= |cfg.frameStyles| && forall a: Attempt :: |Loops(cfg, SPECIAL_AXES, a)| == n
    ensures |AllStyles(cfg, SPECIAL_AXES, i)| == (|cfg.frameStyles| - i) * n
    decreases |cfg.frameStyles| - i
  {
    hide Loops;
    if i < |cfg.frameStyles| {
      CountStyles(cfg, i + 1, n);
      assert (|cfg.frameStyles| - (i + 1)) * n + n == (|cfg.frameStyles| - i) * n;
    }
  }

  /** The number of special attempts: frame styles, times triples of different service, command and payload
      tags, times service and command ids, times pairs of different input and special tags, times input
      types, times special inputs. */
  lemma SpecialCount(cfg: Config)
    requires cfg.mode == Special
    ensures |AllStyles(cfg, SPECIAL_AXES, 0)| ==
            |cfg.frameStyles| * (Triples(cfg.serviceTags, cfg.commandTags, cfg.payloadTags) *
              (|cfg.serviceIDs| * |cfg.commandIDs| *
                (Pairs(cfg.inputTags, cfg.specialTags) * (|cfg.inputTypes| * |cfg.specialInputs|))))
  {
    hide AllStyles, Triples, Pairs;
    var n := Triples(cfg.serviceTags, cfg.commandTags, cfg.payloadTags) * Common(cfg);
    assert cfg.serviceTags[0..] == cfg.serviceTags;
    forall a: Attempt ensures |Loops(cfg, SPECIAL_AXES, a)| == n {
      CountTagsFrom(cfg, a, 0);
      OpenLoop(cfg, SPECIAL_AXES, a, []);
      assert [] + Loops(cfg, SPECIAL_AXES, a) == Loops(cfg, SPECIAL_AXES, a);
      assert [] + LoopsFrom(cfg, SPECIAL_AXES, a, 0) == LoopsFrom(cfg, SPECIAL_AXES, a, 0);
    }
    CountStyles(cfg, 0, n);
  }
}
