/** Attempts built from the hello payloads, and the dispatch on the mode (cmd/nvprobe/hello.go,
    buildHelloAttempts, attachHelloPreambles, buildCanonicalHelloRaw; cmd/nvprobe/main.go, buildAttempts,
    buildEmptyAttempts). */
module HelloAttempts {
  import opened Wire
  import opened NvEncoder
  import opened Lists
  import opened NvAttempts
  import opened HelloCandidates

  function ModeName(mode: Mode): string {
    match mode
    case Special => "special"
    case Empty => "empty"
    case Hello => "hello"
    case OtherMode(name) => name
  }

  function CanonicalHelloRaw(payload: Bytes): Bytes {
    FieldVarint(1, 1) + FieldVarint(2, 0) + FieldBytes(3, payload)
  }

  /** The canonical hello is read back as service 1, command 0 and the payload in field 3. */
  lemma CanonicalHelloParses(payload: Bytes)
    requires |payload| < TWO_63
    ensures ParseFields(CanonicalHelloRaw(payload)) == Some([Num(1, 1), Num(2, 0), Blob(3, payload)])
  {
    hide ParseFields, FieldBytes, FieldVarint;
    var blob := FieldBytes(3, payload);
    NoFields();
    ParseBlob(3, payload, []);
    assert blob + [] == blob;
    ParseTwo(1, 1, 2, 0, blob);
    assert [Num(1, 1), Num(2, 0)] + ([Blob(3, payload)] + []) == [Num(1, 1), Num(2, 0), Blob(3, payload)];
  }

  /** How a payload goes into an attempt: as its payload, or as a preamble sent before it. */
  datatype Use = AsPayload | AsPreamble(mode: Mode)

  function Combine(u: Use, a: Attempt, p: Candidate): Attempt {
    match u
    case AsPayload =>
      a.(template := "hello", payloadDesc := p.desc, hasCustomPayload := true, payloadBytes := p.bytes)
    case AsPreamble(mode) =>
      a.(template := ModeName(mode) + "+hello-preamble", preambleDesc := p.desc, preambleBytes := CanonicalHelloRaw(p.bytes))
  }

  function Row(u: Use, a: Attempt, ps: seq<Candidate>): (r: seq<Attempt>)
    ensures |r| == |ps| && forall j :: 0 <= j < |ps| ==> r[j] == Combine(u, a, ps[j])
  {
    seq(|ps|, j requires 0 <= j < |ps| => Combine(u, a, ps[j]))
  }

  /** Every attempt with every payload, payloads running fastest. */
  function Expand(u: Use, xs: seq<Attempt>, ps: seq<Candidate>): seq<Attempt> {
    if xs == [] then [] else Row(u, xs[0], ps) + Expand(u, xs[1..], ps)
  }

  lemma ExpandStep(u: Use, a: Attempt, xs: seq<Attempt>, ps: seq<Candidate>)
    ensures Expand(u, [a] + xs, ps) == Row(u, a, ps) + Expand(u, xs, ps)
  {
    hide Row;
    assert ([a] + xs)[1..] == xs;
  }

  lemma {:induction false} ExpandAppend(u: Use, xs: seq<Attempt>, ys: seq<Attempt>, ps: seq<Candidate>)
    ensures Expand(u, xs + ys, ps) == Expand(u, xs, ps) + Expand(u, ys, ps)
  {
    if xs == [] {
      assert xs + ys == ys;
    } else {
      hide Row, Expand;
      var rest := xs[1..];
      ExpandAppend(u, rest, ys, ps);
      assert xs == [xs[0]] + rest;
      ExpandStep(u, xs[0], rest, ps);
      ExpandStep(u, xs[0], rest + ys, ps);
      Regroup([xs[0]], rest, ys);
      Regroup(Row(u, xs[0], ps), Expand(u, rest, ps), Expand(u, ys, ps));
    }
  }

  lemma ExpandOne(u: Use, a: Attempt, ps: seq<Candidate>)
    ensures Expand(u, [a], ps) == Row(u, a, ps)
  {
    assert [a][1..] == [];
  }

  /** The number of combinations is the product. */
  lemma {:induction false} ExpandCount(u: Use, xs: seq<Attempt>, ps: seq<Candidate>)
    ensures |Expand(u, xs, ps)| == |xs| * |ps|
  {
    hide Combine;
    if xs != [] {
      ExpandCount(u, xs[1..], ps);
      assert |xs| * |ps| == (|xs| - 1) * |ps| + |ps|;
    }
  }

  /** Each combination stands where its attempt and payload say. */
  lemma {:induction false} ExpandAt(u: Use, xs: seq<Attempt>, ps: seq<Candidate>, i: nat, j: nat)
    requires i < |xs| && j < |ps|
    ensures 0 <= i * |ps| + j < |Expand(u, xs, ps)|
    ensures Expand(u, xs, ps)[i * |ps| + j] == Combine(u, xs[i], ps[j])
    decreases i
  {
    hide Combine;
    if i > 0 {
      ExpandAt(u, xs[1..], ps, i - 1, j);
      assert i * |ps| == (i - 1) * |ps| + |ps|;
    }
  }

  lemma {:induction false} ExpandMembers(u: Use, xs: seq<Attempt>, ps: seq<Candidate>, x: Attempt)
    ensures x in Expand(u, xs, ps) <==> exists a, p :: a in xs && p in ps && x == Combine(u, a, p)
  {
    hide Combine;
    if xs != [] {
      ExpandMembers(u, xs[1..], ps, x);
      assert xs == [xs[0]] + xs[1..];
      assert x in Row(u, xs[0], ps) <==> exists p :: p in ps && x == Combine(u, xs[0], p);
    }
  }

  /** Different attempts or payloads never give the same combination. */
  ghost predicate Separates(u: Use, xs: seq<Attempt>, ps: seq<Candidate>) {
    forall a, b, p, q :: a in xs && b in xs && p in ps && q in ps && Combine(u, a, p) == Combine(u, b, q) ==> a == b && p == q
  }

  lemma {:induction false} ExpandNoDup(u: Use, xs: seq<Attempt>, ps: seq<Candidate>)
    requires NoRepeats(xs) && NoRepeats(ps) && Separates(u, xs, ps)
    ensures NoRepeats(Expand(u, xs, ps))
  {
    hide Combine;
    if xs != [] {
      assert xs == [xs[0]] + xs[1..];
      ExpandNoDup(u, xs[1..], ps);
      assert forall j :: 0 <= j < |ps| ==> ps[j] in ps;
      forall x | x in Row(u, xs[0], ps) ensures x !in Expand(u, xs[1..], ps) {
        ExpandMembers(u, xs[1..], ps, x);
      }
      NoRepeatsConcat(Row(u, xs[0], ps), Expand(u, xs[1..], ps));
    }
  }

  // ------------------------------------------------------------------ preambles

  method AttachHelloPreambles(mode: Mode, hello: HelloConfig, attempts: seq<Attempt>) returns (result: seq<Attempt>)
    ensures var payloads := Dedup(Generated(hello));
            result == if payloads == [] || attempts == [] then attempts
                      else Expand(AsPreamble(mode), attempts, payloads)
  {
    hide Combine, Dedup, Generated;
    var payloads := BuildHelloPayloadCandidates(hello);
    if |payloads| == 0 || |attempts| == 0 {
      return attempts;
    }
    var u := AsPreamble(mode);
    result := [];
    for i := 0 to |attempts|
      invariant result == Expand(u, attempts[..i], payloads)
    {
      ghost var before := result;
      for j := 0 to |payloads|
        invariant result == before + Row(u, attempts[i], payloads)[..j]
      {
        result := result + [Combine(u, attempts[i], payloads[j])];
      }
      assert attempts[..i + 1] == attempts[..i] + [attempts[i]];
      ExpandAppend(u, attempts[..i], [attempts[i]], payloads);
      ExpandOne(u, attempts[i], payloads);
    }
    assert attempts[..|attempts|] == attempts;
  }

  lemma CanonicalHelloInjective(a: Bytes, b: Bytes)
    requires CanonicalHelloRaw(a) == CanonicalHelloRaw(b) && |a| < TWO_63 && |b| < TWO_63
    ensures a == b
  {
    hide CanonicalHelloRaw, ParseFields;
    CanonicalHelloParses(a);
    CanonicalHelloParses(b);
    assert [Num(1, 1), Num(2, 0), Blob(3, a)][2] == [Num(1, 1), Num(2, 0), Blob(3, b)][2];
  }

  /** Attempts without a preamble, all of the same template. */
  ghost predicate Plain(xs: seq<Attempt>, template: string) {
    forall a :: a in xs ==> a.template == template && a.preambleDesc == NoDesc && a.preambleBytes == []
  }

  /** Preambles turn different attempts and payloads into different attempts: the result has no repetitions,
      is the product of both lists, and leaves the attempts alone only if there is nothing to combine. */
  lemma PreamblesMultiply(mode: Mode, hello: HelloConfig, xs: seq<Attempt>, template: string)
    requires NoRepeats(xs) && Plain(xs, template)
    requires forall c :: c in Dedup(Generated(hello)) ==> |c.bytes| < TWO_63
    ensures var ps := Dedup(Generated(hello));
            && NoRepeats(Expand(AsPreamble(mode), xs, ps))
            && |Expand(AsPreamble(mode), xs, ps)| == |xs| * |ps|
  {
    hide CanonicalHelloRaw, Generated, Dedup, FirstsInOrder;
    var ps := Dedup(Generated(hello));
    DedupLaw(Generated(hello));
    ExpandCount(AsPreamble(mode), xs, ps);
    forall a, b, p, q | a in xs && b in xs && p in ps && q in ps && Combine(AsPreamble(mode), a, p) == Combine(AsPreamble(mode), b, q)
      ensures a == b && p == q
    {
      PreambleSeparates(mode, a, b, p, q);
    }
    ExpandNoDup(AsPreamble(mode), xs, ps);
  }

  lemma PreambleSeparates(mode: Mode, a: Attempt, b: Attempt, p: Candidate, q: Candidate)
    requires a.template == b.template && a.preambleDesc == b.preambleDesc && a.preambleBytes == b.preambleBytes
    requires Combine(AsPreamble(mode), a, p) == Combine(AsPreamble(mode), b, q)
    requires |p.bytes| < TWO_63 && |q.bytes| < TWO_63
    ensures a == b && p == q
  {
    hide CanonicalHelloRaw;
    var x, y := Combine(AsPreamble(mode), a, p), Combine(AsPreamble(mode), b, q);
    assert x.preambleDesc == p.desc && y.preambleDesc == q.desc;
    assert x.preambleBytes == CanonicalHelloRaw(p.bytes) && y.preambleBytes == CanonicalHelloRaw(q.bytes);
    CanonicalHelloInjective(p.bytes, q.bytes);
  }

  // ------------------------------------------------------------------ hello attempts

  /** The hello loops from the k-th numeric one inwards. */
  function HelloNest(k: nat): (r: seq<Axis>)
    requires k <= 5
    ensures |r| == 5 - k
    ensures k < 5 ==> r[0] == HELLO_AXES[k] && r[1..] == HELLO_AXES[k + 1..]
  {
    assert HELLO_AXES[k..] == [] || HELLO_AXES[k..][1..] == HELLO_AXES[k + 1..];
    HELLO_AXES[k..]
  }

  /** Appending for the rest of a loop what one more value yields. */
  lemma AdvanceExpanded(cfg: Config, axes: seq<Axis>, a: Attempt, i: nat, ps: seq<Candidate>, before: seq<Attempt>)
    requires axes != [] && i < |Choices(cfg, axes[0])|
    ensures var b := Put(a, axes[0], Choices(cfg, axes[0])[i]);
            before + Expand(AsPayload, LoopsFrom(cfg, axes, a, i), ps) ==
            (if Allowed(cfg.mode, b, axes[0]) then before + Expand(AsPayload, Loops(cfg, axes[1..], b), ps) else before)
            + Expand(AsPayload, LoopsFrom(cfg, axes, a, i + 1), ps)
  {
    hide Loops, LoopsFrom, Expand;
    LoopStep(cfg, axes, a, i);
    var b := Put(a, axes[0], Choices(cfg, axes[0])[i]);
    var rest := LoopsFrom(cfg, axes, a, i + 1);
    if Allowed(cfg.mode, b, axes[0]) {
      ExpandAppend(AsPayload, Loops(cfg, axes[1..], b), rest, ps);
      assert before + (Expand(AsPayload, Loops(cfg, axes[1..], b), ps) + Expand(AsPayload, rest, ps))
          == before + Expand(AsPayload, Loops(cfg, axes[1..], b), ps) + Expand(AsPayload, rest, ps);
    } else {
      assert [] + rest == rest;
    }
  }

  lemma OpenExpanded(cfg: Config, axes: seq<Axis>, a: Attempt, ps: seq<Candidate>)
    requires axes != []
    ensures Expand(AsPayload, LoopsFrom(cfg, axes, a, 0), ps) == Expand(AsPayload, Loops(cfg, axes, a), ps)
  {
    hide Expand;
  }

  lemma CloseExpanded(cfg: Config, axes: seq<Axis>, a: Attempt, ps: seq<Candidate>, before: seq<Attempt>)
    requires axes != []
    ensures before + Expand(AsPayload, LoopsFrom(cfg, axes, a, |Choices(cfg, axes[0])|), ps) == before
  {
  }

  lemma HelloInnermost(cfg: Config, ps: seq<Candidate>)
    ensures HelloNest(5) == []
    ensures forall a :: Expand(AsPayload, Loops(cfg, [], a), ps) == Row(AsPayload, a, ps)
  {
    forall a: Attempt ensures Expand(AsPayload, Loops(cfg, [], a), ps) == Row(AsPayload, a, ps) {
      ExpandOne(AsPayload, a, ps);
    }
  }

  method BuildHelloAttempts(cfg: Config, hello: HelloConfig) returns (attempts: seq<Attempt>)
    requires cfg.mode == Hello
    ensures attempts == Expand(AsPayload, AllStyles(cfg, HELLO_AXES, 0), Dedup(Generated(hello)))
  {
    hide Loops, LoopsFrom, Branch, Expand, Dedup, Generated;
    assert HelloNest(0) == HELLO_AXES;
    var payloads := BuildHelloPayloadCandidates(hello);
    attempts := [];
    for i := 0 to |cfg.frameStyles|
      invariant attempts + Expand(AsPayload, AllStyles(cfg, HelloNest(0), i), payloads)
             == Expand(AsPayload, AllStyles(cfg, HelloNest(0), 0), payloads)
    {
      var a0 := BLANK.(frameStyle := cfg.frameStyles[i]);
      ghost var before := attempts;
      ghost var here := Expand(AsPayload, Loops(cfg, HelloNest(0), a0), payloads);
      ExpandAppend(AsPayload, Loops(cfg, HelloNest(0), a0), AllStyles(cfg, HelloNest(0), i + 1), payloads);
      attempts := AppendTags(cfg, a0, payloads, attempts);
      assert before + (here + Expand(AsPayload, AllStyles(cfg, HelloNest(0), i + 1), payloads))
          == before + here + Expand(AsPayload, AllStyles(cfg, HelloNest(0), i + 1), payloads);
    }
    NoStylesLeft(cfg, payloads, attempts);
  }

  method AppendTags(cfg: Config, a0: Attempt, payloads: seq<Candidate>,
                    sofar: seq<Attempt>) returns (attempts: seq<Attempt>)
    requires cfg.mode == Hello
    ensures attempts == sofar + Expand(AsPayload, Loops(cfg, HelloNest(0), a0), payloads)
  {
    hide Loops, LoopsFrom, Branch, Expand;
    attempts := sofar;
    ghost var here := Expand(AsPayload, Loops(cfg, HelloNest(0), a0), payloads);
    OpenExpanded(cfg, HelloNest(0), a0, payloads);
    for i0 := 0 to |cfg.serviceTags|
      invariant attempts + Expand(AsPayload, LoopsFrom(cfg, HelloNest(0), a0, i0), payloads) == sofar + here
    {
      var a1 := a0.(serviceTag := cfg.serviceTags[i0]);
      AdvanceExpanded(cfg, HelloNest(0), a0, i0, payloads, attempts);
      OpenExpanded(cfg, HelloNest(1), a1, payloads);
      ghost var g1 := attempts + Expand(AsPayload, Loops(cfg, HelloNest(1), a1), payloads);
      for i1 := 0 to |cfg.commandTags|
        invariant attempts + Expand(AsPayload, LoopsFrom(cfg, HelloNest(1), a1, i1), payloads) == g1
      {
        var a2 := a1.(commandTag := cfg.commandTags[i1]);
        AdvanceExpanded(cfg, HelloNest(1), a1, i1, payloads, attempts);
        if a2.commandTag == a2.serviceTag {
          continue;
        }
        attempts := AppendHellos(cfg, a2, payloads, attempts);
      }
      CloseExpanded(cfg, HelloNest(1), a1, payloads, attempts);
    }
    CloseExpanded(cfg, HelloNest(0), a0, payloads, attempts);
  }

  lemma NoStylesLeft(cfg: Config, ps: seq<Candidate>, before: seq<Attempt>)
    ensures before + Expand(AsPayload, AllStyles(cfg, HelloNest(0), |cfg.frameStyles|), ps) == before
  {
  }

  method AppendHellos(cfg: Config, a2: Attempt, payloads: seq<Candidate>,
                      sofar: seq<Attempt>) returns (attempts: seq<Attempt>)
    requires cfg.mode == Hello
    ensures attempts == sofar + Expand(AsPayload, Loops(cfg, HelloNest(2), a2), payloads)
  {
    hide Loops, LoopsFrom, Branch, Expand;
    attempts := sofar;
    OpenExpanded(cfg, HelloNest(2), a2, payloads);
    ghost var g2 := attempts + Expand(AsPayload, Loops(cfg, HelloNest(2), a2), payloads);
    for i2 := 0 to |cfg.serviceIDs|
      invariant attempts + Expand(AsPayload, LoopsFrom(cfg, HelloNest(2), a2, i2), payloads) == g2
    {
      var a3 := a2.(serviceID := cfg.serviceIDs[i2]);
      AdvanceExpanded(cfg, HelloNest(2), a2, i2, payloads, attempts);
      OpenExpanded(cfg, HelloNest(3), a3, payloads);
      ghost var g3 := attempts + Expand(AsPayload, Loops(cfg, HelloNest(3), a3), payloads);
      for i3 := 0 to |cfg.commandIDs|
        invariant attempts + Expand(AsPayload, LoopsFrom(cfg, HelloNest(3), a3, i3), payloads) == g3
      {
        var a4 := a3.(commandID := cfg.commandIDs[i3]);
        AdvanceExpanded(cfg, HelloNest(3), a3, i3, payloads, attempts);
        attempts := AppendPayloads(cfg, a4, payloads, attempts);
      }
      CloseExpanded(cfg, HelloNest(3), a3, payloads, attempts);
    }
    CloseExpanded(cfg, HelloNest(2), a2, payloads, attempts);
  }

  method AppendPayloads(cfg: Config, a4: Attempt, payloads: seq<Candidate>, sofar: seq<Attempt>)
    returns (attempts: seq<Attempt>)
    requires cfg.mode == Hello
    ensures attempts == sofar + Expand(AsPayload, Loops(cfg, HelloNest(4), a4), payloads)
  {
    hide Loops, LoopsFrom, Branch, Expand;
    attempts := sofar;
    HelloInnermost(cfg, payloads);
    OpenExpanded(cfg, HelloNest(4), a4, payloads);
    ghost var g4 := attempts + Expand(AsPayload, Loops(cfg, HelloNest(4), a4), payloads);
    for i4 := 0 to |cfg.payloadTags|
      invariant attempts + Expand(AsPayload, LoopsFrom(cfg, HelloNest(4), a4, i4), payloads) == g4
    {
      var a5 := a4.(payloadTag := cfg.payloadTags[i4]);
      AdvanceExpanded(cfg, HelloNest(4), a4, i4, payloads, attempts);
      if a5.payloadTag <= 0 || a5.payloadTag == a5.serviceTag || a5.payloadTag == a5.commandTag {
        continue;
      }
      ghost var before := attempts;
      for j := 0 to |payloads|
        invariant attempts == before + Row(AsPayload, a5, payloads)[..j]
      {
        attempts := attempts + [Combine(AsPayload, a5, payloads[j])];
      }
    }
    CloseExpanded(cfg, HelloNest(4), a4, payloads, attempts);
  }

  lemma HelloNested()
    ensures WellNested(HELLO_AXES) && WellNested(EMPTY_AXES)
  {
    assert forall i :: 0 <= i < 5 ==> Depth(HELLO_AXES[i]) == i;
    assert forall i :: 0 <= i < 4 ==> Depth(EMPTY_AXES[i]) == i;
  }

  /** Hello attempts: each tuple of configured values with command tag other than service tag and a positive
      payload tag other than both, with each payload, exactly once and nothing else. */
  lemma HelloExactlyOnce(cfg: Config, ps: seq<Candidate>, x: Attempt)
    requires cfg.mode == Hello && NoRepeats(cfg.frameStyles) && DistinctChoices(cfg, HELLO_AXES) && NoRepeats(ps)
    ensures NoRepeats(Expand(AsPayload, AllStyles(cfg, HELLO_AXES, 0), ps))
    ensures x in Expand(AsPayload, AllStyles(cfg, HELLO_AXES, 0), ps) <==> IsHello(cfg, ps, x)
  {
    hide AllStyles, WellNested, DistinctChoices, Chosen, Expand, HelloTuple, IsHello;
    var base := AllStyles(cfg, HELLO_AXES, 0);
    HelloNested();
    StylesNoDup(cfg, HELLO_AXES, 0);
    HelloMembers(cfg, ps, x);
    forall a | a in base ensures a == Stripped(a) {
      HelloBase(cfg, a);
    }
    ExpandNoDup(AsPayload, base, ps);
  }

  /** One of the hello attempts, field by field. */
  ghost predicate IsHello(cfg: Config, ps: seq<Candidate>, x: Attempt) {
    && x.frameStyle in cfg.frameStyles && HelloTuple(cfg, x)
    && x.inputTag == 0 && x.specialTag == 0 && x.inputType == 0 && x.specialInput == 0
    && x.template == "hello" && x.hasCustomPayload && Candidate(x.payloadBytes, x.payloadDesc) in ps
    && x.preambleDesc == NoDesc && x.preambleBytes == []
  }

  lemma HelloBase(cfg: Config, a: Attempt)
    requires cfg.mode == Hello
    ensures a in AllStyles(cfg, HELLO_AXES, 0) <==> a.frameStyle in cfg.frameStyles && a == Stripped(a) && HelloTuple(cfg, a)
  {
    hide AllStyles, WellNested, Chosen, HelloTuple;
    HelloNested();
    assert cfg.frameStyles[0..] == cfg.frameStyles;
    StylesMembers(cfg, HELLO_AXES, a, 0);
    ChosenHello(cfg, a);
    OutsideHello(a);
  }

  lemma HelloMembers(cfg: Config, ps: seq<Candidate>, x: Attempt)
    requires cfg.mode == Hello
    ensures x in Expand(AsPayload, AllStyles(cfg, HELLO_AXES, 0), ps) <==> IsHello(cfg, ps, x)
  {
    hide AllStyles, Expand, HelloTuple;
    var base := AllStyles(cfg, HELLO_AXES, 0);
    forall a ensures a in base <==> a.frameStyle in cfg.frameStyles && a == Stripped(a) && HelloTuple(cfg, a) {
      HelloBase(cfg, a);
    }
    ExpandMembers(AsPayload, base, ps, x);
    HelloTupleStripped(cfg, x);
    if x.frameStyle in cfg.frameStyles && HelloTuple(cfg, x) {
      assert Stripped(x) in base;
    }
    if x in Expand(AsPayload, base, ps) {
      var a, p :| a in base && p in ps && x == Combine(AsPayload, a, p);
      assert Stripped(x) == a;
    }
  }

  /** Only the values that the hello loops set. */
  function Stripped(x: Attempt): Attempt {
    BLANK.(frameStyle := x.frameStyle, serviceTag := x.serviceTag, commandTag := x.commandTag,
           payloadTag := x.payloadTag, serviceID := x.serviceID, commandID := x.commandID)
  }

  ghost predicate HelloTuple(cfg: Config, x: Attempt) {
    && x.serviceTag in cfg.serviceTags && x.commandTag in cfg.commandTags && x.commandTag != x.serviceTag
    && x.serviceID in cfg.serviceIDs && x.commandID in cfg.commandIDs
    && x.payloadTag in cfg.payloadTags && x.payloadTag > 0
    && x.payloadTag != x.serviceTag && x.payloadTag != x.commandTag
  }

  lemma HelloTupleStripped(cfg: Config, x: Attempt)
    ensures HelloTuple(cfg, x) <==> HelloTuple(cfg, Stripped(x))
    ensures Stripped(Stripped(x)) == Stripped(x)
  {
  }

  lemma OutsideHello(x: Attempt)
    ensures AgreeOutside(BLANK.(frameStyle := x.frameStyle), x, HELLO_AXES) <==> x == Stripped(x)
  {
    var a := BLANK.(frameStyle := x.frameStyle);
    if AgreeOutside(a, x, HELLO_AXES) {
      assert Value(a, InputTag) == Value(x, InputTag) && Value(a, SpecialTag) == Value(x, SpecialTag)
          && Value(a, InputType) == Value(x, InputType) && Value(a, SpecialInput) == Value(x, SpecialInput);
    }
  }

  lemma ChosenHello(cfg: Config, x: Attempt)
    requires cfg.mode == Hello
    ensures Chosen(cfg, x, HELLO_AXES) <==> HelloTuple(cfg, x)
  {
    assert HELLO_AXES[0] == ServiceTag && HELLO_AXES[1] == CommandTag && HELLO_AXES[2] == ServiceID
        && HELLO_AXES[3] == CommandID && HELLO_AXES[4] == PayloadTag;
    if Chosen(cfg, x, HELLO_AXES) {
      assert Value(x, ServiceTag) in Choices(cfg, ServiceTag);
      assert Value(x, CommandTag) in Choices(cfg, CommandTag);
      assert Value(x, ServiceID) in Choices(cfg, ServiceID);
      assert Value(x, CommandID) in Choices(cfg, CommandID);
      assert Value(x, PayloadTag) in Choices(cfg, PayloadTag);
    }
  }

  // ------------------------------------------------------------------ empty attempts and the dispatch

  /** The empty-mode loops from the k-th numeric one inwards. */
  function EmptyNest(k: nat): (r: seq<Axis>)
    requires k <= 4
    ensures |r| == 4 - k
    ensures k < 4 ==> r[0] == EMPTY_AXES[k] && r[1..] == EMPTY_AXES[k + 1..]
  {
    assert EMPTY_AXES[k..] == [] || EMPTY_AXES[k..][1..] == EMPTY_AXES[k + 1..];
    EMPTY_AXES[k..]
  }

  lemma EmptyInnermost(cfg: Config)
    ensures EmptyNest(4) == []
    ensures forall a :: Loops(cfg, [], a) == [a]
  {
  }

  method BuildEmptyAttempts(cfg: Config) returns (attempts: seq<Attempt>)
    requires cfg.mode == Empty
    ensures attempts == AllStyles(cfg, EMPTY_AXES, 0)
  {
    hide Loops, LoopsFrom, Branch;
    assert EmptyNest(0) == EMPTY_AXES;
    attempts := [];
    for i := 0 to |cfg.frameStyles|
      invariant attempts + AllStyles(cfg, EmptyNest(0), i) == AllStyles(cfg, EmptyNest(0), 0)
    {
      var a0 := BLANK.(frameStyle := cfg.frameStyles[i]);
      ghost var before := attempts;
      OpenLoop(cfg, EmptyNest(0), a0, attempts);
      ghost var g0 := attempts + Loops(cfg, EmptyNest(0), a0);
      for i0 := 0 to |cfg.serviceTags|
        invariant attempts + LoopsFrom(cfg, EmptyNest(0), a0, i0) == g0
      {
        var a1 := a0.(serviceTag := cfg.serviceTags[i0]);
        Advance(cfg, EmptyNest(0), a0, i0, attempts);
        OpenLoop(cfg, EmptyNest(1), a1, attempts);
        ghost var g1 := attempts + Loops(cfg, EmptyNest(1), a1);
        for i1 := 0 to |cfg.commandTags|
          invariant attempts + LoopsFrom(cfg, EmptyNest(1), a1, i1) == g1
        {
          var a2 := a1.(commandTag := cfg.commandTags[i1]);
          Advance(cfg, EmptyNest(1), a1, i1, attempts);
          if a2.commandTag == a2.serviceTag {
            continue;
          }
          attempts := AppendEmpties(cfg, a2, attempts);
        }
        CloseLoop(cfg, EmptyNest(1), a1, attempts);
      }
      CloseLoop(cfg, EmptyNest(0), a0, attempts);
      assert before + (Loops(cfg, EmptyNest(0), a0) + AllStyles(cfg, EmptyNest(0), i + 1))
          == before + Loops(cfg, EmptyNest(0), a0) + AllStyles(cfg, EmptyNest(0), i + 1);
    }
  }

  method AppendEmpties(cfg: Config, a2: Attempt, sofar: seq<Attempt>) returns (attempts: seq<Attempt>)
    ensures attempts == sofar + Loops(cfg, EmptyNest(2), a2)
  {
    hide Loops, LoopsFrom, Branch;
    attempts := sofar;
    EmptyInnermost(cfg);
    OpenLoop(cfg, EmptyNest(2), a2, attempts);
    ghost var g2 := attempts + Loops(cfg, EmptyNest(2), a2);
    for i2 := 0 to |cfg.serviceIDs|
      invariant attempts + LoopsFrom(cfg, EmptyNest(2), a2, i2) == g2
    {
      var a3 := a2.(serviceID := cfg.serviceIDs[i2]);
      Advance(cfg, EmptyNest(2), a2, i2, attempts);
      OpenLoop(cfg, EmptyNest(3), a3, attempts);
      ghost var g3 := attempts + Loops(cfg, EmptyNest(3), a3);
      for i3 := 0 to |cfg.commandIDs|
        invariant attempts + LoopsFrom(cfg, EmptyNest(3), a3, i3) == g3
      {
        var a4 := a3.(commandID := cfg.commandIDs[i3]);
        Advance(cfg, EmptyNest(3), a3, i3, attempts);
        attempts := attempts + [a4];
      }
      CloseLoop(cfg, EmptyNest(3), a3, attempts);
    }
    CloseLoop(cfg, EmptyNest(2), a2, attempts);
  }

  /** Attempts before any preamble is attached. */
  function BaseAttempts(cfg: Config, hello: HelloConfig): seq<Attempt> {
    match cfg.mode
    case Special => AllStyles(cfg, SPECIAL_AXES, 0)
    case Empty => AllStyles(cfg, EMPTY_AXES, 0)
    case Hello => Expand(AsPayload, AllStyles(cfg, HELLO_AXES, 0), Dedup(Generated(hello)))
    case OtherMode(_) => []
  }

  /** All attempts of a configuration. */
  function Built(cfg: Config, hello: HelloConfig): seq<Attempt> {
    var base, payloads := BaseAttempts(cfg, hello), Dedup(Generated(hello));
    if !cfg.helloPreamble || base == [] || payloads == [] then base
    else Expand(AsPreamble(cfg.mode), base, payloads)
  }

  method BuildAttempts(cfg: Config, hello: HelloConfig) returns (attempts: seq<Attempt>)
    ensures attempts == Built(cfg, hello)
  {
    hide AllStyles, Expand, Dedup, Generated;
    match cfg.mode {
      case Empty => attempts := BuildEmptyAttempts(cfg);
      case Special => attempts := BuildSpecialAttempts(cfg);
      case Hello => attempts := BuildHelloAttempts(cfg, hello);
      case OtherMode(_) => return [];
    }
    if cfg.helloPreamble {
      attempts := AttachHelloPreambles(cfg.mode, hello, attempts);
    }
  }

  /** Every attempt the probe builds, in any mode, with or without preambles, is built once. */
  lemma NothingBuiltTwice(cfg: Config, hello: HelloConfig)
    requires NoRepeats(cfg.frameStyles) && DistinctChoices(cfg, SPECIAL_AXES)
    requires forall c :: c in Dedup(Generated(hello)) ==> |c.bytes| < TWO_63
    ensures NoRepeats(BaseAttempts(cfg, hello))
    ensures NoRepeats(Expand(AsPreamble(cfg.mode), BaseAttempts(cfg, hello), Dedup(Generated(hello))))
    ensures |Expand(AsPreamble(cfg.mode), BaseAttempts(cfg, hello), Dedup(Generated(hello)))|
         == |BaseAttempts(cfg, hello)| * |Dedup(Generated(hello))|
  {
    hide AllStyles, WellNested, Expand, Dedup, Generated, FirstsInOrder;
    SpecialNested();
    var base, ps := BaseAttempts(cfg, hello), Dedup(Generated(hello));
    DedupLaw(Generated(hello));
    var template := if cfg.mode == Hello then "hello" else "";
    forall a | a in base ensures a.template == template && a.preambleDesc == NoDesc && a.preambleBytes == [] {
      PlainBase(cfg, hello, a);
    }
    match cfg.mode {
      case Special => StylesNoDup(cfg, SPECIAL_AXES, 0);
      case Empty => HelloNested(); StylesNoDup(cfg, EMPTY_AXES, 0);
      case Hello => HelloExactlyOnce(cfg, ps, BLANK);
      case OtherMode(_) =>
    }
    PreamblesMultiply(cfg.mode, hello, base, template);
  }

  lemma PlainBase(cfg: Config, hello: HelloConfig, a: Attempt)
    requires a in BaseAttempts(cfg, hello)
    ensures a.template == (if cfg.mode == Hello then "hello" else "") && a.preambleDesc == NoDesc && a.preambleBytes == []
  {
    hide AllStyles, WellNested, Expand, Dedup, Generated, Chosen;
    SpecialNested();
    HelloNested();
    match cfg.mode
    case Special => StylesMembers(cfg, SPECIAL_AXES, a, 0);
    case Empty => StylesMembers(cfg, EMPTY_AXES, a, 0);
    case Hello =>
      ExpandMembers(AsPayload, AllStyles(cfg, HELLO_AXES, 0), Dedup(Generated(hello)), a);
      var b, p :| b in AllStyles(cfg, HELLO_AXES, 0) && p in Dedup(Generated(hello)) && a == Combine(AsPayload, b, p);
      StylesMembers(cfg, HELLO_AXES, b, 0);
    case OtherMode(_) =>
  }

  // ------------------------------------------------------------------ what is built, in terms of the configuration

  /** One of the empty attempts: service and command, nothing else. */
  ghost predicate IsEmpty(cfg: Config, x: Attempt) {
    && x.frameStyle in cfg.frameStyles
    && x.serviceTag in cfg.serviceTags && x.commandTag in cfg.commandTags && x.commandTag != x.serviceTag
    && x.serviceID in cfg.serviceIDs && x.commandID in cfg.commandIDs
    && x.payloadTag == 0 && x.inputTag == 0 && x.specialTag == 0 && x.inputType == 0 && x.specialInput == 0
    && Bare(x)
  }

  lemma EmptyMembers(cfg: Config, x: Attempt)
    requires cfg.mode == Empty
    ensures x in AllStyles(cfg, EMPTY_AXES, 0) <==> IsEmpty(cfg, x)
  {
    hide AllStyles, WellNested, AgreeOutside, Chosen, EMPTY_AXES;
    HelloNested();
    assert cfg.frameStyles[0..] == cfg.frameStyles;
    StylesMembers(cfg, EMPTY_AXES, x, 0);
    OutsideEmpty(x);
    ChosenEmpty(cfg, x);
  }

  lemma OutsideEmpty(x: Attempt)
    ensures AgreeOutside(BLANK.(frameStyle := x.frameStyle), x, EMPTY_AXES) <==>
            x.payloadTag == 0 && x.inputTag == 0 && x.specialTag == 0 && x.inputType == 0 && x.specialInput == 0 && Bare(x)
  {
    var a := BLANK.(frameStyle := x.frameStyle);
    if AgreeOutside(a, x, EMPTY_AXES) {
      assert Value(a, PayloadTag) == Value(x, PayloadTag) && Value(a, InputTag) == Value(x, InputTag)
          && Value(a, SpecialTag) == Value(x, SpecialTag) && Value(a, InputType) == Value(x, InputType)
          && Value(a, SpecialInput) == Value(x, SpecialInput);
    }
  }

  lemma ChosenEmpty(cfg: Config, x: Attempt)
    requires cfg.mode == Empty
    ensures Chosen(cfg, x, EMPTY_AXES) <==>
            && x.serviceTag in cfg.serviceTags && x.commandTag in cfg.commandTags && x.commandTag != x.serviceTag
            && x.serviceID in cfg.serviceIDs && x.commandID in cfg.commandIDs
  {
    assert EMPTY_AXES[0] == ServiceTag && EMPTY_AXES[1] == CommandTag && EMPTY_AXES[2] == ServiceID
        && EMPTY_AXES[3] == CommandID;
    if Chosen(cfg, x, EMPTY_AXES) {
      assert Value(x, ServiceTag) in Choices(cfg, ServiceTag);
      assert Value(x, CommandTag) in Choices(cfg, CommandTag);
      assert Value(x, ServiceID) in Choices(cfg, ServiceID);
      assert Value(x, CommandID) in Choices(cfg, CommandID);
    }
  }

  /** An attempt of the configured mode before a preamble is attached. */
  ghost predicate IsBase(cfg: Config, ps: seq<Candidate>, x: Attempt) {
    match cfg.mode
    case Special => Bare(x) && SpecialTuple(cfg, x)
    case Empty => IsEmpty(cfg, x)
    case Hello => IsHello(cfg, ps, x)
    case OtherMode(_) => false
  }

  lemma BaseExact(cfg: Config, hello: HelloConfig, x: Attempt)
    ensures x in BaseAttempts(cfg, hello) <==> IsBase(cfg, Dedup(Generated(hello)), x)
  {
    hide AllStyles, Expand, Dedup, Generated, IsHello, IsEmpty, SpecialTuple, Bare;
    match cfg.mode
    case Special => SpecialMembers(cfg, x);
    case Empty => EmptyMembers(cfg, x);
    case Hello => HelloMembers(cfg, Dedup(Generated(hello)), x);
    case OtherMode(_) =>
  }

  /** The template of attempts with a preamble. */
  function Template(mode: Mode): string {
    match mode
    case Special => "special" + "+hello-preamble"
    case Empty => "empty" + "+hello-preamble"
    case Hello => "hello" + "+hello-preamble"
    case OtherMode(name) => name + "+hello-preamble"
  }

  lemma TemplateName(mode: Mode)
    ensures ModeName(mode) + "+hello-preamble" == Template(mode)
  {
  }

  /** x is b with a hello sent before it that carries p. */
  ghost predicate Preceded(cfg: Config, x: Attempt, b: Attempt, p: Candidate) {
    && x == b.(template := x.template, preambleDesc := p.desc, preambleBytes := x.preambleBytes)
    && x.template == Template(cfg.mode)
    && x.preambleBytes == FieldVarint(1, 1) + FieldVarint(2, 0) + FieldBytes(3, p.bytes)
  }

  /** Exactly what is built: the attempts of the mode, each bare or, if preambles are asked for and there is
      something to combine, with every candidate payload in a hello before it. */
  lemma BuiltExact(cfg: Config, hello: HelloConfig, x: Attempt)
    ensures var ps := Dedup(Generated(hello));
            var combine := cfg.helloPreamble && ps != [] && exists b :: IsBase(cfg, ps, b);
            x in Built(cfg, hello) <==>
            if combine then exists b, p :: IsBase(cfg, ps, b) && p in ps && Preceded(cfg, x, b, p)
            else IsBase(cfg, ps, x)
  {
    hide AllStyles, Expand, Dedup, Generated, IsBase, BaseAttempts;
    var base, ps := BaseAttempts(cfg, hello), Dedup(Generated(hello));
    forall b ensures b in base <==> IsBase(cfg, ps, b) {
      BaseExact(cfg, hello, b);
    }
    if base != [] {
      assert IsBase(cfg, ps, base[0]);
    }
    ExpandMembers(AsPreamble(cfg.mode), base, ps, x);
    forall b: Attempt, p: Candidate ensures x == Combine(AsPreamble(cfg.mode), b, p) <==> Preceded(cfg, x, b, p) {
      CombinesExactly(cfg, x, b, p);
    }
  }

  lemma CombinesExactly(cfg: Config, x: Attempt, b: Attempt, p: Candidate)
    ensures x == Combine(AsPreamble(cfg.mode), b, p) <==> Preceded(cfg, x, b, p)
  {
    hide FieldVarint, FieldBytes, Template, ModeName;
    TemplateName(cfg.mode);
  }
}
