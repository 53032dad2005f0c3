/** The candidate hello payloads, deduplicated (cmd/nvprobe/hello.go, resolveHelloLayouts, helloFieldSets,
    buildHelloPayloadCandidates). */
module HelloCandidates {
  import opened Wire
  import opened NvEncoder
  import opened DevInfoMessage
  import opened Lists
  import opened Text

  datatype Candidate = Candidate(bytes: Bytes, desc: Desc)

  datatype HelloConfig = HelloConfig(
    layoutNames: seq<string>, devInfoTags: seq<int>, capabilityTags: seq<int>, capabilityValues: seq<int>,
    deviceOsValues: seq<int>, remotePorts: seq<int>,
    name: Bytes, packageName: Bytes, androidId: Bytes, host: Bytes)

  const FIELD_SETS: seq<FieldSet> := [
    FieldSet("os", [DeviceOS]),
    FieldSet("name", [Name]),
    FieldSet("os-name", [DeviceOS, Name]),
    FieldSet("name-package", [Name, Package]),
    FieldSet("os-name-package", [DeviceOS, Name, Package]),
    FieldSet("os-name-package-android", [DeviceOS, Name, Package, AndroidID]),
    FieldSet("os-name-package-android-host", [DeviceOS, Name, Package, AndroidID, Host]),
    FieldSet("os-name-package-android-host-port", [DeviceOS, Name, Package, AndroidID, Host, RemotePort])]

  function OsValues(cfg: HelloConfig, fs: FieldSet): seq<int> {
    if DeviceOS in fs.fields then cfg.deviceOsValues else [0]
  }

  function Ports(cfg: HelloConfig, fs: FieldSet): seq<int> {
    if RemotePort in fs.fields then cfg.remotePorts else [0]
  }

  // ------------------------------------------------------------------ layouts

  /** Index of the known layout with this name; |KNOWN_LAYOUTS| if there is none. */
  function Lookup(name: string): (i: nat)
    ensures i <= |KNOWN_LAYOUTS|
    ensures i < |KNOWN_LAYOUTS| ==> KNOWN_LAYOUTS[i].name == name
    ensures i == |KNOWN_LAYOUTS| ==> forall l :: l in KNOWN_LAYOUTS ==> l.name != name
  {
    if name == KNOWN_LAYOUTS[0].name then 0
    else if name == KNOWN_LAYOUTS[1].name then 1
    else if name == KNOWN_LAYOUTS[2].name then 2
    else 3
  }

  /** The layouts named, in order of first mention, each once; None for an unknown name. */
  function Resolved(names: seq<string>): Option<seq<Layout>> {
    if names == [] then Some([])
    else
      match Resolved(names[..|names| - 1])
      case None => None
      case Some(ls) =>
        var name := TrimSpace(names[|names| - 1]);
        if name == "" then Some(ls)
        else if Lookup(name) == |KNOWN_LAYOUTS| then None
        else if KNOWN_LAYOUTS[Lookup(name)] in ls then Some(ls)
        else Some(ls + [KNOWN_LAYOUTS[Lookup(name)]])
  }

  /** What resolveHelloLayouts returns: an error, None, for an unknown name or when nothing is named. */
  function LayoutsOf(cfg: HelloConfig): Option<seq<Layout>> {
    match Resolved(cfg.layoutNames)
    case None => None
    case Some(ls) => if ls == [] then None else Some(ls)
  }

  /** Some entry of the list, trimmed, is this name. */
  ghost predicate Mentions(names: seq<string>, name: string) {
    exists i :: 0 <= i < |names| && TrimSpace(names[i]) == name
  }

  ghost predicate MentionsUnknown(names: seq<string>) {
    exists name :: Mentions(names, name) && name != "" && Lookup(name) == |KNOWN_LAYOUTS|
  }

  ghost predicate Named(names: seq<string>, ls: seq<Layout>) {
    && (forall i, j :: 0 <= i < j < |ls| ==> ls[i] != ls[j])
    && (forall l :: l in ls <==> l in KNOWN_LAYOUTS && Mentions(names, l.name))
  }

  lemma MentionsMore(before: seq<string>, raw: string)
    ensures forall name :: Mentions(before + [raw], name) <==> Mentions(before, name) || TrimSpace(raw) == name
  {
    hide TrimSpace;
    var all := before + [raw];
    assert all[|before|] == raw;
    forall name | Mentions(before, name) ensures Mentions(all, name) {
      var i :| 0 <= i < |before| && TrimSpace(before[i]) == name;
      assert all[i] == before[i];
    }
  }

  /** Resolution fails exactly when a name that is not blank is unknown; otherwise it gives exactly the named
      layouts, each once. */
  lemma {:induction false} ResolvedExact(names: seq<string>)
    ensures Resolved(names).None? <==> MentionsUnknown(names)
    ensures Resolved(names).Some? ==> Named(names, Resolved(names).value)
  {
    hide TrimSpace, Mentions, KNOWN_LAYOUTS;
    if names != [] {
      var before, raw := names[..|names| - 1], names[|names| - 1];
      assert names == before + [raw];
      ResolvedExact(before);
      MentionsMore(before, raw);
      KnownByName();
      if Resolved(before).Some? && TrimSpace(raw) != "" && Lookup(TrimSpace(raw)) < |KNOWN_LAYOUTS| {
        NamedMore(before, raw, Resolved(before).value);
      }
    } else {
      NoMentions();
    }
  }

  lemma NoMentions()
    ensures forall name :: !Mentions([], name)
  {
  }

  lemma NamedMore(before: seq<string>, raw: string, ls: seq<Layout>)
    requires Named(before, ls) && TrimSpace(raw) != "" && Lookup(TrimSpace(raw)) < |KNOWN_LAYOUTS|
    ensures var l := KNOWN_LAYOUTS[Lookup(TrimSpace(raw))];
            Named(before + [raw], if l in ls then ls else ls + [l])
  {
    hide TrimSpace, Mentions, KNOWN_LAYOUTS;
    MentionsMore(before, raw);
    KnownByName();
  }

  lemma KnownByName()
    ensures forall l :: l in KNOWN_LAYOUTS ==> Lookup(l.name) < |KNOWN_LAYOUTS| && KNOWN_LAYOUTS[Lookup(l.name)] == l
    ensures forall l :: l in KNOWN_LAYOUTS ==> l.name != ""
  {
  }

  // ------------------------------------------------------------------ deduplication

  /** Some candidate has these bytes. */
  predicate Has(g: seq<Candidate>, b: Bytes) {
    exists i :: 0 <= i < |g| && g[i].bytes == b
  }

  /** What addCandidate keeps of a stream of candidates: the first of each payload. */
  function Dedup(g: seq<Candidate>): seq<Candidate> {
    if g == [] then []
    else
      var n := |g| - 1;
      Dedup(g[..n]) + if Has(g[..n], g[n].bytes) then [] else [g[n]]
  }

  /** Index of the first candidate with these bytes; |g| if there is none. */
  function FirstAt(g: seq<Candidate>, b: Bytes): (i: nat)
    ensures i <= |g|
    ensures i < |g| ==> g[i].bytes == b
    ensures forall j :: 0 <= j < i ==> g[j].bytes != b
  {
    if g == [] then 0 else if g[0].bytes == b then 0 else 1 + FirstAt(g[1..], b)
  }

  ghost predicate Distinct(d: seq<Candidate>) {
    forall i, j :: 0 <= i < j < |d| ==> d[i].bytes != d[j].bytes
  }

  /** Each kept candidate is the first of its payload, and they are kept in the order they came. */
  ghost predicate FirstsInOrder(g: seq<Candidate>, d: seq<Candidate>) {
    && (forall k :: 0 <= k < |d| ==> FirstAt(g, d[k].bytes) < |g| && g[FirstAt(g, d[k].bytes)] == d[k])
    && (forall k, l :: 0 <= k < l < |d| ==> FirstAt(g, d[k].bytes) < FirstAt(g, d[l].bytes))
  }

  lemma FirstAtAppend(g: seq<Candidate>, c: Candidate, b: Bytes)
    ensures FirstAt(g + [c], b) == if Has(g, b) then FirstAt(g, b) else if c.bytes == b then |g| else |g| + 1
  {
    var all := g + [c];
    var i := FirstAt(all, b);
    assert forall j :: 0 <= j < |g| ==> all[j] == g[j];
    if Has(g, b) {
      var j :| 0 <= j < |g| && g[j].bytes == b;
      assert all[j].bytes == b;
      assert g[FirstAt(g, b)].bytes == b && all[FirstAt(g, b)].bytes == b;
    } else {
      assert all[|g|] == c;
    }
  }

  /** Deduplication keeps pairwise distinct payloads, loses none, and keeps the first of each in order. */
  lemma {:induction false} DedupLaw(g: seq<Candidate>)
    ensures Distinct(Dedup(g))
    ensures forall b :: Has(Dedup(g), b) <==> Has(g, b)
    ensures FirstsInOrder(g, Dedup(g))
  {
    hide FirstAt;
    if g != [] {
      var n := |g| - 1;
      var before, c, d := g[..n], g[n], Dedup(g[..n]);
      DedupLaw(before);
      assert g == before + [c];
      HasAppend(before, c);
      HasAppend(d, c);
      DedupStep(before, c, d);
      assert Dedup(g) == d + if Has(before, c.bytes) then [] else [c];
      assert d + [] == d;
    }
  }

  lemma HasAppend(g: seq<Candidate>, c: Candidate)
    ensures forall b :: Has(g + [c], b) <==> Has(g, b) || c.bytes == b
  {
    var all := g + [c];
    assert all[|g|] == c && forall j :: 0 <= j < |g| ==> all[j] == g[j];
    forall b | Has(g, b) ensures Has(all, b) {
      var j :| 0 <= j < |g| && g[j].bytes == b;
      assert all[j].bytes == b;
    }
    forall b | Has(all, b) ensures Has(g, b) || c.bytes == b {
      var j :| 0 <= j < |all| && all[j].bytes == b;
      if j < |g| {
        assert g[j].bytes == b;
      }
    }
  }

  lemma DedupStep(before: seq<Candidate>, c: Candidate, d: seq<Candidate>)
    requires Distinct(d) && FirstsInOrder(before, d) && forall b :: Has(d, b) <==> Has(before, b)
    ensures var d' := d + if Has(before, c.bytes) then [] else [c];
            Distinct(d') && FirstsInOrder(before + [c], d')
  {
    hide FirstAt;
    var d' := d + if Has(before, c.bytes) then [] else [c];
    forall k | 0 <= k < |d| ensures FirstAt(before + [c], d[k].bytes) == FirstAt(before, d[k].bytes) {
      assert Has(before, d[k].bytes) by { assert d[k].bytes == before[FirstAt(before, d[k].bytes)].bytes; }
      FirstAtAppend(before, c, d[k].bytes);
    }
    if Has(before, c.bytes) {
      assert d' == d;
    } else {
      FirstAtAppend(before, c, c.bytes);
      assert forall k :: 0 <= k < |d| ==> d[k].bytes != c.bytes by {
        assert !Has(d, c.bytes);
      }
    }
  }

  // ------------------------------------------------------------------ generation

  function FlatMap<A>(xs: seq<A>, f: A -> seq<Candidate>): seq<Candidate> {
    if xs == [] then [] else f(xs[0]) + FlatMap(xs[1..], f)
  }

  lemma {:induction false} FlatMapMembers<A>(xs: seq<A>, f: A -> seq<Candidate>, c: Candidate)
    ensures c in FlatMap(xs, f) <==> exists x :: x in xs && c in f(x)
  {
    if xs != [] {
      FlatMapMembers(xs[1..], f, c);
      assert xs == [xs[0]] + xs[1..];
    }
  }

  /** Where a devInfo candidate comes from. */
  datatype Origin = Origin(devInfoTag: int, layout: Layout, fieldSet: FieldSet, deviceOs: int, remotePort: int)

  function ValuesAt(cfg: HelloConfig, o: Origin): Values {
    Values(o.deviceOs, cfg.name, cfg.packageName, cfg.androidId, cfg.host, o.remotePort)
  }

  function InfoAt(cfg: HelloConfig, o: Origin): Option<Bytes> {
    DevInfoMessage.DevInfo(o.layout, o.fieldSet.fields, ValuesAt(cfg, o))
  }

  function CapabilityOnlyAt(tag: int, v: int): Candidate {
    Candidate(FieldVarint(tag, v), CapabilityOnly(tag, v))
  }

  function EmptyAt(tag: int, l: Layout): Candidate {
    Candidate(FieldBytes(tag, []), DevInfoEmpty(tag, l.name))
  }

  function InfoCandidate(o: Origin, info: Bytes): Candidate {
    Candidate(FieldBytes(o.devInfoTag, info),
              Desc.DevInfo(o.devInfoTag, o.layout.name, o.fieldSet.name, o.deviceOs, o.remotePort))
  }

  function InfoCapability(o: Origin, info: Bytes, tag: int, v: int): Candidate {
    Candidate(FieldBytes(o.devInfoTag, info) + FieldVarint(tag, v),
              DevInfoCapability(o.devInfoTag, tag, o.layout.name, o.fieldSet.name, o.deviceOs, v, o.remotePort))
  }

  function CapValues(tag: int): int -> seq<Candidate> { v => [CapabilityOnlyAt(tag, v)] }

  function CapTags(cfg: HelloConfig): int -> seq<Candidate> {
    tag => FlatMap(cfg.capabilityValues, CapValues(tag))
  }

  function InfoValues(o: Origin, info: Bytes, tag: int): int -> seq<Candidate> {
    v => [InfoCapability(o, info, tag, v)]
  }

  function InfoTags(cfg: HelloConfig, o: Origin, info: Bytes): int -> seq<Candidate> {
    tag => if tag == o.devInfoTag then [] else FlatMap(cfg.capabilityValues, InfoValues(o, info, tag))
  }

  function FromOrigin(cfg: HelloConfig, o: Origin): seq<Candidate> {
    match InfoAt(cfg, o)
    case None => []
    case Some(info) => [InfoCandidate(o, info)] + FlatMap(cfg.capabilityTags, InfoTags(cfg, o, info))
  }

  function PerPort(cfg: HelloConfig, o: Origin): int -> seq<Candidate> {
    port => FromOrigin(cfg, o.(remotePort := port))
  }

  function PerOs(cfg: HelloConfig, o: Origin): int -> seq<Candidate> {
    os => FlatMap(Ports(cfg, o.fieldSet), PerPort(cfg, o.(deviceOs := os)))
  }

  function PerFieldSet(cfg: HelloConfig, tag: int, l: Layout): FieldSet -> seq<Candidate> {
    fs => FlatMap(OsValues(cfg, fs), PerOs(cfg, Origin(tag, l, fs, 0, 0)))
  }

  function PerTag(cfg: HelloConfig, l: Layout): int -> seq<Candidate> {
    tag => [EmptyAt(tag, l)] + FlatMap(FIELD_SETS, PerFieldSet(cfg, tag, l))
  }

  function PerLayout(cfg: HelloConfig): Layout -> seq<Candidate> {
    l => FlatMap(cfg.devInfoTags, PerTag(cfg, l))
  }

  /** All candidates in the order the loops generate them, before deduplication. */
  function Generated(cfg: HelloConfig): seq<Candidate> {
    match LayoutsOf(cfg)
    case None => []
    case Some(ls) => FlatMap(cfg.capabilityTags, CapTags(cfg)) + FlatMap(ls, PerLayout(cfg))
  }

  ghost predicate Selected(cfg: HelloConfig, l: Layout) {
    LayoutsOf(cfg).Some? && l in LayoutsOf(cfg).value
  }

  /** o is one of the combinations the configuration describes, and its devInfo can be built. */
  ghost predicate Described(cfg: HelloConfig, o: Origin) {
    && Selected(cfg, o.layout) && o.devInfoTag in cfg.devInfoTags && o.fieldSet in FIELD_SETS
    && o.deviceOs in OsValues(cfg, o.fieldSet) && o.remotePort in Ports(cfg, o.fieldSet)
    && InfoAt(cfg, o).Some?
  }

  ghost predicate IsCapabilityOnly(cfg: HelloConfig, c: Candidate) {
    exists tag, v :: tag in cfg.capabilityTags && v in cfg.capabilityValues && c == CapabilityOnlyAt(tag, v)
  }

  ghost predicate IsEmptyInfo(cfg: HelloConfig, c: Candidate) {
    exists tag, l :: tag in cfg.devInfoTags && Selected(cfg, l) && c == EmptyAt(tag, l)
  }

  ghost predicate IsInfo(cfg: HelloConfig, c: Candidate) {
    exists o :: Described(cfg, o) && c == InfoCandidate(o, InfoAt(cfg, o).value)
  }

  ghost predicate IsInfoCapability(cfg: HelloConfig, c: Candidate) {
    exists o, tag, v :: && Described(cfg, o) && tag in cfg.capabilityTags && tag != o.devInfoTag
                        && v in cfg.capabilityValues && c == InfoCapability(o, InfoAt(cfg, o).value, tag, v)
  }

  /** c is one of the four kinds of combinations the configuration describes. */
  ghost predicate IsCombination(cfg: HelloConfig, c: Candidate) {
    IsCapabilityOnly(cfg, c) || IsEmptyInfo(cfg, c) || IsInfo(cfg, c) || IsInfoCapability(cfg, c)
  }

  lemma CapabilityOnlyMembers(cfg: HelloConfig, c: Candidate)
    ensures c in FlatMap(cfg.capabilityTags, CapTags(cfg)) <==> IsCapabilityOnly(cfg, c)
  {
    FlatMapMembers(cfg.capabilityTags, CapTags(cfg), c);
    forall tag: int ensures c in CapTags(cfg)(tag) <==> exists v :: v in cfg.capabilityValues && c == CapabilityOnlyAt(tag, v) {
      FlatMapMembers(cfg.capabilityValues, CapValues(tag), c);
    }
  }

  /** What one origin contributes: its devInfo and the devInfo with each other capability field. */
  ghost predicate Contributes(cfg: HelloConfig, o: Origin, c: Candidate) {
    && InfoAt(cfg, o).Some?
    && var info := InfoAt(cfg, o).value;
       || c == InfoCandidate(o, info)
       || exists tag, v :: tag in cfg.capabilityTags && tag != o.devInfoTag && v in cfg.capabilityValues
                           && c == InfoCapability(o, info, tag, v)
  }

  lemma OriginMembers(cfg: HelloConfig, o: Origin, c: Candidate)
    ensures c in FromOrigin(cfg, o) <==> Contributes(cfg, o, c)
  {
    hide InfoAt;
    if InfoAt(cfg, o).Some? {
      var info := InfoAt(cfg, o).value;
      FlatMapMembers(cfg.capabilityTags, InfoTags(cfg, o, info), c);
      forall tag: int ensures c in InfoTags(cfg, o, info)(tag) <==>
          tag != o.devInfoTag && exists v :: v in cfg.capabilityValues && c == InfoCapability(o, info, tag, v) {
        FlatMapMembers(cfg.capabilityValues, InfoValues(o, info, tag), c);
      }
    }
  }

  lemma FieldSetMembers(cfg: HelloConfig, tag: int, l: Layout, fs: FieldSet, c: Candidate)
    ensures c in PerFieldSet(cfg, tag, l)(fs) <==>
            exists os, port :: os in OsValues(cfg, fs) && port in Ports(cfg, fs)
                               && Contributes(cfg, Origin(tag, l, fs, os, port), c)
  {
    hide Contributes, FromOrigin, OsValues, Ports;
    var o := Origin(tag, l, fs, 0, 0);
    FlatMapMembers(OsValues(cfg, fs), PerOs(cfg, o), c);
    forall os: int ensures c in PerOs(cfg, o)(os) <==>
        exists port :: port in Ports(cfg, fs) && Contributes(cfg, Origin(tag, l, fs, os, port), c) {
      FlatMapMembers(Ports(cfg, fs), PerPort(cfg, o.(deviceOs := os)), c);
      forall port: int ensures c in PerPort(cfg, o.(deviceOs := os))(port) <==> Contributes(cfg, Origin(tag, l, fs, os, port), c) {
        OriginMembers(cfg, Origin(tag, l, fs, os, port), c);
      }
    }
  }

  /** c comes from some origin of this layout and tag. */
  ghost predicate FromHere(cfg: HelloConfig, tag: int, l: Layout, c: Candidate) {
    exists fs, os, port :: fs in FIELD_SETS && os in OsValues(cfg, fs) && port in Ports(cfg, fs)
                           && Contributes(cfg, Origin(tag, l, fs, os, port), c)
  }

  lemma TagMembers(cfg: HelloConfig, l: Layout, tag: int, c: Candidate)
    ensures c in PerTag(cfg, l)(tag) <==> c == EmptyAt(tag, l) || FromHere(cfg, tag, l, c)
  {
    hide Contributes, PerFieldSet, OsValues, Ports;
    FlatMapMembers(FIELD_SETS, PerFieldSet(cfg, tag, l), c);
    forall fs: FieldSet ensures c in PerFieldSet(cfg, tag, l)(fs) <==>
        exists os, port :: os in OsValues(cfg, fs) && port in Ports(cfg, fs)
                           && Contributes(cfg, Origin(tag, l, fs, os, port), c) {
      FieldSetMembers(cfg, tag, l, fs, c);
    }
  }

  ghost predicate InLayout(cfg: HelloConfig, l: Layout, tag: int, c: Candidate) {
    c == EmptyAt(tag, l) || FromHere(cfg, tag, l, c)
  }

  lemma LayoutBody(cfg: HelloConfig, l: Layout, c: Candidate)
    ensures c in PerLayout(cfg)(l) <==> exists tag :: tag in cfg.devInfoTags && InLayout(cfg, l, tag, c)
  {
    hide InLayout;
    FlatMapMembers(cfg.devInfoTags, PerTag(cfg, l), c);
    forall tag: int ensures c in PerTag(cfg, l)(tag) <==> InLayout(cfg, l, tag, c) {
      InTag(cfg, l, tag, c);
    }
  }

  lemma InTag(cfg: HelloConfig, l: Layout, tag: int, c: Candidate)
    ensures c in PerTag(cfg, l)(tag) <==> InLayout(cfg, l, tag, c)
  {
    hide PerTag, FromHere;
    TagMembers(cfg, l, tag, c);
  }

  lemma LayoutMembers(cfg: HelloConfig, c: Candidate)
    requires LayoutsOf(cfg).Some?
    ensures c in FlatMap(LayoutsOf(cfg).value, PerLayout(cfg)) <==>
            exists l, tag :: Selected(cfg, l) && tag in cfg.devInfoTags && InLayout(cfg, l, tag, c)
  {
    hide PerLayout, InLayout;
    FlatMapMembers(LayoutsOf(cfg).value, PerLayout(cfg), c);
    forall l: Layout ensures c in PerLayout(cfg)(l) <==> exists tag :: tag in cfg.devInfoTags && InLayout(cfg, l, tag, c) {
      LayoutBody(cfg, l, c);
    }
  }

  /** c is contributed by some described origin. */
  ghost predicate FromDescribed(cfg: HelloConfig, c: Candidate) {
    exists o :: Described(cfg, o) && Contributes(cfg, o, c)
  }

  lemma OriginKinds(cfg: HelloConfig, c: Candidate)
    ensures FromDescribed(cfg, c) <==> IsInfo(cfg, c) || IsInfoCapability(cfg, c)
  {
    hide InfoAt, OsValues, Ports, InfoCandidate, InfoCapability;
    if IsInfo(cfg, c) {
      var o :| Described(cfg, o) && c == InfoCandidate(o, InfoAt(cfg, o).value);
      assert Contributes(cfg, o, c);
    }
    if IsInfoCapability(cfg, c) {
      var o, tag, v :| && Described(cfg, o) && tag in cfg.capabilityTags && tag != o.devInfoTag
                       && v in cfg.capabilityValues && c == InfoCapability(o, InfoAt(cfg, o).value, tag, v);
      assert Contributes(cfg, o, c);
    }
  }

  ghost predicate InSomeLayout(cfg: HelloConfig, c: Candidate) {
    exists l, tag :: Selected(cfg, l) && tag in cfg.devInfoTags && FromHere(cfg, tag, l, c)
  }

  lemma LayoutOrigins(cfg: HelloConfig, c: Candidate)
    ensures InSomeLayout(cfg, c) <==> FromDescribed(cfg, c)
  {
    hide InfoAt, OsValues, Ports, InfoCandidate, InfoCapability, FIELD_SETS;
    if InSomeLayout(cfg, c) {
      var l, tag :| Selected(cfg, l) && tag in cfg.devInfoTags && FromHere(cfg, tag, l, c);
      var fs, os, port :| fs in FIELD_SETS && os in OsValues(cfg, fs) && port in Ports(cfg, fs)
                          && Contributes(cfg, Origin(tag, l, fs, os, port), c);
      assert Described(cfg, Origin(tag, l, fs, os, port));
    }
    if FromDescribed(cfg, c) {
      var o :| Described(cfg, o) && Contributes(cfg, o, c);
      assert o == Origin(o.devInfoTag, o.layout, o.fieldSet, o.deviceOs, o.remotePort);
      assert FromHere(cfg, o.devInfoTag, o.layout, c);
    }
  }

  /** What is generated is exactly the four kinds of combinations the configuration describes; nothing at all
      when its layouts cannot be resolved. */
  lemma GeneratedMembers(cfg: HelloConfig, c: Candidate)
    ensures c in Generated(cfg) <==> LayoutsOf(cfg).Some? && IsCombination(cfg, c)
  {
    hide EmptyAt, IsCapabilityOnly, FromHere, FromDescribed, IsInfo, IsInfoCapability, FlatMap, LayoutsOf;
    if LayoutsOf(cfg).Some? {
      CapabilityOnlyMembers(cfg, c);
      LayoutMembers(cfg, c);
      LayoutOrigins(cfg, c);
      OriginKinds(cfg, c);
      assert (exists l, tag :: Selected(cfg, l) && tag in cfg.devInfoTags && InLayout(cfg, l, tag, c))
        <==> IsEmptyInfo(cfg, c) || InSomeLayout(cfg, c);
    }
  }

  /** The candidate set: pairwise distinct payloads, as a set exactly the payloads of the described
      combinations, each with the description of its first generator and in the order of first generation. */
  lemma CandidateSet(cfg: HelloConfig, b: Bytes)
    ensures Distinct(Dedup(Generated(cfg))) && FirstsInOrder(Generated(cfg), Dedup(Generated(cfg)))
    ensures Has(Dedup(Generated(cfg)), b) <==>
            LayoutsOf(cfg).Some? && exists c: Candidate :: c.bytes == b && IsCombination(cfg, c)
  {
    hide Generated, LayoutsOf, IsCombination, FirstsInOrder;
    var g := Generated(cfg);
    DedupLaw(g);
    if Has(g, b) {
      var i :| 0 <= i < |g| && g[i].bytes == b;
      GeneratedMembers(cfg, g[i]);
    }
    if LayoutsOf(cfg).Some? && exists c: Candidate :: c.bytes == b && IsCombination(cfg, c) {
      var c: Candidate :| c.bytes == b && IsCombination(cfg, c);
      GeneratedMembers(cfg, c);
      var i :| 0 <= i < |g| && g[i] == c;
      assert g[i].bytes == b;
    }
  }

  // ------------------------------------------------------------------ what the candidates read as

  /** The configured numbers are in the range the encoder keeps. */
  ghost predicate SaneNumbers(cfg: HelloConfig) {
    && (forall t :: t in cfg.capabilityTags ==> IsTag(t)) && (forall t :: t in cfg.devInfoTags ==> IsTag(t))
    && (forall v :: v in cfg.capabilityValues ==> IsValue(v))
    && (forall v :: v in cfg.deviceOsValues ==> IsValue(v)) && (forall v :: v in cfg.remotePorts ==> IsValue(v))
    && |cfg.name| + |cfg.packageName| + |cfg.androidId| + |cfg.host| < 0x1_0000_0000
  }

  /** The combination is one that the configuration asks for: numbers outside the field set are 0, and no string of
      the field set is empty. */
  ghost predicate AskedFor(cfg: HelloConfig, o: Origin) {
    && Selected(cfg, o.layout) && o.layout in KNOWN_LAYOUTS && o.devInfoTag in cfg.devInfoTags && o.fieldSet in FIELD_SETS
    && (if DeviceOS in o.fieldSet.fields then o.deviceOs in cfg.deviceOsValues else o.deviceOs == 0)
    && (if RemotePort in o.fieldSet.fields then o.remotePort in cfg.remotePorts else o.remotePort == 0)
    && (Name in o.fieldSet.fields ==> cfg.name != []) && (Package in o.fieldSet.fields ==> cfg.packageName != [])
    && (AndroidID in o.fieldSet.fields ==> cfg.androidId != []) && (Host in o.fieldSet.fields ==> cfg.host != [])
  }

  lemma SelectedKnown(cfg: HelloConfig, l: Layout)
    requires Selected(cfg, l)
    ensures l in KNOWN_LAYOUTS
  {
    hide KNOWN_LAYOUTS, TrimSpace, Mentions;
    ResolvedExact(cfg.layoutNames);
  }

  lemma KnownHasAll(l: Layout)
    requires l in KNOWN_LAYOUTS
    ensures InjectiveTags(l) && forall f: HelloField :: f in l.tags && 1 <= l.tags[f] <= 6
  {
    hide InjectiveTags;
    var i :| 0 <= i < |KNOWN_LAYOUTS| && KNOWN_LAYOUTS[i] == l;
    KnownLayoutsInjective(i);
  }

  lemma AskedForExactly(cfg: HelloConfig, o: Origin)
    ensures AskedFor(cfg, o) <==> Described(cfg, o)
  {
    hide KNOWN_LAYOUTS, FIELD_SETS, TrimSpace, LayoutsOf, SortBy, DevInfoMessage.Joined, EncodeAll, InjectiveTags;
    if Selected(cfg, o.layout) {
      SelectedKnown(cfg, o.layout);
      KnownHasAll(o.layout);
      forall i | 0 <= i < |o.fieldSet.fields| ensures o.fieldSet.fields[i] in o.fieldSet.fields {
      }
    }
  }

  /** The devInfo of such a combination reads back as one field for each of its field set, in ascending order of the
      layout's tags, each with the configured value. */
  lemma InfoReadsBack(cfg: HelloConfig, o: Origin) returns (fs: seq<Field>)
    requires SaneNumbers(cfg) && AskedFor(cfg, o)
    ensures var values := Values(o.deviceOs, cfg.name, cfg.packageName, cfg.androidId, cfg.host, o.remotePort);
            && InfoAt(cfg, o).Some? && ParseFields(InfoAt(cfg, o).value) == Some(fs)
            && |fs| == |o.fieldSet.fields| && (forall i, j :: 0 <= i < j < |fs| ==> fs[i].tag < fs[j].tag)
            && GoodNumbers(o.layout, values) && Supplies(o.layout, values, o.fieldSet.fields, fs)
  {
    hide KNOWN_LAYOUTS, FIELD_SETS, ParseFields, DevInfoMessage.DevInfo, Supplies, InjectiveTags, NoRepeats;
    AskedForExactly(cfg, o);
    KnownHasAll(o.layout);
    FieldSetsDistinct(o.fieldSet);
    PresentWhenAsked(cfg, o);
    fs := DevInfoReadsBack(o.layout, ValuesAt(cfg, o), o.fieldSet.fields);
  }

  lemma PresentWhenAsked(cfg: HelloConfig, o: Origin)
    requires Described(cfg, o)
    ensures AllPresent(o.layout, ValuesAt(cfg, o), o.fieldSet.fields)
  {
    hide FIELD_SETS, Missing, SortBy, DevInfoMessage.Joined, EncodeAll;
  }

  /** What a candidate reads as: a capability, an empty devInfo, the devInfo of a combination, or that devInfo and
      a capability under another tag. */
  ghost predicate ReadsCapability(cfg: HelloConfig, fs: seq<Field>, tag: int, v: int) {
    tag in cfg.capabilityTags && v in cfg.capabilityValues && tag >= 0 && v >= 0 && fs == [Num(tag, v)]
  }

  ghost predicate ReadsEmpty(cfg: HelloConfig, fs: seq<Field>, tag: int) {
    tag in cfg.devInfoTags && tag >= 0 && fs == [Blob(tag, [])]
  }

  ghost predicate ReadsInfo(cfg: HelloConfig, fs: seq<Field>, o: Origin) {
    && AskedFor(cfg, o) && InfoAt(cfg, o).Some? && o.devInfoTag >= 0
    && fs == [Blob(o.devInfoTag, InfoAt(cfg, o).value)]
  }

  ghost predicate ReadsBoth(cfg: HelloConfig, fs: seq<Field>, o: Origin, tag: int, v: int) {
    && AskedFor(cfg, o) && InfoAt(cfg, o).Some? && o.devInfoTag >= 0
    && tag in cfg.capabilityTags && tag != o.devInfoTag && v in cfg.capabilityValues && tag >= 0 && v >= 0
    && fs == [Blob(o.devInfoTag, InfoAt(cfg, o).value), Num(tag, v)]
  }

  /** Some candidate reads as these fields. */
  ghost predicate CandidateReads(cfg: HelloConfig, fs: seq<Field>) {
    exists b :: Has(Dedup(Generated(cfg)), b) && ParseFields(b) == Some(fs)
  }

  lemma CapabilityReads(tag: int, v: int)
    requires IsTag(tag) && IsValue(v)
    ensures ParseFields(CapabilityOnlyAt(tag, v).bytes) == Some([Num(tag, v)])
  {
    hide ParseFields, FieldVarint;
    ParseNum(tag, v, []);
    NoFields();
    assert FieldVarint(tag, v) + [] == FieldVarint(tag, v);
    assert [Num(tag, v)] + [] == [Num(tag, v)];
  }

  lemma BlobReads(tag: int, payload: Bytes)
    requires IsTag(tag) && |payload| < TWO_63
    ensures ParseFields(FieldBytes(tag, payload)) == Some([Blob(tag, payload)])
  {
    hide ParseFields, FieldBytes;
    ParseBlob(tag, payload, []);
    NoFields();
    assert FieldBytes(tag, payload) + [] == FieldBytes(tag, payload);
    assert [Blob(tag, payload)] + [] == [Blob(tag, payload)];
  }

  lemma BothRead(tag: int, payload: Bytes, capTag: int, v: int)
    requires IsTag(tag) && |payload| < TWO_63 && IsTag(capTag) && IsValue(v)
    ensures ParseFields(FieldBytes(tag, payload) + FieldVarint(capTag, v)) == Some([Blob(tag, payload), Num(capTag, v)])
  {
    hide ParseFields, FieldBytes, FieldVarint;
    ParseBlob(tag, payload, FieldVarint(capTag, v));
    CapabilityReads(capTag, v);
    assert [Blob(tag, payload)] + [Num(capTag, v)] == [Blob(tag, payload), Num(capTag, v)];
  }
  lemma InfoSize(cfg: HelloConfig, o: Origin)
    requires SaneNumbers(cfg) && AskedFor(cfg, o)
    ensures InfoAt(cfg, o).Some? && |InfoAt(cfg, o).value| < TWO_63
  {
    hide KNOWN_LAYOUTS, FIELD_SETS, DevInfoMessage.DevInfo;
    AskedForExactly(cfg, o);
    KnownHasAll(o.layout);
    PresentWhenAsked(cfg, o);
    FieldSetsDistinct(o.fieldSet);
    AskedNumbers(cfg, o);
    DevInfoSize(o.layout, ValuesAt(cfg, o), o.fieldSet.fields);
  }

  lemma AskedNumbers(cfg: HelloConfig, o: Origin)
    requires SaneNumbers(cfg) && AskedFor(cfg, o)
    ensures IsValue(o.deviceOs) && IsValue(o.remotePort)
  {
    hide KNOWN_LAYOUTS, FIELD_SETS, LayoutsOf;
  }

  /** Every candidate reads as one of the four kinds, and every one of the four kinds that the configuration asks for
      is what some candidate reads as. */
  lemma CandidatesExact(cfg: HelloConfig, fs: seq<Field>)
    requires SaneNumbers(cfg) && LayoutsOf(cfg).Some?
    ensures CandidateReads(cfg, fs) <==>
            || (exists tag, v :: ReadsCapability(cfg, fs, tag, v))
            || (exists tag :: ReadsEmpty(cfg, fs, tag))
            || (exists o :: ReadsInfo(cfg, fs, o))
            || (exists o, tag, v :: ReadsBoth(cfg, fs, o, tag, v))
  {
    hide LayoutsOf, Generated, Dedup, Has, ParseFields, InfoAt, FIELD_SETS, KNOWN_LAYOUTS, AskedFor, Described,
      FieldBytes, FieldVarint;
    if CandidateReads(cfg, fs) {
      var b :| Has(Dedup(Generated(cfg)), b) && ParseFields(b) == Some(fs);
      CandidateSet(cfg, b);
      var c: Candidate :| c.bytes == b && IsCombination(cfg, c);
      CombinationReads(cfg, c, fs);
    }
    if tag, v :| ReadsCapability(cfg, fs, tag, v) {
      CapabilityReads(tag, v);
      IsCandidate(cfg, CapabilityOnlyAt(tag, v), fs);
    }
    if tag :| ReadsEmpty(cfg, fs, tag) {
      BlobReads(tag, []);
      var l := SomeLayout(cfg);
      IsCandidate(cfg, EmptyAt(tag, l), fs);
    }
    if o :| ReadsInfo(cfg, fs, o) {
      InfoSize(cfg, o);
      AskedForExactly(cfg, o);
      InfoTag(cfg, o);
      BlobReads(o.devInfoTag, InfoAt(cfg, o).value);
      IsCandidate(cfg, InfoCandidate(o, InfoAt(cfg, o).value), fs);
    }
    if o, tag, v :| ReadsBoth(cfg, fs, o, tag, v) {
      InfoSize(cfg, o);
      AskedForExactly(cfg, o);
      InfoTag(cfg, o);
      BothRead(o.devInfoTag, InfoAt(cfg, o).value, tag, v);
      IsCandidate(cfg, InfoCapability(o, InfoAt(cfg, o).value, tag, v), fs);
    }
  }

  lemma InfoTag(cfg: HelloConfig, o: Origin)
    requires SaneNumbers(cfg) && AskedFor(cfg, o)
    ensures IsTag(o.devInfoTag)
  {
    hide KNOWN_LAYOUTS, FIELD_SETS, LayoutsOf;
  }

  lemma SomeLayout(cfg: HelloConfig) returns (l: Layout)
    requires LayoutsOf(cfg).Some?
    ensures Selected(cfg, l)
  {
    l := LayoutsOf(cfg).value[0];
  }

  lemma IsCandidate(cfg: HelloConfig, c: Candidate, fs: seq<Field>)
    requires LayoutsOf(cfg).Some? && IsCombination(cfg, c) && ParseFields(c.bytes) == Some(fs)
    ensures CandidateReads(cfg, fs)
  {
    hide LayoutsOf, Generated, Dedup, Has, ParseFields, IsCombination;
    CandidateSet(cfg, c.bytes);
  }

  lemma CombinationReads(cfg: HelloConfig, c: Candidate, fs: seq<Field>)
    requires SaneNumbers(cfg) && IsCombination(cfg, c) && ParseFields(c.bytes) == Some(fs)
    ensures || (exists tag, v :: ReadsCapability(cfg, fs, tag, v))
            || (exists tag :: ReadsEmpty(cfg, fs, tag))
            || (exists o :: ReadsInfo(cfg, fs, o))
            || (exists o, tag, v :: ReadsBoth(cfg, fs, o, tag, v))
  {
    hide LayoutsOf, ParseFields, InfoAt, FIELD_SETS, KNOWN_LAYOUTS, AskedFor, FieldBytes, FieldVarint;
    if IsCapabilityOnly(cfg, c) {
      var tag, v :| tag in cfg.capabilityTags && v in cfg.capabilityValues && c == CapabilityOnlyAt(tag, v);
      CapabilityReads(tag, v);
      assert ReadsCapability(cfg, fs, tag, v);
    } else if IsEmptyInfo(cfg, c) {
      var tag, l :| tag in cfg.devInfoTags && Selected(cfg, l) && c == EmptyAt(tag, l);
      BlobReads(tag, []);
      assert ReadsEmpty(cfg, fs, tag);
    } else if IsInfo(cfg, c) {
      var o :| Described(cfg, o) && c == InfoCandidate(o, InfoAt(cfg, o).value);
      AskedForExactly(cfg, o);
      InfoSize(cfg, o);
      InfoTag(cfg, o);
      BlobReads(o.devInfoTag, InfoAt(cfg, o).value);
      assert ReadsInfo(cfg, fs, o);
    } else {
      var o, tag, v :| && Described(cfg, o) && tag in cfg.capabilityTags && tag != o.devInfoTag
                       && v in cfg.capabilityValues && c == InfoCapability(o, InfoAt(cfg, o).value, tag, v);
      AskedForExactly(cfg, o);
      InfoSize(cfg, o);
      InfoTag(cfg, o);
      BothRead(o.devInfoTag, InfoAt(cfg, o).value, tag, v);
      assert ReadsBoth(cfg, fs, o, tag, v);
    }
  }

  // ------------------------------------------------------------------ the loops

  lemma FlatMapStep<A>(xs: seq<A>, f: A -> seq<Candidate>, i: nat, before: seq<Candidate>)
    requires i < |xs|
    ensures before + FlatMap(xs[i..], f) == before + f(xs[i]) + FlatMap(xs[i + 1..], f)
  {
    assert xs[i..][1..] == xs[i + 1..];
  }

  lemma FlatMapEnds<A>(xs: seq<A>, f: A -> seq<Candidate>, before: seq<Candidate>)
    ensures before + FlatMap(xs[|xs|..], f) == before
    ensures before + FlatMap(xs[0..], f) == before + FlatMap(xs, f)
  {
    assert xs[0..] == xs;
  }

  lemma FieldSetsDistinct(fs: FieldSet)
    requires fs in FIELD_SETS
    ensures NoRepeats(fs.fields) && |fs.fields| <= 6
  {
  }

  /** A layout and field set of the probe leave the sort no choice. */
  lemma InfoIsDetermined(l: Layout, fs: FieldSet, values: Values)
    requires l in KNOWN_LAYOUTS && fs in FIELD_SETS && AllPresent(l, values, fs.fields)
    ensures DistinctKeys(TagOf, EncodeAll(l, values, fs.fields))
  {
    hide FIELD_SETS;
    var i :| 0 <= i < |KNOWN_LAYOUTS| && KNOWN_LAYOUTS[i] == l;
    KnownLayoutsInjective(i);
    FieldSetsDistinct(fs);
    EncodedTagsDistinct(l, values, fs.fields);
  }

  class Builder {
    var candidates: seq<Candidate>
    var seen: set<Bytes>
    ghost var generated: seq<Candidate>

    /** candidates are what deduplication keeps of everything generated so far, and seen are its payloads. */
    ghost predicate Valid()
      reads this
    {
      candidates == Dedup(generated) && forall b :: b in seen <==> Has(generated, b)
    }

    constructor ()
      ensures Valid() && generated == []
    {
      candidates, seen, generated := [], {}, [];
    }

    method AddCandidate(payload: Bytes, desc: Desc)
      requires Valid()
      modifies this
      ensures Valid() && generated == old(generated) + [Candidate(payload, desc)]
    {
      var c := Candidate(payload, desc);
      HasAppend(generated, c);
      assert (generated + [c])[..|generated|] == generated;
      generated := generated + [c];
      if payload in seen {
        assert candidates + [] == candidates;
        return;
      }
      candidates := candidates + [c];
      seen := seen + {payload};
    }

    method AddCapabilities(cfg: HelloConfig)
      requires Valid()
      modifies this
      ensures Valid() && generated == old(generated) + FlatMap(cfg.capabilityTags, CapTags(cfg))
    {
      hide FlatMap, FieldVarint, Dedup, Has;
      ghost var all := generated + FlatMap(cfg.capabilityTags, CapTags(cfg));
      FlatMapEnds(cfg.capabilityTags, CapTags(cfg), generated);
      for i := 0 to |cfg.capabilityTags|
        invariant Valid() && generated + FlatMap(cfg.capabilityTags[i..], CapTags(cfg)) == all
      {
        var tag := cfg.capabilityTags[i];
        FlatMapStep(cfg.capabilityTags, CapTags(cfg), i, generated);
        FlatMapEnds(cfg.capabilityValues, CapValues(tag), generated);
        ghost var here := generated + CapTags(cfg)(tag);
        for j := 0 to |cfg.capabilityValues|
          invariant Valid() && generated + FlatMap(cfg.capabilityValues[j..], CapValues(tag)) == here
        {
          var v := cfg.capabilityValues[j];
          FlatMapStep(cfg.capabilityValues, CapValues(tag), j, generated);
          AddCandidate(FieldVarint(tag, v), CapabilityOnly(tag, v));
        }
        FlatMapEnds(cfg.capabilityValues, CapValues(tag), generated);
      }
      FlatMapEnds(cfg.capabilityTags, CapTags(cfg), generated);
    }

    /** The devInfo and devInfo-with-capability candidates of one combination. */
    method AddInfo(cfg: HelloConfig, o: Origin)
      requires Valid() && o.layout in KNOWN_LAYOUTS && o.fieldSet in FIELD_SETS
      modifies this
      ensures Valid() && generated == old(generated) + FromOrigin(cfg, o)
    {
      hide FlatMap, FieldVarint, FieldBytes, Dedup, Has, FIELD_SETS, KNOWN_LAYOUTS;
      var devInfo, ok := BuildHelloDevInfo(o.layout, o.fieldSet.fields, ValuesAt(cfg, o));
      if !ok {
        assert generated + [] == generated;
        return;
      }
      InfoIsDetermined(o.layout, o.fieldSet, ValuesAt(cfg, o));
      var basePayload := FieldBytes(o.devInfoTag, devInfo);
      ghost var rest := FlatMap(cfg.capabilityTags, InfoTags(cfg, o, devInfo));
      ghost var all := generated + [InfoCandidate(o, devInfo)] + rest;
      assert generated + ([InfoCandidate(o, devInfo)] + rest) == all;
      AddCandidate(basePayload, Desc.DevInfo(o.devInfoTag, o.layout.name, o.fieldSet.name, o.deviceOs, o.remotePort));
      FlatMapEnds(cfg.capabilityTags, InfoTags(cfg, o, devInfo), generated);
      for i := 0 to |cfg.capabilityTags|
        invariant Valid() && generated + FlatMap(cfg.capabilityTags[i..], InfoTags(cfg, o, devInfo)) == all
      {
        var tag := cfg.capabilityTags[i];
        FlatMapStep(cfg.capabilityTags, InfoTags(cfg, o, devInfo), i, generated);
        if tag == o.devInfoTag {
          assert generated + [] == generated;
          continue;
        }
        AddWithCapability(cfg, o, devInfo, basePayload, tag);
      }
      FlatMapEnds(cfg.capabilityTags, InfoTags(cfg, o, devInfo), generated);
    }

    method AddWithCapability(cfg: HelloConfig, o: Origin, devInfo: Bytes, basePayload: Bytes, tag: int)
      requires Valid() && basePayload == FieldBytes(o.devInfoTag, devInfo)
      modifies this
      ensures Valid() && generated == old(generated) + FlatMap(cfg.capabilityValues, InfoValues(o, devInfo, tag))
    {
      hide FlatMap, FieldVarint, FieldBytes, Dedup, Has;
      ghost var all := generated + FlatMap(cfg.capabilityValues, InfoValues(o, devInfo, tag));
      FlatMapEnds(cfg.capabilityValues, InfoValues(o, devInfo, tag), generated);
      for j := 0 to |cfg.capabilityValues|
        invariant Valid() && generated + FlatMap(cfg.capabilityValues[j..], InfoValues(o, devInfo, tag)) == all
      {
        var v := cfg.capabilityValues[j];
        FlatMapStep(cfg.capabilityValues, InfoValues(o, devInfo, tag), j, generated);
        AddCandidate(basePayload + FieldVarint(tag, v),
                     DevInfoCapability(o.devInfoTag, tag, o.layout.name, o.fieldSet.name, o.deviceOs, v, o.remotePort));
      }
      FlatMapEnds(cfg.capabilityValues, InfoValues(o, devInfo, tag), generated);
    }

    method AddFieldSet(cfg: HelloConfig, tag: int, l: Layout, fs: FieldSet)
      requires Valid() && l in KNOWN_LAYOUTS && fs in FIELD_SETS
      modifies this
      ensures Valid() && generated == old(generated) + PerFieldSet(cfg, tag, l)(fs)
    {
      hide FlatMap, FromOrigin, Dedup, Has, FIELD_SETS, KNOWN_LAYOUTS;
      var deviceOsValues, remotePorts := [0], [0];
      if DeviceOS in fs.fields {
        deviceOsValues := cfg.deviceOsValues;
      }
      if RemotePort in fs.fields {
        remotePorts := cfg.remotePorts;
      }
      var o := Origin(tag, l, fs, 0, 0);
      ghost var all := generated + FlatMap(deviceOsValues, PerOs(cfg, o));
      FlatMapEnds(deviceOsValues, PerOs(cfg, o), generated);
      for i := 0 to |deviceOsValues|
        invariant Valid() && generated + FlatMap(deviceOsValues[i..], PerOs(cfg, o)) == all
      {
        var oi := o.(deviceOs := deviceOsValues[i]);
        FlatMapStep(deviceOsValues, PerOs(cfg, o), i, generated);
        ghost var here := generated + FlatMap(remotePorts, PerPort(cfg, oi));
        FlatMapEnds(remotePorts, PerPort(cfg, oi), generated);
        for j := 0 to |remotePorts|
          invariant Valid() && generated + FlatMap(remotePorts[j..], PerPort(cfg, oi)) == here
        {
          FlatMapStep(remotePorts, PerPort(cfg, oi), j, generated);
          AddInfo(cfg, oi.(remotePort := remotePorts[j]));
        }
        FlatMapEnds(remotePorts, PerPort(cfg, oi), generated);
      }
      FlatMapEnds(deviceOsValues, PerOs(cfg, o), generated);
    }

    method AddTag(cfg: HelloConfig, l: Layout, tag: int)
      requires Valid() && l in KNOWN_LAYOUTS
      modifies this
      ensures Valid() && generated == old(generated) + PerTag(cfg, l)(tag)
    {
      hide FlatMap, FieldBytes, Dedup, Has, FIELD_SETS, KNOWN_LAYOUTS;
      ghost var rest := FlatMap(FIELD_SETS, PerFieldSet(cfg, tag, l));
      ghost var all := generated + [EmptyAt(tag, l)] + rest;
      assert generated + ([EmptyAt(tag, l)] + rest) == all;
      AddCandidate(FieldBytes(tag, []), DevInfoEmpty(tag, l.name));
      FlatMapEnds(FIELD_SETS, PerFieldSet(cfg, tag, l), generated);
      for i := 0 to |FIELD_SETS|
        invariant Valid() && generated + FlatMap(FIELD_SETS[i..], PerFieldSet(cfg, tag, l)) == all
      {
        FlatMapStep(FIELD_SETS, PerFieldSet(cfg, tag, l), i, generated);
        AddFieldSet(cfg, tag, l, FIELD_SETS[i]);
      }
      FlatMapEnds(FIELD_SETS, PerFieldSet(cfg, tag, l), generated);
    }

    method AddLayouts(cfg: HelloConfig, layouts: seq<Layout>)
      requires Valid() && forall l :: l in layouts ==> l in KNOWN_LAYOUTS
      modifies this
      ensures Valid() && generated == old(generated) + FlatMap(layouts, PerLayout(cfg))
    {
      hide FlatMap, EmptyAt, Dedup, Has, FIELD_SETS, KNOWN_LAYOUTS;
      ghost var all := generated + FlatMap(layouts, PerLayout(cfg));
      FlatMapEnds(layouts, PerLayout(cfg), generated);
      for i := 0 to |layouts|
        invariant Valid() && generated + FlatMap(layouts[i..], PerLayout(cfg)) == all
      {
        var l := layouts[i];
        FlatMapStep(layouts, PerLayout(cfg), i, generated);
        ghost var here := generated + FlatMap(cfg.devInfoTags, PerTag(cfg, l));
        FlatMapEnds(cfg.devInfoTags, PerTag(cfg, l), generated);
        for j := 0 to |cfg.devInfoTags|
          invariant Valid() && generated + FlatMap(cfg.devInfoTags[j..], PerTag(cfg, l)) == here
        {
          FlatMapStep(cfg.devInfoTags, PerTag(cfg, l), j, generated);
          AddTag(cfg, l, cfg.devInfoTags[j]);
        }
        FlatMapEnds(cfg.devInfoTags, PerTag(cfg, l), generated);
      }
      FlatMapEnds(layouts, PerLayout(cfg), generated);
    }
  }

  method ResolveHelloLayouts(names: seq<string>) returns (layouts: Option<seq<Layout>>)
    ensures layouts.None? <==> Resolved(names).None? || Resolved(names).value == []
    ensures layouts.Some? ==> layouts == Resolved(names)
  {
    hide TrimSpace;
    var found: seq<Layout>, seen: set<string> := [], {};
    for i := 0 to |names|
      invariant Resolved(names[..i]) == Some(found)
      invariant forall l :: l in KNOWN_LAYOUTS ==> (l.name in seen <==> l in found)
    {
      assert names[..i + 1][..i] == names[..i];
      KnownByName();
      var name := TrimSpace(names[i]);
      if name == "" {
        continue;
      }
      if Lookup(name) == |KNOWN_LAYOUTS| {
        BadNameStays(names, i + 1);
        return None;
      }
      if name in seen {
        continue;
      }
      found := found + [KNOWN_LAYOUTS[Lookup(name)]];
      seen := seen + {name};
    }
    assert names[..|names|] == names;
    layouts := if found == [] then None else Some(found);
  }

  /** Names after an unknown one do not help. */
  lemma {:induction false} BadNameStays(names: seq<string>, i: nat)
    requires i <= |names| && Resolved(names[..i]).None?
    ensures Resolved(names).None?
    decreases |names|
  {
    if i == |names| {
      assert names[..i] == names;
    } else {
      assert names[..|names| - 1][..i] == names[..i];
      BadNameStays(names[..|names| - 1], i);
    }
  }

  lemma DedupNothing()
    ensures Dedup([]) == []
  {
  }

  method BuildHelloPayloadCandidates(cfg: HelloConfig) returns (candidates: seq<Candidate>)
    ensures candidates == Dedup(Generated(cfg))
  {
    hide FlatMap, Dedup, TrimSpace, Resolved, KNOWN_LAYOUTS, FIELD_SETS, Has, Mentions;
    var layouts := ResolveHelloLayouts(cfg.layoutNames);
    if layouts.None? {
      DedupNothing();
      return [];
    }
    ResolvedExact(cfg.layoutNames);
    assert Generated(cfg) == FlatMap(cfg.capabilityTags, CapTags(cfg)) + FlatMap(layouts.value, PerLayout(cfg));
    var builder := new Builder();
    builder.AddCapabilities(cfg);
    ghost var first := FlatMap(cfg.capabilityTags, CapTags(cfg));
    assert [] + first == first;
    builder.AddLayouts(cfg, layouts.value);
    candidates := builder.candidates;
  }
}
