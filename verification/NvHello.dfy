/** The canonical devInfo message of the probe's hello payloads (cmd/nvprobe/hello.go, knownHelloLayouts,
    buildHelloDevInfo). */
module DevInfoMessage {
  import opened Wire
  import opened NvEncoder
  import opened Lists

  datatype HelloField = DeviceOS | Name | Package | AndroidID | Host | RemotePort
  datatype Layout = Layout(name: string, tags: map<HelloField, int>)
  datatype FieldSet = FieldSet(name: string, fields: seq<HelloField>)
  datatype Values = Values(deviceOs: int, name: Bytes, packageName: Bytes, androidId: Bytes, host: Bytes, remotePort: int)

  const KNOWN_LAYOUTS: seq<Layout> := [
    Layout("os-name-package-android-host-port",
           map[DeviceOS := 1, Name := 2, Package := 3, AndroidID := 4, Host := 5, RemotePort := 6]),
    Layout("name-os-package-android-host-port",
           map[Name := 1, DeviceOS := 2, Package := 3, AndroidID := 4, Host := 5, RemotePort := 6]),
    Layout("name-package-android-os-host-port",
           map[Name := 1, Package := 2, AndroidID := 3, DeviceOS := 4, Host := 5, RemotePort := 6])]

  /** One encoded field with the tag it is sorted by and the field it should read back as. */
  datatype Encoded = Encoded(tag: int, bytes: Bytes)

  function TextOf(values: Values, f: HelloField): Option<Bytes> {
    match f
    case DeviceOS => None
    case Name => Some(values.name)
    case Package => Some(values.packageName)
    case AndroidID => Some(values.androidId)
    case Host => Some(values.host)
    case RemotePort => None
  }

  function NumberOf(values: Values, f: HelloField): int {
    if f.DeviceOS? then values.deviceOs else values.remotePort
  }

  /** A field is missing if the layout has no tag for it or it is a string that was left empty. */
  predicate Missing(layout: Layout, values: Values, f: HelloField) {
    || f !in layout.tags
    || (f == Name && values.name == []) || (f == Package && values.packageName == [])
    || (f == AndroidID && values.androidId == []) || (f == Host && values.host == [])
  }

  function EncodeOne(layout: Layout, values: Values, f: HelloField): Encoded
    requires !Missing(layout, values, f)
  {
    var tag := layout.tags[f];
    match TextOf(values, f)
    case Some(text) => Encoded(tag, FieldBytes(tag, text))
    case None => Encoded(tag, FieldVarint(tag, NumberOf(values, f)))
  }

  /** What a reader should get for the field. */
  function FieldFor(layout: Layout, values: Values, f: HelloField): Field
    requires !Missing(layout, values, f)
  {
    match TextOf(values, f)
    case Some(text) => Blob(NonNegative(layout.tags[f]), text)
    case None => Num(NonNegative(layout.tags[f]), NonNegative(NumberOf(values, f)))
  }

  predicate AllPresent(layout: Layout, values: Values, fields: seq<HelloField>) {
    forall i :: 0 <= i < |fields| ==> !Missing(layout, values, fields[i])
  }

  function EncodeAll(layout: Layout, values: Values, fields: seq<HelloField>): (r: seq<Encoded>)
    requires AllPresent(layout, values, fields)
    ensures |r| == |fields|
    ensures forall i :: 0 <= i < |fields| ==> r[i] == EncodeOne(layout, values, fields[i])
  {
    seq(|fields|, i requires 0 <= i < |fields| => EncodeOne(layout, values, fields[i]))
  }

  function Joined(xs: seq<Encoded>): Bytes {
    if xs == [] then [] else xs[0].bytes + Joined(xs[1..])
  }

  function TagOf(e: Encoded): int { e.tag }

  // ------------------------------------------------------------------ building

  /** The message, None when a field is missing. */
  function DevInfo(layout: Layout, fields: seq<HelloField>, values: Values): Option<Bytes> {
    if AllPresent(layout, values, fields) then Some(Joined(SortBy(TagOf, EncodeAll(layout, values, fields)))) else None
  }

  method BuildHelloDevInfo(layout: Layout, fields: seq<HelloField>, values: Values)
    returns (payload: Bytes, ok: bool)
    ensures ok <==> forall i :: 0 <= i < |fields| ==> !Missing(layout, values, fields[i])
    ensures ok ==> exists ys: seq<Encoded> :: Sorted(TagOf, ys) && payload == Joined(ys)
                     && multiset(ys) == multiset(EncodeAll(layout, values, fields))
    ensures ok && DistinctKeys(TagOf, EncodeAll(layout, values, fields)) ==> DevInfo(layout, fields, values) == Some(payload)
  {
    hide FieldBytes, FieldVarint, SortBy, Joined;
    var encoded: seq<Encoded> := [];
    for i := 0 to |fields|
      invariant forall j :: 0 <= j < i ==> !Missing(layout, values, fields[j])
      invariant |encoded| == i
      invariant forall j :: 0 <= j < i ==> encoded[j] == EncodeOne(layout, values, fields[j])
    {
      var f := fields[i];
      if f !in layout.tags {
        return [], false;
      }
      var tag := layout.tags[f];
      match TextOf(values, f)
      case Some(text) =>
        if text == [] {
          return [], false;
        }
        encoded := encoded + [Encoded(tag, FieldBytes(tag, text))];
      case None =>
        encoded := encoded + [Encoded(tag, FieldVarint(tag, NumberOf(values, f)))];
    }
    assert encoded == EncodeAll(layout, values, fields);
    var ys := Sort(TagOf, encoded);
    if DistinctKeys(TagOf, encoded) {
      SortIsUnique(TagOf, encoded, ys);
    }
    payload := JoinAll(ys);
    ok := true;
  }

  method JoinAll(ys: seq<Encoded>) returns (payload: Bytes)
    ensures payload == Joined(ys)
  {
    payload := [];
    for i := 0 to |ys|
      invariant payload + Joined(ys[i..]) == Joined(ys)
    {
      assert ys[i..][1..] == ys[i + 1..];
      assert payload + (ys[i].bytes + Joined(ys[i + 1..])) == payload + ys[i].bytes + Joined(ys[i + 1..]);
      payload := payload + ys[i].bytes;
    }
    assert payload + [] == payload;
  }

  // ------------------------------------------------------------------ canonical and readable

  ghost predicate InjectiveTags(layout: Layout) {
    forall f, g :: f in layout.tags && g in layout.tags && f != g ==> layout.tags[f] != layout.tags[g]
  }

  lemma EncodedTagsDistinct(layout: Layout, values: Values, fields: seq<HelloField>)
    requires AllPresent(layout, values, fields) && InjectiveTags(layout) && NoRepeats(fields)
    ensures DistinctKeys(TagOf, EncodeAll(layout, values, fields))
  {
    hide FieldBytes, FieldVarint;
  }

  function Place(f: HelloField): (i: nat)
    ensures i < 6
  {
    match f
    case DeviceOS => 0
    case Name => 1
    case Package => 2
    case AndroidID => 3
    case Host => 4
    case RemotePort => 5
  }

  lemma SixTags(l: Layout, ts: seq<int>)
    requires |ts| == 6 && NoRepeats(ts)
    requires l.tags == map[DeviceOS := ts[0], Name := ts[1], Package := ts[2], AndroidID := ts[3], Host := ts[4],
                           RemotePort := ts[5]]
    ensures InjectiveTags(l) && forall f: HelloField :: f in l.tags && l.tags[f] in ts
  {
    forall f: HelloField ensures f in l.tags && l.tags[f] == ts[Place(f)] {
      match f
      case DeviceOS =>
      case Name =>
      case Package =>
      case AndroidID =>
      case Host =>
      case RemotePort =>
    }
    forall f, g | f in l.tags && g in l.tags && f != g ensures l.tags[f] != l.tags[g] {
      assert Place(f) < Place(g) || Place(g) < Place(f);
    }
  }

  lemma KnownTags(i: nat) returns (ts: seq<int>)
    requires i < |KNOWN_LAYOUTS|
    ensures |ts| == 6 && NoRepeats(ts) && forall k :: 0 <= k < 6 ==> 1 <= ts[k] <= 6
    ensures KNOWN_LAYOUTS[i].tags == map[DeviceOS := ts[0], Name := ts[1], Package := ts[2], AndroidID := ts[3],
                                         Host := ts[4], RemotePort := ts[5]]
  {
    ts := if i == 0 then [1, 2, 3, 4, 5, 6] else if i == 1 then [2, 1, 3, 4, 5, 6] else [4, 1, 2, 3, 5, 6];
  }

  lemma KnownLayoutsInjective(i: nat)
    requires i < |KNOWN_LAYOUTS|
    ensures InjectiveTags(KNOWN_LAYOUTS[i])
    ensures forall f: HelloField :: f in KNOWN_LAYOUTS[i].tags && 1 <= KNOWN_LAYOUTS[i].tags[f] <= 6
  {
    var ts := KnownTags(i);
    hide KNOWN_LAYOUTS, InjectiveTags, NoRepeats;
    SixTags(KNOWN_LAYOUTS[i], ts);
  }

  lemma EncodedOfPermutation(layout: Layout, values: Values, fields: seq<HelloField>, other: seq<HelloField>)
    requires AllPresent(layout, values, fields) && NoRepeats(fields) && NoRepeats(other)
    requires InjectiveTags(layout) && forall f :: f in fields <==> f in other
    ensures AllPresent(layout, values, other)
    ensures forall e :: e in EncodeAll(layout, values, fields) <==> e in EncodeAll(layout, values, other)
  {
    hide EncodeOne, Missing;
    assert forall i :: 0 <= i < |other| ==> other[i] in fields;
    var a, b := EncodeAll(layout, values, fields), EncodeAll(layout, values, other);
    forall e | e in a ensures e in b {
      var i :| 0 <= i < |a| && a[i] == e;
      assert fields[i] in other;
      var j :| 0 <= j < |other| && other[j] == fields[i];
      assert b[j] == e;
    }
    forall e | e in b ensures e in a {
      var i :| 0 <= i < |b| && b[i] == e;
      assert other[i] in fields;
      var j :| 0 <= j < |fields| && fields[j] == other[i];
      assert a[j] == e;
    }
  }

  /** The message does not depend on the order in which the fields are listed. */
  lemma OrderIndependent(layout: Layout, values: Values, fields: seq<HelloField>, other: seq<HelloField>)
    requires InjectiveTags(layout) && NoRepeats(fields) && NoRepeats(other)
    requires forall f :: f in fields <==> f in other
    ensures DevInfo(layout, fields, values) == DevInfo(layout, other, values)
  {
    hide EncodeOne, Missing, Joined;
    if AllPresent(layout, values, fields) {
      EncodedOfPermutation(layout, values, fields, other);
      var a, b := EncodeAll(layout, values, fields), EncodeAll(layout, values, other);
      EncodedTagsDistinct(layout, values, fields);
      EncodedTagsDistinct(layout, values, other);
      SortLaw(TagOf, a);
      SortLaw(TagOf, b);
      DistinctStays(TagOf, a, SortBy(TagOf, a));
      DistinctStays(TagOf, b, SortBy(TagOf, b));
      SameElements(a, SortBy(TagOf, a));
      SameElements(b, SortBy(TagOf, b));
      AscendingUnique(TagOf, SortBy(TagOf, a), SortBy(TagOf, b));
    } else {
      var i :| 0 <= i < |fields| && Missing(layout, values, fields[i]);
      assert fields[i] in other;
      var j :| 0 <= j < |other| && other[j] == fields[i];
      assert Missing(layout, values, other[j]);
    }
  }

  ghost predicate GoodNumbers(layout: Layout, values: Values) {
    && (forall f :: f in layout.tags ==> 1 <= layout.tags[f] < TAG_LIMIT)
    && IsValue(values.deviceOs) && IsValue(values.remotePort)
    && |values.name| < TWO_63 && |values.packageName| < TWO_63 && |values.androidId| < TWO_63 && |values.host| < TWO_63
  }

  /** e encodes some field of the set. */
  ghost predicate Encodes(layout: Layout, values: Values, fields: seq<HelloField>, e: Encoded, f: HelloField) {
    f in fields && !Missing(layout, values, f) && e == EncodeOne(layout, values, f)
  }

  ghost predicate EncodesSome(layout: Layout, values: Values, fields: seq<HelloField>, e: Encoded) {
    exists f :: Encodes(layout, values, fields, e, f)
  }

  ghost predicate ReadsAs(layout: Layout, values: Values, fields: seq<HelloField>, e: Encoded, r: Field)
    requires GoodNumbers(layout, values)
  {
    exists f :: Encodes(layout, values, fields, e, f) && r == FieldFor(layout, values, f)
  }

  ghost predicate AllRead(layout: Layout, values: Values, fields: seq<HelloField>, ys: seq<Encoded>, fs: seq<Field>)
    requires GoodNumbers(layout, values)
  {
    && |fs| == |ys|
    && forall i :: 0 <= i < |ys| ==> fs[i].tag == ys[i].tag && ReadsAs(layout, values, fields, ys[i], fs[i])
  }

  lemma ParseEncoded(layout: Layout, values: Values, f: HelloField, rest: Bytes)
    requires GoodNumbers(layout, values) && !Missing(layout, values, f)
    ensures ParseFields(EncodeOne(layout, values, f).bytes + rest) ==
            match ParseFields(rest)
            case None => None
            case Some(fs) => Some([FieldFor(layout, values, f)] + fs)
  {
    hide ParseFields, FieldBytes, FieldVarint;
    match TextOf(values, f)
    case Some(text) => ParseBlob(layout.tags[f], text, rest);
    case None => ParseNum(layout.tags[f], NumberOf(values, f), rest);
  }

  lemma {:induction false} JoinedParses(layout: Layout, values: Values, fields: seq<HelloField>, ys: seq<Encoded>)
    returns (fs: seq<Field>)
    requires GoodNumbers(layout, values)
    requires forall i :: 0 <= i < |ys| ==> EncodesSome(layout, values, fields, ys[i])
    ensures ParseFields(Joined(ys)) == Some(fs) && AllRead(layout, values, fields, ys, fs)
    decreases |ys|
  {
    hide ParseFields, EncodeOne, Missing, FieldFor, GoodNumbers;
    if ys == [] {
      NoFields();
      fs := [];
    } else {
      assert forall i :: 0 <= i < |ys[1..]| ==> ys[1..][i] == ys[i + 1];
      var rest := JoinedParses(layout, values, fields, ys[1..]);
      fs := JoinedStep(layout, values, fields, ys, rest);
    }
  }

  lemma JoinedStep(layout: Layout, values: Values, fields: seq<HelloField>, ys: seq<Encoded>, rest: seq<Field>)
    returns (fs: seq<Field>)
    requires GoodNumbers(layout, values) && ys != [] && EncodesSome(layout, values, fields, ys[0])
    requires ParseFields(Joined(ys[1..])) == Some(rest) && AllRead(layout, values, fields, ys[1..], rest)
    ensures ParseFields(Joined(ys)) == Some(fs) && AllRead(layout, values, fields, ys, fs)
  {
    hide ParseFields, FieldBytes, FieldVarint, ReadsAs;
    var f :| Encodes(layout, values, fields, ys[0], f);
    ParseEncoded(layout, values, f, Joined(ys[1..]));
    fs := [FieldFor(layout, values, f)] + rest;
    FieldTag(layout, values, fields, ys[0], f);
    forall i | 0 <= i < |ys| ensures fs[i].tag == ys[i].tag && ReadsAs(layout, values, fields, ys[i], fs[i]) {
      if i > 0 {
        assert ys[i] == ys[1..][i - 1] && fs[i] == rest[i - 1];
      }
    }
  }

  lemma FieldTag(layout: Layout, values: Values, fields: seq<HelloField>, e: Encoded, f: HelloField)
    requires GoodNumbers(layout, values) && Encodes(layout, values, fields, e, f)
    ensures FieldFor(layout, values, f).tag == e.tag && ReadsAs(layout, values, fields, e, FieldFor(layout, values, f))
  {
  }

  lemma EncodedComesBack(layout: Layout, values: Values, fields: seq<HelloField>, ys: seq<Encoded>,
                         fs: seq<Field>, f: HelloField)
    requires GoodNumbers(layout, values) && InjectiveTags(layout) && AllRead(layout, values, fields, ys, fs)
    requires f in fields && !Missing(layout, values, f) && EncodeOne(layout, values, f) in ys
    ensures FieldFor(layout, values, f) in fs
  {
    hide EncodeOne, Missing, FieldFor, InjectiveTags;
    var i :| 0 <= i < |ys| && ys[i] == EncodeOne(layout, values, f);
    assert ReadsAs(layout, values, fields, ys[i], fs[i]);
    var g :| Encodes(layout, values, fields, ys[i], g) && fs[i] == FieldFor(layout, values, g);
    SameField(layout, values, f, g);
  }

  /** Each of these fields is there under its tag in the layout and with the value supplied for it. */
  ghost predicate Supplies(layout: Layout, values: Values, fields: seq<HelloField>, fs: seq<Field>)
    requires GoodNumbers(layout, values)
  {
    && (forall f :: f in fields ==> f in layout.tags)
    && (DeviceOS in fields ==> Num(layout.tags[DeviceOS], values.deviceOs) in fs)
    && (Name in fields ==> Blob(layout.tags[Name], values.name) in fs)
    && (Package in fields ==> Blob(layout.tags[Package], values.packageName) in fs)
    && (AndroidID in fields ==> Blob(layout.tags[AndroidID], values.androidId) in fs)
    && (Host in fields ==> Blob(layout.tags[Host], values.host) in fs)
    && (RemotePort in fields ==> Num(layout.tags[RemotePort], values.remotePort) in fs)
  }

  lemma SuppliesEach(layout: Layout, values: Values, fields: seq<HelloField>, fs: seq<Field>)
    requires GoodNumbers(layout, values)
    requires forall f :: f in fields ==> !Missing(layout, values, f) && FieldFor(layout, values, f) in fs
    ensures Supplies(layout, values, fields, fs)
  {
    assert DeviceOS in fields ==> FieldFor(layout, values, DeviceOS) == Num(layout.tags[DeviceOS], values.deviceOs);
    assert RemotePort in fields ==> FieldFor(layout, values, RemotePort) == Num(layout.tags[RemotePort], values.remotePort);
    assert Name in fields ==> FieldFor(layout, values, Name) == Blob(layout.tags[Name], values.name);
    assert Package in fields ==> FieldFor(layout, values, Package) == Blob(layout.tags[Package], values.packageName);
    assert AndroidID in fields ==> FieldFor(layout, values, AndroidID) == Blob(layout.tags[AndroidID], values.androidId);
    assert Host in fields ==> FieldFor(layout, values, Host) == Blob(layout.tags[Host], values.host);
  }

  /** The built message parses to strictly ascending tags, one entry per field, each with exactly the value
      supplied for its field. */
  lemma DevInfoReadsBack(layout: Layout, values: Values, fields: seq<HelloField>) returns (fs: seq<Field>)
    requires InjectiveTags(layout) && NoRepeats(fields) && GoodNumbers(layout, values)
    requires AllPresent(layout, values, fields)
    ensures DevInfo(layout, fields, values).Some?
    ensures ParseFields(DevInfo(layout, fields, values).value) == Some(fs)
    ensures |fs| == |fields|
    ensures forall i, j :: 0 <= i < j < |fs| ==> fs[i].tag < fs[j].tag
    ensures Supplies(layout, values, fields, fs)
  {
    hide EncodeOne, Joined, ParseFields, Missing, FieldFor, SortBy, InjectiveTags, NoRepeats, ReadsAs, Supplies;
    var a := EncodeAll(layout, values, fields);
    var ys := SortBy(TagOf, a);
    EncodedTagsDistinct(layout, values, fields);
    SortLaw(TagOf, a);
    DistinctStays(TagOf, a, ys);
    SameElements(a, ys);
    forall i | 0 <= i < |ys| ensures EncodesSome(layout, values, fields, ys[i]) {
      assert ys[i] in a;
      var j :| 0 <= j < |a| && a[j] == ys[i];
      assert Encodes(layout, values, fields, ys[i], fields[j]);
    }
    fs := JoinedParses(layout, values, fields, ys);
    forall f | f in fields ensures !Missing(layout, values, f) && FieldFor(layout, values, f) in fs {
      var j :| 0 <= j < |fields| && fields[j] == f;
      assert a[j] in ys;
      EncodedComesBack(layout, values, fields, ys, fs, f);
    }
    SuppliesEach(layout, values, fields, fs);
  }

  lemma SameField(layout: Layout, values: Values, f: HelloField, g: HelloField)
    requires InjectiveTags(layout) && !Missing(layout, values, f) && !Missing(layout, values, g)
    requires EncodeOne(layout, values, f).tag == EncodeOne(layout, values, g).tag
    ensures f == g
  {
    hide FieldBytes, FieldVarint;
  }

  lemma {:induction false} JoinedSize(ys: seq<Encoded>, most: nat)
    requires forall i :: 0 <= i < |ys| ==> |ys[i].bytes| <= most
    ensures |Joined(ys)| <= |ys| * most
  {
    if ys != [] {
      JoinedSize(ys[1..], most);
      assert |ys| * most == (|ys| - 1) * most + most;
    }
  }

  lemma EncodedSize(layout: Layout, values: Values, f: HelloField, most: nat)
    requires GoodNumbers(layout, values) && !Missing(layout, values, f)
    requires |values.name| + |values.packageName| + |values.androidId| + |values.host| < most
    ensures |EncodeOne(layout, values, f).bytes| <= most + 20
  {
    hide EncodeVarint;
    var tag := layout.tags[f];
    VarintLength(NonNegative(Shift(tag)));
    VarintLength(NonNegative(Shift(tag) + 2));
    VarintLength(NonNegative(NumberOf(values, f)));
    if TextOf(values, f).Some? {
      VarintLength(|TextOf(values, f).value|);
    }
  }

  /** Messages of short strings are short. */
  lemma DevInfoSize(layout: Layout, values: Values, fields: seq<HelloField>)
    requires GoodNumbers(layout, values) && AllPresent(layout, values, fields) && |fields| <= 6
    requires |values.name| + |values.packageName| + |values.androidId| + |values.host| < 0x1_0000_0000
    ensures DevInfo(layout, fields, values).Some? && |DevInfo(layout, fields, values).value| < 0x10_0000_0000
  {
    hide EncodeOne, Joined, Missing, SortBy, GoodNumbers;
    var a := EncodeAll(layout, values, fields);
    var ys := SortBy(TagOf, a);
    SortLaw(TagOf, a);
    SameElements(a, ys);
    forall i | 0 <= i < |ys| ensures |ys[i].bytes| <= 0x1_0000_0000 + 20 {
      assert ys[i] in a;
      var j :| 0 <= j < |a| && a[j] == ys[i];
      EncodedSize(layout, values, fields[j], 0x1_0000_0000);
    }
    JoinedSize(ys, 0x1_0000_0000 + 20);
  }
}
