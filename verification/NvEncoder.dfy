/** The probe's hand-written protobuf encoder (cmd/nvprobe/main.go, encodeVarint to fieldBytes,
    buildMessage, applyFrame), on Go's 64-bit int. */
module NvEncoder {
  import opened Wire

  /** Tags from this one on lose their top bits when shifted left by three. */
  const TAG_LIMIT := 0x1000_0000_0000_0000

  /** The values a Go int holds. */
  predicate IsInt(x: int) { -TWO_63 <= x < TWO_63 }

  function Wrap64(x: int): (r: int)
    ensures IsInt(r)
  {
    (x + TWO_63) % TWO_64 - TWO_63
  }

  /** tag << 3 */
  function Shift(tag: int): (r: int)
    ensures IsInt(r)
  {
    Wrap64(tag * 8)
  }

  function NonNegative(x: int): nat { if x < 0 then 0 else x }

  /** What encodeVarint returns: negative values are written as 0. */
  function EncodeInt(value: int): Bytes {
    EncodeVarint(NonNegative(value))
  }

  method EncodeVarintLoop(value: int) returns (out: Bytes)
    ensures out == EncodeInt(value)
  {
    var v := if value < 0 then 0 else value;
    out := [];
    while true
      invariant v >= 0
      invariant EncodeInt(value) == out + EncodeVarint(v)
      decreases v
    {
      var b := v % 128;
      v := v / 128;
      if v == 0 {
        out := out + [b];
        return;
      }
      assert out + ([b + 128] + EncodeVarint(v)) == out + [b + 128] + EncodeVarint(v);
      out := out + [b + 128];
    }
  }

  function FieldVarint(tag: int, value: int): Bytes {
    EncodeInt(Shift(tag)) + EncodeInt(value)
  }

  /** (tag << 3) | 2: the shift leaves the low three bits clear. */
  function FieldBytes(tag: int, payload: Bytes): Bytes {
    EncodeInt(Shift(tag) + 2) + EncodeInt(|payload|) + payload
  }

  // ------------------------------------------------------------------ a reference reader

  datatype Field = Num(tag: nat, value: nat) | Blob(tag: nat, bytes: Bytes)

  /** Reads a message made of varint and length-delimited fields only, keeping order and repetitions. */
  function ParseFields(b: Bytes): Option<seq<Field>>
    decreases |b|
  {
    if b == [] then Some([])
    else match ConsumeVarint(b)
         case Decoded(key, s) =>
           (match ReadPayload(key, b[s..])
            case None => None
            case Some((f, n)) =>
              if n > |b| - s then None
              else match ParseFields(b[s + n..])
                   case None => None
                   case Some(fs) => Some([f] + fs))
         case _ => None
  }

  function ReadPayload(key: nat, b: Bytes): (r: Option<(Field, nat)>)
    ensures r.Some? ==> r.value.1 <= |b|
  {
    match ConsumeVarint(b)
    case Decoded(v, s) =>
      if key % 8 == 0 then Some((Num(key / 8, v), s))
      else if key % 8 == 2 && v <= |b| - s then Some((Blob(key / 8, b[s..s + v]), s + v))
      else None
    case _ => None
  }

  lemma SmallShift(tag: int)
    requires 0 <= tag < TAG_LIMIT
    ensures Shift(tag) == tag * 8
  {
  }

  /** The definition of ParseFields at a key. */
  lemma ParseUnfold(b: Bytes, key: nat, s: nat)
    requires ConsumeVarint(b) == Decoded(key, s)
    ensures ParseFields(b) ==
            var p := ReadPayload(key, b[s..]);
            if p.None? then None
            else
              var fs := ParseFields(b[s + p.value.1..]);
              if fs.None? then None else Some([p.value.0] + fs.value)
  {
    hide ReadPayload;
  }

  /** The same behind an encoded key. */
  lemma ParseStep(key: nat, body: Bytes)
    requires key < TWO_63
    ensures ParseFields(EncodeVarint(key) + body) ==
            var p := ReadPayload(key, body);
            if p.None? then None
            else
              var fs := ParseFields(body[p.value.1..]);
              if fs.None? then None else Some([p.value.0] + fs.value)
  {
    hide ReadPayload, ConsumeVarint, EncodeVarint, ParseFields;
    var b, s := EncodeVarint(key) + body, |EncodeVarint(key)|;
    VarintRoundTrip(key, body);
    ParseUnfold(b, key, s);
    assert b[s..] == body;
    var p := ReadPayload(key, body);
    if p.Some? {
      assert b[s + p.value.1..] == body[p.value.1..];
    }
  }

  /** A varint field is read back as itself, and reading goes on behind it. */
  lemma ParseNum(tag: int, value: int, rest: Bytes)
    requires 0 <= tag < TAG_LIMIT && 0 <= value < TWO_63
    ensures ParseFields(FieldVarint(tag, value) + rest) ==
            match ParseFields(rest)
            case None => None
            case Some(fs) => Some([Num(tag, value)] + fs)
  {
    hide ParseFields;
    SmallShift(tag);
    var body := EncodeInt(value) + rest;
    assert FieldVarint(tag, value) + rest == EncodeVarint(tag * 8) + body;
    ParseStep(tag * 8, body);
    VarintRoundTrip(value, rest);
  }

  lemma BlobBytes(key: Bytes, len: Bytes, payload: Bytes, rest: Bytes)
    ensures key + len + payload + rest == key + (len + (payload + rest))
    ensures (len + (payload + rest))[|len|..|len| + |payload|] == payload
    ensures (len + (payload + rest))[|len| + |payload|..] == rest
  {
  }

  lemma ReadBlob(key: nat, payload: Bytes, rest: Bytes)
    requires key % 8 == 2 && |payload| < TWO_63
    ensures var len := EncodeVarint(|payload|);
            ReadPayload(key, len + (payload + rest)) == Some((Blob(key / 8, payload), |len| + |payload|))
  {
    hide EncodeVarint, ConsumeVarint;
    VarintRoundTrip(|payload|, payload + rest);
    BlobBytes([], EncodeVarint(|payload|), payload, rest);
  }

  lemma ParseBlob(tag: int, payload: Bytes, rest: Bytes)
    requires 0 <= tag < TAG_LIMIT && |payload| < TWO_63
    ensures ParseFields(FieldBytes(tag, payload) + rest) ==
            match ParseFields(rest)
            case None => None
            case Some(fs) => Some([Blob(tag, payload)] + fs)
  {
    hide ParseFields, EncodeVarint, ConsumeVarint, ReadPayload;
    SmallShift(tag);
    var len := EncodeInt(|payload|);
    var body := len + (payload + rest);
    BlobBytes(EncodeVarint(tag * 8 + 2), len, payload, rest);
    ParseStep(tag * 8 + 2, body);
    ReadBlob(tag * 8 + 2, payload, rest);
  }

  /** A varint field parses back to its tag and value exactly when the tag survives the shift. */
  lemma FieldVarintExact(tag: int, value: int)
    requires 0 <= tag < TWO_63 && 0 <= value < TWO_63
    ensures ParseFields(FieldVarint(tag, value)) == Some([Num(tag, value)]) <==> tag < TAG_LIMIT
  {
    var b := FieldVarint(tag, value);
    if tag < TAG_LIMIT {
      ParseNum(tag, value, []);
      NoFields();
      assert b + [] == b;
      assert [Num(tag, value)] + [] == [Num(tag, value)];
    } else {
      var key := NonNegative(Shift(tag));
      VarintRoundTrip(key, EncodeInt(value));
      assert key / 8 < TAG_LIMIT;
      match ParseFields(b)
      case None =>
      case Some(fs) => assert fs != [] && fs[0].tag == key / 8;
    }
  }

  /** Two different tags with the same bytes, both past the limit. */
  lemma WrappedTagsCollide(value: int)
    ensures FieldVarint(TAG_LIMIT, value) == FieldVarint(2 * TAG_LIMIT, value)
  {
    assert Shift(TAG_LIMIT) == -TWO_63;
    assert Shift(2 * TAG_LIMIT) == 0;
  }

  // ------------------------------------------------------------------ messages

  datatype Style = Raw | VarintPrefix | U32be | U32le | OtherStyle(name: string)

  datatype Attempt = Attempt(
    frameStyle: Style, serviceTag: int, commandTag: int, payloadTag: int, inputTag: int, specialTag: int,
    serviceID: int, commandID: int, inputType: int, specialInput: int,
    template: string, payloadDesc: Desc, preambleDesc: Desc,
    hasCustomPayload: bool, payloadBytes: Bytes, preambleBytes: Bytes)

  /** Descriptions of hello payloads, with the numbers and names the text is formatted from. */
  datatype Desc =
    | NoDesc
    | CapabilityOnly(capabilityTag: int, capability: int)
    | DevInfoEmpty(devInfoTag: int, layout: string)
    | DevInfo(devInfoTag: int, layout: string, fields: string, deviceOs: int, remotePort: int)
    | DevInfoCapability(devInfoTag: int, capabilityTag: int, layout: string, fields: string, deviceOs: int,
                        capability: int, remotePort: int)

  function BuildPayload(a: Attempt): Bytes {
    if a.hasCustomPayload then a.payloadBytes
    else FieldVarint(a.inputTag, a.inputType) + FieldVarint(a.specialTag, a.specialInput)
  }

  function BuildMessage(a: Attempt): Bytes {
    var head := FieldVarint(a.serviceTag, a.serviceID) + FieldVarint(a.commandTag, a.commandID);
    if a.payloadTag == 0 then head else head + FieldBytes(a.payloadTag, BuildPayload(a))
  }

  predicate IsTag(tag: int) { 0 <= tag < TAG_LIMIT }
  predicate IsValue(v: int) { 0 <= v < TWO_63 }

  /** All numbers are in the range the encoder keeps. */
  predicate InRange(a: Attempt) {
    && IsTag(a.serviceTag) && IsTag(a.commandTag) && IsTag(a.payloadTag) && IsTag(a.inputTag) && IsTag(a.specialTag)
    && IsValue(a.serviceID) && IsValue(a.commandID) && IsValue(a.inputType) && IsValue(a.specialInput)
  }

  lemma ParseTwo(tag1: int, v1: int, tag2: int, v2: int, rest: Bytes)
    requires IsTag(tag1) && IsValue(v1) && IsTag(tag2) && IsValue(v2)
    ensures ParseFields(FieldVarint(tag1, v1) + FieldVarint(tag2, v2) + rest) ==
            match ParseFields(rest)
            case None => None
            case Some(fs) => Some([Num(tag1, v1), Num(tag2, v2)] + fs)
  {
    hide FieldVarint, ParseFields;
    var more := FieldVarint(tag2, v2) + rest;
    assert FieldVarint(tag1, v1) + FieldVarint(tag2, v2) + rest == FieldVarint(tag1, v1) + more;
    ParseNum(tag1, v1, more);
    ParseNum(tag2, v2, rest);
    if ParseFields(rest).Some? {
      var fs := ParseFields(rest).value;
      assert [Num(tag1, v1)] + ([Num(tag2, v2)] + fs) == [Num(tag1, v1), Num(tag2, v2)] + fs;
    }
  }

  lemma NoFields()
    ensures ParseFields([]) == Some([])
  {
  }

  /** A built message consists of exactly its service, command and payload fields, in that order. */
  lemma MessageParses(a: Attempt)
    requires InRange(a) && |BuildPayload(a)| < TWO_63
    ensures ParseFields(BuildMessage(a)) ==
            Some([Num(a.serviceTag, a.serviceID), Num(a.commandTag, a.commandID)] +
                 if a.payloadTag == 0 then [] else [Blob(a.payloadTag, BuildPayload(a))])
  {
    hide FieldVarint, FieldBytes, ParseFields, BuildPayload;
    NoFields();
    var head := FieldVarint(a.serviceTag, a.serviceID) + FieldVarint(a.commandTag, a.commandID);
    if a.payloadTag == 0 {
      ParseTwo(a.serviceTag, a.serviceID, a.commandTag, a.commandID, []);
      assert head + [] == head;
    } else {
      var blob := FieldBytes(a.payloadTag, BuildPayload(a));
      ParseBlob(a.payloadTag, BuildPayload(a), []);
      assert blob + [] == blob;
      assert [Blob(a.payloadTag, BuildPayload(a))] + [] == [Blob(a.payloadTag, BuildPayload(a))];
      ParseTwo(a.serviceTag, a.serviceID, a.commandTag, a.commandID, blob);
    }
  }

  /** And the payload is the one supplied or consists of exactly its input and special fields. */
  lemma PayloadParses(a: Attempt)
    requires InRange(a)
    ensures a.hasCustomPayload ==> BuildPayload(a) == a.payloadBytes
    ensures !a.hasCustomPayload ==>
              ParseFields(BuildPayload(a)) == Some([Num(a.inputTag, a.inputType), Num(a.specialTag, a.specialInput)])
  {
    if a.hasCustomPayload {
      return;
    }
    NoFields();
    ParseTwo(a.inputTag, a.inputType, a.specialTag, a.specialInput, []);
    assert BuildPayload(a) + [] == BuildPayload(a);
    var fs := [Num(a.inputTag, a.inputType), Num(a.specialTag, a.specialInput)];
    assert fs + [] == fs;
  }

  lemma FieldVarintSize(tag: int, value: int)
    requires IsInt(value)
    ensures |FieldVarint(tag, value)| <= 20
  {
    VarintLength(NonNegative(Shift(tag)));
    VarintLength(NonNegative(value));
  }

  lemma MessageSize(a: Attempt)
    requires InRange(a) && !a.hasCustomPayload
    ensures |BuildPayload(a)| <= 40
    ensures |BuildMessage(a)| <= 100
  {
    FieldVarintSize(a.serviceTag, a.serviceID);
    FieldVarintSize(a.commandTag, a.commandID);
    FieldVarintSize(a.inputTag, a.inputType);
    FieldVarintSize(a.specialTag, a.specialInput);
    VarintLength(NonNegative(Shift(a.payloadTag) + 2));
    VarintLength(|BuildPayload(a)|);
  }

  // ------------------------------------------------------------------ frames

  /** The four low bytes of a length, most significant first. */
  function Big4(n: nat): (r: Bytes)
    ensures |r| == 4
  {
    [n / 256 / 256 / 256 % 256, n / 256 / 256 % 256, n / 256 % 256, n % 256]
  }

  function Value4(b: Bytes): nat
    requires |b| == 4
  {
    b[0] as int * 0x100_0000 + b[1] as int * 0x1_0000 + b[2] as int * 0x100 + b[3] as int
  }

  function Reverse4(b: Bytes): (r: Bytes)
    requires |b| == 4
    ensures |r| == 4
  {
    [b[3], b[2], b[1], b[0]]
  }

  function ApplyFrame(style: Style, msg: Bytes): Bytes {
    match style
    case Raw => msg
    case VarintPrefix => EncodeInt(|msg|) + msg
    case U32be => Big4(|msg|) + msg
    case U32le => Reverse4(Big4(|msg|)) + msg
    case OtherStyle(_) => msg
  }

  /** Reads one framed message that fills the whole buffer. */
  function Unframe(style: Style, b: Bytes): Option<Bytes> {
    match style
    case VarintPrefix =>
      (match ConsumeVarint(b)
       case Decoded(n, s) => if |b| - s == n then Some(b[s..]) else None
       case _ => None)
    case U32be => if |b| >= 4 && Value4(b[..4]) == |b| - 4 then Some(b[4..]) else None
    case U32le => if |b| >= 4 && Value4(Reverse4(b[..4])) == |b| - 4 then Some(b[4..]) else None
    case _ => Some(b)
  }

  lemma Big4Value(n: nat)
    ensures Value4(Big4(n)) == n % TWO_32
  {
    var q1, q2, q3 := n / 256, n / 256 / 256, n / 256 / 256 / 256;
    var q4 := q3 / 256;
    assert n == TWO_32 * q4 + Value4(Big4(n));
  }

  /** A frame can be taken off again exactly when its length fits the prefix. */
  lemma UnframeExact(style: Style, msg: Bytes)
    requires |msg| < TWO_63
    ensures Unframe(style, ApplyFrame(style, msg)) == Some(msg) <==>
            (style == U32be || style == U32le ==> |msg| < TWO_32)
  {
    hide Value4, Big4, EncodeVarint, ConsumeVarint;
    var b := ApplyFrame(style, msg);
    match style
    case VarintPrefix => VarintRoundTrip(|msg|, msg);
    case U32be =>
      Big4Value(|msg|);
      assert b[..4] == Big4(|msg|) && b[4..] == msg;
    case U32le =>
      Big4Value(|msg|);
      assert b[..4] == Reverse4(Big4(|msg|)) && b[4..] == msg;
      assert Reverse4(Reverse4(Big4(|msg|))) == Big4(|msg|);
    case _ =>
  }

  /** The frames byte by byte: a varint of the length, its low 32 bits with the most or the least significant byte
      first, or nothing before the message. */
  lemma FrameExact(style: Style, msg: Bytes)
    requires |msg| < TWO_63
    ensures var b := ApplyFrame(style, msg);
            match style
            case VarintPrefix => ConsumeVarint(b) == Decoded(|msg|, |b| - |msg|) && b[|b| - |msg|..] == msg
            case U32be => |b| == |msg| + 4 && b[4..] == msg
                          && b[0] as int * 0x100_0000 + b[1] as int * 0x1_0000 + b[2] as int * 0x100 + b[3] as int == |msg| % 0x1_0000_0000
            case U32le => |b| == |msg| + 4 && b[4..] == msg
                          && b[0] as int + b[1] as int * 0x100 + b[2] as int * 0x1_0000 + b[3] as int * 0x100_0000 == |msg| % 0x1_0000_0000
            case _ => b == msg
  {
    hide Big4, EncodeVarint, ConsumeVarint;
    match style
    case VarintPrefix => VarintRoundTrip(|msg|, msg);
    case U32be => Big4Value(|msg|);
    case U32le => Big4Value(|msg|);
    case _ =>
  }

  /** A special-input attempt: a payload tag, a built payload and nothing attached. */
  predicate IsSpecial(a: Attempt) {
    && a.payloadTag != 0 && !a.hasCustomPayload
    && a.template == "" && a.payloadDesc == NoDesc && a.preambleDesc == NoDesc
    && a.payloadBytes == [] && a.preambleBytes == []
  }

  /** Different special attempts under the same frame style never put the same bytes on the wire. */
  lemma DistinctOnTheWire(a: Attempt, b: Attempt)
    requires InRange(a) && InRange(b) && IsSpecial(a) && IsSpecial(b) && a.frameStyle == b.frameStyle
    requires ApplyFrame(a.frameStyle, BuildMessage(a)) == ApplyFrame(b.frameStyle, BuildMessage(b))
    ensures a == b
  {
    hide ParseFields, BuildMessage, BuildPayload, ApplyFrame, Unframe;
    MessageSize(a);
    MessageSize(b);
    UnframeExact(a.frameStyle, BuildMessage(a));
    UnframeExact(b.frameStyle, BuildMessage(b));
    MessageParses(a);
    MessageParses(b);
    var fa := [Num(a.serviceTag, a.serviceID), Num(a.commandTag, a.commandID)] + [Blob(a.payloadTag, BuildPayload(a))];
    var fb := [Num(b.serviceTag, b.serviceID), Num(b.commandTag, b.commandID)] + [Blob(b.payloadTag, BuildPayload(b))];
    assert fa[0] == fb[0] && fa[1] == fb[1] && fa[2] == fb[2];
    PayloadParses(a);
    PayloadParses(b);
    assert [Num(a.inputTag, a.inputType), Num(a.specialTag, a.specialInput)][0]
        == [Num(b.inputTag, b.inputType), Num(b.specialTag, b.specialInput)][0];
    assert [Num(a.inputTag, a.inputType), Num(a.specialTag, a.specialInput)][1]
        == [Num(b.inputTag, b.inputType), Num(b.specialTag, b.specialInput)][1];
  }
}
