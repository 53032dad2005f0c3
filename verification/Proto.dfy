/** The protobuf wire format (Protocol Buffers Encoding, sections "Message Structure" and
    "Length-Delimited Records") for proto3 messages, driven by a schema: fields are written in number
    order, defaults are omitted, the last value read wins and unknown fields are skipped. */
module Proto {
  import opened Wire
  import opened Utf8

  const MAX_FIELD_NUMBER := 0x1FFF_FFFF
  /** Field numbers above this one are refused even inside a skipped group. */
  const MAX_TAG_NUMBER := 0x7FFF_FFFF
  const GROUP_DEPTH := 10000

  /** KInt32 also stands for enums, which travel in the same way. */
  datatype Kind = KInt32 | KUint64 | KBytes | KString | KStrings
  datatype Val = VInt(i: int) | VBytes(b: Bytes) | VList(items: seq<Bytes>)
  datatype FieldDesc = FieldDesc(num: nat, kind: Kind)
  type Schema = seq<FieldDesc>
  type Record = seq<Val>

  /** Field numbers are legal and strictly ascending. */
  ghost predicate WellFormed(sc: Schema) {
    && (forall i :: 0 <= i < |sc| ==> 1 <= sc[i].num <= MAX_FIELD_NUMBER)
    && (forall i, j :: 0 <= i < j < |sc| ==> sc[i].num < sc[j].num)
  }

  predicate Fits(kind: Kind, v: Val) {
    match kind
    case KInt32 => v.VInt? && -TWO_31 <= v.i < TWO_31
    case KUint64 => v.VInt? && 0 <= v.i < TWO_64
    case KBytes => v.VBytes?
    case KString => v.VBytes?
    case KStrings => v.VList?
  }

  predicate Conforms(sc: Schema, rec: Record) {
    |rec| == |sc| && forall i :: 0 <= i < |sc| ==> Fits(sc[i].kind, rec[i])
  }

  function Default(kind: Kind): (v: Val) {
    match kind
    case KInt32 => VInt(0)
    case KUint64 => VInt(0)
    case KBytes => VBytes([])
    case KString => VBytes([])
    case KStrings => VList([])
  }

  function Defaults(sc: Schema): (r: Record)
    ensures |r| == |sc|
  {
    seq(|sc|, i requires 0 <= i < |sc| => Default(sc[i].kind))
  }

  /** Lengths must fit a Go slice length; strings must be UTF-8. */
  predicate Encodable(kind: Kind, v: Val)
    requires Fits(kind, v)
  {
    match kind
    case KInt32 => true
    case KUint64 => true
    case KBytes => |v.b| < TWO_63
    case KString => |v.b| < TWO_63 && ValidUtf8(v.b)
    case KStrings => forall i :: 0 <= i < |v.items| ==> |v.items[i]| < TWO_63 && ValidUtf8(v.items[i])
  }

  predicate AllEncodable(sc: Schema, rec: Record)
    requires Conforms(sc, rec)
  {
    forall i :: 0 <= i < |sc| ==> Encodable(sc[i].kind, rec[i])
  }

  // ------------------------------------------------------------------ writing

  function Tag(num: nat, wire: nat): nat { num * 8 + wire }

  function LenField(num: nat, b: Bytes): Bytes {
    EncodeVarint(Tag(num, 2)) + EncodeVarint(|b|) + b
  }

  function VarintField(num: nat, v: nat): Bytes {
    EncodeVarint(Tag(num, 0)) + EncodeVarint(v)
  }

  function ListField(num: nat, items: seq<Bytes>): Bytes {
    if items == [] then [] else LenField(num, items[0]) + ListField(num, items[1..])
  }

  function EncodeField(d: FieldDesc, v: Val): Bytes
    requires Fits(d.kind, v)
  {
    if v == Default(d.kind) then []
    else match d.kind
         case KInt32 => VarintField(d.num, FromInt32(v.i))
         case KUint64 => VarintField(d.num, v.i)
         case KBytes => LenField(d.num, v.b)
         case KString => LenField(d.num, v.b)
         case KStrings => ListField(d.num, v.items)
  }

  /** The encoding of fields from..; the whole record is EncodeFields(sc, rec, 0). */
  function EncodeFields(sc: Schema, rec: Record, from: nat): Bytes
    requires Conforms(sc, rec) && from <= |sc|
    decreases |sc| - from
  {
    if from == |sc| then [] else EncodeField(sc[from], rec[from]) + EncodeFields(sc, rec, from + 1)
  }

  /** Fails exactly on a string that is not UTF-8 (or a length no slice can have). */
  function Marshal(sc: Schema, rec: Record): Option<Bytes>
    requires Conforms(sc, rec)
  {
    if AllEncodable(sc, rec) then Some(EncodeFields(sc, rec, 0)) else None
  }

  // ------------------------------------------------------------------ reading

  /** Bytes taken by the length-delimited value at the head of b, length prefix included. */
  function LenValue(b: Bytes): (r: Option<(nat, nat)>)
    ensures r.Some? ==> r.value.0 + r.value.1 <= |b| && r.value.0 >= 1
  {
    match ConsumeVarint(b)
    case Decoded(n, s) => if n <= |b| - s then Some((s, n)) else None
    case _ => None
  }

  /** Size of the value of an unknown field; None if it is malformed. */
  function SkipValue(num: nat, wire: nat, b: Bytes, depth: int): (r: Option<nat>)
    ensures r.Some? ==> r.value <= |b|
    decreases |b|, 1
  {
    if wire == 0 then
      match ConsumeVarint(b)
      case Decoded(_, s) => Some(s)
      case _ => None
    else if wire == 1 then if |b| >= 8 then Some(8) else None
    else if wire == 5 then if |b| >= 4 then Some(4) else None
    else if wire == 2 then
      match LenValue(b)
      case Some((s, n)) => Some(s + n)
      case None => None
    else if wire == 3 && depth >= 0 then SkipGroup(num, b, depth)
    else None
  }

  /** Size of a group body up to and including its end tag. */
  function SkipGroup(num: nat, b: Bytes, depth: int): (r: Option<nat>)
    ensures r.Some? ==> r.value <= |b|
    decreases |b|, 0
  {
    match ConsumeVarint(b)
    case Decoded(tag, s) =>
      var num2, wire2 := tag / 8, tag % 8;
      if num2 < 1 || num2 > MAX_TAG_NUMBER then None
      else if wire2 == 4 then if num2 == num then Some(s) else None
      else
        (match SkipValue(num2, wire2, b[s..], depth - 1)
         case None => None
         case Some(n) =>
           match SkipGroup(num, b[s + n..], depth)
           case None => None
           case Some(more) => Some(s + n + more))
    case _ => None
  }

  function WireOf(kind: Kind): nat {
    if kind.KInt32? || kind.KUint64? then 0 else 2
  }

  /** Index of the field with this number, |sc| if the schema does not know it. */
  function Find(sc: Schema, num: nat): (i: nat)
    ensures i <= |sc|
    ensures i < |sc| ==> sc[i].num == num
    ensures forall j :: 0 <= j < i ==> sc[j].num != num
  {
    if sc == [] then 0 else if sc[0].num == num then 0 else 1 + Find(sc[1..], num)
  }

  /** New value of a known field after reading the occurrence at the head of b, and its size. */
  function ReadValue(kind: Kind, old_: Val, b: Bytes): (r: Option<(Val, nat)>)
    requires Fits(kind, old_)
    ensures r.Some? ==> r.value.1 <= |b| && Fits(kind, r.value.0)
  {
    if WireOf(kind) == 0 then
      match ConsumeVarint(b)
      case Decoded(v, s) =>
        VarintBounded(b);
        Some((VInt(if kind.KInt32? then ToInt32(v) else v), s))
      case _ => None
    else
      match LenValue(b)
      case None => None
      case Some((s, n)) =>
        var body := b[s..s + n];
        if !kind.KBytes? && !ValidUtf8(body) then None
        else Some((if kind.KStrings? then VList(old_.items + [body]) else VBytes(body), s + n))
  }

  lemma VarintBounded(b: Bytes)
    requires ConsumeVarint(b).Decoded?
    ensures ConsumeVarint(b).value < TWO_64
  {
    VarintMinimal(b);
  }

  /** Reads fields from b over the values in acc. */
  function ReadFields(sc: Schema, acc: Record, b: Bytes): (r: Option<Record>)
    requires Conforms(sc, acc)
    ensures r.Some? ==> Conforms(sc, r.value)
    decreases |b|, 0
  {
    if b == [] then Some(acc)
    else match ConsumeVarint(b)
         case Decoded(tag, s) => ReadOne(sc, acc, tag / 8, tag % 8, b[s..])
         case _ => None
  }

  function ReadOne(sc: Schema, acc: Record, num: nat, wire: nat, b: Bytes): (r: Option<Record>)
    requires Conforms(sc, acc)
    ensures r.Some? ==> Conforms(sc, r.value)
    decreases |b|, 1
  {
    if num < 1 || num > MAX_FIELD_NUMBER || wire == 4 then None
    else
      var i := Find(sc, num);
      if i < |sc| && wire == WireOf(sc[i].kind) then
        match ReadValue(sc[i].kind, acc[i], b)
        case None => None
        case Some((v, n)) => ReadFields(sc, acc[i := v], b[n..])
      else
        match SkipValue(num, wire, b, GROUP_DEPTH)
        case None => None
        case Some(n) => ReadFields(sc, acc, b[n..])
  }

  function Unmarshal(sc: Schema, b: Bytes): (r: Option<Record>)
    ensures r.Some? ==> Conforms(sc, r.value)
  {
    ReadFields(sc, Defaults(sc), b)
  }

  // ------------------------------------------------------------------ round trip

  lemma FindIndex(sc: Schema, i: nat)
    requires WellFormed(sc) && i < |sc|
    ensures Find(sc, sc[i].num) == i
  {
    assert Find(sc, sc[i].num) <= i;
  }

  /** A tag that was written is read back, and the field it names is the one at index i. */
  lemma ReadTag(sc: Schema, acc: Record, i: nat, body: Bytes)
    requires WellFormed(sc) && Conforms(sc, acc) && i < |sc|
    ensures var b := EncodeVarint(Tag(sc[i].num, WireOf(sc[i].kind))) + body;
            ReadFields(sc, acc, b) ==
            match ReadValue(sc[i].kind, acc[i], body)
            case None => None
            case Some((v, n)) => ReadFields(sc, acc[i := v], body[n..])
  {
    var tag := Tag(sc[i].num, WireOf(sc[i].kind));
    VarintRoundTrip(tag, body);
    FindIndex(sc, i);
    assert tag / 8 == sc[i].num && tag % 8 == WireOf(sc[i].kind);
    var b := EncodeVarint(tag) + body;
    assert ReadFields(sc, acc, b) == ReadOne(sc, acc, sc[i].num, WireOf(sc[i].kind), body);
  }

  lemma ReadLenValue(b: Bytes, rest: Bytes)
    requires |b| < TWO_63
    ensures var w := EncodeVarint(|b|) + b + rest;
            && LenValue(w) == Some((|EncodeVarint(|b|)|, |b|))
            && w[|EncodeVarint(|b|)|..|EncodeVarint(|b|)| + |b|] == b
            && w[|EncodeVarint(|b|)| + |b|..] == rest
  {
    var w := EncodeVarint(|b|) + b + rest;
    assert w == EncodeVarint(|b|) + (b + rest);
    VarintRoundTrip(|b|, b + rest);
  }

  lemma ReadLenField(sc: Schema, acc: Record, i: nat, b: Bytes, rest: Bytes)
    requires WellFormed(sc) && Conforms(sc, acc) && i < |sc| && WireOf(sc[i].kind) == 2
    requires |b| < TWO_63 && (sc[i].kind.KBytes? || ValidUtf8(b))
    ensures ReadFields(sc, acc, LenField(sc[i].num, b) + rest) ==
            ReadFields(sc, acc[i := if sc[i].kind.KStrings? then VList(acc[i].items + [b]) else VBytes(b)], rest)
  {
    var body := EncodeVarint(|b|) + b + rest;
    assert LenField(sc[i].num, b) + rest == EncodeVarint(Tag(sc[i].num, 2)) + body;
    ReadTag(sc, acc, i, body);
    ReadLenValue(b, rest);
  }

  lemma ReadVarintField(sc: Schema, acc: Record, i: nat, v: nat, rest: Bytes)
    requires WellFormed(sc) && Conforms(sc, acc) && i < |sc| && WireOf(sc[i].kind) == 0 && v < TWO_64
    ensures ReadFields(sc, acc, VarintField(sc[i].num, v) + rest) ==
            ReadFields(sc, acc[i := VInt(if sc[i].kind.KInt32? then ToInt32(v) else v)], rest)
  {
    var body := EncodeVarint(v) + rest;
    assert VarintField(sc[i].num, v) + rest == EncodeVarint(Tag(sc[i].num, 0)) + body;
    ReadTag(sc, acc, i, body);
    VarintRoundTrip(v, rest);
  }

  lemma {:induction false} ReadListField(sc: Schema, acc: Record, i: nat, items: seq<Bytes>, rest: Bytes)
    requires WellFormed(sc) && Conforms(sc, acc) && i < |sc| && sc[i].kind.KStrings?
    requires Encodable(KStrings, VList(items))
    ensures ReadFields(sc, acc, ListField(sc[i].num, items) + rest) ==
            ReadFields(sc, acc[i := VList(acc[i].items + items)], rest)
    decreases |items|
  {
    hide ReadFields, LenField, ValidUtf8;
    if items == [] {
      assert acc[i].items + items == acc[i].items;
      assert acc[i := VList(acc[i].items + items)] == acc;
      assert ListField(sc[i].num, items) + rest == rest;
    } else {
      var more := ListField(sc[i].num, items[1..]) + rest;
      assert ListField(sc[i].num, items) + rest == LenField(sc[i].num, items[0]) + more;
      ReadLenField(sc, acc, i, items[0], more);
      var acc' := acc[i := VList(acc[i].items + [items[0]])];
      assert forall j :: 0 <= j < |items[1..]| ==> items[1..][j] == items[j + 1];
      ReadListField(sc, acc', i, items[1..], rest);
      assert acc[i].items + [items[0]] + items[1..] == acc[i].items + items;
      assert acc'[i := VList(acc[i].items + items)] == acc[i := VList(acc[i].items + items)];
    }
  }

  /** Reading one encoded field sets exactly that field; an omitted default leaves the default. */
  lemma ReadField(sc: Schema, acc: Record, i: nat, v: Val, rest: Bytes)
    requires WellFormed(sc) && Conforms(sc, acc) && i < |sc|
    requires Fits(sc[i].kind, v) && Encodable(sc[i].kind, v) && acc[i] == Default(sc[i].kind)
    ensures ReadFields(sc, acc, EncodeField(sc[i], v) + rest) == ReadFields(sc, acc[i := v], rest)
  {
    if v == Default(sc[i].kind) {
      assert acc[i := v] == acc;
      assert EncodeField(sc[i], v) + rest == rest;
    } else {
      match sc[i].kind
      case KInt32 => Int32RoundTrip(v.i); ReadVarintField(sc, acc, i, FromInt32(v.i), rest);
      case KUint64 => ReadVarintField(sc, acc, i, v.i, rest);
      case KBytes => ReadLenField(sc, acc, i, v.b, rest);
      case KString => ReadLenField(sc, acc, i, v.b, rest);
      case KStrings =>
        ReadListField(sc, acc, i, v.items, rest);
        assert acc[i].items + v.items == v.items;
    }
  }

  lemma ReadNothing(sc: Schema, acc: Record)
    requires Conforms(sc, acc)
    ensures ReadFields(sc, acc, []) == Some(acc)
  {
  }

  lemma OneMoreKnown(a: Record, b: Record, i: nat)
    requires |a| == |b| && i < |a|
    ensures (a[..i] + b[i..])[i := a[i]] == a[..i + 1] + b[i + 1..]
  {
  }

  lemma {:induction false} ReadBack(sc: Schema, rec: Record, from: nat)
    requires WellFormed(sc) && Conforms(sc, rec) && AllEncodable(sc, rec) && from <= |sc|
    ensures Conforms(sc, rec[..from] + Defaults(sc)[from..])
    ensures ReadFields(sc, rec[..from] + Defaults(sc)[from..], EncodeFields(sc, rec, from)) == Some(rec)
    decreases |sc| - from
  {
    hide ReadFields, EncodeField, ValidUtf8, Encodable;
    var acc := rec[..from] + Defaults(sc)[from..];
    if from == |sc| {
      assert acc == rec;
      ReadNothing(sc, acc);
    } else {
      ReadField(sc, acc, from, rec[from], EncodeFields(sc, rec, from + 1));
      OneMoreKnown(rec, Defaults(sc), from);
      ReadBack(sc, rec, from + 1);
    }
  }

  /** Whatever record a schema admits, what Marshal writes Unmarshal reads back, every field of it. */
  lemma RoundTrip(sc: Schema, rec: Record)
    requires WellFormed(sc) && Conforms(sc, rec) && Marshal(sc, rec).Some?
    ensures Unmarshal(sc, Marshal(sc, rec).value) == Some(rec)
  {
    assert rec[..0] + Defaults(sc)[0..] == Defaults(sc);
    ReadBack(sc, rec, 0);
  }

  // ------------------------------------------------------------------ size

  /** Bytes of content in fields from.. of a record without lists. */
  function Content(rec: Record, from: nat): nat
    requires from <= |rec|
    decreases |rec| - from
  {
    if from == |rec| then 0 else (if rec[from].VBytes? then |rec[from].b| else 0) + Content(rec, from + 1)
  }

  lemma FieldSize(d: FieldDesc, v: Val)
    requires d.num <= MAX_FIELD_NUMBER && !d.kind.KStrings? && Fits(d.kind, v)
    requires v.VBytes? ==> |v.b| < TWO_63
    ensures |EncodeField(d, v)| <= (if v.VBytes? then |v.b| else 0) + 20
  {
    VarintLength(Tag(d.num, WireOf(d.kind)));
    VarintLength(if v.VBytes? then |v.b| else if d.kind.KInt32? then FromInt32(v.i) else v.i);
  }

  /** A record costs at most twenty bytes of tags and lengths a field. */
  lemma {:induction false} RecordSize(sc: Schema, rec: Record, from: nat)
    requires WellFormed(sc) && Conforms(sc, rec) && from <= |sc|
    requires forall i :: 0 <= i < |sc| ==> !sc[i].kind.KStrings?
    requires Content(rec, from) < TWO_63
    ensures |EncodeFields(sc, rec, from)| <= Content(rec, from) + 20 * (|sc| - from)
    decreases |sc| - from
  {
    if from < |sc| {
      FieldSize(sc[from], rec[from]);
      RecordSize(sc, rec, from + 1);
    }
  }
}
