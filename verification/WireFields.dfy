/** Serialized messages as a peer may write them: any fields in any order, repeated or unknown to the reader
    (Protocol Buffers Encoding, sections "Message Structure", "Last One Wins" and "Field Order"). */
module WireFields {
  import opened Wire
  import opened Utf8
  import opened Proto

  type Word = n: int | 0 <= n < TWO_64

  /** One field on the wire, of any wire type but the groups. */
  datatype Field =
    | Number(num: nat, value: Word)
    | Chunk(num: nat, bytes: Bytes)
    | Fixed64(num: nat, bytes: Bytes)
    | Fixed32(num: nat, bytes: Bytes)

  ghost predicate LegalField(f: Field) {
    && 1 <= f.num < 0x2000_0000
    && match f
       case Number(_, _) => true
       case Chunk(_, b) => |b| < TWO_63
       case Fixed64(_, b) => |b| == 8
       case Fixed32(_, b) => |b| == 4
  }

  ghost predicate Legal(fs: seq<Field>) {
    forall i :: 0 <= i < |fs| ==> LegalField(fs[i])
  }

  function FieldOnWire(f: Field): Bytes {
    match f
    case Number(num, v) => EncodeVarint(num * 8) + EncodeVarint(v)
    case Chunk(num, b) => EncodeVarint(num * 8 + 2) + EncodeVarint(|b|) + b
    case Fixed64(num, b) => EncodeVarint(num * 8 + 1) + b
    case Fixed32(num, b) => EncodeVarint(num * 8 + 5) + b
  }

  /** The fields, one after the other. */
  function Written(fs: seq<Field>): Bytes {
    if fs == [] then [] else FieldOnWire(fs[0]) + Written(fs[1..])
  }

  // ------------------------------------------------------------------ what the fields say

  /** The value of a 64-bit number field: the last one written, 0 if there is none. */
  function NumberAt(fs: seq<Field>, num: nat): Word {
    if fs == [] then 0
    else
      var f := fs[|fs| - 1];
      if f.Number? && f.num == num then f.value else NumberAt(fs[..|fs| - 1], num)
  }

  /** The value of an int32 or enum field: the low 32 bits of that number. */
  function IntAt(fs: seq<Field>, num: nat): (i: int)
    ensures -TWO_31 <= i < TWO_31
  {
    ToInt32(NumberAt(fs, num))
  }

  /** The value of a bytes or string field: the last one written, empty if there is none. */
  function BytesAt(fs: seq<Field>, num: nat): Bytes {
    if fs == [] then []
    else
      var f := fs[|fs| - 1];
      if f.Chunk? && f.num == num then f.bytes else BytesAt(fs[..|fs| - 1], num)
  }

  /** The value of a repeated string field: all that were written, in order. */
  function ListAt(fs: seq<Field>, num: nat): seq<Bytes> {
    if fs == [] then []
    else
      var f := fs[|fs| - 1];
      ListAt(fs[..|fs| - 1], num) + if f.Chunk? && f.num == num then [f.bytes] else []
  }

  /** Everything written under this number is UTF-8. */
  ghost predicate TextAt(fs: seq<Field>, num: nat) {
    forall i :: 0 <= i < |fs| && fs[i].Chunk? && fs[i].num == num ==> ValidUtf8(fs[i].bytes)
  }

  function ValueAt(kind: Kind, fs: seq<Field>, num: nat): (v: Val)
    ensures Fits(kind, v)
  {
    match kind
    case KInt32 => VInt(IntAt(fs, num))
    case KUint64 => VInt(NumberAt(fs, num))
    case KBytes => VBytes(BytesAt(fs, num))
    case KString => VBytes(BytesAt(fs, num))
    case KStrings => VList(ListAt(fs, num))
  }

  ghost predicate IsText(kind: Kind) { kind.KString? || kind.KStrings? }

  /** Every string field of the schema holds UTF-8 only. */
  ghost predicate AllText(sc: Schema, fs: seq<Field>) {
    forall k :: 0 <= k < |sc| && IsText(sc[k].kind) ==> TextAt(fs, sc[k].num)
  }

  /** The record these fields amount to. */
  function RecordOf(sc: Schema, fs: seq<Field>): (r: Record)
    ensures Conforms(sc, r)
    ensures forall k :: 0 <= k < |sc| ==> r[k] == ValueAt(sc[k].kind, fs, sc[k].num)
  {
    seq(|sc|, k requires 0 <= k < |sc| => ValueAt(sc[k].kind, fs, sc[k].num))
  }

  // ------------------------------------------------------------------ one more field

  lemma OneMore(fs: seq<Field>, f: Field, num: nat)
    ensures NumberAt(fs + [f], num) == if f.Number? && f.num == num then f.value else NumberAt(fs, num)
    ensures BytesAt(fs + [f], num) == if f.Chunk? && f.num == num then f.bytes else BytesAt(fs, num)
    ensures ListAt(fs + [f], num) == ListAt(fs, num) + if f.Chunk? && f.num == num then [f.bytes] else []
    ensures TextAt(fs + [f], num) <==> TextAt(fs, num) && (f.Chunk? && f.num == num ==> ValidUtf8(f.bytes))
  {
    hide ValidUtf8;
    var all := fs + [f];
    assert all[..|fs|] == fs;
    assert all[|fs|] == f && forall i :: 0 <= i < |fs| ==> all[i] == fs[i];
  }

  /** The field is not a string of the schema that is no UTF-8. */
  ghost predicate Readable(sc: Schema, f: Field) {
    f.Chunk? ==> forall k :: 0 <= k < |sc| && IsText(sc[k].kind) && sc[k].num == f.num ==> ValidUtf8(f.bytes)
  }

  lemma TextSoFar(sc: Schema, fs: seq<Field>, f: Field)
    ensures AllText(sc, fs + [f]) <==> AllText(sc, fs) && Readable(sc, f)
  {
    hide ValidUtf8, TextAt;
    forall k | 0 <= k < |sc| ensures TextAt(fs + [f], sc[k].num) <==>
        TextAt(fs, sc[k].num) && (f.Chunk? && f.num == sc[k].num ==> ValidUtf8(f.bytes)) {
      OneMore(fs, f, sc[k].num);
    }
  }

  /** The wire type of the field is the one the schema expects under its number. */
  predicate Expected(sc: Schema, f: Field, i: nat) {
    i < |sc| && sc[i].num == f.num && if WireOf(sc[i].kind) == 0 then f.Number? else f.Chunk?
  }

  /** The value of an expected field after one more occurrence. */
  function Updated(kind: Kind, old_: Val, f: Field): (v: Val)
    requires Fits(kind, old_) && if WireOf(kind) == 0 then f.Number? else f.Chunk?
    ensures Fits(kind, v)
  {
    match kind
    case KInt32 => VInt(ToInt32(f.value))
    case KUint64 => VInt(f.value)
    case KStrings => VList(old_.items + [f.bytes])
    case _ => VBytes(f.bytes)
  }

  lemma UpdatesOne(sc: Schema, fs: seq<Field>, f: Field, i: nat)
    requires WellFormed(sc) && Expected(sc, f, i)
    ensures RecordOf(sc, fs + [f]) == RecordOf(sc, fs)[i := Updated(sc[i].kind, RecordOf(sc, fs)[i], f)]
  {
    hide NumberAt, BytesAt, ListAt, ToInt32;
    forall k | 0 <= k < |sc| ensures k != i ==> ValueAt(sc[k].kind, fs + [f], sc[k].num) == ValueAt(sc[k].kind, fs, sc[k].num) {
      assert k < i || i < k || k == i;
      OneMore(fs, f, sc[k].num);
    }
    OneMore(fs, f, sc[i].num);
  }

  lemma UpdatesNone(sc: Schema, fs: seq<Field>, f: Field)
    requires forall i: nat :: !Expected(sc, f, i)
    ensures RecordOf(sc, fs + [f]) == RecordOf(sc, fs)
  {
    hide NumberAt, BytesAt, ListAt, ToInt32;
    forall k | 0 <= k < |sc| ensures ValueAt(sc[k].kind, fs + [f], sc[k].num) == ValueAt(sc[k].kind, fs, sc[k].num) {
      assert !Expected(sc, f, k);
      OneMore(fs, f, sc[k].num);
    }
  }

  /** The bytes behind the tag of a field. */
  function Body(f: Field): Bytes {
    match f
    case Number(_, v) => EncodeVarint(v)
    case Chunk(_, b) => EncodeVarint(|b|) + b
    case Fixed64(_, b) => b
    case Fixed32(_, b) => b
  }

  function Wire_(f: Field): nat {
    match f
    case Number(_, _) => 0
    case Chunk(_, _) => 2
    case Fixed64(_, _) => 1
    case Fixed32(_, _) => 5
  }

  lemma TagFirst(sc: Schema, acc: Record, f: Field, rest: Bytes)
    requires Conforms(sc, acc) && LegalField(f)
    ensures FieldOnWire(f) + rest == EncodeVarint(f.num * 8 + Wire_(f)) + (Body(f) + rest)
    ensures ReadFields(sc, acc, FieldOnWire(f) + rest) == ReadOne(sc, acc, f.num, Wire_(f), Body(f) + rest)
  {
    hide ReadOne, EncodeVarint, ConsumeVarint;
    var tag := f.num * 8 + Wire_(f);
    assert FieldOnWire(f) + rest == EncodeVarint(tag) + (Body(f) + rest);
    VarintRoundTrip(tag, Body(f) + rest);
    assert tag / 8 == f.num && tag % 8 == Wire_(f);
  }

  /** A field the schema does not expect is passed over. */
  lemma PassedOver(sc: Schema, acc: Record, f: Field, rest: Bytes)
    requires Conforms(sc, acc) && LegalField(f) && !Expected(sc, f, Find(sc, f.num))
    ensures ReadFields(sc, acc, FieldOnWire(f) + rest) == ReadFields(sc, acc, rest)
  {
    hide ReadFields, EncodeVarint, ConsumeVarint;
    TagFirst(sc, acc, f, rest);
    var b := Body(f) + rest;
    assert b[|Body(f)|..] == rest;
    match f
    case Number(_, v) => VarintRoundTrip(v, rest);
    case Chunk(_, c) => ReadLenValue(c, rest);
    case _ =>
  }

  /** A string that is not UTF-8 fails the message. */
  lemma NotText(sc: Schema, acc: Record, f: Field, rest: Bytes)
    requires Conforms(sc, acc) && LegalField(f) && f.Chunk? && !ValidUtf8(f.bytes)
    requires var i := Find(sc, f.num); i < |sc| && IsText(sc[i].kind)
    ensures ReadFields(sc, acc, FieldOnWire(f) + rest) == None
  {
    hide ReadFields, EncodeVarint, ConsumeVarint, ValidUtf8;
    TagFirst(sc, acc, f, rest);
    ReadLenValue(f.bytes, rest);
  }

  lemma FoundAt(sc: Schema, f: Field)
    requires WellFormed(sc)
    ensures forall i: nat :: Expected(sc, f, i) ==> i == Find(sc, f.num)
    ensures forall k :: 0 <= k < |sc| && sc[k].num == f.num ==> k == Find(sc, f.num)
  {
    forall k | 0 <= k < |sc| && sc[k].num == f.num ensures k == Find(sc, f.num) {
      FindIndex(sc, k);
    }
  }

  /** Reading one more field over the values of those before it. */
  lemma ReadNext(sc: Schema, fs: seq<Field>, f: Field, rest: Bytes)
    requires WellFormed(sc) && LegalField(f)
    ensures ReadFields(sc, RecordOf(sc, fs), FieldOnWire(f) + rest) ==
            if Readable(sc, f) then ReadFields(sc, RecordOf(sc, fs + [f]), rest) else None
  {
    hide ReadFields, ValidUtf8, EncodeVarint, WellFormed, Find, ValueAt;
    var acc, i := RecordOf(sc, fs), Find(sc, f.num);
    FoundAt(sc, f);
    if !Expected(sc, f, i) {
      UpdatesNone(sc, fs, f);
      PassedOver(sc, acc, f, rest);
    } else {
      UpdatesOne(sc, fs, f, i);
      if f.Number? {
        ReadVarintField(sc, acc, i, f.value, rest);
      } else if sc[i].kind.KBytes? || ValidUtf8(f.bytes) {
        ReadLenField(sc, acc, i, f.bytes, rest);
      } else {
        NotText(sc, acc, f, rest);
      }
    }
  }

  lemma {:induction false} ReadOn(sc: Schema, before: seq<Field>, after: seq<Field>)
    requires WellFormed(sc) && Legal(after) && AllText(sc, before)
    ensures ReadFields(sc, RecordOf(sc, before), Written(after)) ==
            if AllText(sc, before + after) then Some(RecordOf(sc, before + after)) else None
    decreases |after|
  {
    hide ReadFields, ValidUtf8, WellFormed, FieldOnWire, RecordOf, AllText, Readable;
    if after == [] {
      assert before + after == before;
      ReadNothing(sc, RecordOf(sc, before));
    } else {
      var f, rest := after[0], after[1..];
      assert before + after == before + [f] + rest;
      ReadNext(sc, before, f, Written(rest));
      TextSoFar(sc, before, f);
      if Readable(sc, f) {
        ReadOn(sc, before + [f], rest);
      } else if AllText(sc, before + after) {
        TextLater(sc, before + [f], rest);
      }
    }
  }

  lemma TextLater(sc: Schema, a: seq<Field>, b: seq<Field>)
    requires AllText(sc, a + b)
    ensures AllText(sc, a)
  {
    hide ValidUtf8;
    forall k | 0 <= k < |sc| && IsText(sc[k].kind) ensures TextAt(a, sc[k].num) {
      assert TextAt(a + b, sc[k].num);
      assert forall i :: 0 <= i < |a| ==> a[i] == (a + b)[i];
    }
  }

  /** Whatever fields a peer writes, in whatever order, repeated or unknown: they are refused exactly if some
      string is not UTF-8, and otherwise each field of the schema gets the last value written under its number
      with its wire type, a repeated one all of them, and one never written its default. */
  lemma AnyFields(sc: Schema, fs: seq<Field>)
    requires WellFormed(sc) && Legal(fs)
    ensures Unmarshal(sc, Written(fs)) == if AllText(sc, fs) then Some(RecordOf(sc, fs)) else None
  {
    hide ReadFields;
    assert [] + fs == fs;
    assert RecordOf(sc, []) == Defaults(sc);
    ReadOn(sc, [], fs);
  }

  // ------------------------------------------------------------------ what Marshal writes

  lemma {:induction false} WrittenAppend(a: seq<Field>, b: seq<Field>)
    ensures Written(a + b) == Written(a) + Written(b)
  {
    hide FieldOnWire;
    if a == [] {
      assert a + b == b;
    } else {
      assert (a + b)[1..] == a[1..] + b;
      WrittenAppend(a[1..], b);
    }
  }

  lemma WrittenOne(f: Field)
    ensures Written([f]) == FieldOnWire(f)
  {
    hide FieldOnWire;
    assert [f][1..] == [];
    assert FieldOnWire(f) + [] == FieldOnWire(f);
  }

  function Chunks(num: nat, items: seq<Bytes>): seq<Field> {
    if items == [] then [] else [Chunk(num, items[0])] + Chunks(num, items[1..])
  }

  /** The fields one value is written as: none for a default, one for each item of a list. */
  function FieldsOfValue(d: FieldDesc, v: Val): seq<Field>
    requires Fits(d.kind, v)
  {
    if v == Default(d.kind) then []
    else match d.kind
         case KInt32 => [Number(d.num, FromInt32(v.i))]
         case KUint64 => [Number(d.num, v.i)]
         case KBytes => [Chunk(d.num, v.b)]
         case KString => [Chunk(d.num, v.b)]
         case KStrings => Chunks(d.num, v.items)
  }

  function FieldsOfRecord(sc: Schema, rec: Record, from: nat): seq<Field>
    requires Conforms(sc, rec) && from <= |sc|
    decreases |sc| - from
  {
    if from == |sc| then [] else FieldsOfValue(sc[from], rec[from]) + FieldsOfRecord(sc, rec, from + 1)
  }

  lemma {:induction false} ListOnWire(num: nat, items: seq<Bytes>)
    ensures ListField(num, items) == Written(Chunks(num, items))
  {
    if items != [] {
      ListOnWire(num, items[1..]);
      WrittenAppend([Chunk(num, items[0])], Chunks(num, items[1..]));
      WrittenOne(Chunk(num, items[0]));
    }
  }

  lemma ValueOnWire(d: FieldDesc, v: Val)
    requires Fits(d.kind, v)
    ensures EncodeField(d, v) == Written(FieldsOfValue(d, v))
  {
    hide EncodeVarint, Written;
    NothingWritten();
    if v != Default(d.kind) {
      match d.kind
      case KInt32 => WrittenOne(Number(d.num, FromInt32(v.i)));
      case KUint64 => WrittenOne(Number(d.num, v.i));
      case KBytes => WrittenOne(Chunk(d.num, v.b));
      case KString => WrittenOne(Chunk(d.num, v.b));
      case KStrings => ListOnWire(d.num, v.items);
    }
  }

  lemma NothingWritten()
    ensures Written([]) == []
  {
  }

  /** What Marshal writes for a record, as a list of fields. */
  lemma {:induction false} RecordOnWire(sc: Schema, rec: Record, from: nat)
    requires Conforms(sc, rec) && from <= |sc|
    ensures EncodeFields(sc, rec, from) == Written(FieldsOfRecord(sc, rec, from))
    decreases |sc| - from
  {
    hide EncodeField, Written, FieldsOfValue;
    NothingWritten();
    if from < |sc| {
      RecordOnWire(sc, rec, from + 1);
      ValueOnWire(sc[from], rec[from]);
      WrittenAppend(FieldsOfValue(sc[from], rec[from]), FieldsOfRecord(sc, rec, from + 1));
    }
  }
}
