/** The TLS record summary of the traffic analyser (research/tools/analyze_shield_pcap.py, parse_tls_records). */
module TlsRecords {
  import opened Wire

  /** One entry of the summary: the content type, the length its header announces, and whether the payload
      ends before the record does. */
  datatype Summary = Summary(contentType: Byte, length: nat, partial: bool)

  predicate KnownType(b: Byte) { 20 <= b <= 24 }

  /** The payload starts with five bytes that the analyser takes for a record header. */
  predicate HasHeader(b: Bytes) {
    |b| >= 5 && KnownType(b[0]) && b[1] == 3
  }

  function RecordLength(b: Bytes): (n: nat)
    requires |b| >= 5
    ensures n < 0x1_0000
  {
    b[3] as int * 256 + b[4] as int
  }

  predicate StartsWithRecord(b: Bytes) {
    HasHeader(b) && 5 + RecordLength(b) <= |b|
  }

  function ParseRecords(b: Bytes): (out: seq<Summary>)
    ensures forall i :: 0 <= i < |out| ==> KnownType(out[i].contentType)
    decreases |b|
  {
    if StartsWithRecord(b) then
      [Summary(b[0], RecordLength(b), false)] + ParseRecords(b[5 + RecordLength(b)..])
    else if HasHeader(b) then [Summary(b[0], RecordLength(b), true)]
    else []
  }

  /** The definition of ParseRecords at index i of a payload. */
  lemma RecordStep(payload: Bytes, i: nat)
    requires i <= |payload|
    ensures ParseRecords(payload[i..]) ==
            if |payload| < i + 5 || !KnownType(payload[i]) || payload[i + 1] != 3 then []
            else
              var n := payload[i + 3] as int * 256 + payload[i + 4] as int;
              if i + 5 + n > |payload| then [Summary(payload[i], n, true)]
              else [Summary(payload[i], n, false)] + ParseRecords(payload[i + 5 + n..])
  {
    var rest := payload[i..];
    if StartsWithRecord(rest) {
      assert rest[5 + RecordLength(rest)..] == payload[i + 5 + RecordLength(rest)..];
    }
  }

  method ParseTlsRecords(payload: Bytes) returns (out: seq<Summary>)
    ensures out == ParseRecords(payload)
  {
    hide ParseRecords, KnownType;
    out := [];
    var idx := 0;
    assert payload[0..] == payload;
    while idx + 5 <= |payload|
      invariant 0 <= idx <= |payload|
      invariant out + ParseRecords(payload[idx..]) == ParseRecords(payload)
    {
      RecordStep(payload, idx);
      var contentType, versionMajor := payload[idx], payload[idx + 1];
      var recordLen := RecordLength(payload[idx..idx + 5]);
      if !KnownType(contentType) || versionMajor != 3 {
        assert out + [] == out;
        return;
      }
      var total := 5 + recordLen;
      if idx + total > |payload| {
        out := out + [Summary(contentType, recordLen, true)];
        return;
      }
      OneRecord(out, Summary(contentType, recordLen, false), ParseRecords(payload[idx + total..]));
      out := out + [Summary(contentType, recordLen, false)];
      idx := idx + total;
    }
    RecordStep(payload, idx);
    assert out + [] == out;
  }

  lemma OneRecord(out: seq<Summary>, one: Summary, rest: seq<Summary>)
    ensures out + ([one] + rest) == out + [one] + rest
  {
  }

  // ------------------------------------------------------------------ what the summary says

  /** A TLS record of version 3.minor. */
  datatype Record = Record(contentType: Byte, minor: Byte, body: Bytes)

  ghost predicate GoodRecord(r: Record) { 20 <= r.contentType <= 24 && |r.body| < 0x1_0000 }

  /** The bytes begin with the header of such a record: type, major version 3, minor version, two bytes of length. */
  ghost predicate Begun(b: Bytes) { |b| >= 5 && 20 <= b[0] <= 24 && b[1] == 3 }

  /** The length that header announces. */
  ghost function BodyLength(b: Bytes): nat
    requires Begun(b)
  {
    256 * b[3] as int + b[4] as int
  }

  /** The bytes begin with a whole record. */
  ghost predicate Whole(b: Bytes) { Begun(b) && |b| >= 5 + BodyLength(b) }

  function EncodeRecord(r: Record): Bytes
    requires GoodRecord(r)
  {
    [r.contentType, 3, r.minor, |r.body| / 256, |r.body| % 256] + r.body
  }

  ghost predicate GoodRecords(rs: seq<Record>) {
    forall i :: 0 <= i < |rs| ==> GoodRecord(rs[i])
  }

  function EncodeRecords(rs: seq<Record>): Bytes
    requires GoodRecords(rs)
  {
    if rs == [] then [] else EncodeRecord(rs[0]) + EncodeRecords(rs[1..])
  }

  function Summaries(rs: seq<Record>): (out: seq<Summary>)
    ensures |out| == |rs|
    ensures forall i :: 0 <= i < |rs| ==> out[i] == Summary(rs[i].contentType, |rs[i].body|, false)
  {
    seq(|rs|, i requires 0 <= i < |rs| => Summary(rs[i].contentType, |rs[i].body|, false))
  }

  /** What is reported of the bytes behind the last whole record. */
  ghost function TailSummary(tail: Bytes): seq<Summary> {
    if Begun(tail) then [Summary(tail[0], BodyLength(tail), true)] else []
  }

  lemma ParseOne(r: Record, rest: Bytes)
    requires GoodRecord(r)
    ensures ParseRecords(EncodeRecord(r) + rest) == [Summary(r.contentType, |r.body|, false)] + ParseRecords(rest)
  {
    var b := EncodeRecord(r) + rest;
    assert b[3] == |r.body| / 256 && b[4] == |r.body| % 256;
    assert b[5 + |r.body|..] == rest;
  }

  /** Whole records are all reported with their true lengths, in order; of what follows them only a started
      record is, as partial. */
  lemma {:induction false} RecordsReported(rs: seq<Record>, tail: Bytes)
    requires GoodRecords(rs) && !Whole(tail)
    ensures ParseRecords(EncodeRecords(rs) + tail) == Summaries(rs) + TailSummary(tail)
  {
    hide EncodeRecord, ParseRecords, TailSummary, Whole;
    if rs == [] {
      assert EncodeRecords(rs) + tail == tail;
      NoWholeRecord(tail);
      assert Summaries(rs) + TailSummary(tail) == TailSummary(tail);
    } else {
      var more := EncodeRecords(rs[1..]) + tail;
      RecordsReported(rs[1..], tail);
      assert EncodeRecords(rs) + tail == EncodeRecord(rs[0]) + more;
      ParseOne(rs[0], more);
      assert [Summary(rs[0].contentType, |rs[0].body|, false)] + (Summaries(rs[1..]) + TailSummary(tail))
          == Summaries(rs) + TailSummary(tail);
    }
  }

  lemma NoWholeRecord(tail: Bytes)
    requires !Whole(tail)
    ensures ParseRecords(tail) == TailSummary(tail)
  {
  }

  lemma FirstRecord(b: Bytes)
    requires StartsWithRecord(b)
    ensures var n := RecordLength(b);
            var r := Record(b[0], b[2], b[5..5 + n]);
            GoodRecord(r) && b == EncodeRecord(r) + b[5 + n..]
  {
    var r := Record(b[0], b[2], b[5..5 + RecordLength(b)]);
    assert EncodeRecord(r)[3] == b[3] && EncodeRecord(r)[4] == b[4];
  }

  /** Every payload is some whole records followed by something that is not one, so the law above covers all. */
  lemma {:induction false} EveryPayloadSplits(b: Bytes) returns (rs: seq<Record>, tail: Bytes)
    ensures GoodRecords(rs) && !Whole(tail) && b == EncodeRecords(rs) + tail
    ensures ParseRecords(b) == Summaries(rs) + TailSummary(tail)
    decreases |b|
  {
    hide EncodeRecord, ParseRecords;
    if StartsWithRecord(b) {
      var n := RecordLength(b);
      var r := Record(b[0], b[2], b[5..5 + n]);
      rs, tail := EveryPayloadSplits(b[5 + n..]);
      FirstRecord(b);
      assert ([r] + rs)[1..] == rs;
      assert EncodeRecord(r) + (EncodeRecords(rs) + tail) == EncodeRecord(r) + EncodeRecords(rs) + tail;
      rs := [r] + rs;
    } else {
      rs, tail := [], b;
    }
    RecordsReported(rs, tail);
  }
}
