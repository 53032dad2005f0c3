/** Well-formed UTF-8 (RFC 3629), which a proto3 string must be both when written and when read. */
module Utf8 {
  import opened Wire

  predicate Between(b: Bytes, at: nat, lo: int, hi: int) {
    at < |b| && lo <= b[at] <= hi
  }

  /** How many bytes the well-formed code point at the head of b takes; 0 if there is none. */
  function LeadLength(b: Bytes): (n: nat)
    ensures n <= |b|
  {
    if b == [] then 0
    else if b[0] < 0x80 then 1
    else if 0xC2 <= b[0] <= 0xDF then if Between(b, 1, 0x80, 0xBF) then 2 else 0
    else if 0xE0 <= b[0] <= 0xEF then
      var lo := if b[0] == 0xE0 then 0xA0 else 0x80;
      var hi := if b[0] == 0xED then 0x9F else 0xBF;
      if Between(b, 1, lo, hi) && Between(b, 2, 0x80, 0xBF) then 3 else 0
    else if 0xF0 <= b[0] <= 0xF4 then
      var lo := if b[0] == 0xF0 then 0x90 else 0x80;
      var hi := if b[0] == 0xF4 then 0x8F else 0xBF;
      if Between(b, 1, lo, hi) && Between(b, 2, 0x80, 0xBF) && Between(b, 3, 0x80, 0xBF) then 4 else 0
    else 0
  }

  predicate ValidUtf8(b: Bytes)
    decreases |b|
  {
    b == [] || (var n := LeadLength(b); n > 0 && ValidUtf8(b[n..]))
  }

  /** A Unicode scalar value: any code point but the surrogates. */
  predicate Scalar(c: int) { 0 <= c < 0xD800 || 0xE000 <= c < 0x11_0000 }

  /** The bytes of a code point (RFC 3629, section 3). */
  function EncodePoint(c: int): (b: Bytes)
    requires Scalar(c)
    ensures 1 <= |b| <= 4
  {
    if c < 0x80 then [c]
    else if c < 0x800 then [0xC0 + c / 64, 0x80 + c % 64]
    else if c < 0x1_0000 then [0xE0 + c / 64 / 64, 0x80 + c / 64 % 64, 0x80 + c % 64]
    else [0xF0 + c / 64 / 64 / 64, 0x80 + c / 64 / 64 % 64, 0x80 + c / 64 % 64, 0x80 + c % 64]
  }

  ghost predicate AllScalar(cs: seq<int>) { forall i :: 0 <= i < |cs| ==> Scalar(cs[i]) }

  function EncodeText(cs: seq<int>): Bytes
    requires AllScalar(cs)
  {
    if cs == [] then [] else EncodePoint(cs[0]) + EncodeText(cs[1..])
  }

  lemma PointLength(c: int, rest: Bytes)
    requires Scalar(c)
    ensures LeadLength(EncodePoint(c) + rest) == |EncodePoint(c)|
    ensures (EncodePoint(c) + rest)[|EncodePoint(c)|..] == rest
  {
  }

  /** A digit to the base 64 is put on and taken off. */
  lemma Digit(x: int, y: int)
    requires 0 <= y < 64
    ensures (x * 64 + y) / 64 == x && (x * 64 + y) % 64 == y
  {
  }

  lemma PointOfTwo(b: Bytes) returns (c: int)
    requires LeadLength(b) == 2
    ensures Scalar(c) && EncodePoint(c) == b[..2]
  {
    var x, y := b[0] as int - 0xC0, b[1] as int - 0x80;
    c := x * 64 + y;
    Digit(x, y);
  }

  lemma PointOfThree(b: Bytes) returns (c: int)
    requires LeadLength(b) == 3
    ensures Scalar(c) && EncodePoint(c) == b[..3]
  {
    var x, y, z := b[0] as int - 0xE0, b[1] as int - 0x80, b[2] as int - 0x80;
    var d := x * 64 + y;
    c := d * 64 + z;
    Digit(x, y);
    Digit(d, z);
  }

  lemma PointOfFour(b: Bytes) returns (c: int)
    requires LeadLength(b) == 4
    ensures Scalar(c) && EncodePoint(c) == b[..4]
  {
    var w, x, y, z := b[0] as int - 0xF0, b[1] as int - 0x80, b[2] as int - 0x80, b[3] as int - 0x80;
    var d := w * 64 + x;
    var e := d * 64 + y;
    c := e * 64 + z;
    Digit(w, x);
    Digit(d, y);
    Digit(e, z);
  }

  lemma PointAt(b: Bytes) returns (c: int)
    requires LeadLength(b) > 0
    ensures Scalar(c) && EncodePoint(c) == b[..LeadLength(b)]
  {
    hide EncodePoint;
    var n := LeadLength(b);
    if n == 1 {
      c := b[0];
      OneByte(b);
    } else if n == 2 {
      c := PointOfTwo(b);
    } else if n == 3 {
      c := PointOfThree(b);
    } else {
      c := PointOfFour(b);
    }
  }

  lemma OneByte(b: Bytes)
    requires LeadLength(b) == 1
    ensures Scalar(b[0]) && EncodePoint(b[0]) == b[..1]
  {
  }

  lemma {:induction false} TextIsValid(cs: seq<int>)
    requires AllScalar(cs)
    ensures ValidUtf8(EncodeText(cs))
  {
    hide LeadLength, EncodePoint;
    if cs != [] {
      TextIsValid(cs[1..]);
      PointLength(cs[0], EncodeText(cs[1..]));
    }
  }

  lemma {:induction false} TextOf(b: Bytes) returns (cs: seq<int>)
    requires ValidUtf8(b)
    ensures AllScalar(cs) && EncodeText(cs) == b
    decreases |b|
  {
    hide LeadLength, EncodePoint;
    if b == [] {
      cs := [];
    } else {
      var n := LeadLength(b);
      var rest := TextOf(b[n..]);
      var c := PointAt(b);
      cs := [c] + rest;
      assert cs[1..] == rest && b == b[..n] + b[n..];
    }
  }

  /** The bytes are accepted exactly if they are the encoding of some sequence of Unicode scalar values. */
  lemma Utf8Exact(b: Bytes)
    ensures ValidUtf8(b) <==> exists cs :: AllScalar(cs) && EncodeText(cs) == b
  {
    hide ValidUtf8;
    if ValidUtf8(b) {
      var cs := TextOf(b);
    }
    if cs :| AllScalar(cs) && EncodeText(cs) == b {
      TextIsValid(cs);
    }
  }
}
