/** Bytes, base-128 varints and the fixed-width integer conversions shared by every codec here
    (Protocol Buffers Encoding, section "Base 128 Varints"). */
module Wire {
  type Byte = b: int | 0 <= b < 256
  type Bytes = seq<Byte>

  datatype Option<+T> = None | Some(value: T)

  const TWO_31 := 0x8000_0000
  const TWO_32 := 0x1_0000_0000
  const TWO_63 := 0x8000_0000_0000_0000
  const TWO_64 := 0x1_0000_0000_0000_0000

  /** Concatenation of a list of byte strings, in order. */
  function Flatten(parts: seq<Bytes>): Bytes {
    if parts == [] then [] else parts[0] + Flatten(parts[1..])
  }

  lemma {:induction false} FlattenAppend(a: seq<Bytes>, b: seq<Bytes>)
    ensures Flatten(a + b) == Flatten(a) + Flatten(b)
  {
    if a == [] {
      assert a + b == b;
    } else {
      assert (a + b)[1..] == a[1..] + b;
      FlattenAppend(a[1..], b);
    }
  }

  lemma FlattenOne(a: Bytes)
    ensures Flatten([a]) == a
  {
    assert [a][1..] == [];
    assert Flatten([]) == [];
  }

  /** The minimal little-endian base-128 form of n. */
  function EncodeVarint(n: nat): (r: Bytes)
    ensures |r| >= 1
  {
    if n < 128 then [n] else [n % 128 + 128] + EncodeVarint(n / 128)
  }

  /** Outcome of reading one varint at the head of a buffer. */
  datatype VarintResult = Decoded(value: nat, size: nat) | Truncated | Overflow

  /** Reads at most ten bytes; the tenth may only be 0 or 1, so the value is below 2^64. */
  function ConsumeVarint(b: Bytes): VarintResult {
    ConsumeFrom(b, 0)
  }

  /** Continues a read of which k bytes have already been taken. */
  function ConsumeFrom(b: Bytes, k: nat): (r: VarintResult)
    requires k <= 9
    ensures r.Decoded? ==> 1 <= r.size <= |b| && r.size <= 10 - k
    decreases 9 - k
  {
    if b == [] then Truncated
    else if k == 9 then (if b[0] < 2 then Decoded(b[0], 1) else Overflow)
    else if b[0] < 128 then Decoded(b[0], 1)
    else
      match ConsumeFrom(b[1..], k + 1)
      case Decoded(v, s) => Decoded(b[0] - 128 + 128 * v, s + 1)
      case other => other
  }

  /** How large a value may still be once k bytes have been read. */
  function Room(k: nat): (r: nat)
    requires k <= 9
    ensures r >= 2
    decreases 9 - k
  {
    if k == 9 then 2 else 128 * Room(k + 1)
  }

  lemma RoomAtStart()
    ensures Room(0) == TWO_64
  {
    assert Room(8) == 256;
    assert Room(7) == 128 * Room(8);
    assert Room(6) == 128 * Room(7);
    assert Room(5) == 128 * Room(6);
    assert Room(4) == 128 * Room(5);
    assert Room(3) == 128 * Room(4);
    assert Room(2) == 128 * Room(3);
    assert Room(1) == 128 * Room(2);
  }

  lemma {:induction false} ConsumeEncodedFrom(n: nat, rest: Bytes, k: nat)
    requires k <= 9 && n < Room(k)
    ensures ConsumeFrom(EncodeVarint(n) + rest, k) == Decoded(n, |EncodeVarint(n)|)
    decreases n
  {
    var b := EncodeVarint(n) + rest;
    if n >= 128 {
      ConsumeEncodedFrom(n / 128, rest, k + 1);
      assert b[1..] == EncodeVarint(n / 128) + rest;
      assert b[0] == n % 128 + 128;
    } else {
      assert b[0] == n;
    }
  }

  /** Reading what was written gives it back and stops exactly at its end, whatever follows. */
  lemma VarintRoundTrip(n: nat, rest: Bytes)
    requires n < TWO_64
    ensures ConsumeVarint(EncodeVarint(n) + rest) == Decoded(n, |EncodeVarint(n)|)
    ensures (EncodeVarint(n) + rest)[|EncodeVarint(n)|..] == rest
  {
    RoomAtStart();
    ConsumeEncodedFrom(n, rest, 0);
  }

  /** No code word is a prefix of another: a varint announces its own end. */
  lemma VarintPrefixFree(m: nat, n: nat, r: Bytes, s: Bytes)
    requires m < TWO_64 && n < TWO_64
    requires EncodeVarint(m) + r == EncodeVarint(n) + s
    ensures m == n && r == s
  {
    VarintRoundTrip(m, r);
    VarintRoundTrip(n, s);
  }

  lemma {:induction false} ShortestFrom(b: Bytes, k: nat)
    requires k <= 9 && ConsumeFrom(b, k).Decoded?
    ensures |EncodeVarint(ConsumeFrom(b, k).value)| <= ConsumeFrom(b, k).size
    ensures ConsumeFrom(b, k).value < Room(k)
    decreases 9 - k
  {
    if k < 9 && b[0] >= 128 {
      ShortestFrom(b[1..], k + 1);
    }
  }

  /** Only ten bytes or more can overflow. */
  lemma {:induction false} OverflowLength(b: Bytes, k: nat)
    requires k <= 9 && ConsumeFrom(b, k).Overflow?
    ensures |b| >= 10 - k
    decreases 9 - k
  {
    if k < 9 {
      OverflowLength(b[1..], k + 1);
    }
  }

  /** EncodeVarint is the shortest of all byte strings that read back as the same value. */
  lemma VarintMinimal(b: Bytes)
    requires ConsumeVarint(b).Decoded?
    ensures ConsumeVarint(b).value < TWO_64
    ensures |EncodeVarint(ConsumeVarint(b).value)| <= ConsumeVarint(b).size
  {
    RoomAtStart();
    ShortestFrom(b, 0);
  }

  lemma {:induction false} ConsumeFromExtend(b: Bytes, more: Bytes, k: nat)
    requires k <= 9 && !ConsumeFrom(b, k).Truncated?
    ensures ConsumeFrom(b + more, k) == ConsumeFrom(b, k)
    decreases 9 - k
  {
    if k < 9 && b[0] >= 128 {
      assert (b + more)[1..] == b[1..] + more;
      ConsumeFromExtend(b[1..], more, k + 1);
    }
  }

  lemma {:induction false} ConsumeFromCut(b: Bytes, cut: nat, k: nat)
    requires k <= 9 && cut <= |b| && ConsumeFrom(b, k).Decoded? && cut < ConsumeFrom(b, k).size
    ensures ConsumeFrom(b[..cut], k) == Truncated
    decreases 9 - k
  {
    if cut > 0 {
      assert b[..cut][1..] == b[1..][..cut - 1];
      ConsumeFromCut(b[1..], cut - 1, k + 1);
    }
  }

  type Digit = d: int | 0 <= d < 128

  /** Digits to the base 128, least significant first, each but the last marked as continued: any varint, minimal or
      padded with zeros. */
  function VarintOf(ds: seq<Digit>): Bytes {
    if ds == [] then [] else if |ds| == 1 then [ds[0]] else [ds[0] as int + 128] + VarintOf(ds[1..])
  }

  function ValueOf(ds: seq<Digit>): nat {
    if ds == [] then 0 else ds[0] as int + 128 * ValueOf(ds[1..])
  }

  lemma {:induction false} DigitsFrom(ds: seq<Digit>, rest: Bytes, k: nat)
    requires k <= 9 && 0 < |ds| <= 10 - k
    ensures ConsumeFrom(VarintOf(ds) + rest, k) ==
            if |ds| == 10 - k && ds[|ds| - 1] >= 2 then Overflow else Decoded(ValueOf(ds), |ds|)
    decreases |ds|
  {
    var b := VarintOf(ds) + rest;
    if |ds| == 1 {
      assert b[0] == ds[0] && ValueOf(ds[1..]) == 0;
    } else {
      DigitsFrom(ds[1..], rest, k + 1);
      assert b[0] == ds[0] as int + 128 && b[1..] == VarintOf(ds[1..]) + rest;
    }
  }

  /** Up to ten digits are read as their value, padded or not, unless the tenth carries more than one bit. */
  lemma AnyVarint(ds: seq<Digit>, rest: Bytes)
    requires 0 < |ds| <= 10
    ensures ConsumeVarint(VarintOf(ds) + rest) ==
            if |ds| == 10 && ds[9] >= 2 then Overflow else Decoded(ValueOf(ds), |ds|)
  {
    DigitsFrom(ds, rest, 0);
  }

  /** The value kept when a 64-bit varint is stored in an int32 or enum field. */
  function ToInt32(v: nat): (r: int)
    ensures -TWO_31 <= r < TWO_31
  {
    var low := v % TWO_32;
    if low >= TWO_31 then low - TWO_32 else low
  }

  /** The 64-bit pattern under which an int32 is written (sign extended). */
  function FromInt32(i: int): (r: nat)
    requires -TWO_31 <= i < TWO_31
    ensures r < TWO_64
  {
    if i < 0 then i + TWO_64 else i
  }

  lemma Int32RoundTrip(i: int)
    requires -TWO_31 <= i < TWO_31
    ensures ToInt32(FromInt32(i)) == i
    ensures FromInt32(i) == i % 0x1_0000_0000_0000_0000
  {
    if i < 0 {
      assert (i + TWO_64) % TWO_32 == i + TWO_32 by {
        assert i + TWO_64 == (TWO_32 - 1) * TWO_32 + (i + TWO_32);
      }
    }
  }

  /** What is kept of a 64-bit value are its low 32 bits, with their sign. */
  lemma Int32Truncates(v: nat)
    ensures -0x8000_0000 <= ToInt32(v) < 0x8000_0000 && (v - ToInt32(v)) % 0x1_0000_0000 == 0
  {
    assert v == TWO_32 * (v / TWO_32) + v % TWO_32;
    if v % TWO_32 >= TWO_31 {
      assert v - ToInt32(v) == TWO_32 * (v / TWO_32 + 1);
    } else {
      assert v - ToInt32(v) == TWO_32 * (v / TWO_32);
    }
  }

  lemma VarintLength(n: nat)
    requires n < TWO_64
    ensures 1 <= |EncodeVarint(n)| <= 10
  {
    VarintRoundTrip(n, []);
  }
}
