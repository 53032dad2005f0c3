/** The string operations the probe's flag parsing relies on: trimming, splitting and decimal integers. */
module Text {
  import opened Wire

  const MAX_INT64: int := 0x7FFF_FFFF_FFFF_FFFF
  const MIN_INT64: int := -0x8000_0000_0000_0000

  /** The characters Unicode gives the White_Space property. */
  predicate IsSpace(c: char) {
    || '\t' <= c <= '\r' || c == ' ' || c == '\U{85}' || c == '\U{A0}' || c == '\U{1680}'
    || '\U{2000}' <= c <= '\U{200A}' || c == '\U{2028}' || c == '\U{2029}' || c == '\U{202F}'
    || c == '\U{205F}' || c == '\U{3000}'
  }

  predicate AllSpace(s: string) {
    forall i :: 0 <= i < |s| ==> IsSpace(s[i])
  }

  /** t is s without white space at both ends: all that was cut off is space, and t starts and ends with none. */
  ghost predicate TrimmedTo(s: string, t: string) {
    && (exists before, after :: AllSpace(before) && AllSpace(after) && s == before + t + after)
    && (t != "" ==> !IsSpace(t[0]) && !IsSpace(t[|t| - 1]))
  }

  function TrimSpace(s: string): (t: string)
    ensures TrimmedTo(s, t)
  {
    if s == "" then
      assert AllSpace("") && s == "" + "" + "";
      ""
    else if IsSpace(s[0]) then
      var t := TrimSpace(s[1..]);
      OneBefore(s, t);
      t
    else if IsSpace(s[|s| - 1]) then
      var t := TrimSpace(s[..|s| - 1]);
      OneAfter(s, t);
      t
    else
      assert AllSpace("") && s == "" + s + "";
      s
  }

  lemma OneBefore(s: string, t: string)
    requires s != "" && IsSpace(s[0]) && TrimmedTo(s[1..], t)
    ensures TrimmedTo(s, t)
  {
    var before, after :| AllSpace(before) && AllSpace(after) && s[1..] == before + t + after;
    var all := [s[0]] + before;
    assert AllSpace(all) && s == all + t + after;
  }

  lemma OneAfter(s: string, t: string)
    requires s != "" && IsSpace(s[|s| - 1]) && TrimmedTo(s[..|s| - 1], t)
    ensures TrimmedTo(s, t)
  {
    var before, after :| AllSpace(before) && AllSpace(after) && s[..|s| - 1] == before + t + after;
    var all := after + [s[|s| - 1]];
    assert AllSpace(all) && s == before + t + all;
  }

  /** The parts between the separators, as many as there are separators plus one. */
  function Split(s: string, sep: char): (parts: seq<string>)
    ensures parts != [] && Joined(parts, sep) == s
    ensures forall i :: 0 <= i < |parts| ==> sep !in parts[i]
  {
    if s == "" then [""]
    else if s[0] == sep then [""] + Split(s[1..], sep)
    else
      var rest := Split(s[1..], sep);
      [[s[0]] + rest[0]] + rest[1..]
  }

  function Joined(parts: seq<string>, sep: char): string
    requires parts != []
  {
    if |parts| == 1 then parts[0] else parts[0] + [sep] + Joined(parts[1..], sep)
  }

  /** Where c first occurs; |s| if it does not. */
  function IndexOf(s: string, c: char): (n: nat)
    ensures n <= |s| && c !in s[..n] && (n < |s| ==> s[n] == c)
  {
    if s == "" || s[0] == c then 0
    else
      var n := IndexOf(s[1..], c);
      assert s[..n + 1] == [s[0]] + s[1..][..n];
      n + 1
  }

  predicate IsDigit(c: char) { '0' <= c <= '9' }

  predicate AllDigits(s: string) {
    s != "" && forall i :: 0 <= i < |s| ==> IsDigit(s[i])
  }

  function Decimal(s: string): nat
    requires forall i :: 0 <= i < |s| ==> IsDigit(s[i])
  {
    if s == "" then 0
    else
      assert IsDigit(s[|s| - 1]);
      Decimal(s[..|s| - 1]) * 10 + (s[|s| - 1] as int - '0' as int)
  }

  /** A decimal integer with an optional sign, if it is one and fits in 64 bits. */
  function Atoi(s: string): (r: Option<int>)
    ensures r.Some? ==> MIN_INT64 <= r.value <= MAX_INT64
    ensures r.Some? && '-' !in s ==> r.value >= 0
  {
    var signed := s != "" && (s[0] == '-' || s[0] == '+');
    var digits := if signed then s[1..] else s;
    if !AllDigits(digits) then None
    else
      var v: int := if signed && s[0] == '-' then 0 - Decimal(digits) else Decimal(digits);
      if MIN_INT64 <= v <= MAX_INT64 then Some(v) else None
  }

  /** The decimal digits of a number. */
  function Show(n: nat): (s: string)
    ensures AllDigits(s)
  {
    var digit := "0123456789"[n % 10];
    if n < 10 then [digit] else Show(n / 10) + [digit]
  }

  lemma {:induction false} DecimalShow(n: nat)
    ensures Decimal(Show(n)) == n
  {
    var s := Show(n);
    if n < 10 {
      assert s[..|s| - 1] == "";
    } else {
      DecimalShow(n / 10);
      assert s[..|s| - 1] == Show(n / 10);
    }
  }

  /** Every number written in decimal, bare or with a sign, is read back if it fits, and rejected if not. */
  lemma AtoiShow(n: nat)
    ensures Atoi(Show(n)) == if n <= MAX_INT64 then Some(n) else None
    ensures Atoi("+" + Show(n)) == if n <= MAX_INT64 then Some(n) else None
    ensures Atoi("-" + Show(n)) == if 0 - n >= MIN_INT64 then Some(0 - n) else None
  {
    DecimalShow(n);
    assert IsDigit(Show(n)[0]);
    assert ("+" + Show(n))[1..] == Show(n) && ("-" + Show(n))[1..] == Show(n);
  }

  /** s is the decimal integer v: an optional sign and digits. */
  ghost predicate IsNumeral(s: string, v: int) {
    || (AllDigits(s) && v == Decimal(s))
    || (s != "" && s[0] == '+' && AllDigits(s[1..]) && v == Decimal(s[1..]))
    || (s != "" && s[0] == '-' && AllDigits(s[1..]) && v == 0 - Decimal(s[1..]))
  }

  /** Atoi reads v exactly from the numerals of v, if v fits in 64 bits. */
  lemma AtoiExact(s: string, v: int)
    ensures Atoi(s) == Some(v) <==> IsNumeral(s, v) && MIN_INT64 <= v <= MAX_INT64
  {
    hide Decimal;
    assert AllDigits(s) ==> IsDigit(s[0]);
  }

  // ------------------------------------------------------------------ trimming and splitting what was written

  lemma {:induction false} TrimAllSpace(s: string)
    requires AllSpace(s)
    ensures TrimSpace(s) == ""
  {
    if s != "" {
      assert IsSpace(s[0]);
      TrimAllSpace(s[1..]);
    }
  }

  /** Trimming takes off any white space put around a text that has none at its ends. */
  lemma {:induction false} TrimPadded(before: string, core: string, after: string)
    requires AllSpace(before) && AllSpace(after) && core != "" && !IsSpace(core[0]) && !IsSpace(core[|core| - 1])
    ensures TrimSpace(before + core + after) == core
    decreases |before|, |after|
  {
    var s := before + core + after;
    if before != "" {
      assert s[0] == before[0] && s[1..] == before[1..] + core + after;
      TrimPadded(before[1..], core, after);
    } else if after != "" {
      var n := |after| - 1;
      assert s[0] == core[0] && s[|s| - 1] == after[n] && s[..|s| - 1] == before + core + after[..n];
      TrimPadded(before, core, after[..n]);
    } else {
      assert s == core;
    }
  }

  /** Splitting undoes joining parts that hold no separator. */
  lemma {:induction false} SplitJoined(parts: seq<string>, sep: char)
    requires parts != [] && forall i :: 0 <= i < |parts| ==> sep !in parts[i]
    ensures Split(Joined(parts, sep), sep) == parts
  {
    if |parts| == 1 {
      SplitOne(parts[0], sep);
    } else {
      SplitJoined(parts[1..], sep);
      SplitAt(parts[0], Joined(parts[1..], sep), sep);
      assert parts[0] + [sep] + Joined(parts[1..], sep) == parts[0] + ([sep] + Joined(parts[1..], sep));
    }
  }

  lemma {:induction false} SplitOne(s: string, sep: char)
    requires sep !in s
    ensures Split(s, sep) == [s]
  {
    if s != "" {
      SplitOne(s[1..], sep);
      assert s == [s[0]] + s[1..];
    }
  }

  lemma {:induction false} SplitAt(s: string, rest: string, sep: char)
    requires sep !in s
    ensures Split(s + ([sep] + rest), sep) == [s] + Split(rest, sep)
  {
    if s == "" {
      assert (s + ([sep] + rest))[1..] == rest;
    } else {
      SplitAt(s[1..], rest, sep);
      assert (s + ([sep] + rest))[1..] == s[1..] + ([sep] + rest);
      assert s == [s[0]] + s[1..];
    }
  }

  /** The first occurrence of a character that what stands before it does not hold. */
  lemma {:induction false} IndexAfter(s: string, c: char, rest: string)
    requires c !in s
    ensures IndexOf(s + ([c] + rest), c) == |s|
  {
    var all := s + ([c] + rest);
    var n := IndexOf(all, c);
    assert all[|s|] == c && forall k :: 0 <= k < |s| ==> all[k] == s[k];
    assert forall k :: 0 <= k < n ==> all[..n][k] == all[k];
  }
}
