/** The probe's integer lists (cmd/nvprobe/main.go, parseIntList). */
module IntList {
  import opened Wire
  import opened Text
  import opened Lists

  /** What one comma-separated part stands for. */
  datatype Item = Skip | One(value: int) | Span(lo: int, hi: int) | Bad

  function ItemOf(raw: string): Item {
    var part := TrimSpace(raw);
    var dash := IndexOf(part, '-');
    if part == "" then Skip
    else if dash < |part| then
      match Atoi(TrimSpace(part[..dash]))
      case None => Bad
      case Some(lo) =>
        match Atoi(TrimSpace(part[dash + 1..]))
        case None => Bad
        case Some(hi) => if hi < lo then Bad else Span(lo, hi)
    else
      match Atoi(part)
      case None => Bad
      case Some(v) => One(v)
  }

  predicate Covers(item: Item, v: int) {
    match item
    case One(x) => v == x
    case Span(lo, hi) => lo <= v <= hi
    case _ => false
  }

  /** One of the parts covers v. */
  ghost predicate CoveredBy(parts: seq<string>, v: int) {
    exists i :: 0 <= i < |parts| && Covers(ItemOf(parts[i]), v)
  }

  ghost predicate SomeBad(parts: seq<string>) {
    exists i :: 0 <= i < |parts| && ItemOf(parts[i]).Bad?
  }

  ghost predicate AllSkipped(parts: seq<string>) {
    forall i :: 0 <= i < |parts| ==> ItemOf(parts[i]).Skip?
  }

  predicate StrictlyIncreasing(vs: seq<int>) {
    forall i, j :: 0 <= i < j < |vs| ==> vs[i] < vs[j]
  }

  // ------------------------------------------------------------------ the counting loop

  /** value++ on a 64-bit integer. */
  function Next(v: int): int {
    if v == MAX_INT64 then MIN_INT64 else v + 1
  }

  function After(v: int, n: nat): int
    decreases n
  {
    if n == 0 then v else After(Next(v), n - 1)
  }

  lemma {:induction false} AfterStays(v: int, n: nat)
    requires MIN_INT64 <= v <= MAX_INT64
    ensures MIN_INT64 <= After(v, n) <= MAX_INT64
    decreases n
  {
    if n > 0 {
      AfterStays(Next(v), n - 1);
    }
  }

  lemma {:induction false} AfterCounts(v: int, n: nat)
    requires v + n <= MAX_INT64
    ensures After(v, n) == v + n
    decreases n
  {
    if n > 0 {
      AfterCounts(v + 1, n - 1);
    }
  }

  /** The loop over lo..hi comes to a value past hi. */
  ghost predicate LoopEnds(lo: int, hi: int) {
    exists n: nat :: After(lo, n) > hi
  }

  /** The loop over a range comes to a value past its end exactly when the end is not the largest integer;
      otherwise the counter wraps around and the guard never fails. */
  lemma RangeLoopEnds(lo: int, hi: int)
    requires MIN_INT64 <= lo <= hi <= MAX_INT64
    ensures LoopEnds(lo, hi) <==> hi < MAX_INT64
  {
    if hi < MAX_INT64 {
      AfterCounts(lo, hi + 1 - lo);
      assert After(lo, hi + 1 - lo) > hi;
    } else {
      forall n: nat ensures !(After(lo, n) > hi) {
        AfterStays(lo, n);
      }
    }
  }

  // ------------------------------------------------------------------ facts about items

  /** A part with a dash never yields a negative number, and neither does one without. */
  lemma ItemsNotNegative(raw: string, v: int)
    requires Covers(ItemOf(raw), v)
    ensures 0 <= v <= MAX_INT64
  {
    hide TrimSpace, Atoi;
    var part := TrimSpace(raw);
    var dash := IndexOf(part, '-');
    if dash < |part| {
      NoDash(part[..dash]);
    } else {
      assert part == part[..dash];
    }
  }

  lemma NoDash(s: string)
    requires '-' !in s
    ensures '-' !in TrimSpace(s)
  {
    assert TrimmedTo(s, TrimSpace(s));
    var before, after :| AllSpace(before) && AllSpace(after) && s == before + TrimSpace(s) + after;
    forall c | c in TrimSpace(s) ensures c in s {
      assert c in before + TrimSpace(s);
    }
  }

  // ------------------------------------------------------------------ what can be written

  /** The item a part written with these numbers must yield: a number beyond 64 bits, or a range that ends
      before it starts, is malformed. */
  function Intended(item: Item): Item {
    match item
    case One(v) => if v <= MAX_INT64 then item else Bad
    case Span(lo, hi) => if lo <= hi <= MAX_INT64 then item else Bad
    case _ => item
  }

  /** raw writes the item in decimal: nothing but white space, a number, or two numbers with a dash between
      them, with any white space around the numbers. */
  ghost predicate Writes(raw: string, item: Item) {
    match item
    case Skip => AllSpace(raw)
    case One(v) => v >= 0 && exists w, x :: AllSpace(w) && AllSpace(x) && raw == w + Show(v) + x
    case Span(lo, hi) => lo >= 0 && hi >= 0 && exists w, x, y, z :: WritesSpan(raw, lo, hi, w, x, y, z)
    case Bad => false
  }

  ghost predicate WritesSpan(raw: string, lo: nat, hi: nat, w: string, x: string, y: string, z: string) {
    AllSpace(w) && AllSpace(x) && AllSpace(y) && AllSpace(z) && raw == w + (Show(lo) + x + "-" + y + Show(hi)) + z
  }

  lemma ShowEnds(n: nat)
    ensures Show(n) != "" && !IsSpace(Show(n)[0]) && !IsSpace(Show(n)[|Show(n)| - 1])
    ensures '-' !in Show(n) && ',' !in Show(n)
  {
    var s := Show(n);
    assert AllDigits(s);
    assert IsDigit(s[0]) && IsDigit(s[|s| - 1]);
    assert forall c :: c in s ==> IsDigit(c);
  }

  /** Any part written in this way is read as intended. */
  lemma WrittenItem(raw: string, item: Item)
    requires Writes(raw, item)
    ensures ItemOf(raw) == Intended(item)
    ensures ',' !in raw
  {
    hide TrimSpace, Atoi, IndexOf, Show, IsSpace;
    match item
    case Skip =>
      TrimAllSpace(raw);
      NoSpaceIsComma(raw);
    case One(v) =>
      var w, x :| AllSpace(w) && AllSpace(x) && raw == w + Show(v) + x;
      ShowEnds(v);
      TrimPadded(w, Show(v), x);
      AtoiShow(v);
      assert '-' !in Show(v)[..IndexOf(Show(v), '-')];
      NoSpaceIsComma(w);
      NoSpaceIsComma(x);
    case Span(lo, hi) =>
      var w, x, y, z :| WritesSpan(raw, lo, hi, w, x, y, z);
      WrittenSpan(lo, hi, w, x, y, z);
  }

  lemma NoSpaceIsComma(s: string)
    requires AllSpace(s)
    ensures ',' !in s && '-' !in s
  {
  }

  lemma WrittenSpan(lo: nat, hi: nat, w: string, x: string, y: string, z: string)
    requires AllSpace(w) && AllSpace(x) && AllSpace(y) && AllSpace(z)
    ensures var raw := w + (Show(lo) + x + "-" + y + Show(hi)) + z;
            ItemOf(raw) == Intended(Span(lo, hi)) && ',' !in raw
  {
    hide TrimSpace, Show, IsSpace, ItemOf;
    var part := Show(lo) + x + "-" + y + Show(hi);
    ShowEnds(lo);
    ShowEnds(hi);
    assert part[0] == Show(lo)[0] && part[|part| - 1] == Show(hi)[|Show(hi)| - 1];
    TrimPadded(w, part, z);
    NoSpaceIsComma(w);
    NoSpaceIsComma(x);
    NoSpaceIsComma(y);
    NoSpaceIsComma(z);
    SpanItem(w + part + z, lo, hi, x, y);
  }

  /** What two bounds make of a range. */
  function SpanOf(lo: Option<int>, hi: Option<int>): Item {
    if lo.None? || hi.None? || hi.value < lo.value then Bad else Span(lo.value, hi.value)
  }

  lemma ItemAtDash(raw: string, left: string, right: string)
    requires '-' !in left && TrimSpace(raw) == left + (['-'] + right)
    ensures ItemOf(raw) == SpanOf(Atoi(TrimSpace(left)), Atoi(TrimSpace(right)))
  {
    hide TrimSpace, IndexOf, Atoi;
    var part := TrimSpace(raw);
    IndexAfter(left, '-', right);
    assert part[..|left|] == left && part[|left| + 1..] == right;
  }

  lemma Dashed(a: string, x: string, y: string, b: string)
    ensures a + x + "-" + y + b == a + x + (['-'] + (y + b))
    ensures "" + a + x == a + x && y + b + "" == y + b
  {
  }

  /** How a part is read that is, once trimmed, two numbers with a dash between them. */
  lemma SpanItem(raw: string, lo: nat, hi: nat, x: string, y: string)
    requires AllSpace(x) && AllSpace(y) && TrimSpace(raw) == Show(lo) + x + "-" + y + Show(hi)
    ensures ItemOf(raw) == Intended(Span(lo, hi))
  {
    hide TrimSpace, Show, IsSpace, IndexOf, Atoi, ItemOf;
    var left, right := Show(lo) + x, y + Show(hi);
    ShowEnds(lo);
    ShowEnds(hi);
    NoSpaceIsComma(x);
    Dashed(Show(lo), x, y, Show(hi));
    ItemAtDash(raw, left, right);
    TrimPadded("", Show(lo), x);
    TrimPadded(y, Show(hi), "");
    AtoiShow(lo);
    AtoiShow(hi);
  }

  ghost predicate WritesAll(parts: seq<string>, items: seq<Item>) {
    |parts| == |items| && forall i :: 0 <= i < |parts| ==> Writes(parts[i], items[i])
  }

  /** A comma-separated list of written items is taken apart into exactly them: it is malformed exactly if one
      of them is, and covers exactly what they cover. */
  lemma WrittenList(parts: seq<string>, items: seq<Item>, v: int)
    requires parts != [] && WritesAll(parts, items)
    ensures Split(Joined(parts, ','), ',') == parts
    ensures SomeBad(parts) <==> exists i :: 0 <= i < |items| && Intended(items[i]).Bad?
    ensures AllSkipped(parts) <==> forall i :: 0 <= i < |items| ==> items[i].Skip?
    ensures CoveredBy(parts, v) <==> exists i :: 0 <= i < |items| && Covers(Intended(items[i]), v)
  {
    hide ItemOf, Writes, Covers;
    forall i | 0 <= i < |parts| ensures ItemOf(parts[i]) == Intended(items[i]) && ',' !in parts[i] {
      WrittenItem(parts[i], items[i]);
    }
    SplitJoined(parts, ',');
    if i :| 0 <= i < |items| && Intended(items[i]).Bad? {
      assert ItemOf(parts[i]).Bad?;
    }
    if i :| 0 <= i < |items| && Covers(Intended(items[i]), v) {
      assert Covers(ItemOf(parts[i]), v);
    }
    forall i | 0 <= i < |items| ensures items[i].Skip? <==> ItemOf(parts[i]).Skip? {
      assert Writes(parts[i], items[i]);
      NeverWritten(parts[i], items[i]);
    }
  }

  lemma NeverWritten(raw: string, item: Item)
    requires Writes(raw, item)
    ensures !item.Bad?
  {
  }

  // ------------------------------------------------------------------ the method

  function Itself(v: int): int { v }

  /** The list before sorting: values and seen hold the same numbers, each once, and exactly those that the
      parts so far cover. */
  ghost predicate Collected(parts: seq<string>, values: seq<int>, seen: set<int>) {
    && NoRepeats(values)
    && (forall v :: v in seen <==> v in values)
    && (forall v :: v in values <==> CoveredBy(parts, v))
  }

  lemma CoverMore(parts: seq<string>, i: nat)
    requires i < |parts|
    ensures forall v :: CoveredBy(parts[..i + 1], v) <==> CoveredBy(parts[..i], v) || Covers(ItemOf(parts[i]), v)
  {
    hide ItemOf, Covers;
    forall v ensures CoveredBy(parts[..i + 1], v) <==> CoveredBy(parts[..i], v) || Covers(ItemOf(parts[i]), v) {
      if CoveredBy(parts[..i], v) {
        var k :| 0 <= k < i && Covers(ItemOf(parts[..i][k]), v);
        assert parts[..i + 1][k] == parts[k];
      }
      if Covers(ItemOf(parts[i]), v) {
        assert parts[..i + 1][i] == parts[i];
      }
      if CoveredBy(parts[..i + 1], v) {
        var k :| 0 <= k < i + 1 && Covers(ItemOf(parts[..i + 1][k]), v);
        if k < i {
          assert parts[..i][k] == parts[k];
        }
      }
    }
  }

  /** No range that the loop reaches ends at the largest integer. */
  ghost predicate Ends(parts: seq<string>) {
    forall i :: 0 <= i < |parts| && ItemOf(parts[i]).Span? && !SomeBad(parts[..i]) ==> ItemOf(parts[i]).hi < MAX_INT64
  }

  /** The condition is exactly that every range loop reached comes to an end. */
  lemma EndsExactly(parts: seq<string>)
    ensures Ends(parts) <==>
            forall i :: 0 <= i < |parts| && ItemOf(parts[i]).Span? && !SomeBad(parts[..i]) ==>
              LoopEnds(ItemOf(parts[i]).lo, ItemOf(parts[i]).hi)
  {
    hide ItemOf, After, SomeBad;
    forall i | 0 <= i < |parts| && ItemOf(parts[i]).Span?
      ensures LoopEnds(ItemOf(parts[i]).lo, ItemOf(parts[i]).hi) <==> ItemOf(parts[i]).hi < MAX_INT64
    {
      SpanInRange(parts[i]);
      RangeLoopEnds(ItemOf(parts[i]).lo, ItemOf(parts[i]).hi);
    }
  }

  lemma SpanInRange(raw: string)
    requires ItemOf(raw).Span?
    ensures MIN_INT64 <= ItemOf(raw).lo <= ItemOf(raw).hi <= MAX_INT64
  {
    hide TrimSpace, Atoi, IndexOf;
  }

  /** On a single range as a string: the loop it starts ends exactly if the range stops short of the largest
      integer. So the string of any range up to that integer keeps the function from returning. */
  lemma RangeStringEnds(lo: nat, hi: nat)
    requires lo <= hi <= MAX_INT64
    ensures Ends(Split(Show(lo) + "-" + Show(hi), ',')) <==> hi < MAX_INT64
    ensures Ends(Split(Show(lo) + "-" + Show(hi), ',')) <==> LoopEnds(lo, hi)
  {
    hide ItemOf, Show, After, Split;
    var raw := Show(lo) + "-" + Show(hi);
    assert AllSpace("") && raw == "" + (Show(lo) + "" + "-" + "" + Show(hi)) + "";
    assert WritesSpan(raw, lo, hi, "", "", "", "");
    assert Writes(raw, Span(lo, hi));
    WrittenItem(raw, Span(lo, hi));
    SplitOne(raw, ',');
    RangeLoopEnds(lo, hi);
    assert [raw][..0] == [] && !SomeBad([]);
  }

  method AddOne(values: seq<int>, seen: set<int>, v: int) returns (values': seq<int>, seen': set<int>)
    requires NoRepeats(values) && forall x :: x in seen <==> x in values
    ensures NoRepeats(values') && (forall x :: x in seen' <==> x in values')
    ensures forall x :: x in values' <==> x in values || x == v
    ensures values <= values'
  {
    values', seen' := values, seen;
    if v !in seen {
      values', seen' := values + [v], seen + {v};
    }
  }

  method AddRange(values: seq<int>, seen: set<int>, start: int, end: int) returns (values': seq<int>, seen': set<int>)
    requires NoRepeats(values) && forall x :: x in seen <==> x in values
    requires start <= end < MAX_INT64
    ensures NoRepeats(values') && forall x :: x in seen' <==> x in values'
    ensures forall x :: x in values' <==> x in values || start <= x <= end
  {
    values', seen' := values, seen;
    var value := start;
    while value <= end
      invariant start <= value <= end + 1
      invariant NoRepeats(values') && forall x :: x in seen' <==> x in values'
      invariant forall x :: x in values' <==> x in values || start <= x < value
    {
      values', seen' := AddOne(values', seen', value);
      value := Next(value);
    }
  }

  /** The values are exactly what the parts cover, strictly increasing and non-negative; it fails exactly when
      some part is malformed or every part is blank. */
  method ParseIntList(raw: string) returns (result: Option<seq<int>>)
    requires Ends(Split(raw, ','))
    ensures result.None? <==> SomeBad(Split(raw, ',')) || AllSkipped(Split(raw, ','))
    ensures result.Some? ==> StrictlyIncreasing(result.value)
    ensures result.Some? ==> forall v :: v in result.value ==> 0 <= v <= MAX_INT64
    ensures result.Some? ==> forall v :: v in result.value <==> CoveredBy(Split(raw, ','), v)
  {
    hide ItemOf, Covers;
    var parts := Split(raw, ',');
    var values: seq<int>, seen: set<int> := [], {};
    for i := 0 to |parts|
      invariant Collected(parts[..i], values, seen)
      invariant !SomeBad(parts[..i])
      invariant values == [] <==> AllSkipped(parts[..i])
    {
      CoverMore(parts, i);
      var ok;
      ok, values, seen := AddPart(parts, i, values, seen);
      if !ok {
        return None;
      }
    }
    assert parts[..|parts|] == parts;
    var sorted := Sort(Itself, values);
    DistinctStays(Itself, values, sorted);
    SameElements(values, sorted);
    if |values| == 0 {
      return None;
    }
    forall v | v in sorted ensures 0 <= v <= MAX_INT64 {
      assert CoveredBy(parts, v);
      var i :| 0 <= i < |parts| && Covers(ItemOf(parts[i]), v);
      ItemsNotNegative(parts[i], v);
    }
    return Some(sorted);
  }

  /** One pass of the loop over the parts. */
  method AddPart(parts: seq<string>, i: nat, values: seq<int>, seen: set<int>)
    returns (ok: bool, values': seq<int>, seen': set<int>)
    requires i < |parts| && Ends(parts) && !SomeBad(parts[..i]) && Collected(parts[..i], values, seen)
    requires values == [] <==> AllSkipped(parts[..i])
    ensures ok <==> !ItemOf(parts[i]).Bad?
    ensures ok ==> Collected(parts[..i + 1], values', seen') && !SomeBad(parts[..i + 1])
    ensures ok ==> (values' == [] <==> AllSkipped(parts[..i + 1]))
  {
    hide TrimSpace, Atoi, IndexOf, SomeBad, AllSkipped, CoveredBy, Ends;
    values', seen' := values, seen;
    ok := true;
    var part := TrimSpace(parts[i]);
    if part == "" {
    } else if IndexOf(part, '-') < |part| {
      var dash := IndexOf(part, '-');
      var start := Atoi(TrimSpace(part[..dash]));
      if start.None? {
        return false, values, seen;
      }
      var end := Atoi(TrimSpace(part[dash + 1..]));
      if end.None? {
        return false, values, seen;
      }
      if end.value < start.value {
        return false, values, seen;
      }
      assert ItemOf(parts[i]) == Span(start.value, end.value);
      SpanStops(parts, i);
      values', seen' := AddRange(values, seen, start.value, end.value);
      assert start.value in values';
    } else {
      var v := Atoi(part);
      if v.None? {
        return false, values, seen;
      }
      values', seen' := AddOne(values, seen, v.value);
      assert v.value in values';
    }
    CollectMore(parts, i, values, seen, values', seen');
    SkipMore(parts, i, values, values');
  }

  lemma SpanStops(parts: seq<string>, i: nat)
    requires i < |parts| && Ends(parts) && !SomeBad(parts[..i]) && ItemOf(parts[i]).Span?
    ensures ItemOf(parts[i]).hi < MAX_INT64
  {
  }

  lemma CollectMore(parts: seq<string>, i: nat, values: seq<int>, seen: set<int>, values': seq<int>, seen': set<int>)
    requires i < |parts| && Collected(parts[..i], values, seen)
    requires NoRepeats(values') && forall x :: x in seen' <==> x in values'
    requires forall x :: x in values' <==> x in values || Covers(ItemOf(parts[i]), x)
    ensures Collected(parts[..i + 1], values', seen')
  {
    hide ItemOf, Covers, CoveredBy;
    CoverMore(parts, i);
  }

  lemma SkipMore(parts: seq<string>, i: nat, values: seq<int>, values': seq<int>)
    requires i < |parts| && !SomeBad(parts[..i]) && !ItemOf(parts[i]).Bad?
    requires values == [] <==> AllSkipped(parts[..i])
    requires if ItemOf(parts[i]).Skip? then values' == values else values' != []
    ensures !SomeBad(parts[..i + 1]) && (values' == [] <==> AllSkipped(parts[..i + 1]))
  {
    hide ItemOf;
    assert forall k :: 0 <= k < i ==> parts[..i + 1][k] == parts[..i][k];
    assert parts[..i + 1][i] == parts[i];
  }
}
