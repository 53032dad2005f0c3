/** The varint-delimited message streams of the Android TV protocols: internal/atvremote/remote.go
    (writeMessage, readMessage, limit 4 MiB) and internal/atvremote/pairing.go (limit 1 MiB). */
module VarintStream {
  import opened Lists
  import opened Wire
  import opened Writers

  const REMOTE_LIMIT := 4 * 1024 * 1024
  const PAIRING_LIMIT := 1024 * 1024

  /** writeMessage makes two writes: the length prefix, then the serialized message. */
  function Delimited(raw: Bytes): (r: seq<Bytes>)
    ensures r != []
  {
    [EncodeVarint(|raw|), raw]
  }

  function DelimitedBytes(raw: Bytes): Bytes {
    EncodeVarint(|raw|) + raw
  }

  /** CleanEof is what a reader treats as an orderly end: the stream ended where a byte of a prefix or
      of a payload was due and none of it had arrived. */
  datatype End = CleanEof | UnexpectedEof | PrefixOverflow | TooLarge(size: nat)
  datatype ReadResult = Received(raw: Bytes, rest: Bytes) | Ended(end: End)

  function ReadMessage(stream: Bytes, limit: nat): (r: ReadResult)
    ensures r.Received? ==> |r.rest| < |stream|
  {
    match ConsumeVarint(stream)
    case Truncated => Ended(if stream == [] then CleanEof else UnexpectedEof)
    case Overflow => Ended(PrefixOverflow)
    case Decoded(size, s) =>
      var body := stream[s..];
      if size == 0 then Received([], body)
      else if size > limit then Ended(TooLarge(size))
      else if |body| < size then Ended(if body == [] then CleanEof else UnexpectedEof)
      else Received(body[..size], body[size..])
  }

  /** Everything a reader gets from a stream, and how it ends. */
  datatype Reading = Reading(msgs: seq<Bytes>, end: End)

  function ReadAll(stream: Bytes, limit: nat): Reading
    decreases |stream|
  {
    match ReadMessage(stream, limit)
    case Ended(e) => Reading([], e)
    case Received(raw, rest) =>
      var more := ReadAll(rest, limit);
      Reading([raw] + more.msgs, more.end)
  }

  function DelimitedStream(msgs: seq<Bytes>): Bytes {
    if msgs == [] then [] else DelimitedBytes(msgs[0]) + DelimitedStream(msgs[1..])
  }

  /** Index of the first message over the limit; |msgs| if there is none. */
  function FirstOver(msgs: seq<Bytes>, limit: nat): (i: nat)
    ensures i <= |msgs|
    ensures i < |msgs| ==> |msgs[i]| > limit
    ensures forall j :: 0 <= j < i ==> |msgs[j]| <= limit
  {
    if msgs == [] || |msgs[0]| > limit then 0 else 1 + FirstOver(msgs[1..], limit)
  }

  ghost predicate Lengths(msgs: seq<Bytes>) {
    forall i :: 0 <= i < |msgs| ==> |msgs[i]| < TWO_63
  }

  lemma ReadOneBack(raw: Bytes, rest: Bytes, limit: nat)
    requires |raw| < TWO_63
    ensures ReadMessage(DelimitedBytes(raw) + rest, limit) ==
            if |raw| > limit then Ended(TooLarge(|raw|)) else Received(raw, rest)
  {
    var prefix := EncodeVarint(|raw|);
    assert DelimitedBytes(raw) + rest == prefix + (raw + rest);
    VarintRoundTrip(|raw|, raw + rest);
    assert (raw + rest)[..|raw|] == raw && (raw + rest)[|raw|..] == rest;
  }

  lemma FirstOverStep(msgs: seq<Bytes>, limit: nat)
    requires msgs != []
    ensures FirstOver(msgs, limit) == if |msgs[0]| > limit then 0 else 1 + FirstOver(msgs[1..], limit)
  {
  }

  /** The definition of ReadAll, for use where it is hidden. */
  lemma ReadAllStep(stream: Bytes, limit: nat)
    ensures ReadAll(stream, limit) ==
            match ReadMessage(stream, limit)
            case Ended(e) => Reading([], e)
            case Received(raw, rest) => Reading([raw] + ReadAll(rest, limit).msgs, ReadAll(rest, limit).end)
  {
    hide ReadMessage;
  }

  /** Reading any stream of delimited messages followed by anything: the messages come back in order up to
      the first that is over the limit, which ends the reading; otherwise it goes on into what follows. */
  lemma {:induction false} ReadBack(msgs: seq<Bytes>, after: Bytes, limit: nat)
    requires Lengths(msgs)
    ensures ReadAll(DelimitedStream(msgs) + after, limit) ==
            var i := FirstOver(msgs, limit);
            if i < |msgs| then Reading(msgs[..i], TooLarge(|msgs[i]|))
            else Reading(msgs + ReadAll(after, limit).msgs, ReadAll(after, limit).end)
    decreases |msgs|
  {
    hide ReadMessage, DelimitedBytes, FirstOver, ReadAll;
    if msgs == [] {
      assert [] + after == after;
      assert [] + ReadAll(after, limit).msgs == ReadAll(after, limit).msgs;
    } else {
      var rest := DelimitedStream(msgs[1..]) + after;
      assert DelimitedStream(msgs) == DelimitedBytes(msgs[0]) + DelimitedStream(msgs[1..]);
      hide DelimitedStream;
      Regroup(DelimitedBytes(msgs[0]), DelimitedStream(msgs[1..]), after);
      ReadOneBack(msgs[0], rest, limit);
      ReadAllStep(DelimitedBytes(msgs[0]) + rest, limit);
      ReadBack(msgs[1..], after, limit);
      FirstOverStep(msgs, limit);
      var j := FirstOver(msgs[1..], limit);
      assert msgs == [msgs[0]] + msgs[1..];
      Regroup([msgs[0]], msgs[1..], ReadAll(after, limit).msgs);
      assert msgs[..j + 1] == [msgs[0]] + msgs[1..][..j];
    }
  }

  /** The stream law: a reader gets exactly the messages written, then a clean end, if and only if none of
      them is over its limit. */
  lemma StreamLaw(msgs: seq<Bytes>, limit: nat)
    requires Lengths(msgs)
    ensures ReadAll(DelimitedStream(msgs), limit) == Reading(msgs, CleanEof) <==>
            forall i :: 0 <= i < |msgs| ==> |msgs[i]| <= limit
  {
    ReadBack(msgs, [], limit);
    assert DelimitedStream(msgs) + [] == DelimitedStream(msgs);
    assert ReadAll([], limit) == Reading([], CleanEof);
    assert msgs + [] == msgs;
  }

  /** The pairing connection has one writer and the lower limit. */
  lemma PairingStreamLaw(msgs: seq<Bytes>)
    requires Lengths(msgs)
    ensures ReadAll(DelimitedStream(msgs), PAIRING_LIMIT) == Reading(msgs, CleanEof) <==>
            forall i :: 0 <= i < |msgs| ==> |msgs[i]| <= 0x10_0000
  {
    StreamLaw(msgs, PAIRING_LIMIT);
  }

  /** A message cut off part way yields nothing. The loss is noticed unless the cut falls before its first
      byte or, silently, exactly between its length prefix and its payload. */
  lemma CutMessage(raw: Bytes, cut: nat, limit: nat)
    requires 0 < |raw| <= limit && |raw| < TWO_63 && cut < |DelimitedBytes(raw)|
    ensures ReadAll(DelimitedBytes(raw)[..cut], limit) ==
            Reading([], if cut == 0 || cut == |EncodeVarint(|raw|)| then CleanEof else UnexpectedEof)
  {
    var prefix := EncodeVarint(|raw|);
    var seen := DelimitedBytes(raw)[..cut];
    VarintRoundTrip(|raw|, []);
    assert prefix + [] == prefix;
    if cut < |prefix| {
      assert seen == prefix[..cut];
      ConsumeFromCut(prefix, cut, 0);
    } else {
      assert seen == prefix + raw[..cut - |prefix|];
      VarintRoundTrip(|raw|, raw[..cut - |prefix|]);
    }
  }

  // ------------------------------------------------------------------ the object that reads

  /** The reading half of a connection: the bytes not yet taken from it. */
  class Reader {
    var data: Bytes
    const limit: nat

    constructor (data: Bytes, limit: nat)
      ensures this.data == data && this.limit == limit
    {
      this.data, this.limit := data, limit;
    }

    /** Takes one message off the stream. */
    method Read() returns (r: ReadResult)
      modifies this
      ensures r == ReadMessage(old(data), limit)
      ensures match r
              case Received(_, rest) => data == rest
              case Ended(TooLarge(size)) =>
                && |data| <= |old(data)| && data == old(data)[|old(data)| - |data|..]
                && ConsumeVarint(old(data)) == Decoded(size, |old(data)| - |data|)
              case Ended(PrefixOverflow) => |old(data)| >= 10 && data == old(data)[10..]
              case Ended(_) => data == []
    {
      match ConsumeVarint(data)
      case Truncated =>
        var nothing := data == [];
        data := [];
        return Ended(if nothing then CleanEof else UnexpectedEof);
      case Overflow =>
        OverflowLength(data, 0);
        data := data[10..];
        return Ended(PrefixOverflow);
      case Decoded(size, s) =>
        data := data[s..];
        if size == 0 {
          return Received([], data);
        }
        if size > limit {
          return Ended(TooLarge(size));
        }
        if |data| < size {
          var nothing := data == [];
          data := [];
          return Ended(if nothing then CleanEof else UnexpectedEof);
        }
        var raw := data[..size];
        data := data[size..];
        return Received(raw, data);
    }
  }

  // ------------------------------------------------------------------ concurrent writers

  lemma {:induction false} FramesAreStream(msgs: seq<Bytes>)
    ensures Flatten(AllFrames(Delimited, msgs)) == DelimitedStream(msgs)
  {
    if msgs != [] {
      FlattenAppend(Delimited(msgs[0]), AllFrames(Delimited, msgs[1..]));
      FlattenTwo(EncodeVarint(|msgs[0]|), msgs[0]);
      FramesAreStream(msgs[1..]);
    }
  }

  lemma FlattenTwo(a: Bytes, b: Bytes)
    ensures Flatten([a, b]) == a + b
  {
    assert [a, b][1..] == [b];
    FlattenOne(b);
  }

  lemma PartIsCut(m: Bytes, part: seq<Bytes>)
    requires Beginning(Delimited, m, part)
    ensures exists cut: nat :: cut <= |DelimitedBytes(m)| && Flatten(part) == DelimitedBytes(m)[..cut]
                               && (cut == |DelimitedBytes(m)| ==> m == [])
  {
    var i: nat, k: nat :| CutAt(Delimited, m, part, i, k);
    var prefix := EncodeVarint(|m|);
    if i == 0 && k == 0 {
      assert part == [];
      assert Flatten(part) == DelimitedBytes(m)[..0];
    } else if i == 0 {
      assert part == [prefix[..k]];
      FlattenOne(prefix[..k]);
      assert Flatten(part) == DelimitedBytes(m)[..k];
    } else if k == 0 {
      assert part == [prefix];
      FlattenOne(prefix);
      assert Flatten(part) == DelimitedBytes(m)[..|prefix|];
    } else {
      assert part == [prefix, m[..k]];
      FlattenTwo(prefix, m[..k]);
      assert Flatten(part) == DelimitedBytes(m)[..|prefix| + k];
    }
  }

  /** What an unfinished write adds to the reading: nothing, except that the prefix of an empty message
      is already the whole of it. */
  function Early(s: System): seq<Bytes> {
    if s.part != [] && |s.done| < |s.order| && s.order[|s.done|] == [] then [[]] else []
  }

  lemma UnfinishedReads(s: System, limit: nat)
    requires s.part != [] ==> |s.done| < |s.order| && Beginning(Delimited, s.order[|s.done|], s.part)
    requires forall i :: 0 <= i < |s.order| ==> |s.order[i]| <= limit && |s.order[i]| < TWO_63
    ensures ReadAll(Flatten(s.part), limit).msgs == Early(s)
    ensures s.part == [] ==> ReadAll(Flatten(s.part), limit).end == CleanEof
  {
    if s.part != [] {
      var m := s.order[|s.done|];
      PartIsCut(m, s.part);
      var cut: nat :| cut <= |DelimitedBytes(m)| && Flatten(s.part) == DelimitedBytes(m)[..cut]
                      && (cut == |DelimitedBytes(m)| ==> m == []);
      if m == [] {
        EmptyMessage(s.part, limit);
      } else {
        CutMessage(m, cut, limit);
      }
    }
  }

  lemma EmptyMessage(part: seq<Bytes>, limit: nat)
    requires part != [] && Beginning(Delimited, [], part)
    ensures ReadAll(Flatten(part), limit).msgs == [[]]
  {
    var i: nat, k: nat :| CutAt(Delimited, [], part, i, k);
    assert part == [[0]];
    FlattenOne([0]);
    assert ReadMessage([0], limit) == Received([], []);
    assert ReadAll([], limit) == Reading([], CleanEof);
  }

  /** For every interleaving of concurrent writeMessage calls, a reader with a sufficient limit gets exactly
      the completely written payloads, in the order the mutex was taken. */
  lemma ConcurrentWritesReadBack(n: nat, run: seq<Action>, limit: nat)
    requires Run(Delimited, Start(n), run).Some?
    requires var s := Run(Delimited, Start(n), run).value;
             forall i :: 0 <= i < |s.order| ==> |s.order[i]| <= limit && |s.order[i]| < TWO_63
    ensures var s := Run(Delimited, Start(n), run).value;
            && s.done <= s.order
            && ReadAll(Flatten(s.wire), limit).msgs == s.done + Early(s)
            && (s.mutex == None && !s.broken ==> ReadAll(Flatten(s.wire), limit) == Reading(s.order, CleanEof))
  {
    hide ReadMessage, DelimitedBytes;
    var s := Run(Delimited, Start(n), run).value;
    assert Sane(Delimited);
    StartInv(Delimited, n);
    RunInv(Delimited, Start(n), run);
    FramesAreStream(s.done);
    FlattenAppend(AllFrames(Delimited, s.done), s.part);
    assert forall i :: 0 <= i < |s.done| ==> s.done[i] == s.order[i];
    ReadBack(s.done, Flatten(s.part), limit);
    UnfinishedReads(s, limit);
    assert s.done + [] == s.done;
  }

  /** On the remote connection, whose reader accepts 4 MiB: once all writes are done, the peer reads exactly
      what was written, in mutex order and to a clean end, if and only if no message is over that. */
  lemma RemoteWritesReadBack(n: nat, run: seq<Action>)
    requires Run(Delimited, Start(n), run).Some?
    requires var s := Run(Delimited, Start(n), run).value;
             s.mutex == None && !s.broken && Lengths(s.order)
    ensures var s := Run(Delimited, Start(n), run).value;
            ReadAll(Flatten(s.wire), REMOTE_LIMIT) == Reading(s.order, CleanEof) <==>
            forall i :: 0 <= i < |s.order| ==> |s.order[i]| <= 0x40_0000
  {
    hide ReadMessage, ReadAll, Enabled, Step;
    var s := Run(Delimited, Start(n), run).value;
    assert Sane(Delimited);
    SendsAreContiguous(Delimited, n, run);
    FramesAreStream(s.order);
    StreamLaw(s.order, REMOTE_LIMIT);
  }
}
