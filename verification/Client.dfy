/** Concurrent sends end to end: what a peer reassembles (internal/beyonder/client.go, Send). */
module ConcurrentSends {
  import opened Wire
  import opened Messages
  import opened Framing
  import opened Reassembly
  import opened Writers

  /** The message a broken or unfinished send leaves open at the receiver. */
  function Unfinished(s: System): Parser {
    if s.part == [] || |s.done| >= |s.order| then IDLE
    else Parser(|s.order[|s.done|]|, if |s.part| >= 2 then s.part[1] else [])
  }

  lemma {:induction false} StreamIsFrames(msgs: seq<Bytes>)
    ensures Flatten(AllFrames(Frames, msgs)) == Stream(msgs)
  {
    if msgs != [] {
      FlattenAppend(Frames(msgs[0]), AllFrames(Frames, msgs[1..]));
      StreamIsFrames(msgs[1..]);
    }
  }

  /** What a broken send left on the wire was not cut inside an announcement or an unframed message. */
  ghost predicate NotTorn(s: System) {
    s.part != [] && |s.done| < |s.order| ==>
      |s.order[|s.done|]| > MAX_UNFRAMED_SIZE && s.part[0] == AnnouncementBytes(|s.order[|s.done|]|)
  }

  lemma UnfinishedBytes(s: System)
    requires s.part != [] ==> |s.done| < |s.order| && Beginning(Frames, s.order[|s.done|], s.part)
    requires AllFramable(s.order) && NotTorn(s)
    ensures Unfinished(s).Valid()
    ensures Flatten(s.part) == Tail(Unfinished(s))
  {
    if s.part != [] {
      var m := s.order[|s.done|];
      assert Framable(m);
      var i: nat, k: nat :| CutAt(Frames, m, s.part, i, k);
      assert Frames(m)[1] == m;
      AnnouncementForm(|m|);
      var ann := Announcement(|m|);
      assert Frames(m)[..1] == [ann];
      assert i == 1;
      if k == 0 {
        assert s.part == [ann];
        FlattenOne(ann);
        assert ann + [] == ann;
      } else {
        assert s.part == [ann] + [m[..k]];
        FlattenCons(ann, [m[..k]]);
        FlattenOne(m[..k]);
      }
    }
  }

  /** Any number of callers and the keepalive, interleaved in any way: a peer that feeds the bytes in any
      chunks respecting the framing gets exactly the messages sent, once each, in the order the mutex was
      taken; a send that broke off, not inside an announcement or an unframed message, contributes nothing. */
  lemma ConcurrentSendsReassemble(n: nat, run: seq<Action>, chunks: seq<Bytes>)
    requires Run(Frames, Start(n), run).Some?
    requires var s := Run(Frames, Start(n), run).value;
             && AllFramable(s.order) && AllDecode(s.order) && NotTorn(s)
             && Flatten(chunks) == Flatten(s.wire)
             && RespectsFraming(s.done, Unfinished(s), 0, chunks)
    ensures var s := Run(Frames, Start(n), run).value;
            && s.done <= s.order
            && (s.mutex == None && !s.broken ==> s.done == s.order && Unfinished(s) == IDLE)
            && AllDecode(s.done)
            && FeedAll(IDLE, chunks) == Fed(Decoded_(s.done), Unfinished(s), None)
  {
    hide Decode, FeedAll, Framable;
    var s := Run(Frames, Start(n), run).value;
    assert Sane(Frames);
    StartInv(Frames, n);
    RunInv(Frames, Start(n), run);
    SendsAreContiguous(Frames, n, run);
    UnfinishedBytes(s);
    StreamIsFrames(s.done);
    FlattenAppend(AllFrames(Frames, s.done), s.part);
    assert forall i :: 0 <= i < |s.done| ==> s.done[i] == s.order[i];
    ReassemblyUndoesFraming(s.done, Unfinished(s), chunks);
  }

  /** Wherever a send broke off: the messages sent completely come first, once each and in order, whatever the
      peer makes of the bytes that follow them. */
  lemma CompletedComeFirst(n: nat, run: seq<Action>, before: seq<Bytes>, more: seq<Bytes>)
    requires Run(Frames, Start(n), run).Some?
    requires var s := Run(Frames, Start(n), run).value;
             && AllFramable(s.done) && AllDecode(s.done)
             && Flatten(before) == Flatten(AllFrames(Frames, s.done)) && RespectsFraming(s.done, IDLE, 0, before)
             && Flatten(before + more) == Flatten(s.wire)
    ensures var s := Run(Frames, Start(n), run).value;
            && s.done <= s.order
            && Flatten(more) == Flatten(s.part)
            && Decoded_(s.done) <= FeedAll(IDLE, before + more).out
  {
    hide Decode, FeedAll, Framable, RespectsFraming, Enabled, Step, Frames;
    var s := Run(Frames, Start(n), run).value;
    assert Sane(Frames);
    SendsAreContiguous(Frames, n, run);
    StreamIsFrames(s.done);
    FlattenAppend(AllFrames(Frames, s.done), s.part);
    FlattenAppend(before, more);
    Cancel(Flatten(before), Flatten(more), Flatten(s.part));
    assert Stream(s.done) + [] == Stream(s.done);
    ReassemblyUndoesFraming(s.done, IDLE, before);
    FeedAllSplit(IDLE, before, more);
  }

  lemma Cancel(a: Bytes, b: Bytes, c: Bytes)
    requires a + b == a + c
    ensures b == c
  {
    assert (a + b)[|a|..] == b && (a + c)[|a|..] == c;
  }

  // ------------------------------------------------------------------ what a broken send delivers

  lemma FeedOne(c: Bytes)
    ensures FeedAll(IDLE, [c]).out == FeedSpec(IDLE, c).out
  {
    hide FeedSpec;
    assert [c][1..] == [];
    assert FeedSpec(IDLE, c).out + [] == FeedSpec(IDLE, c).out;
  }

  /** A piece of an unframed message is no announcement either: it is decoded as it is. */
  lemma PieceOfUnframed(m: Bytes, k: nat)
    requires Announced(m) == None && 0 < k <= |m|
    ensures FeedAll(IDLE, [m[..k]]).out != [] <==> Decode(m[..k]).Ok?
  {
    hide Decode, FeedSpec, Announced;
    var c := m[..k];
    assert m == c + m[k..];
    if Announced(c).Some? {
      AnnouncedExtend(c, m[k..]);
    }
    FeedOne(c);
    FeedStep(IDLE, c);
    FeedNothing(IDLE);
  }

  /** A piece of an announcement is a decoding error. */
  lemma PieceOfAnnouncement(n: nat, k: nat)
    requires 0 < n < MAX_ANNOUNCED && 0 < k < |Announcement(n)|
    ensures FeedAll(IDLE, [Announcement(n)[..k]]).out == []
  {
    hide Decode, FeedSpec;
    var c := Announcement(n)[..k];
    assert c[0] == 0x20 && c[1..] == EncodeVarint(n)[..k - 1];
    VarintRoundTrip(n, []);
    assert EncodeVarint(n) + [] == EncodeVarint(n);
    ConsumeFromCut(EncodeVarint(n), k - 1, 0);
    UnfinishedAnnouncementFails(c);
    FeedOne(c);
    FeedStep(IDLE, c);
  }

  /** A body that is cut off stays in the buffer. */
  lemma PieceOfBody(n: nat, body: Bytes)
    requires |body| < n < MAX_ANNOUNCED
    ensures FeedAll(IDLE, [Announcement(n) + body]).out == []
  {
    hide Decode, FeedSpec, Announced;
    var ann := Announcement(n);
    AnnouncementRecognised(n, body);
    assert (ann + body)[|ann|..] == body;
    FeedOne(ann + body);
    FeedStep(IDLE, ann + body);
    FeedNothing(Parser(n, []));
    if body != [] {
      FeedStep(Parser(n, []), body);
    }
  }

  /** What a beginning of the writes of m makes a peer return that is between messages: nothing, unless m is
      unframed and the piece decodes. */
  lemma PieceDelivers(m: Bytes, part: seq<Bytes>)
    requires Framable(m) && part != [] && Beginning(Frames, m, part)
    ensures FeedAll(IDLE, [Flatten(part)]).out == [] <==> |m| > MAX_UNFRAMED_SIZE || !Decode(Flatten(part)).Ok?
    ensures |m| <= MAX_UNFRAMED_SIZE ==> exists k :: 0 < k < |m| && Flatten(part) == m[..k]
  {
    hide Decode, FeedAll, Announced;
    var i: nat, k: nat :| CutAt(Frames, m, part, i, k);
    if |m| <= MAX_UNFRAMED_SIZE {
      assert part == [m[..k]];
      FlattenOne(m[..k]);
      PieceOfUnframed(m, k);
    } else {
      AnnouncementForm(|m|);
      var ann := Announcement(|m|);
      if i == 0 {
        assert part == [ann[..k]];
        FlattenOne(ann[..k]);
        PieceOfAnnouncement(|m|, k);
      } else {
        assert part == [ann] + (if k == 0 then [] else [m[..k]]);
        FlattenCons(ann, if k == 0 then [] else [m[..k]]);
        FlattenOne(m[..k]);
        PieceOfBody(|m|, m[..k]);
      }
    }
  }

  /** The send that was under way, if any, has left these bytes of m behind the completed messages; before are
      chunks that hold exactly those. */
  ghost predicate LeftOpen(n: nat, run: seq<Action>, before: seq<Bytes>, m: Bytes) {
    && Run(Frames, Start(n), run).Some?
    && var s := Run(Frames, Start(n), run).value;
       && s.part != [] && |s.done| < |s.order| && s.order[|s.done|] == m
       && AllFramable(s.order) && AllDecode(s.done)
       && Flatten(before) == Flatten(AllFrames(Frames, s.done)) && RespectsFraming(s.done, IDLE, 0, before)
  }

  /** Exactly when a send that breaks off contributes nothing: if the completed messages are received in any
      way that respects their framing and what the broken send of m left arrives as one chunk, the peer gets
      the completed messages and nothing else if and only if m was announced or the piece does not decode. */
  lemma BrokenSendExact(n: nat, run: seq<Action>, before: seq<Bytes>, m: Bytes)
    requires LeftOpen(n, run, before, m)
    ensures var s := Run(Frames, Start(n), run).value;
            FeedAll(IDLE, before + [Flatten(s.part)]).out == Decoded_(s.done) <==>
            |m| > 2048 || !Decode(Flatten(s.part)).Ok?
    ensures |m| <= MAX_UNFRAMED_SIZE ==>
              exists k :: 0 < k < |m| && Flatten(Run(Frames, Start(n), run).value.part) == m[..k]
  {
    hide Decode, FeedAll, Framable, RespectsFraming, Enabled, Step, Frames;
    var s := Run(Frames, Start(n), run).value;
    assert Sane(Frames);
    SendsAreContiguous(Frames, n, run);
    assert Framable(m);
    PieceDelivers(m, s.part);
    StreamIsFrames(s.done);
    assert Stream(s.done) + [] == Stream(s.done);
    assert forall i :: 0 <= i < |s.done| ==> s.done[i] == s.order[i];
    ReassemblyUndoesFraming(s.done, IDLE, before);
    FeedAllSplit(IDLE, before, [Flatten(s.part)]);
    var more := FeedAll(IDLE, [Flatten(s.part)]).out;
    assert Decoded_(s.done) + more == Decoded_(s.done) <==> more == [] by {
      assert |Decoded_(s.done) + more| == |Decoded_(s.done)| + |more|;
      assert Decoded_(s.done) + [] == Decoded_(s.done);
    }
  }

  /** In this run a broken send of m makes the peer return something beyond the completed messages. */
  ghost predicate BreakDelivers(n: nat, run: seq<Action>, before: seq<Bytes>, m: Bytes) {
    && LeftOpen(n, run, before, m)
    && var s := Run(Frames, Start(n), run).value;
       FeedAll(IDLE, before + [Flatten(s.part)]).out != Decoded_(s.done)
  }

  /** What a caller can tell before sending m: some break of the send can deliver something if and only if m is
      sent without an announcement and some proper beginning of it decodes. */
  lemma BreakCanDeliver(m: Bytes)
    requires Framable(m)
    ensures (exists n: nat, run: seq<Action>, before: seq<Bytes> :: BreakDelivers(n, run, before, m)) <==>
            |m| <= 2048 && exists k :: 0 < k < |m| && Decode(m[..k]).Ok?
  {
    hide Decode, FeedAll, LeftOpen, Run, Framable;
    if n: nat, run: seq<Action>, before: seq<Bytes> :| BreakDelivers(n, run, before, m) {
      BrokenSendExact(n, run, before, m);
    }
    if |m| <= MAX_UNFRAMED_SIZE && exists k :: 0 < k < |m| && Decode(m[..k]).Ok? {
      var k :| 0 < k < |m| && Decode(m[..k]).Ok?;
      BreakAt(m, k);
      BrokenSendExact(1, [Call(0, m), Lock(0), WriteFails(0, k)], [], m);
      assert BreakDelivers(1, [Call(0, m), Lock(0), WriteFails(0, k)], [], m);
    }
  }

  /** The run of a single send of an unframed message that fails after k bytes. */
  lemma BreakAt(m: Bytes, k: nat)
    requires Framable(m) && |m| <= MAX_UNFRAMED_SIZE && 0 < k < |m|
    ensures var run := [Call(0, m), Lock(0), WriteFails(0, k)];
            LeftOpen(1, run, [], m) && Flatten(Run(Frames, Start(1), run).value.part) == m[..k]
  {
    hide Framable;
    var w: Action, l: Action, f: Action := Call(0, m), Lock(0), WriteFails(0, k);
    var s1 := Step(Frames, Start(1), w);
    var s2 := Step(Frames, s1, l);
    var s3 := Step(Frames, s2, f);
    assert Run(Frames, s3, []) == Some(s3);
    assert [w, l, f][1..] == [l, f] && [l, f][1..] == [f] && [f][1..] == [];
    assert Run(Frames, s2, [f]) == Some(s3);
    assert Run(Frames, s1, [l, f]) == Some(s3);
    assert s3.part == [m[..k]];
    FlattenOne(m[..k]);
  }

  /** Every special input is such a message: its first three bytes are a base message of the virtual-input
      service without a payload. */
  lemma BrokenSpecialInput(v: Int32)
    ensures EncodeSpecialInput(v).Some?
    ensures var m := EncodeSpecialInput(v).value;
            && 3 < |m| <= MAX_UNFRAMED_SIZE && Framable(m) && m[..3] == [0x08, 0xE9, 0x07]
            && Decode(m[..3]) == Ok(Plain(BaseMessage(SERVICE_VIRTUAL_INPUT, [], 0, 0, 0)))
            && exists n: nat, run: seq<Action>, before: seq<Bytes> :: BreakDelivers(n, run, before, m)
  {
    hide Decode, BreakDelivers, EncodeSpecialInput, Announced;
    SpecialInputBytes(v);
    var m := EncodeSpecialInput(v).value;
    HeadDecodes();
    NeverAnnounced(m);
    assert Decode(m[..3]).Ok?;
    BreakCanDeliver(m);
  }

  lemma NeverAnnounced(m: Bytes)
    requires m != [] && m[0] != 0x20
    ensures Announced(m) == None
  {
  }

  /** In particular, once all sends are done and if unframed messages and announcements arrive as chunks of
      their own: however the bodies are split, the peer gets all messages in the order the mutex was taken. */
  lemma SeparateSendsReassemble(n: nat, run: seq<Action>, parts: seq<seq<Bytes>>)
    requires Run(Frames, Start(n), run).Some?
    requires var s := Run(Frames, Start(n), run).value;
             && s.mutex == None && !s.broken
             && AllFramable(s.order) && AllDecode(s.order) && ArriveAs(s.order, parts)
    ensures var s := Run(Frames, Start(n), run).value;
            && Flatten(AllChunks(parts)) == Flatten(s.wire)
            && FeedAll(IDLE, AllChunks(parts)) == Fed(Decoded_(s.order), IDLE, None)
  {
    hide Decode, FeedAll, Framable, ArriveAs, Enabled, Step, Frames;
    var s := Run(Frames, Start(n), run).value;
    assert Sane(Frames);
    SendsAreContiguous(Frames, n, run);
    StreamIsFrames(s.order);
    ArrivalsRespect(s.order, parts);
    SeparateWritesComeBack(s.order, parts);
  }
}

/** The reader goroutine, the bounded queue, the consumer and Close (internal/beyonder/client.go,
    readLoop, setErr, Close; internal/beyonder/session.go, wait). */
module Delivery {
  import opened Wire
  import opened Messages
  import opened Framing
  import opened Reassembly

  const QUEUE_CAPACITY := 64

  /** Where the reader goroutine is. Forwarding holds what the current chunk still has to hand over and
      the errors to act on afterwards; Closing has recorded its error and not yet closed the queue. */
  datatype Reader =
    | Reading
    | Forwarding(pending: seq<Message>, frameErr: Option<DecodeError>, readErr: bool)
    | Closing
    | Ended

  datatype State = State(
    reader: Reader,
    parser: Parser,
    queue: seq<Message>,
    closed: bool,            // the queue is closed
    done: bool,              // Close has been called
    connClosed: bool,        // Close has closed the connection
    err: Option<Cause>,
    fed: seq<Bytes>,         // chunks received, in order
    consumed: seq<Message>,  // messages the consumer has taken, in order
    abandoned: bool)         // the reader gave up on a message because of Close

  datatype Action =
    | ReadReturns(chunk: Bytes, failed: bool)
    | SkipRTT
    | Push
    | Abandon
    | ChunkDone
    | CloseQueue
    | Receive
    | CloseCall
    | ConnCloses
    | KeepaliveError

  const START := State(Reading, IDLE, [], false, false, false, None, [], [], false)

  predicate Enabled(s: State, a: Action) {
    match a
    case ReadReturns(_, failed) => s.reader.Reading? && (s.connClosed ==> failed)
    case SkipRTT => s.reader.Forwarding? && s.reader.pending != [] && s.reader.pending[0].IsRTT()
    case Push =>
      && s.reader.Forwarding? && s.reader.pending != [] && !s.reader.pending[0].IsRTT()
      && |s.queue| < QUEUE_CAPACITY
    case Abandon => s.reader.Forwarding? && s.reader.pending != [] && !s.reader.pending[0].IsRTT() && s.done
    case ChunkDone => s.reader.Forwarding? && s.reader.pending == []
    case CloseQueue => s.reader.Closing?
    case Receive => s.queue != []
    case CloseCall => true
    case ConnCloses => s.done && !s.connClosed
    case KeepaliveError => true
  }

  /** setErr: the first error stays. */
  function FirstErr(old_: Option<Cause>, e: Cause): Option<Cause> {
    if old_ == None then Some(e) else old_
  }

  function Step(s: State, a: Action): State
    requires Enabled(s, a) && s.parser.Valid()
  {
    match a
    case ReadReturns(chunk, failed) =>
      if chunk == [] then s.(reader := Forwarding([], None, failed))
      else
        var f := FeedSpec(s.parser, chunk);
        s.(reader := Forwarding(f.out, f.err, failed), parser := f.end, fed := s.fed + [chunk])
    case SkipRTT => s.(reader := s.reader.(pending := s.reader.pending[1..]))
    case Push => s.(reader := s.reader.(pending := s.reader.pending[1..]), queue := s.queue + [s.reader.pending[0]])
    case Abandon => s.(reader := Ended, closed := true, abandoned := true)
    case ChunkDone =>
      if s.reader.frameErr.Some? then s.(reader := Closing, err := FirstErr(s.err, BadFrame(s.reader.frameErr.value)))
      else if s.reader.readErr then s.(reader := Closing, err := FirstErr(s.err, ReadFailed))
      else s.(reader := Reading)
    case CloseQueue => s.(reader := Ended, closed := true)
    case Receive => s.(queue := s.queue[1..], consumed := s.consumed + [s.queue[0]])
    case CloseCall => s.(done := true)
    case ConnCloses => s.(connClosed := true)
    case KeepaliveError => s.(err := FirstErr(s.err, KeepaliveFailed))
  }

  /** The messages that are forwarded: all but the RTT replies. */
  function Forwarded(ms: seq<Message>): seq<Message> {
    if ms == [] then []
    else (if ms[0].IsRTT() then [] else [ms[0]]) + Forwarded(ms[1..])
  }

  lemma {:induction false} ForwardedAppend(a: seq<Message>, b: seq<Message>)
    ensures Forwarded(a + b) == Forwarded(a) + Forwarded(b)
  {
    if a == [] {
      assert a + b == b;
    } else {
      assert (a + b)[1..] == a[1..] + b;
      ForwardedAppend(a[1..], b);
    }
  }

  lemma {:induction false} FeedAllAppend(p: Parser, chunks: seq<Bytes>, c: Bytes)
    requires p.Valid()
    ensures var f := FeedAll(p, chunks);
            && f.end.Valid()
            && FeedAll(p, chunks + [c]) ==
               if f.err.Some? then f else Prepend(f.out, FeedSpec(f.end, c))
    decreases |chunks|
  {
    hide FeedSpec;
    if chunks == [] {
      assert [] + [c] == [c] && [c][1..] == [];
      FeedValid(p, c);
      assert [] + FeedSpec(p, c).out == FeedSpec(p, c).out == FeedSpec(p, c).out + [];
    } else {
      var d := FeedSpec(p, chunks[0]);
      FeedValid(p, chunks[0]);
      assert (chunks + [c])[1..] == chunks[1..] + [c];
      if d.err.None? {
        FeedAllAppend(d.end, chunks[1..], c);
        var f := FeedAll(d.end, chunks[1..]);
        assert d.out + (f.out + FeedSpec(f.end, c).out) == d.out + f.out + FeedSpec(f.end, c).out;
      }
    }
  }

  /** All messages decoded so far. */
  function DecodedSoFar(s: State): seq<Message> {
    FeedAll(IDLE, s.fed).out
  }

  function Pending(s: State): seq<Message> {
    if s.reader.Forwarding? then s.reader.pending else []
  }

  /** The parser is where feeding everything received leaves it. */
  ghost predicate ParserAgrees(s: State) {
    && s.parser.Valid()
    && (s.reader.Reading? ==> FeedAll(IDLE, s.fed) == Fed(DecodedSoFar(s), s.parser, None))
    && (s.reader.Forwarding? ==> FeedAll(IDLE, s.fed) == Fed(DecodedSoFar(s), s.parser, s.reader.frameErr))
  }

  /** Nothing decoded is lost or reordered on its way to the consumer, unless Close cut it short. */
  ghost predicate NothingLost(s: State) {
    if s.abandoned then s.consumed + s.queue <= Forwarded(DecodedSoFar(s))
    else s.consumed + s.queue + Forwarded(Pending(s)) == Forwarded(DecodedSoFar(s))
  }

  ghost predicate Inv(s: State) {
    && ParserAgrees(s)
    && NothingLost(s)
    && |s.queue| <= QUEUE_CAPACITY
    && (s.closed ==> s.reader.Ended?)
    && (s.abandoned ==> s.done && s.reader.Ended?)
    && (s.reader.Closing? || (s.reader.Ended? && !s.abandoned) ==> s.err.Some?)
  }

  lemma StartInv()
    ensures Inv(START)
  {
    assert Forwarded([]) == [];
  }

  lemma ReadInv(s: State, chunk: Bytes, failed: bool)
    requires Inv(s) && Enabled(s, ReadReturns(chunk, failed))
    ensures Inv(Step(s, ReadReturns(chunk, failed)))
  {
    hide FeedSpec, FeedAll;
    var s' := Step(s, ReadReturns(chunk, failed));
    if chunk == [] {
      assert s.consumed + s.queue + Forwarded([]) == s.consumed + s.queue;
    } else {
      FeedAllAppend(IDLE, s.fed, chunk);
      FeedValid(s.parser, chunk);
      var f := FeedSpec(s.parser, chunk);
      ForwardedAppend(DecodedSoFar(s), f.out);
      assert s.consumed + s.queue + [] == s.consumed + s.queue;
    }
  }

  lemma StepInv(s: State, a: Action)
    requires Inv(s) && Enabled(s, a)
    ensures Inv(Step(s, a))
  {
    hide Inv, Step;
    if a.ReadReturns? {
      ReadsLegally(s, a);
      ReadInv(s, a.chunk, a.failed);
    } else if a.Push? || a.SkipRTT? || a.Abandon? || a.Receive? {
      QueueInv(s, a);
    } else {
      ControlInv(s, a);
    }
  }

  lemma ReadsLegally(s: State, a: Action)
    requires Enabled(s, a) && a.ReadReturns?
    ensures a == ReadReturns(a.chunk, a.failed)
  {
  }

  lemma ControlInv(s: State, a: Action)
    requires Inv(s) && Enabled(s, a) && (a.ChunkDone? || a.CloseQueue? || a.CloseCall? || a.ConnCloses? || a.KeepaliveError?)
    ensures Inv(Step(s, a))
  {
    hide FeedSpec, FeedAll;
    assert s.reader.Forwarding? && s.reader.pending == [] ==>
           s.consumed + s.queue + Forwarded([]) == s.consumed + s.queue;
  }

  lemma QueueInv(s: State, a: Action)
    requires Inv(s) && Enabled(s, a) && (a.Push? || a.SkipRTT? || a.Abandon? || a.Receive?)
    ensures Inv(Step(s, a))
  {
    hide FeedSpec, FeedAll;
    match a
    case Push =>
      var m, rest := s.reader.pending[0], s.reader.pending[1..];
      assert s.consumed + s.queue + ([m] + Forwarded(rest)) == s.consumed + (s.queue + [m]) + Forwarded(rest);
    case SkipRTT =>
      assert [] + Forwarded(s.reader.pending[1..]) == Forwarded(s.reader.pending[1..]);
    case Abandon =>
      assert s.consumed + s.queue <= s.consumed + s.queue + Forwarded(s.reader.pending);
    case Receive =>
      assert s.consumed + [s.queue[0]] + s.queue[1..] == s.consumed + s.queue;
  }

  function Run(s: State, run: seq<Action>): (r: Option<State>)
    requires s.parser.Valid()
    ensures r.Some? ==> r.value.parser.Valid()
    decreases |run|
  {
    if run == [] then Some(s)
    else if !Enabled(s, run[0]) then None
    else
      StepKeepsParser(s, run[0]);
      Run(Step(s, run[0]), run[1..])
  }

  lemma StepKeepsParser(s: State, a: Action)
    requires s.parser.Valid() && Enabled(s, a)
    ensures Step(s, a).parser.Valid()
  {
    if a.ReadReturns? {
      FeedValid(s.parser, a.chunk);
    }
  }

  lemma {:induction false} RunInv(s: State, run: seq<Action>)
    requires Inv(s) && Run(s, run).Some?
    ensures Inv(Run(s, run).value)
    decreases |run|
  {
    hide Inv, Step, Enabled;
    assert s.parser.Valid() by { InvParser(s); }
    if run != [] {
      StepInv(s, run[0]);
      InvParser(Step(s, run[0]));
      RunInv(Step(s, run[0]), run[1..]);
    }
  }

  lemma InvParser(s: State)
    requires Inv(s)
    ensures s.parser.Valid()
  {
  }

  /** For every interleaving of reader, consumer, keepalive and Close: what was consumed and what is queued
      is an in-order beginning of the forwarded messages; the queue never exceeds its capacity; and when
      the queue is closed although nobody called Close, every message decoded before the failure is there
      and the cause was recorded. Hence a closed queue without a cause means that Close was called. */
  lemma DeliveryIsComplete(run: seq<Action>)
    requires Run(START, run).Some?
    ensures var s := Run(START, run).value;
            && s.consumed + s.queue <= Forwarded(DecodedSoFar(s))
            && |s.queue| <= 64
            && (s.closed && !s.done ==> s.consumed + s.queue == Forwarded(DecodedSoFar(s)) && s.err.Some?)
            && (s.closed && s.err.None? ==> s.done)
  {
    hide FeedAll;
    StartInv();
    RunInv(START, run);
    var s := Run(START, run).value;
    assert s.consumed + s.queue <= s.consumed + s.queue + Forwarded(Pending(s));
    assert s.consumed + s.queue + [] == s.consumed + s.queue;
  }

  // ------------------------------------------------------------------ which cause is recorded

  /** The recorded cause so far: while the reader runs, or after it gave up because of Close, only the keepalive can
      have recorded one; once it is ending, it is the frame that did not decode, else the failed read. keepalive
      and readFailed tell whether one of those happened. */
  ghost predicate CauseInv(s: State, keepalive: bool, readFailed: bool) {
    var frame := FeedAll(IDLE, s.fed).err;
    && (s.reader.Forwarding? && s.reader.readErr ==> readFailed)
    && (s.err == Some(KeepaliveFailed) ==> keepalive)
    && if s.reader.Closing? || (s.reader.Ended? && !s.abandoned) then
         || s.err == Some(KeepaliveFailed)
         || s.err == if frame.Some? then Some(BadFrame(frame.value)) else if readFailed then Some(ReadFailed) else None
       else s.err == None || s.err == Some(KeepaliveFailed)
  }

  lemma StepCause(s: State, a: Action, keepalive: bool, readFailed: bool)
    requires Inv(s) && Enabled(s, a) && CauseInv(s, keepalive, readFailed)
    ensures CauseInv(Step(s, a), keepalive || a.KeepaliveError?, readFailed || (a.ReadReturns? && a.failed))
  {
    hide FeedSpec, FeedAll, NothingLost;
  }

  ghost predicate KeepaliveFails(run: seq<Action>) { exists i :: 0 <= i < |run| && run[i].KeepaliveError? }

  ghost predicate ReadFails(run: seq<Action>) { exists i :: 0 <= i < |run| && run[i].ReadReturns? && run[i].failed }

  lemma {:induction false} RunCause(s: State, run: seq<Action>, keepalive: bool, readFailed: bool)
    requires Inv(s) && Run(s, run).Some? && CauseInv(s, keepalive, readFailed)
    ensures CauseInv(Run(s, run).value, keepalive || KeepaliveFails(run), readFailed || ReadFails(run))
    decreases |run|
  {
    hide Inv, CauseInv, Step, Enabled;
    InvParser(s);
    if run != [] {
      var a, rest := run[0], run[1..];
      StepInv(s, a);
      StepCause(s, a, keepalive, readFailed);
      InvParser(Step(s, a));
      RunCause(Step(s, a), rest, keepalive || a.KeepaliveError?, readFailed || (a.ReadReturns? && a.failed));
      FailsFirst(run);
    }
  }

  lemma FailsFirst(run: seq<Action>)
    requires run != []
    ensures KeepaliveFails(run) <==> run[0].KeepaliveError? || KeepaliveFails(run[1..])
    ensures ReadFails(run) <==> (run[0].ReadReturns? && run[0].failed) || ReadFails(run[1..])
  {
    assert forall i :: 0 <= i < |run[1..]| ==> run[1..][i] == run[i + 1];
    assert forall i :: 0 < i < |run| ==> run[i] == run[1..][i - 1];
  }

  /** The cause a closed queue carries if Close was not called: the keepalive's error only if that failed first, and
      otherwise the error of the first frame that did not decode, or, if all decoded, that a read failed. */
  lemma CauseExact(run: seq<Action>)
    requires Run(START, run).Some?
    ensures var s := Run(START, run).value;
            var frame := FeedAll(IDLE, s.fed).err;
            s.closed && !s.done ==>
              || (s.err == Some(KeepaliveFailed) && KeepaliveFails(run))
              || (frame.Some? && s.err == Some(BadFrame(frame.value)))
              || (frame.None? && s.err == Some(ReadFailed) && ReadFails(run))
  {
    hide FeedAll, NothingLost, KeepaliveFails, ReadFails;
    StartInv();
    RunInv(START, run);
    RunCause(START, run, false, false);
  }

  /** The reader waits for somebody else in exactly one situation: it has a message to hand over, 64 are queued
      already, and Close has not been called. */
  lemma ReaderWaitsExactly(s: State)
    requires Inv(s) && !s.reader.Ended?
    ensures (forall a :: Enabled(s, a) ==> !IsReaderStep(a)) <==>
            s.reader.Forwarding? && s.reader.pending != [] && s.reader.pending[0].base.timeStamp == 0
            && |s.queue| == 64 && !s.done
  {
    hide NothingLost, ParserAgrees;
    assert Enabled(s, ReadReturns([], true)) <==> s.reader.Reading?;
    assert Enabled(s, CloseQueue) <==> s.reader.Closing?;
    assert Enabled(s, ChunkDone) <==> s.reader.Forwarding? && s.reader.pending == [];
    assert IsReaderStep(ReadReturns([], true)) && IsReaderStep(CloseQueue) && IsReaderStep(ChunkDone)
        && IsReaderStep(Push) && IsReaderStep(SkipRTT) && IsReaderStep(Abandon);
    if s.reader.Forwarding? && s.reader.pending != [] {
      assert Enabled(s, Push) || Enabled(s, SkipRTT) || Enabled(s, Abandon) <==>
             s.reader.pending[0].IsRTT() || |s.queue| < 64 || s.done;
    }
  }

  // ------------------------------------------------------------------ Close lets the reader end

  predicate IsReaderStep(a: Action) {
    a.ReadReturns? || a.SkipRTT? || a.Push? || a.Abandon? || a.ChunkDone? || a.CloseQueue?
  }

  /** How far the reader is from its end. */
  function Distance(r: Reader): nat {
    match r
    case Ended => 0
    case Closing => 1
    case Forwarding(_, frameErr, readErr) => if frameErr.Some? || readErr then 2 else 4
    case Reading => 3
  }

  /** Once the connection is closed, every step of the reader brings it closer to its end; no step of anyone
      else sends it back, and nothing undoes Close. */
  lemma ReaderRunsOut(s: State, a: Action)
    requires s.parser.Valid() && Enabled(s, a)
    ensures var s' := Step(s, a);
            && (s.connClosed && IsReaderStep(a) ==>
                  Distance(s'.reader) < Distance(s.reader)
                  || (Distance(s'.reader) == Distance(s.reader) && |Pending(s')| < |Pending(s)|))
            && (!IsReaderStep(a) ==> s'.reader == s.reader)
            && (s.done ==> s'.done) && (s.connClosed ==> s'.connClosed) && (s.closed ==> s'.closed)
            && (s'.reader.Ended? && !s.reader.Ended? ==> s'.closed)
  {
    hide FeedSpec;
  }

  /** After Close the reader is never stuck, not even on a full queue that nobody reads. */
  lemma ReaderNeverStuck(s: State) returns (a: Action)
    requires s.done && !s.reader.Ended?
    ensures IsReaderStep(a) && Enabled(s, a)
  {
    match s.reader
    case Reading => a := ReadReturns([], true);
    case Closing => a := CloseQueue;
    case Forwarding(pending, _, _) =>
      if pending == [] {
        a := ChunkDone;
      } else if pending[0].IsRTT() {
        a := SkipRTT;
      } else {
        a := Abandon;
      }
  }

  /** Once the connection is closed, steps of the reader alone lead to its end and to a closed queue. */
  lemma {:induction false} ReaderEnds(s: State) returns (run: seq<Action>)
    requires s.done && s.connClosed && s.parser.Valid()
    ensures Run(s, run).Some? && Run(s, run).value.reader.Ended?
    ensures forall i :: 0 <= i < |run| ==> IsReaderStep(run[i])
    ensures !s.reader.Ended? ==> Run(s, run).value.closed
    decreases Distance(s.reader), |Pending(s)|
  {
    hide Step, Enabled, Pending, Distance;
    if s.reader.Ended? {
      run := [];
    } else {
      var a := ReaderNeverStuck(s);
      ReaderRunsOut(s, a);
      StepKeepsParser(s, a);
      var s' := Step(s, a);
      var rest := ReaderEnds(s');
      run := [a] + rest;
      assert run[1..] == rest;
      if s'.reader.Ended? {
        RunKeepsClosed(s', rest);
      }
    }
  }

  /** From every state in which Close has been called, what is left of Close and then steps of the reader alone
      lead to its end and to a closed queue. */
  lemma CloseEndsReader(s: State) returns (run: seq<Action>)
    requires s.done && s.parser.Valid()
    ensures Run(s, run).Some? && Run(s, run).value.reader.Ended?
    ensures forall i :: 0 <= i < |run| ==> IsReaderStep(run[i]) || (i == 0 && run[0] == ConnCloses)
    ensures !s.reader.Ended? ==> Run(s, run).value.closed
  {
    if s.connClosed {
      run := ReaderEnds(s);
    } else {
      StepKeepsParser(s, ConnCloses);
      var s' := Step(s, ConnCloses);
      var rest := ReaderEnds(s');
      run := [ConnCloses] + rest;
      assert run[1..] == rest;
    }
  }

  lemma {:induction false} RunKeepsClosed(s: State, run: seq<Action>)
    requires s.parser.Valid() && Run(s, run).Some? && s.closed
    ensures Run(s, run).value.closed
    decreases |run|
  {
    hide Step, Enabled;
    if run != [] {
      ReaderRunsOut(s, run[0]);
      StepKeepsParser(s, run[0]);
      RunKeepsClosed(Step(s, run[0]), run[1..]);
    }
  }

  lemma StepKeepsError(s: State, a: Action)
    requires s.parser.Valid() && Enabled(s, a) && s.err.Some?
    ensures Step(s, a).err == s.err
  {
    hide FeedSpec;
  }

  /** The first recorded error is never replaced. */
  lemma {:induction false} FirstErrorStays(s: State, run: seq<Action>)
    requires s.parser.Valid() && s.err.Some? && Run(s, run).Some?
    ensures Run(s, run).value.err == s.err
    decreases |run|
  {
    hide Step, Enabled;
    if run != [] {
      StepKeepsParser(s, run[0]);
      StepKeepsError(s, run[0]);
      FirstErrorStays(Step(s, run[0]), run[1..]);
    }
  }

  /** From the peer's messages to the consumer: if the peer framed msgs, the reads cut the stream in any
      framing-respecting way, and the connection then ended without Close, the consumer gets exactly the
      non-RTT messages, in order. */
  lemma EndToEnd(run: seq<Action>, msgs: seq<Bytes>)
    requires Run(START, run).Some?
    requires AllFramable(msgs) && AllDecode(msgs)
    requires var s := Run(START, run).value;
             && s.closed && !s.done && s.queue == []
             && Flatten(s.fed) == Stream(msgs)
             && RespectsFraming(msgs, IDLE, 0, s.fed)
    ensures Run(START, run).value.consumed == Forwarded(Decoded_(msgs))
  {
    hide FeedAll, Decode, Framable, RespectsFraming;
    var s := Run(START, run).value;
    DeliveryIsComplete(run);
    assert Stream(msgs) + Tail(IDLE) == Stream(msgs);
    ReassemblyUndoesFraming(msgs, IDLE, s.fed);
    assert s.consumed + [] == s.consumed;
  }
}
