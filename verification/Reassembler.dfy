/** Framing and reassembly of beyonder messages (internal/beyonder/messages.go, Frames and Reassembler). */
module Framing {
  import opened Wire
  import opened Proto
  import opened Messages

  const MAX_UNFRAMED_SIZE := 2048
  const MAX_ANNOUNCED := 0x4000_0000

  // ------------------------------------------------------------------ sending side

  /** The size announcement: a base message with only its int32 size set, so the length is cut to 32 bits. */
  function AnnouncementBytes(length: nat): Bytes {
    EncodeFields(BASE, BaseRecord(BaseMessage(0, [], 0, ToInt32(length), 0)), 0)
  }

  /** The writes needed to send an encoded message. */
  function Frames(msg: Bytes): (r: seq<Bytes>)
    ensures r != [] && r[|r| - 1] == msg
  {
    if |msg| <= MAX_UNFRAMED_SIZE then [msg] else [AnnouncementBytes(|msg|), msg]
  }

  function Announcement(n: nat): (r: Bytes)
    ensures |r| >= 2
  {
    [0x20] + EncodeVarint(n)
  }

  lemma AnnouncementForm(n: nat)
    requires 0 < n < TWO_31
    ensures AnnouncementBytes(n) == Announcement(n)
  {
    var r := BaseRecord(BaseMessage(0, [], 0, ToInt32(n), 0));
    assert n % TWO_32 == n;
    assert EncodeFields(BASE, r, 3) == EncodeField(BASE[3], r[3]) + (EncodeField(BASE[4], r[4]) + EncodeFields(BASE, r, 5));
    assert EncodeFields(BASE, r, 0) == EncodeField(BASE[0], r[0]) +
           (EncodeField(BASE[1], r[1]) + (EncodeField(BASE[2], r[2]) + EncodeFields(BASE, r, 3)));
    assert EncodeVarint(0x20) == [0x20];
  }

  /** What is written for a message: the message alone up to 2048 bytes, otherwise 0x20 and its length as a varint,
      and then the message. */
  lemma FramesExact(m: Bytes)
    requires |m| < TWO_31
    ensures Frames(m) == if |m| <= 2048 then [m] else [[0x20] + EncodeVarint(|m|), m]
  {
    hide AnnouncementBytes;
    if |m| > 2048 {
      AnnouncementForm(|m|);
    }
  }

  // ------------------------------------------------------------------ recognising the byte stream

  /** What the parser holds between chunks: the announced size (0 when idle) and the bytes so far. */
  datatype Parser = Parser(want: nat, buf: Bytes) {
    predicate Valid() {
      if want == 0 then buf == [] else |buf| < want < MAX_ANNOUNCED
    }
  }

  const IDLE := Parser(0, [])

  /** The size announced at the head of a chunk and the bytes the announcement takes. */
  function Announced(chunk: Bytes): (r: Option<(nat, nat)>)
    ensures r.Some? ==> 0 < r.value.0 < MAX_ANNOUNCED && 2 <= r.value.1 <= |chunk|
  {
    if chunk == [] || chunk[0] != 0x20 then None
    else match ConsumeVarint(chunk[1..])
         case Decoded(n, l) => if 0 < n < MAX_ANNOUNCED then Some((n, 1 + l)) else None
         case _ => None
  }

  /** The pieces a byte stream falls into. */
  datatype Atom = Announce(bytes: Bytes) | Frame(bytes: Bytes)
  datatype Scan = Scan(atoms: seq<Atom>, end: Parser)

  function Then(a: Atom, s: Scan): Scan {
    Scan([a] + s.atoms, s.end)
  }

  /** How one chunk is cut into announcements and frames, before anything is decoded. */
  function Tokens(p: Parser, chunk: Bytes): (r: Scan)
    requires p.Valid()
    ensures r.end.Valid()
    decreases |chunk|
  {
    if chunk == [] then Scan([], p)
    else if p.want > 0 then
      var need := p.want - |p.buf|;
      if |chunk| < need then Scan([], Parser(p.want, p.buf + chunk))
      else Then(Frame(p.buf + chunk[..need]), Tokens(IDLE, chunk[need..]))
    else
      match Announced(chunk)
      case Some((n, k)) => Then(Announce(chunk[..k]), Tokens(Parser(n, []), chunk[k..]))
      case None => Scan([Frame(chunk)], IDLE)
  }

  /** The definition of Tokens, for use where it is hidden. */
  lemma {:induction false} TokensStep(p: Parser, chunk: Bytes)
    requires p.Valid()
    ensures Tokens(p, chunk) ==
            if chunk == [] then Scan([], p)
            else if p.want > 0 then
              var need := p.want - |p.buf|;
              if |chunk| < need then Scan([], Parser(p.want, p.buf + chunk))
              else Then(Frame(p.buf + chunk[..need]), Tokens(IDLE, chunk[need..]))
            else
              match Announced(chunk)
              case Some((n, k)) => Then(Announce(chunk[..k]), Tokens(Parser(n, []), chunk[k..]))
              case None => Scan([Frame(chunk)], IDLE)
  {
  }

  function TokensAll(p: Parser, chunks: seq<Bytes>): (r: Scan)
    requires p.Valid()
    ensures r.end.Valid()
    decreases |chunks|
  {
    if chunks == [] then Scan([], p)
    else
      var s := Tokens(p, chunks[0]);
      var t := TokensAll(s.end, chunks[1..]);
      Scan(s.atoms + t.atoms, t.end)
  }

  function AtomBytes(atoms: seq<Atom>): Bytes {
    if atoms == [] then [] else atoms[0].bytes + AtomBytes(atoms[1..])
  }

  /** The frames among the atoms, in order. */
  function FramesOf(atoms: seq<Atom>): seq<Bytes> {
    if atoms == [] then []
    else (if atoms[0].Frame? then [atoms[0].bytes] else []) + FramesOf(atoms[1..])
  }

  lemma {:induction false} AtomsAppend(a: seq<Atom>, b: seq<Atom>)
    ensures AtomBytes(a + b) == AtomBytes(a) + AtomBytes(b)
    ensures FramesOf(a + b) == FramesOf(a) + FramesOf(b)
  {
    if a == [] {
      assert a + b == b;
    } else {
      assert (a + b)[1..] == a[1..] + b;
      AtomsAppend(a[1..], b);
    }
  }

  lemma AtomsCons(a: Atom, rest: seq<Atom>)
    ensures AtomBytes([a] + rest) == a.bytes + AtomBytes(rest)
    ensures FramesOf([a] + rest) == (if a.Frame? then [a.bytes] else []) + FramesOf(rest)
  {
    assert ([a] + rest)[1..] == rest;
  }

  // ------------------------------------------------------------------ Feed

  /** Outcome of feeding: messages returned, parser afterwards, error if decoding one failed. */
  datatype Fed = Fed(out: seq<Message>, end: Parser, err: Option<DecodeError>)

  function Prepend(ms: seq<Message>, f: Fed): Fed {
    f.(out := ms + f.out)
  }

  /** Decodes the frames in order; the first that fails ends the call and leaves the parser idle. */
  function Deliver(atoms: seq<Atom>, end: Parser): Fed {
    if atoms == [] then Fed([], end, None)
    else match atoms[0]
         case Announce(_) => Deliver(atoms[1..], end)
         case Frame(b) =>
           match Decode(b)
           case Failed(e) => Fed([], IDLE, Some(e))
           case Ok(m) => Prepend([m], Deliver(atoms[1..], end))
  }

  function FeedSpec(p: Parser, chunk: Bytes): Fed
    requires p.Valid()
  {
    Deliver(Tokens(p, chunk).atoms, Tokens(p, chunk).end)
  }

  /** What remains of a Feed call after one frame: its message or its error, then the rest of the chunk. */
  function AfterFrame(frame: Bytes, rest: Bytes): Fed {
    match Decode(frame)
    case Failed(e) => Fed([], IDLE, Some(e))
    case Ok(m) => Prepend([m], FeedSpec(IDLE, rest))
  }

  /** One turn of the loop, for each of its four branches. */
  lemma FeedStep(p: Parser, chunk: Bytes)
    requires p.Valid() && chunk != []
    ensures FeedSpec(p, chunk) ==
            if p.want > 0 then
              var need := p.want - |p.buf|;
              if |chunk| < need then Fed([], Parser(p.want, p.buf + chunk), None)
              else AfterFrame(p.buf + chunk[..need], chunk[need..])
            else
              match Announced(chunk)
              case Some((n, k)) => FeedSpec(Parser(n, []), chunk[k..])
              case None => AfterFrame(chunk, [])
  {
    hide Decode, Announced;
    if p.want > 0 {
      var need := p.want - |p.buf|;
      if |chunk| >= need {
        var t := Tokens(IDLE, chunk[need..]);
        assert ([Frame(p.buf + chunk[..need])] + t.atoms)[1..] == t.atoms;
      }
    } else {
      match Announced(chunk)
      case Some((n, k)) =>
        var t := Tokens(Parser(n, []), chunk[k..]);
        assert ([Announce(chunk[..k])] + t.atoms)[1..] == t.atoms;
      case None =>
        assert [Frame(chunk)][1..] == [];
    }
  }

  lemma PrependTwice(out: seq<Message>, m: Message, f: Fed)
    ensures Prepend(out, Prepend([m], f)) == Prepend(out + [m], f)
  {
    assert out + ([m] + f.out) == out + [m] + f.out;
  }

  class Reassembler {
    var want: int
    var buf: Bytes

    ghost predicate Valid()
      reads this
    {
      want >= 0 && Parser(want, buf).Valid()
    }

    ghost function State(): (p: Parser)
      requires Valid()
      reads this
      ensures p.Valid()
    {
      Parser(want, buf)
    }

    constructor ()
      ensures Valid() && State() == IDLE
    {
      want, buf := 0, [];
    }

    /** Consumes one received chunk: the frames it completes are decoded and returned in order. */
    method Feed(input: Bytes) returns (out: seq<Message>, err: Option<DecodeError>)
      requires Valid()
      modifies this
      ensures Valid()
      ensures Fed(out, State(), err) == FeedSpec(old(State()), input)
    {
      hide Decode, FeedSpec;
      out, err := [], None;
      var chunk := input;
      ghost var start := State();
      while |chunk| > 0
        invariant Valid()
        invariant FeedSpec(start, input) == Prepend(out, FeedSpec(State(), chunk))
        decreases |chunk|
      {
        FeedStep(State(), chunk);
        ghost var rest := chunk;
        if want > 0 {
          var need := want - |buf|;
          var take := if need < |chunk| then need else |chunk|;
          buf := buf + chunk[..take];
          chunk := chunk[take..];
          if |buf| < want {
            assert rest[..take] == rest;
            return;
          }
          var frame := buf;
          want, buf := 0, [];
          match Decode(frame)
          case Failed(e) =>
            err := Some(e);
            return;
          case Ok(m) =>
            PrependTwice(out, m, FeedSpec(IDLE, chunk));
            out := out + [m];
            continue;
        }
        if chunk[0] == 0x20 {
          match ConsumeVarint(chunk[1..])
          case Decoded(n, l) =>
            if 0 < n < MAX_ANNOUNCED {
              want := n;
              buf := [];
              chunk := chunk[1 + l..];
              continue;
            }
          case _ =>
        }
        match Decode(chunk)
        case Failed(e) =>
          err := Some(e);
          return;
        case Ok(m) =>
          PrependTwice(out, m, FeedSpec(IDLE, []));
          chunk := [];
          out := out + [m];
      }
      FeedNothing(State());
    }

    /** Drops any partially received framed message. */
    method Reset()
      modifies this
      ensures Valid() && State() == IDLE
    {
      want, buf := 0, [];
    }
  }

  lemma FeedNothing(p: Parser)
    requires p.Valid()
    ensures FeedSpec(p, []) == Fed([], p, None)
  {
  }
}
