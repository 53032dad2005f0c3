/** The laws of Feed: nothing is lost, chunk seams, and reassembly undoes framing. */
module Reassembly {
  import opened Wire
  import opened Proto
  import opened Messages
  import opened Framing

  // ------------------------------------------------------------------ conservation

  lemma AnnouncedExtend(b: Bytes, more: Bytes)
    requires Announced(b).Some?
    ensures Announced(b + more) == Announced(b)
  {
    assert (b + more)[1..] == b[1..] + more;
    ConsumeFromExtend(b[1..], more, 0);
  }

  lemma AnnouncedPrefix(b: Bytes)
    requires Announced(b).Some?
    ensures Announced(b[..Announced(b).value.1]) == Announced(b)
  {
    var k := Announced(b).value.1;
    assert b[..k][1..] == b[1..][..k - 1];
    ConsumeFromOwn(b[1..], 0);
  }

  lemma {:induction false} ConsumeFromOwn(b: Bytes, k: nat)
    requires k <= 9 && ConsumeFrom(b, k).Decoded?
    ensures ConsumeFrom(b[..ConsumeFrom(b, k).size], k) == ConsumeFrom(b, k)
    decreases 9 - k
  {
    if k < 9 && b[0] >= 128 {
      ConsumeFromOwn(b[1..], k + 1);
      assert b[..ConsumeFrom(b, k).size][1..] == b[1..][..ConsumeFrom(b[1..], k + 1).size];
    }
  }

  lemma Assoc(a: Bytes, b: Bytes, c: Bytes)
    ensures (a + b) + c == a + (b + c)
  {
  }

  /** Putting one more atom in front of a conserving scan conserves. */
  lemma ConserveCons(a: Atom, atoms: seq<Atom>, before: Bytes, taken: Bytes, left: Bytes, buf: Bytes)
    requires a.bytes == before + taken && left == AtomBytes(atoms) + buf
    ensures before + (taken + left) == AtomBytes([a] + atoms) + buf
  {
    AtomsCons(a, atoms);
    Assoc(before, taken, left);
    Assoc(a.bytes, AtomBytes(atoms), buf);
  }

  /** No byte is lost, invented or reordered: what was buffered and what was fed is exactly the
      announcements and frames recognised, followed by what is still buffered. */
  lemma {:induction false} Conservation(p: Parser, chunk: Bytes)
    requires p.Valid()
    ensures p.buf + chunk == AtomBytes(Tokens(p, chunk).atoms) + Tokens(p, chunk).end.buf
    decreases |chunk|
  {
    hide Announced, AtomBytes, Tokens;
    TokensStep(p, chunk);
    if chunk == [] {
      NoBytes();
      assert p.buf + [] == [] + p.buf;
    } else if p.want > 0 {
      var need := p.want - |p.buf|;
      if |chunk| < need {
        NoBytes();
        assert [] + (p.buf + chunk) == p.buf + chunk;
      } else {
        var left, s := chunk[need..], Tokens(IDLE, chunk[need..]);
        Conservation(IDLE, left);
        assert [] + left == left;
        ConserveCons(Frame(p.buf + chunk[..need]), s.atoms, p.buf, chunk[..need], left, s.end.buf);
        assert chunk == chunk[..need] + left;
      }
    } else {
      match Announced(chunk)
      case Some((n, k)) =>
        var left, s := chunk[k..], Tokens(Parser(n, []), chunk[k..]);
        Conservation(Parser(n, []), left);
        assert [] + left == left;
        ConserveCons(Announce(chunk[..k]), s.atoms, [], chunk[..k], left, s.end.buf);
        assert chunk == chunk[..k] + left;
      case None =>
        NoBytes();
        AtomsCons(Frame(chunk), []);
        assert [Frame(chunk)] + [] == [Frame(chunk)];
    }
  }

  lemma NoBytes()
    ensures AtomBytes([]) == []
  {
  }

  /** The same over a whole run of chunks. */
  lemma {:induction false} ConservationAll(p: Parser, chunks: seq<Bytes>)
    requires p.Valid()
    ensures p.buf + Flatten(chunks) == AtomBytes(TokensAll(p, chunks).atoms) + TokensAll(p, chunks).end.buf
    decreases |chunks|
  {
    hide Tokens, AtomBytes;
    if chunks == [] {
      NoBytes();
      assert p.buf + [] == [] + p.buf;
    } else {
      var s := Tokens(p, chunks[0]);
      var t := TokensAll(s.end, chunks[1..]);
      Conservation(p, chunks[0]);
      ConservationAll(s.end, chunks[1..]);
      AtomsAppend(s.atoms, t.atoms);
      Assoc(p.buf, chunks[0], Flatten(chunks[1..]));
      Assoc(AtomBytes(s.atoms), s.end.buf, Flatten(chunks[1..]));
      Assoc(AtomBytes(s.atoms), AtomBytes(t.atoms), t.end.buf);
    }
  }

  /** Every announcement recognised is one, and the next frame (or the buffer) has the announced size. */
  lemma {:induction false} AnnouncedSizes(p: Parser, chunk: Bytes)
    requires p.Valid()
    ensures SizesAgree(p.want, Tokens(p, chunk).atoms, Tokens(p, chunk).end)
    decreases |chunk|
  {
    hide Announced;
    if chunk == [] {
    } else if p.want > 0 {
      var need := p.want - |p.buf|;
      if |chunk| >= need {
        var s := Tokens(IDLE, chunk[need..]);
        AnnouncedSizes(IDLE, chunk[need..]);
        assert ([Frame(p.buf + chunk[..need])] + s.atoms)[1..] == s.atoms;
      }
    } else {
      match Announced(chunk)
      case Some((n, k)) =>
        var s := Tokens(Parser(n, []), chunk[k..]);
        AnnouncedSizes(Parser(n, []), chunk[k..]);
        AnnouncedPrefix(chunk);
        assert ([Announce(chunk[..k])] + s.atoms)[1..] == s.atoms;
      case None =>
        assert [Frame(chunk)][1..] == [];
    }
  }

  /** want is the size announced last and not yet met, 0 if there is none. */
  ghost predicate SizesAgree(want: nat, atoms: seq<Atom>, end: Parser)
    decreases |atoms|
  {
    if atoms == [] then end.want == want
    else match atoms[0]
         case Frame(b) => (want > 0 ==> |b| == want) && SizesAgree(0, atoms[1..], end)
         case Announce(b) =>
           && want == 0
           && Announced(b).Some? && Announced(b).value.1 == |b|
           && SizesAgree(Announced(b).value.0, atoms[1..], end)
  }

  // ------------------------------------------------------------------ runs of Feed

  /** Chunks fed one after another until one call fails, as the reader does. */
  function FeedAll(p: Parser, chunks: seq<Bytes>): (r: Fed)
    requires p.Valid()
    decreases |chunks|
  {
    if chunks == [] then Fed([], p, None)
    else
      var f := FeedSpec(p, chunks[0]);
      if f.err.Some? then f
      else
        DeliverEnd(Tokens(p, chunks[0]).atoms, Tokens(p, chunks[0]).end);
        Prepend(f.out, FeedAll(f.end, chunks[1..]))
  }

  lemma {:induction false} DeliverEnd(atoms: seq<Atom>, end: Parser)
    ensures var f := Deliver(atoms, end); f.end == if f.err.Some? then IDLE else end
  {
    if atoms != [] {
      DeliverEnd(atoms[1..], end);
    }
  }

  lemma {:induction false} DeliverAppend(a: seq<Atom>, mid: Parser, b: seq<Atom>, end: Parser)
    ensures Deliver(a + b, end) ==
            var f := Deliver(a, mid);
            if f.err.Some? then f else Prepend(f.out, Deliver(b, end))
  {
    hide Decode;
    if a == [] {
      assert a + b == b;
      assert [] + Deliver(b, end).out == Deliver(b, end).out;
    } else {
      assert (a + b)[1..] == a[1..] + b;
      DeliverAppend(a[1..], mid, b, end);
      if a[0].Frame? && Decode(a[0].bytes).Ok? {
        var m, f := Decode(a[0].bytes).message, Deliver(a[1..], mid);
        assert [m] + (f.out + Deliver(b, end).out) == [m] + f.out + Deliver(b, end).out;
      }
    }
  }

  /** Feeding a run is cutting it into atoms and decoding the frames up to the first that fails. */
  lemma {:induction false} FeedAllIsDeliver(p: Parser, chunks: seq<Bytes>)
    requires p.Valid()
    ensures FeedAll(p, chunks) == Deliver(TokensAll(p, chunks).atoms, TokensAll(p, chunks).end)
    decreases |chunks|
  {
    if chunks != [] {
      var s := Tokens(p, chunks[0]);
      var t := TokensAll(s.end, chunks[1..]);
      DeliverAppend(s.atoms, s.end, t.atoms, t.end);
      DeliverEnd(s.atoms, s.end);
      if Deliver(s.atoms, s.end).err.None? {
        FeedAllIsDeliver(s.end, chunks[1..]);
      }
    }
  }

  ghost predicate AllDecode(frames: seq<Bytes>) {
    forall i :: 0 <= i < |frames| ==> Decode(frames[i]).Ok?
  }

  function Decoded_(frames: seq<Bytes>): (ms: seq<Message>)
    requires forall i :: 0 <= i < |frames| ==> Decode(frames[i]).Ok?
    ensures |ms| == |frames|
    ensures forall i :: 0 <= i < |frames| ==> ms[i] == Decode(frames[i]).message
  {
    seq(|frames|, i requires 0 <= i < |frames| => Decode(frames[i]).message)
  }

  /** Without a decoding failure every frame is returned, in order; and a call fails only on one. */
  lemma {:induction false} DeliverDecodes(atoms: seq<Atom>, end: Parser)
    ensures Deliver(atoms, end).err.None? <==> AllDecode(FramesOf(atoms))
    ensures AllDecode(FramesOf(atoms)) ==> Deliver(atoms, end) == Fed(Decoded_(FramesOf(atoms)), end, None)
  {
    hide Decode;
    if atoms == [] {
    } else if atoms[0].Frame? {
      var fs := FramesOf(atoms[1..]);
      DeliverDecodes(atoms[1..], end);
      DecodeCons(atoms[0].bytes, fs);
    } else {
      DeliverDecodes(atoms[1..], end);
      assert FramesOf(atoms) == FramesOf(atoms[1..]);
    }
  }

  lemma DecodeCons(b: Bytes, fs: seq<Bytes>)
    ensures AllDecode([b] + fs) <==> Decode(b).Ok? && AllDecode(fs)
    ensures AllDecode([b] + fs) ==> Decoded_([b] + fs) == [Decode(b).message] + Decoded_(fs)
  {
    hide Decode;
    var all := [b] + fs;
    if AllDecode(all) {
      assert all[0] == b;
      assert forall i :: 0 <= i < |fs| ==> fs[i] == all[i + 1];
    }
  }

  lemma {:induction false} FeedAllSplit(p: Parser, a: seq<Bytes>, b: seq<Bytes>)
    requires p.Valid()
    ensures var f := FeedAll(p, a);
            && f.end.Valid()
            && FeedAll(p, a + b) == if f.err.Some? then f else Prepend(f.out, FeedAll(f.end, b))
    decreases |a|
  {
    hide FeedSpec;
    if a == [] {
      assert a + b == b;
      assert [] + FeedAll(p, b).out == FeedAll(p, b).out;
    } else {
      var d := FeedSpec(p, a[0]);
      DeliverEnd(Tokens(p, a[0]).atoms, Tokens(p, a[0]).end);
      assert (a + b)[1..] == a[1..] + b;
      assert d.end.Valid() by { FeedValid(p, a[0]); }
      if d.err.None? {
        FeedAllSplit(d.end, a[1..], b);
        var f := FeedAll(d.end, a[1..]);
        assert d.out + (f.out + FeedAll(f.end, b).out) == d.out + f.out + FeedAll(f.end, b).out;
      }
    }
  }

  lemma FeedValid(p: Parser, c: Bytes)
    requires p.Valid()
    ensures FeedSpec(p, c).end.Valid()
  {
    DeliverEnd(Tokens(p, c).atoms, Tokens(p, c).end);
  }

  // ------------------------------------------------------------------ seams between chunks

  /** No frame of a was recognised by the end of the chunk: a could go on in the same chunk. */
  predicate Seamless(p: Parser, a: Bytes)
    requires p.Valid()
    decreases |a|
  {
    if a == [] then true
    else if p.want > 0 then
      var need := p.want - |p.buf|;
      |a| < need || Seamless(IDLE, a[need..])
    else
      match Announced(a)
      case Some((n, k)) => Seamless(Parser(n, []), a[k..])
      case None => false
  }

  lemma {:induction false} SeamlessTokens(p: Parser, a: Bytes, b: Bytes)
    requires p.Valid() && Seamless(p, a)
    ensures var s := Tokens(p, a);
            Tokens(p, a + b) == Scan(s.atoms + Tokens(s.end, b).atoms, Tokens(s.end, b).end)
    decreases |a|
  {
    hide Announced;
    if a == [] {
      assert a + b == b;
      assert [] + Tokens(p, b).atoms == Tokens(p, b).atoms;
    } else if p.want > 0 {
      var need := p.want - |p.buf|;
      if |a| < need {
        PartialThenMore(p, a, b);
      } else {
        assert (a + b)[..need] == a[..need];
        assert (a + b)[need..] == a[need..] + b;
        SeamlessTokens(IDLE, a[need..], b);
        ThenAppend(Frame(p.buf + a[..need]), Tokens(IDLE, a[need..]), b);
      }
    } else {
      AnnouncedExtend(a, b);
      var (n, k) := Announced(a).value;
      assert (a + b)[..k] == a[..k];
      assert (a + b)[k..] == a[k..] + b;
      SeamlessTokens(Parser(n, []), a[k..], b);
      ThenAppend(Announce(a[..k]), Tokens(Parser(n, []), a[k..]), b);
    }
  }

  lemma ThenAppend(x: Atom, s: Scan, b: Bytes)
    requires s.end.Valid()
    ensures Then(x, Scan(s.atoms + Tokens(s.end, b).atoms, Tokens(s.end, b).end)) ==
            Scan(Then(x, s).atoms + Tokens(s.end, b).atoms, Tokens(s.end, b).end)
  {
    hide Tokens;
    assert [x] + (s.atoms + Tokens(s.end, b).atoms) == [x] + s.atoms + Tokens(s.end, b).atoms;
  }

  lemma PartialThenMore(p: Parser, a: Bytes, b: Bytes)
    requires p.Valid() && p.want > 0 && |p.buf| + |a| < p.want
    ensures Tokens(p, a + b) == Tokens(Parser(p.want, p.buf + a), b)
  {
    var q := Parser(p.want, p.buf + a);
    var need, left := p.want - |p.buf|, p.want - |q.buf|;
    if b == [] {
      assert a + b == a;
    } else if |b| < left {
      assert p.buf + (a + b) == q.buf + b;
    } else {
      assert p.buf + (a + b)[..need] == q.buf + b[..left];
      assert (a + b)[need..] == b[left..];
    }
  }

  lemma TokensTwo(p: Parser, a: Bytes, b: Bytes)
    requires p.Valid()
    ensures var s := Tokens(p, a); var t := Tokens(s.end, b);
            TokensAll(p, [a, b]) == Scan(s.atoms + t.atoms, t.end)
  {
    var s := Tokens(p, a);
    var t := Tokens(s.end, b);
    assert [a, b][1..] == [b] && [b][1..] == [];
    assert TokensAll(s.end, [b]) == Scan(t.atoms + [], t.end);
    assert t.atoms + [] == t.atoms;
  }

  lemma TokensOne(p: Parser, a: Bytes)
    requires p.Valid()
    ensures TokensAll(p, [a]) == Tokens(p, a)
  {
    assert [a][1..] == [];
    assert Tokens(p, a).atoms + [] == Tokens(p, a).atoms;
  }

  /** A seamless boundary is invisible: one chunk or two, the same messages, errors and state. */
  lemma SplitInvariance(p: Parser, a: Bytes, b: Bytes)
    requires p.Valid() && Seamless(p, a)
    ensures FeedAll(p, [a, b]) == FeedAll(p, [a + b])
  {
    SeamlessTokens(p, a, b);
    TokensTwo(p, a, b);
    TokensOne(p, a + b);
    FeedAllIsDeliver(p, [a, b]);
    FeedAllIsDeliver(p, [a + b]);
  }

  /** In particular inside a framed message, up to and including its last byte. */
  lemma InsideFrameIsSeamless(p: Parser, a: Bytes)
    requires p.Valid() && p.want > 0 && |a| <= p.want - |p.buf|
    ensures Seamless(p, a)
  {
  }

  /** A chunk that starts with an unfinished announcement cannot be decoded as a message. */
  lemma UnfinishedAnnouncementFails(u: Bytes)
    requires u != [] && u[0] == 0x20 && ConsumeVarint(u[1..]).Truncated?
    ensures Decode(u) == Failed(BadBase)
  {
    var acc := Defaults(BASE);
    assert ConsumeVarint(u) == ConsumeVarint([0x20] + u[1..]) by { assert u == [0x20] + u[1..]; }
    assert Find(BASE, 4) == 3 by { FindIndex(BASE, 3); }
    assert ReadFields(BASE, acc, u) == ReadOne(BASE, acc, 4, 0, u[1..]);
    assert ReadValue(BASE[3].kind, acc[3], u[1..]) == None;
  }

  /** A small frame that can follow anything: base message with service id 2 and no payload. */
  const PROBE: Bytes := [0x08, 0x02]

  lemma ProbeDecodes()
    ensures Decode(PROBE) == Ok(Plain(BaseMessage(2, [], 0, 0, 0)))
    ensures Announced(PROBE) == None
  {
    var m := BaseMessage(2, [], 0, 0, 0);
    var r := BaseRecord(m);
    BaseRoundTrip(m);
    assert EncodeFields(BASE, r, 2) == [] by { assert EncodeFields(BASE, r, 4) == []; }
    assert EncodeVarint(8) == [8] && EncodeVarint(2) == [2];
    assert EncodeField(BASE[0], r[0]) == PROBE;
    assert EncodeFields(BASE, r, 0) == PROBE;
  }

  lemma {:induction false} SeamCount(p: Parser, a: Bytes)
    requires p.Valid() && !Seamless(p, a) && FeedSpec(p, a).err.None?
    ensures FeedSpec(p, a).end == IDLE
    ensures |FeedSpec(p, a + PROBE).out| <= |FeedSpec(p, a).out|
    decreases |a|
  {
    hide Decode, FeedSpec;
    FeedStep(p, a);
    FeedStep(p, a + PROBE);
    FeedNothing(IDLE);
    if p.want > 0 {
      var need := p.want - |p.buf|;
      assert (a + PROBE)[..need] == a[..need];
      assert (a + PROBE)[need..] == a[need..] + PROBE;
      SeamCount(IDLE, a[need..]);
    } else {
      match Announced(a)
      case Some((n, k)) =>
        AnnouncedExtend(a, PROBE);
        assert (a + PROBE)[k..] == a[k..] + PROBE;
        SeamCount(Parser(n, []), a[k..]);
      case None =>
        StillNoAnnouncement(a);
    }
  }

  /** Bytes appended to a decodable message cannot turn its head into an announcement. */
  lemma StillNoAnnouncement(a: Bytes)
    requires a != [] && Announced(a) == None && Decode(a).Ok?
    ensures Announced(a + PROBE) == None
  {
    hide Decode;
    if a[0] == 0x20 {
      if ConsumeVarint(a[1..]).Truncated? {
        UnfinishedAnnouncementFails(a);
      } else {
        assert (a + PROBE)[1..] == a[1..] + PROBE;
        ConsumeFromExtend(a[1..], PROBE, 0);
      }
    }
  }

  lemma SeamVisible(p: Parser, a: Bytes)
    requires p.Valid() && !Seamless(p, a) && FeedSpec(p, a).err.None?
    ensures FeedAll(p, [a, PROBE]).out != FeedAll(p, [a + PROBE]).out
  {
    hide Decode, FeedSpec;
    SeamCount(p, a);
    FeedStep(IDLE, PROBE);
    FeedNothing(IDLE);
    ProbeDecodes();
    assert [a, PROBE][1..] == [PROBE] && [PROBE][1..] == [] && [a + PROBE][1..] == [];
    assert |FeedSpec(IDLE, PROBE).out| == 1;
    assert |FeedAll(IDLE, [PROBE]).out| == 1;
    assert |FeedAll(p, [a, PROBE]).out| == |FeedSpec(p, a).out| + 1;
    assert |FeedAll(p, [a + PROBE]).out| == |FeedSpec(p, a + PROBE).out|;
  }

  /** Exactly when a chunk boundary is invisible: after a call that did not fail, it makes no difference
      whatever follows if and only if that call recognised no frame by the end of its chunk. */
  lemma SeamExact(p: Parser, a: Bytes)
    requires p.Valid() && FeedSpec(p, a).err.None?
    ensures Seamless(p, a) <==> forall b: Bytes :: FeedAll(p, [a, b]) == FeedAll(p, [a + b])
  {
    hide Decode, FeedSpec, FeedAll;
    if Seamless(p, a) {
      forall b: Bytes ensures FeedAll(p, [a, b]) == FeedAll(p, [a + b]) {
        SplitInvariance(p, a, b);
      }
    } else {
      SeamVisible(p, a);
      assert FeedAll(p, [a, PROBE]) != FeedAll(p, [a + PROBE]);
    }
  }

  // ------------------------------------------------------------------ reassembly undoes framing

  /** The bytes written for a list of messages. */
  function Stream(msgs: seq<Bytes>): Bytes {
    if msgs == [] then [] else Flatten(Frames(msgs[0])) + Stream(msgs[1..])
  }

  /** The bytes of an unfinished last message: its announcement and the part of its body already sent. */
  function Tail(p: Parser): Bytes {
    if p.want == 0 then [] else Announcement(p.want) + p.buf
  }

  /** Messages the framing can carry: not empty, shorter than 2^30 and, when sent without an
      announcement, not starting with something that reads as one. */
  ghost predicate Framable(m: Bytes) {
    && 0 < |m| < MAX_ANNOUNCED
    && (|m| <= MAX_UNFRAMED_SIZE ==> Announced(m) == None)
  }

  ghost predicate AllFramable(msgs: seq<Bytes>) {
    forall i :: 0 <= i < |msgs| ==> Framable(msgs[i])
  }

  /** A chunk ends after exactly p bytes. */
  predicate EndsAt(chunks: seq<Bytes>, p: int)
    decreases |chunks|
  {
    chunks != [] && (p == |chunks[0]| || (p >= |chunks[0]| && EndsAt(chunks[1..], p - |chunks[0]|)))
  }

  ghost predicate UncutBetween(chunks: seq<Bytes>, lo: int, hi: int) {
    forall p: int | lo < p < hi :: !EndsAt(chunks, p)
  }

  /** The chunks respect the framing of msgs, the first of which starts at offset `at`: an unframed message lies in one
      chunk and ends it; an announcement is not cut; bodies may be cut anywhere and coalesced with
      whatever comes next. */
  ghost predicate RespectsFraming(msgs: seq<Bytes>, tail: Parser, at: int, chunks: seq<Bytes>)
    decreases |msgs|
  {
    if msgs == [] then tail.want > 0 ==> UncutBetween(chunks, at, at + |Announcement(tail.want)|)
    else
      var m := msgs[0];
      && (if |m| <= MAX_UNFRAMED_SIZE
          then EndsAt(chunks, at + |m|) && UncutBetween(chunks, at, at + |m|)
          else UncutBetween(chunks, at, at + |Announcement(|m|)|))
      && RespectsFraming(msgs[1..], tail, at + |Flatten(Frames(m))|, chunks)
  }

  /** Dropping the first d bytes moves every chunk end back by d. */
  ghost predicate Shifted(chunks: seq<Bytes>, d: int, chunks': seq<Bytes>) {
    forall p: int {:trigger EndsAt(chunks', p)} | p > 0 :: EndsAt(chunks, p + d) == EndsAt(chunks', p)
  }

  lemma ShiftUncut(lo: int, hi: int, chunks: seq<Bytes>, d: int, chunks': seq<Bytes>)
    requires lo >= 0 && Shifted(chunks, d, chunks')
    ensures UncutBetween(chunks, lo + d, hi + d) <==> UncutBetween(chunks', lo, hi)
  {
    hide EndsAt;
    if UncutBetween(chunks', lo, hi) {
      forall p: int | lo + d < p < hi + d ensures !EndsAt(chunks, p) {
        assert EndsAt(chunks', p - d) == EndsAt(chunks, p - d + d);
      }
    }
  }

  lemma {:induction false} ShiftFraming(msgs: seq<Bytes>, tail: Parser, at: int, chunks: seq<Bytes>,
                                        d: int, chunks': seq<Bytes>)
    requires at >= 0 && d >= 0 && Shifted(chunks, d, chunks') && AllFramable(msgs)
    ensures RespectsFraming(msgs, tail, at + d, chunks) <==> RespectsFraming(msgs, tail, at, chunks')
    decreases |msgs|
  {
    hide EndsAt, Frames, Flatten, Announcement, UncutBetween, Announced;
    if msgs == [] {
      if tail.want > 0 {
        ShiftUncut(at, at + |Announcement(tail.want)|, chunks, d, chunks');
      }
    } else {
      var m := msgs[0];
      assert Framable(m);
      ShiftFraming(msgs[1..], tail, at + |Flatten(Frames(m))|, chunks, d, chunks');
      if |m| <= MAX_UNFRAMED_SIZE {
        ShiftUncut(at, at + |m|, chunks, d, chunks');
        assert EndsAt(chunks', at + |m|) == EndsAt(chunks, at + |m| + d);
      } else {
        ShiftUncut(at, at + |Announcement(|m|)|, chunks, d, chunks');
      }
    }
  }

  lemma DropChunk(c: Bytes, rest: seq<Bytes>)
    ensures Shifted([c] + rest, |c|, rest)
  {
    assert ([c] + rest)[1..] == rest;
    forall p: int {:trigger EndsAt(rest, p)} | p > 0
      ensures EndsAt([c] + rest, p + |c|) == EndsAt(rest, p)
    {
    }
  }

  lemma DropBytes(x: Bytes, c: Bytes, rest: seq<Bytes>)
    ensures Shifted([x + c] + rest, |x|, [c] + rest)
  {
    assert ([x + c] + rest)[1..] == rest && ([c] + rest)[1..] == rest;
    forall p: int {:trigger EndsAt([c] + rest, p)} | p > 0
      ensures EndsAt([x + c] + rest, p + |x|) == EndsAt([c] + rest, p)
    {
    }
  }

  /** The first chunk's own end is an end. */
  lemma FirstEnd(c: Bytes, rest: seq<Bytes>)
    ensures EndsAt([c] + rest, |c|)
    ensures forall p: int :: p < |c| ==> !EndsAt([c] + rest, p)
  {
  }

  lemma FlattenCons(c: Bytes, rest: seq<Bytes>)
    ensures Flatten([c] + rest) == c + Flatten(rest)
  {
    assert ([c] + rest)[1..] == rest;
  }

  lemma TokensAllCons(p: Parser, c: Bytes, rest: seq<Bytes>)
    requires p.Valid()
    ensures TokensAll(p, [c] + rest) ==
            var s := Tokens(p, c); var t := TokensAll(s.end, rest); Scan(s.atoms + t.atoms, t.end)
  {
    assert ([c] + rest)[1..] == rest;
  }

  /** Taking one atom off the front of the first chunk. */
  lemma TokensAllStep(p: Parser, x: Bytes, c: Bytes, rest: seq<Bytes>, a: Atom, q: Parser)
    requires p.Valid() && q.Valid() && Tokens(p, x + c) == Then(a, Tokens(q, c))
    ensures TokensAll(p, [x + c] + rest) == Then(a, TokensAll(q, [c] + rest))
  {
    hide Tokens;
    TokensAllCons(p, x + c, rest);
    TokensAllCons(q, c, rest);
    var s := Tokens(q, c);
    var t := TokensAll(s.end, rest);
    assert [a] + (s.atoms + t.atoms) == [a] + s.atoms + t.atoms;
  }

  lemma FramesThen(a: Atom, s: Scan)
    ensures FramesOf(Then(a, s).atoms) == (if a.Frame? then [a.bytes] else []) + FramesOf(s.atoms)
  {
    AtomsCons(a, s.atoms);
  }

  lemma AnnouncementRecognised(n: nat, c: Bytes)
    requires 0 < n < MAX_ANNOUNCED
    ensures Announced(Announcement(n) + c) == Some((n, |Announcement(n)|))
  {
    VarintRoundTrip(n, c);
    assert (Announcement(n) + c)[1..] == EncodeVarint(n) + c;
  }

  lemma FramedBytes(m: Bytes)
    requires Framable(m)
    ensures Flatten(Frames(m)) == if |m| <= MAX_UNFRAMED_SIZE then m else Announcement(|m|) + m
  {
    hide Announced;
    FlattenOne(m);
    if |m| > MAX_UNFRAMED_SIZE {
      AnnouncementForm(|m|);
      FlattenCons(AnnouncementBytes(|m|), [m]);
      assert [AnnouncementBytes(|m|)] + [m] == Frames(m);
    }
  }

  ghost predicate Recovers(s: Scan, msgs: seq<Bytes>, tail: Parser) {
    FramesOf(s.atoms) == msgs && s.end == tail
  }

  lemma {:induction false} RunTail(n: nat, body: Bytes, k: nat, chunks: seq<Bytes>)
    requires k <= |body| < n < MAX_ANNOUNCED && Flatten(chunks) == body[k..]
    ensures TokensAll(Parser(n, body[..k]), chunks) == Scan([], Parser(n, body))
    decreases |chunks|
  {
    if chunks == [] {
      assert body[..k] == body;
    } else {
      var c, rest := chunks[0], chunks[1..];
      assert |c| <= |body| - k;
      assert body[..k] + c == body[..k + |c|] by { assert c == body[k..][..|c|]; }
      TokensStep(Parser(n, body[..k]), c);
      assert Flatten(rest) == body[k..][|c|..] == body[k + |c|..];
      RunTail(n, body, k + |c|, rest);
    }
  }

  /** From idle: the next message is unframed and fills the first chunk, or announced. */
  lemma {:induction false} RunIdle(msgs: seq<Bytes>, tail: Parser, chunks: seq<Bytes>)
    requires AllFramable(msgs) && tail.Valid() && RespectsFraming(msgs, tail, 0, chunks)
    requires Flatten(chunks) == Stream(msgs) + Tail(tail)
    ensures Recovers(TokensAll(IDLE, chunks), msgs, tail)
    decreases |Flatten(chunks)|, |chunks|
  {
    hide Tokens, Announced, EndsAt, Shifted;
    if chunks == [] {
      NoStream(msgs, tail);
    } else {
      var c, rest := chunks[0], chunks[1..];
      assert chunks == [c] + rest;
      FirstEnd(c, rest);
      if c == [] {
        TokensStep(IDLE, c);
        assert [] + TokensAll(IDLE, rest).atoms == TokensAll(IDLE, rest).atoms;
        DropChunk(c, rest);
        ShiftFraming(msgs, tail, 0, chunks, 0, rest);
        assert [] + Flatten(rest) == Flatten(rest);
        RunIdle(msgs, tail, rest);
      } else if msgs == [] {
        RunLast(tail, c, rest);
      } else {
        assert Framable(msgs[0]);
        FramedBytes(msgs[0]);
        if |msgs[0]| <= MAX_UNFRAMED_SIZE {
          RunUnframed(msgs, tail, c, rest);
        } else {
          RunAnnounced(msgs, tail, c, rest);
        }
      }
    }
  }

  lemma NoStream(msgs: seq<Bytes>, tail: Parser)
    requires AllFramable(msgs) && tail.Valid() && Stream(msgs) + Tail(tail) == []
    ensures msgs == [] && tail == IDLE
  {
    if msgs != [] {
      assert Framable(msgs[0]);
      FramedBytes(msgs[0]);
      assert false;
    }
  }

  /** Two ways of cutting the same bytes, the first cut lying later or earlier. */
  lemma SplitLater(c: Bytes, r: Bytes, x: Bytes, y: Bytes)
    requires c + r == x + y && |c| >= |x|
    ensures c == x + c[|x|..] && c[|x|..] + r == y
  {
    assert c[..|x|] == (c + r)[..|x|] == x;
    assert c[|x|..] + r == (c + r)[|x|..] == y;
  }

  lemma SplitEarlier(c: Bytes, r: Bytes, x: Bytes, y: Bytes)
    requires c + r == x + y && |c| < |x|
    ensures c == x[..|c|] && r == x[|c|..] + y
  {
    assert c == (c + r)[..|c|] == x[..|c|];
    assert r == (c + r)[|c|..] == x[|c|..] + y;
  }

  lemma FirstChunkCovers(c: Bytes, rest: seq<Bytes>, n: int)
    requires c != [] && UncutBetween([c] + rest, 0, n)
    ensures |c| >= n
    ensures EndsAt([c] + rest, n) ==> |c| == n
  {
    hide EndsAt;
    FirstEnd(c, rest);
  }

  /** Only an announced, unfinished message is left. */
  lemma RunLast(tail: Parser, c: Bytes, rest: seq<Bytes>)
    requires tail.Valid() && RespectsFraming([], tail, 0, [c] + rest) && c != []
    requires Flatten([c] + rest) == Tail(tail)
    ensures Recovers(TokensAll(IDLE, [c] + rest), [], tail)
  {
    hide Tokens, Announced, EndsAt, UncutBetween;
    FlattenCons(c, rest);
    var ann := Announcement(tail.want);
    FirstChunkCovers(c, rest, |ann|);
    SplitLater(c, Flatten(rest), ann, tail.buf);
    StepAnnouncement(tail.want, c[|ann|..], rest);
    RunTail(tail.want, tail.buf, 0, [c[|ann|..]] + rest);
    FramesThen(Announce(ann), Scan([], tail));
  }

  /** An announcement at the head of the first chunk is consumed and opens a frame. */
  lemma StepAnnouncement(n: nat, c': Bytes, rest: seq<Bytes>)
    requires 0 < n < MAX_ANNOUNCED
    ensures var ann := Announcement(n);
            && TokensAll(IDLE, [ann + c'] + rest) ==
               Then(Announce(ann), TokensAll(Parser(n, []), [c'] + rest))
            && Flatten([c'] + rest) == c' + Flatten(rest)
            && Parser(n, []).buf == []
  {
    hide Tokens, Announced, TokensAll;
    var ann := Announcement(n);
    AnnouncementRecognised(n, c');
    TokensStep(IDLE, ann + c');
    assert (ann + c')[..|ann|] == ann && (ann + c')[|ann|..] == c';
    TokensAllStep(IDLE, ann, c', rest, Announce(ann), Parser(n, []));
    FlattenCons(c', rest);
  }

  /** The last bytes of a body complete its frame and leave the parser idle. */
  lemma StepBody(m: Bytes, k: nat, c': Bytes, rest: seq<Bytes>)
    requires k < |m| < MAX_ANNOUNCED
    ensures var p := Parser(|m|, m[..k]);
            && TokensAll(p, [m[k..] + c'] + rest) == Then(Frame(m), TokensAll(IDLE, [c'] + rest))
            && Flatten([c'] + rest) == c' + Flatten(rest)
  {
    hide Tokens, Announced, TokensAll;
    var p := Parser(|m|, m[..k]);
    TokensStep(p, m[k..] + c');
    assert (m[k..] + c')[..|m| - k] == m[k..] && (m[k..] + c')[|m| - k..] == c';
    assert m[..k] + m[k..] == m;
    TokensAllStep(p, m[k..], c', rest, Frame(m), IDLE);
    FlattenCons(c', rest);
  }

  /** A chunk that does not complete the body is buffered whole. */
  lemma StepPartial(m: Bytes, k: nat, j: nat, rest: seq<Bytes>)
    requires k + j < |m| < MAX_ANNOUNCED
    ensures TokensAll(Parser(|m|, m[..k]), [m[k..][..j]] + rest) == TokensAll(Parser(|m|, m[..k + j]), rest)
  {
    hide Announced;
    var p, c := Parser(|m|, m[..k]), m[k..][..j];
    assert m[..k] + c == m[..k + j];
    TokensStep(p, c);
    TokensAllCons(p, c, rest);
    var t := TokensAll(Parser(|m|, m[..k + j]), rest);
    assert [] + t.atoms == t.atoms;
  }

  lemma {:induction false} RunUnframed(msgs: seq<Bytes>, tail: Parser, c: Bytes, rest: seq<Bytes>)
    requires msgs != [] && AllFramable(msgs) && tail.Valid() && RespectsFraming(msgs, tail, 0, [c] + rest)
    requires |msgs[0]| <= MAX_UNFRAMED_SIZE && c != []
    requires Flatten([c] + rest) == Stream(msgs) + Tail(tail)
    ensures Recovers(TokensAll(IDLE, [c] + rest), msgs, tail)
    decreases |Flatten([c] + rest)|, |[c] + rest|, 0
  {
    hide Tokens, Announced, EndsAt, Shifted, UncutBetween, Frames;
    var m, more := msgs[0], Stream(msgs[1..]) + Tail(tail);
    assert Framable(m);
    FramedBytes(m);
    FlattenCons(c, rest);
    FirstChunkCovers(c, rest, |m|);
    Assoc(m, Stream(msgs[1..]), Tail(tail));
    SplitLater(c, Flatten(rest), m, more);
    assert c[|m|..] == [] && c == m && [] + Flatten(rest) == Flatten(rest);
    DropChunk(c, rest);
    ShiftFraming(msgs[1..], tail, 0, [c] + rest, |c|, rest);
    RunIdle(msgs[1..], tail, rest);
    TokensStep(IDLE, c);
    TokensAllCons(IDLE, c, rest);
    AtomsCons(Frame(m), TokensAll(IDLE, rest).atoms);
    assert [m] + msgs[1..] == msgs;
  }

  lemma {:induction false} RunAnnounced(msgs: seq<Bytes>, tail: Parser, c: Bytes, rest: seq<Bytes>)
    requires msgs != [] && AllFramable(msgs) && tail.Valid() && RespectsFraming(msgs, tail, 0, [c] + rest)
    requires |msgs[0]| > MAX_UNFRAMED_SIZE && c != []
    requires Flatten([c] + rest) == Stream(msgs) + Tail(tail)
    ensures Recovers(TokensAll(IDLE, [c] + rest), msgs, tail)
    decreases |Flatten([c] + rest)|, |[c] + rest|, 0
  {
    hide Tokens, Announced, EndsAt, Shifted, UncutBetween, Frames, Announcement, TokensAll;
    var m, more := msgs[0], Stream(msgs[1..]) + Tail(tail);
    assert Framable(m);
    FramedBytes(m);
    FlattenCons(c, rest);
    var ann := Announcement(|m|);
    FirstChunkCovers(c, rest, |ann|);
    Assoc(ann + m, Stream(msgs[1..]), Tail(tail));
    Assoc(ann, m, more);
    SplitLater(c, Flatten(rest), ann, m + more);
    var c' := c[|ann|..];
    StepAnnouncement(|m|, c', rest);
    DropBytes(ann, c', rest);
    ShiftFraming(msgs[1..], tail, |m|, [c] + rest, |ann|, [c'] + rest);
    assert m[0..] == m && m[..0] == [];
    RunBody(m, 0, msgs[1..], tail, [c'] + rest);
    FramesThen(Announce(ann), TokensAll(Parser(|m|, []), [c'] + rest));
    assert [] + ([m] + msgs[1..]) == msgs;
  }

  /** Inside a body of which k bytes are buffered: it grows chunk by chunk until it is complete. */
  lemma {:induction false} RunBody(m: Bytes, k: nat, msgs: seq<Bytes>, tail: Parser, chunks: seq<Bytes>)
    requires k < |m| < MAX_ANNOUNCED && AllFramable(msgs) && tail.Valid()
    requires RespectsFraming(msgs, tail, |m| - k, chunks)
    requires Flatten(chunks) == m[k..] + (Stream(msgs) + Tail(tail))
    ensures Recovers(TokensAll(Parser(|m|, m[..k]), chunks), [m] + msgs, tail)
    decreases |Flatten(chunks)|, |chunks|
  {
    hide Tokens, Announced, EndsAt, Shifted, TokensAll, RespectsFraming, Stream, Tail;
    var c, rest, more := chunks[0], chunks[1..], Stream(msgs) + Tail(tail);
    assert chunks == [c] + rest;
    if |c| < |m| - k {
      SplitEarlier(c, Flatten(rest), m[k..], more);
      assert m[k..][|c|..] == m[k + |c|..];
      StepPartial(m, k, |c|, rest);
      DropChunk(c, rest);
      ShiftFraming(msgs, tail, |m| - k - |c|, chunks, |c|, rest);
      RunBody(m, k + |c|, msgs, tail, rest);
    } else {
      var c' := c[|m| - k..];
      SplitLater(c, Flatten(rest), m[k..], more);
      StepBody(m, k, c', rest);
      DropBytes(m[k..], c', rest);
      ShiftFraming(msgs, tail, 0, chunks, |m| - k, [c'] + rest);
      RunIdle(msgs, tail, [c'] + rest);
      FramesThen(Frame(m), TokensAll(IDLE, [c'] + rest));
    }
  }

  /** Reassembly undoes framing. Any messages written with Frames, the last possibly cut off in its body,
      and received in any chunks that respect the framing, come back in order and once each; the parser
      ends idle, or holding exactly the unfinished message. */
  lemma ReassemblyUndoesFraming(msgs: seq<Bytes>, tail: Parser, chunks: seq<Bytes>)
    requires AllFramable(msgs) && AllDecode(msgs) && tail.Valid()
    requires Flatten(chunks) == Stream(msgs) + Tail(tail)
    requires RespectsFraming(msgs, tail, 0, chunks)
    ensures FeedAll(IDLE, chunks) == Fed(Decoded_(msgs), tail, None)
  {
    hide Decode, Framable;
    RunIdle(msgs, tail, chunks);
    FeedAllIsDeliver(IDLE, chunks);
    DeliverDecodes(TokensAll(IDLE, chunks).atoms, tail);
  }

  // ------------------------------------------------------------------ each write as its own chunk

  /** How one message may arrive when no two writes are coalesced: unframed in one chunk; otherwise the
      announcement in one and the body in any number of pieces. */
  ghost predicate ArrivesAs(m: Bytes, part: seq<Bytes>) {
    if |m| <= MAX_UNFRAMED_SIZE then part == [m]
    else part != [] && part[0] == Announcement(|m|) && Flatten(part[1..]) == m
  }

  ghost predicate ArriveAs(msgs: seq<Bytes>, parts: seq<seq<Bytes>>) {
    |parts| == |msgs| && forall i :: 0 <= i < |msgs| ==> ArrivesAs(msgs[i], parts[i])
  }

  function AllChunks(parts: seq<seq<Bytes>>): seq<Bytes> {
    if parts == [] then [] else parts[0] + AllChunks(parts[1..])
  }

  /** Chunks put in front only move the framing back. */
  lemma {:induction false} FramingBehind(msgs: seq<Bytes>, part: seq<Bytes>, rest: seq<Bytes>)
    requires AllFramable(msgs) && RespectsFraming(msgs, IDLE, 0, rest)
    ensures RespectsFraming(msgs, IDLE, |Flatten(part)|, part + rest)
  {
    hide RespectsFraming, Shifted;
    if part == [] {
      assert part + rest == rest;
    } else {
      var c, more := part[0], part[1..];
      FramingBehind(msgs, more, rest);
      DropChunk(c, more + rest);
      ShiftFraming(msgs, IDLE, |Flatten(more)|, [c] + (more + rest), |c|, more + rest);
      assert part + rest == [c] + (more + rest);
    }
  }

  lemma {:induction false} ArrivalsRespect(msgs: seq<Bytes>, parts: seq<seq<Bytes>>)
    requires AllFramable(msgs) && ArriveAs(msgs, parts)
    ensures RespectsFraming(msgs, IDLE, 0, AllChunks(parts)) && Flatten(AllChunks(parts)) == Stream(msgs)
    decreases |msgs|
  {
    hide Framable, Frames, ArrivesAs, RespectsFraming;
    if msgs == [] {
      NothingArrives(parts);
    } else {
      var part, rest := parts[0], AllChunks(parts[1..]);
      assert forall i :: 0 <= i < |msgs[1..]| ==> msgs[1..][i] == msgs[i + 1] && parts[1..][i] == parts[i + 1];
      ArrivalsRespect(msgs[1..], parts[1..]);
      FirstArrives(msgs, part, rest);
      PartBytes(msgs[0], part);
      FlattenAppend(part, rest);
    }
  }

  lemma NothingArrives(parts: seq<seq<Bytes>>)
    requires parts == []
    ensures RespectsFraming([], IDLE, 0, AllChunks(parts)) && Flatten(AllChunks(parts)) == Stream([])
  {
  }

  lemma FirstArrives(msgs: seq<Bytes>, part: seq<Bytes>, rest: seq<Bytes>)
    requires msgs != [] && AllFramable(msgs) && ArrivesAs(msgs[0], part)
    requires RespectsFraming(msgs[1..], IDLE, 0, rest)
    ensures RespectsFraming(msgs, IDLE, 0, part + rest)
  {
    hide Framable, EndsAt, Frames, Announcement, Flatten, ArrivesAs;
    var m := msgs[0];
    assert Framable(m) && AllFramable(msgs[1..]);
    PartBytes(m, part);
    FramingBehind(msgs[1..], part, rest);
    assert part + rest == [part[0]] + (part[1..] + rest);
    FirstEnd(part[0], part[1..] + rest);
  }

  lemma PartBytes(m: Bytes, part: seq<Bytes>)
    requires Framable(m) && ArrivesAs(m, part)
    ensures part != [] && Flatten(part) == Flatten(Frames(m))
    ensures part[0] == if |m| <= MAX_UNFRAMED_SIZE then m else Announcement(|m|)
  {
    hide Framable, Announcement;
    FramedBytes(m);
    FlattenOne(m);
  }

  /** In particular when every unframed message and every announcement arrives as a chunk of its own and
      bodies are split in any way: exactly the messages written come back, and the parser is idle. */
  lemma SeparateWritesComeBack(msgs: seq<Bytes>, parts: seq<seq<Bytes>>)
    requires AllFramable(msgs) && AllDecode(msgs) && ArriveAs(msgs, parts)
    ensures FeedAll(IDLE, AllChunks(parts)) == Fed(Decoded_(msgs), IDLE, None)
  {
    hide Framable, Decode, FeedAll, RespectsFraming, ArriveAs;
    ArrivalsRespect(msgs, parts);
    assert Stream(msgs) + [] == Stream(msgs);
    ReassemblyUndoesFraming(msgs, IDLE, AllChunks(parts));
  }

  // ------------------------------------------------------------------ exact limits of the framing

  /** A size announcement is taken for what it says exactly when the length is below the parser's limit;
      longer lengths are cut to 32 bits or not recognised at all. */
  lemma AnnouncementExact(n: nat)
    requires n > 2048
    ensures Announced(AnnouncementBytes(n)) == Some((n, |AnnouncementBytes(n)|)) <==> n < 0x4000_0000
  {
    hide Announced, AnnouncementBytes;
    if n < MAX_ANNOUNCED {
      AnnouncementForm(n);
      AnnouncementRecognised(n, []);
      assert Announcement(n) + [] == Announcement(n);
    }
  }

  /** An encoded base message is mistaken for an announcement exactly when its size is its first set field
      and lies in the announced range. */
  lemma MistakenExactly(m: BaseMessage)
    requires |m.payload| < TWO_63
    ensures Marshal(BASE, BaseRecord(m)).Some?
    ensures Announced(Marshal(BASE, BaseRecord(m)).value).Some? <==>
            m.serviceId == 0 && m.payload == [] && m.serviceNumber == 0 && 0 < m.size < 0x4000_0000
  {
    hide Marshal;
    BaseFirstByte(m);
    if FirstTag(m) == 0x20 {
      SizeFirst(m);
      VarintRoundTrip(FromInt32(m.size), TimeField(m));
    }
  }

  function TimeField(m: BaseMessage): Bytes {
    EncodeFields(BASE, BaseRecord(m), 4)
  }

  lemma SizeField(m: BaseMessage)
    requires m.size != 0
    ensures EncodeField(BASE[3], BaseRecord(m)[3]) == [0x20] + EncodeVarint(FromInt32(m.size))
  {
    assert EncodeVarint(0x20) == [0x20];
  }

  lemma SizeFirst(m: BaseMessage)
    requires FirstTag(m) == 0x20 && Marshal(BASE, BaseRecord(m)).Some?
    ensures var b, n := Marshal(BASE, BaseRecord(m)).value, EncodeVarint(FromInt32(m.size));
            b == [0x20] + (n + TimeField(m)) && b[1..] == n + TimeField(m)
  {
    hide EncodeVarint, EncodeField;
    var r := BaseRecord(m);
    SizeField(m);
    DefaultsOmitted(r);
    assert EncodeFields(BASE, r, 3) == EncodeField(BASE[3], r[3]) + TimeField(m);
    assert EncodeFields(BASE, r, 0) == EncodeField(BASE[0], r[0]) +
           (EncodeField(BASE[1], r[1]) + (EncodeField(BASE[2], r[2]) + EncodeFields(BASE, r, 3)));
    Assoc([0x20], EncodeVarint(FromInt32(m.size)), TimeField(m));
  }

  lemma DefaultsOmitted(r: Record)
    requires Conforms(BASE, r)
    ensures forall i :: 0 <= i < |BASE| && r[i] == Default(BASE[i].kind) ==> EncodeField(BASE[i], r[i]) == []
  {
  }

  /** A short message alone in its chunk comes through as that one frame exactly when it is not mistaken. */
  lemma UnframedExact(m: Bytes)
    requires m != []
    ensures Tokens(IDLE, m) == Scan([Frame(m)], IDLE) <==> Announced(m).None?
  {
    hide Announced;
    TokensStep(IDLE, m);
    if Announced(m).Some? {
      assert Tokens(IDLE, m).atoms[0].Announce?;
    }
  }
}
