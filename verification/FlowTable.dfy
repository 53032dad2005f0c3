/** The flow table of the traffic analyser (research/tools/analyze_shield_pcap.py, the packet loop of main). */
module FlowTable {
  import opened Wire
  import opened TlsRecords
  import opened Lists

  datatype Key = Key(src: string, sport: int, dst: string, dport: int)

  function Rev(k: Key): Key { Key(k.dst, k.dport, k.src, k.sport) }

  /** A parsed TCP packet. */
  datatype Packet = Packet(ts: real, key: Key, payload: Bytes)

  datatype Dir = C2S | S2C
  datatype Label = Label(dir: Dir, contentType: Byte)

  datatype Flow = Flow(
    c2sPackets: nat, s2cPackets: nat, c2sBytes: nat, s2cBytes: nat, tls: map<Label, nat>,
    firstTs: Option<real>, lastTs: Option<real>, firstDir: Option<Key>)

  datatype Event = Event(ts: real, key: Key, payloadLen: nat, records: seq<Summary>)

  const NEW_FLOW := Flow(0, 0, 0, 0, map[], None, None, None)

  function Count(tls: map<Label, nat>, l: Label): nat { if l in tls then tls[l] else 0 }

  /** The counter after these records. */
  function Tally(tls: map<Label, nat>, d: Dir, rs: seq<Summary>): map<Label, nat>
    decreases |rs|
  {
    if rs == [] then tls
    else
      var l := Label(d, rs[0].contentType);
      Tally(tls[l := Count(tls, l) + 1], d, rs[1..])
  }

  function MinTs(t: Option<real>, ts: real): Option<real> {
    match t
    case None => Some(ts)
    case Some(u) => Some(if ts < u then ts else u)
  }

  function MaxTs(t: Option<real>, ts: real): Option<real> {
    match t
    case None => Some(ts)
    case Some(u) => Some(if ts > u then ts else u)
  }

  function Bump(f: Flow, d: Dir, p: Packet): Flow {
    var g := f.(tls := Tally(f.tls, d, ParseRecords(p.payload)), firstTs := MinTs(f.firstTs, p.ts), lastTs := MaxTs(f.lastTs, p.ts));
    match d
    case C2S => g.(c2sPackets := f.c2sPackets + 1, c2sBytes := f.c2sBytes + |p.payload|)
    case S2C => g.(s2cPackets := f.s2cPackets + 1, s2cBytes := f.s2cBytes + |p.payload|)
  }

  function EventOf(p: Packet): Event { Event(p.ts, p.key, |p.payload|, ParseRecords(p.payload)) }

  /** The dictionary, in insertion order, and the event list. */
  datatype Table = Table(keys: seq<Key>, flows: map<Key, Flow>, events: seq<Event>)

  const EMPTY_TABLE := Table([], map[], [])

  /** The table after one more packet with a payload. */
  function Counted(t: Table, p: Packet): Table {
    if Rev(p.key) in t.flows then
      t.(flows := t.flows[Rev(p.key) := Bump(t.flows[Rev(p.key)], S2C, p)], events := t.events + [EventOf(p)])
    else if p.key in t.flows then
      t.(flows := t.flows[p.key := Bump(t.flows[p.key], C2S, p)], events := t.events + [EventOf(p)])
    else
      Table(t.keys + [p.key], t.flows[p.key := Bump(NEW_FLOW.(firstDir := Some(p.key)), C2S, p)], t.events + [EventOf(p)])
  }

  /** The packets of a capture that are counted: parsed and with a payload. */
  function Kept(raw: seq<Option<Packet>>): seq<Packet> {
    if raw == [] then []
    else
      var p := raw[|raw| - 1];
      Kept(raw[..|raw| - 1]) + if p.Some? && p.value.payload != [] then [p.value] else []
  }

  function Built(ps: seq<Packet>): Table {
    if ps == [] then EMPTY_TABLE else Counted(Built(ps[..|ps| - 1]), ps[|ps| - 1])
  }

  class Analyser {
    var keys: seq<Key>
    var flows: map<Key, Flow>
    var events: seq<Event>

    ghost predicate Valid()
      reads this
    {
      forall k :: k in flows ==> flows[k].firstDir.Some?
    }

    function Contents(): Table
      reads this
    {
      Table(keys, flows, events)
    }

    constructor ()
      ensures Contents() == EMPTY_TABLE && Valid()
    {
      keys, flows, events := [], map[], [];
    }

    /** The body of the packet loop. */
    method Add(packet: Option<Packet>)
      requires Valid()
      modifies this
      ensures Valid()
      ensures Contents() == if packet.Some? && packet.value.payload != [] then Counted(old(Contents()), packet.value)
                            else old(Contents())
    {
      hide Bump, EventOf;
      if packet.None? {
        return;
      }
      var p := packet.value;
      if |p.payload| == 0 {
        return;
      }
      var forward, reverse := p.key, Rev(p.key);
      var key, direction;
      if reverse in flows {
        key, direction := reverse, S2C;
      } else {
        key, direction := forward, C2S;
        if key !in flows {
          keys, flows := keys + [key], flows[key := NEW_FLOW];
        }
        if flows[key].firstDir == None {
          flows := flows[key := flows[key].(firstDir := Some(forward))];
        }
      }
      var flow := Update(flows[key], direction, p);
      flows := flows[key := flow];
      events := events + [EventOf(p)];
    }

    /** The fields of one flow. */
    static method Update(f: Flow, direction: Dir, p: Packet) returns (flow: Flow)
      ensures flow == Bump(f, direction, p) && flow.firstDir == f.firstDir
    {
      flow := f;
      match direction {
        case C2S => flow := flow.(c2sPackets := flow.c2sPackets + 1, c2sBytes := flow.c2sBytes + |p.payload|);
        case S2C => flow := flow.(s2cPackets := flow.s2cPackets + 1, s2cBytes := flow.s2cBytes + |p.payload|);
      }
      flow := flow.(firstTs := MinTs(flow.firstTs, p.ts), lastTs := MaxTs(flow.lastTs, p.ts));
      var records := ParseTlsRecords(p.payload);
      var tls: map<Label, nat> := flow.tls;
      for i := 0 to |records|
        invariant Tally(tls, direction, records[i..]) == Tally(flow.tls, direction, records)
      {
        var l := Label(direction, records[i].contentType);
        assert records[i..][1..] == records[i + 1..];
        tls := tls[l := Count(tls, l) + 1];
      }
      flow := flow.(tls := tls);
    }

    method Run(raw: seq<Option<Packet>>)
      requires Valid() && Contents() == EMPTY_TABLE
      modifies this
      ensures Valid() && Contents() == Built(Kept(raw))
    {
      for i := 0 to |raw|
        invariant Valid() && Contents() == Built(Kept(raw[..i]))
      {
        Add(raw[i]);
        KeptStep(raw, i);
      }
      assert raw[..|raw|] == raw;
    }
  }

  lemma KeptStep(raw: seq<Option<Packet>>, i: nat)
    requires i < |raw|
    ensures Built(Kept(raw[..i + 1])) ==
            if raw[i].Some? && raw[i].value.payload != [] then Counted(Built(Kept(raw[..i])), raw[i].value)
            else Built(Kept(raw[..i]))
  {
    hide Counted;
    assert raw[..i + 1][..i] == raw[..i];
    var before := Kept(raw[..i]);
    if raw[i].Some? && raw[i].value.payload != [] {
      assert (before + [raw[i].value])[..|before|] == before;
    } else {
      assert before + [] == before;
    }
  }

  // ------------------------------------------------------------------ what the table should hold

  /** The packet goes one way or the other between the ends of k. */
  predicate Touches(p: Packet, k: Key) { p.key == k || p.key == Rev(k) }

  /** k is the 4-tuple of the first packet between its ends. */
  ghost predicate Opened(ps: seq<Packet>, k: Key) {
    exists i :: 0 <= i < |ps| && ps[i].key == k && forall j :: 0 <= j < i ==> !Touches(ps[j], k)
  }

  predicate Seen(ps: seq<Packet>, k: Key) {
    exists i :: 0 <= i < |ps| && ps[i].key == k
  }

  /** A packet of flow k counts as client to server if it has the 4-tuple k, as server to client if it has
      the reverse; where the two are the same, only the first packet counts as client to server. */
  predicate Goes(before: seq<Packet>, p: Packet, k: Key, d: Dir) {
    match d
    case C2S => p.key == k && (k == Rev(k) ==> !Seen(before, k))
    case S2C => p.key == Rev(k) && (k == Rev(k) ==> Seen(before, k))
  }

  /** The packets of flow k in direction d. */
  function Part(ps: seq<Packet>, k: Key, d: Dir): seq<Packet> {
    if ps == [] then []
    else
      var n := |ps| - 1;
      Part(ps[..n], k, d) + if Goes(ps[..n], ps[n], k, d) then [ps[n]] else []
  }

  function TotalLen(ps: seq<Packet>): nat {
    if ps == [] then 0 else TotalLen(ps[..|ps| - 1]) + |ps[|ps| - 1].payload|
  }

  function OfType(rs: seq<Summary>, c: Byte): nat {
    if rs == [] then 0 else (if rs[0].contentType == c then 1 else 0) + OfType(rs[1..], c)
  }

  /** How many records of this type the packets carry. */
  function Records(ps: seq<Packet>, c: Byte): nat {
    if ps == [] then 0 else Records(ps[..|ps| - 1], c) + OfType(ParseRecords(ps[|ps| - 1].payload), c)
  }

  ghost predicate Earliest(ps: seq<Packet>, k: Key, t: Option<real>) {
    && t.Some?
    && (exists i :: 0 <= i < |ps| && Touches(ps[i], k) && ps[i].ts == t.value)
    && (forall i :: 0 <= i < |ps| && Touches(ps[i], k) ==> t.value <= ps[i].ts)
  }

  ghost predicate Latest(ps: seq<Packet>, k: Key, t: Option<real>) {
    && t.Some?
    && (exists i :: 0 <= i < |ps| && Touches(ps[i], k) && ps[i].ts == t.value)
    && (forall i :: 0 <= i < |ps| && Touches(ps[i], k) ==> ps[i].ts <= t.value)
  }

  /** f is the summary of the packets between the ends of k. */
  ghost predicate Sums(ps: seq<Packet>, k: Key, f: Flow) {
    && f.c2sPackets == |Part(ps, k, C2S)| && f.s2cPackets == |Part(ps, k, S2C)|
    && f.c2sBytes == TotalLen(Part(ps, k, C2S)) && f.s2cBytes == TotalLen(Part(ps, k, S2C))
    && (forall l :: Count(f.tls, l) == Records(Part(ps, k, l.dir), l.contentType))
    && Earliest(ps, k, f.firstTs) && Latest(ps, k, f.lastTs) && f.firstDir == Some(k)
  }

  ghost predicate Aggregates(ps: seq<Packet>, t: Table) {
    && NoRepeats(t.keys) && (forall k :: k in t.keys <==> k in t.flows)
    && (forall k :: k in t.flows <==> Opened(ps, k))
    && (forall k :: k in t.flows ==> Sums(ps, k, t.flows[k]))
    && |t.events| == |ps| && forall i :: 0 <= i < |ps| ==>
         t.events[i] == Event(ps[i].ts, ps[i].key, |ps[i].payload|, ParseRecords(ps[i].payload))
  }

  // ------------------------------------------------------------------ one more packet

  lemma {:induction false} TallyCounts(tls: map<Label, nat>, d: Dir, rs: seq<Summary>, l: Label)
    ensures Count(Tally(tls, d, rs), l) == Count(tls, l) + if l.dir == d then OfType(rs, l.contentType) else 0
    decreases |rs|
  {
    if rs != [] {
      var m := Label(d, rs[0].contentType);
      TallyCounts(tls[m := Count(tls, m) + 1], d, rs[1..], l);
      assert l.dir == d && l.contentType == rs[0].contentType <==> l == m;
    }
  }

  /** Some packet between two ends means that one of them opened the flow. */
  lemma {:induction false} SomeoneOpened(ps: seq<Packet>, k: Key, i: nat)
    requires i < |ps| && Touches(ps[i], k)
    ensures Opened(ps, k) || Opened(ps, Rev(k))
  {
    if j: nat :| j < i && Touches(ps[j], k) {
      SomeoneOpened(ps, k, j);
    } else {
      assert forall j :: 0 <= j < i ==> !Touches(ps[j], ps[i].key);
      assert Opened(ps, ps[i].key);
    }
  }

  lemma OnlyOneOpened(ps: seq<Packet>, k: Key)
    requires Opened(ps, k) && Opened(ps, Rev(k))
    ensures k == Rev(k)
  {
    var i :| 0 <= i < |ps| && ps[i].key == k && forall j :: 0 <= j < i ==> !Touches(ps[j], k);
    var j :| 0 <= j < |ps| && ps[j].key == Rev(k) && forall l :: 0 <= l < j ==> !Touches(ps[l], Rev(k));
    assert Touches(ps[i], Rev(k)) && Touches(ps[j], k);
  }

  lemma OpenedStep(ps: seq<Packet>, p: Packet, k: Key)
    ensures Opened(ps + [p], k) <==>
            Opened(ps, k) || (p.key == k && forall j :: 0 <= j < |ps| ==> !Touches(ps[j], k))
  {
    hide Touches;
    var all := ps + [p];
    assert all[|ps|] == p && forall j :: 0 <= j < |ps| ==> all[j] == ps[j];
    if Opened(ps, k) {
      var i :| 0 <= i < |ps| && ps[i].key == k && forall j :: 0 <= j < i ==> !Touches(ps[j], k);
      assert all[i].key == k && forall j :: 0 <= j < i ==> !Touches(all[j], k);
    }
    if Opened(all, k) {
      var i :| 0 <= i < |all| && all[i].key == k && forall j :: 0 <= j < i ==> !Touches(all[j], k);
      if i < |ps| {
        assert ps[i].key == k && forall j :: 0 <= j < i ==> !Touches(ps[j], k);
      }
    }
  }

  lemma PartStep(ps: seq<Packet>, p: Packet, k: Key, d: Dir)
    ensures Part(ps + [p], k, d) == Part(ps, k, d) + if Goes(ps, p, k, d) then [p] else []
  {
    assert (ps + [p])[..|ps|] == ps;
  }

  lemma TotalsStep(ps: seq<Packet>, p: Packet, c: Byte)
    ensures TotalLen(ps + [p]) == TotalLen(ps) + |p.payload|
    ensures Records(ps + [p], c) == Records(ps, c) + OfType(ParseRecords(p.payload), c)
  {
    assert (ps + [p])[..|ps|] == ps;
  }

  lemma {:induction false} PartOfNothing(ps: seq<Packet>, k: Key, d: Dir)
    requires forall j :: 0 <= j < |ps| ==> !Touches(ps[j], k)
    ensures Part(ps, k, d) == []
  {
    if ps != [] {
      PartOfNothing(ps[..|ps| - 1], k, d);
    }
  }

  /** A packet elsewhere leaves a flow's summary as it is. */
  lemma SumsElsewhere(ps: seq<Packet>, p: Packet, k: Key, f: Flow)
    requires Sums(ps, k, f) && !Touches(p, k)
    ensures Sums(ps + [p], k, f)
  {
    hide Part, Records, TotalLen, Count;
    forall d: Dir ensures Part(ps + [p], k, d) == Part(ps, k, d) {
      PartStep(ps, p, k, d);
      assert Part(ps, k, d) + [] == Part(ps, k, d);
    }
    TimesElsewhere(ps, p, k, f);
  }

  lemma TimesElsewhere(ps: seq<Packet>, p: Packet, k: Key, f: Flow)
    requires !Touches(p, k) && Earliest(ps, k, f.firstTs) && Latest(ps, k, f.lastTs)
    ensures Earliest(ps + [p], k, f.firstTs) && Latest(ps + [p], k, f.lastTs)
  {
    hide Touches;
    var all := ps + [p];
    assert forall i :: 0 <= i < |ps| ==> all[i] == ps[i];
    var i :| 0 <= i < |ps| && Touches(ps[i], k) && ps[i].ts == f.firstTs.value;
    var j :| 0 <= j < |ps| && Touches(ps[j], k) && ps[j].ts == f.lastTs.value;
    assert all[i].ts == f.firstTs.value && all[j].ts == f.lastTs.value;
  }

  lemma TimesHere(ps: seq<Packet>, p: Packet, k: Key, f: Flow)
    requires Touches(p, k)
    requires if f.firstTs.None? then f.lastTs.None? && forall i :: 0 <= i < |ps| ==> !Touches(ps[i], k)
             else Earliest(ps, k, f.firstTs) && Latest(ps, k, f.lastTs)
    ensures Earliest(ps + [p], k, MinTs(f.firstTs, p.ts)) && Latest(ps + [p], k, MaxTs(f.lastTs, p.ts))
  {
    hide Touches;
    var all := ps + [p];
    assert all[|ps|] == p && forall i :: 0 <= i < |ps| ==> all[i] == ps[i];
    if f.firstTs.Some? {
      var i :| 0 <= i < |ps| && Touches(ps[i], k) && ps[i].ts == f.firstTs.value;
      var j :| 0 <= j < |ps| && Touches(ps[j], k) && ps[j].ts == f.lastTs.value;
      assert all[i].ts == f.firstTs.value && all[j].ts == f.lastTs.value;
    }
  }

  /** f sums up ps as far as k is concerned, or is new and there is nothing to sum up. */
  ghost predicate SumsSoFar(ps: seq<Packet>, k: Key, f: Flow) {
    || Sums(ps, k, f)
    || (f == NEW_FLOW.(firstDir := Some(k)) && forall i :: 0 <= i < |ps| ==> !Touches(ps[i], k))
  }

  /** A packet of the flow, in a direction it has, keeps the summary up to date. */
  lemma SumsHere(ps: seq<Packet>, p: Packet, k: Key, d: Dir, f: Flow)
    requires SumsSoFar(ps, k, f) && Touches(p, k)
    requires forall e :: Goes(ps, p, k, e) <==> e == d
    ensures Sums(ps + [p], k, Bump(f, d, p))
  {
    hide Part, Records, TotalLen, Count, Tally, OfType, Touches, Goes;
    var other := if d == C2S then S2C else C2S;
    if !Sums(ps, k, f) {
      PartOfNothing(ps, k, C2S);
      PartOfNothing(ps, k, S2C);
      NothingYet();
    }
    PartStep(ps, p, k, d);
    PartStep(ps, p, k, other);
    assert Part(ps, k, other) + [] == Part(ps, k, other);
    TimesHere(ps, p, k, f);
    TotalsStep(Part(ps, k, d), p, 20);
    forall l: Label ensures Count(Bump(f, d, p).tls, l) == Records(Part(ps + [p], k, l.dir), l.contentType) {
      TallyCounts(f.tls, d, ParseRecords(p.payload), l);
      TotalsStep(Part(ps, k, d), p, l.contentType);
    }
  }

  lemma NothingYet()
    ensures TotalLen([]) == 0
    ensures forall l :: Count(map[], l) == Records([], l.contentType) == 0
  {
  }

  /** Where the code puts a packet and which way it counts it. */
  lemma RightPlace(ps: seq<Packet>, t: Table, p: Packet)
    requires Aggregates(ps, t)
    ensures Rev(p.key) in t.flows ==> forall e :: Goes(ps, p, Rev(p.key), e) <==> e == S2C
    ensures Rev(p.key) !in t.flows ==> forall e :: Goes(ps, p, p.key, e) <==> e == C2S
    ensures Rev(p.key) !in t.flows && p.key !in t.flows ==> forall i :: 0 <= i < |ps| ==> !Touches(ps[i], p.key)
  {
    hide Sums;
    var k := p.key;
    assert Rev(Rev(k)) == k;
    if Rev(k) in t.flows {
      assert Opened(ps, Rev(k));
      var i :| 0 <= i < |ps| && ps[i].key == Rev(k) && forall j :: 0 <= j < i ==> !Touches(ps[j], Rev(k));
      assert Seen(ps, Rev(k));
    } else {
      if k == Rev(k) && Seen(ps, k) {
        var i :| 0 <= i < |ps| && ps[i].key == k;
        SomeoneOpened(ps, k, i);
      }
      if k !in t.flows {
        forall i | 0 <= i < |ps| ensures !Touches(ps[i], k) {
          if Touches(ps[i], k) {
            SomeoneOpened(ps, k, i);
          }
        }
      }
    }
  }

  /** Counting one more packet keeps the table an aggregate of all packets so far. */
  lemma CountedAggregates(ps: seq<Packet>, t: Table, p: Packet)
    requires Aggregates(ps, t)
    ensures Aggregates(ps + [p], Counted(t, p))
  {
    hide Sums, Bump, Goes, Part, Opened;
    var t' := Counted(t, p);
    var home := if Rev(p.key) in t.flows then Rev(p.key) else p.key;
    RightPlace(ps, t, p);
    assert Rev(Rev(p.key)) == p.key;
    forall k ensures k in t'.flows <==> Opened(ps + [p], k) {
      OpenedStep(ps, p, k);
      KeyStep(ps, t, p, k);
    }
    forall k | k in t'.flows ensures Sums(ps + [p], k, t'.flows[k]) {
      if k == home {
        SumsHome(ps, t, p);
      } else {
        if Touches(p, k) {
          OnlyOneOpened(ps + [p], k);
        }
        SumsElsewhere(ps, p, k, t.flows[k]);
      }
    }
    assert forall i :: 0 <= i < |ps| ==> (ps + [p])[i] == ps[i];
  }

  lemma KeyStep(ps: seq<Packet>, t: Table, p: Packet, k: Key)
    requires Aggregates(ps, t)
    ensures k in Counted(t, p).flows <==>
            Opened(ps, k) || (p.key == k && forall j :: 0 <= j < |ps| ==> !Touches(ps[j], k))
  {
    hide Sums, Bump;
    assert Rev(Rev(p.key)) == p.key;
    if p.key == k {
      RightPlace(ps, t, p);
      if Rev(k) in t.flows {
        var i :| 0 <= i < |ps| && ps[i].key == Rev(k) && forall j :: 0 <= j < i ==> !Touches(ps[j], Rev(k));
        assert Touches(ps[i], k);
      }
    }
  }

  lemma SumsHome(ps: seq<Packet>, t: Table, p: Packet)
    requires Aggregates(ps, t)
    ensures var home := if Rev(p.key) in t.flows then Rev(p.key) else p.key;
            home in Counted(t, p).flows && Sums(ps + [p], home, Counted(t, p).flows[home])
  {
    hide Sums, Bump, Goes;
    RightPlace(ps, t, p);
    assert Rev(Rev(p.key)) == p.key;
    if Rev(p.key) in t.flows {
      SumsHere(ps, p, Rev(p.key), S2C, t.flows[Rev(p.key)]);
    } else if p.key in t.flows {
      SumsHere(ps, p, p.key, C2S, t.flows[p.key]);
    } else {
      SumsHere(ps, p, p.key, C2S, NEW_FLOW.(firstDir := Some(p.key)));
    }
  }

  /** The incremental table is the aggregate of the whole packet list: one flow for every 4-tuple that was the
      first between its ends, each summing up exactly the packets between them. */
  lemma {:induction false} TableIsAggregate(ps: seq<Packet>)
    ensures Aggregates(ps, Built(ps))
  {
    hide Counted, Aggregates;
    if ps == [] {
      EmptyAggregates();
    } else {
      var n := |ps| - 1;
      TableIsAggregate(ps[..n]);
      CountedAggregates(ps[..n], Built(ps[..n]), ps[n]);
      assert ps[..n] + [ps[n]] == ps;
    }
  }

  lemma EmptyAggregates()
    ensures Aggregates([], EMPTY_TABLE)
  {
  }

  /** No two distinct keys are reverses of each other, and every packet belongs to exactly one flow. */
  lemma OneFlowPerPacket(ps: seq<Packet>, i: nat)
    requires i < |ps|
    ensures forall k :: k in Built(ps).flows && Rev(k) in Built(ps).flows ==> k == Rev(k)
    ensures exists k :: k in Built(ps).flows && Touches(ps[i], k)
    ensures forall k, l :: k in Built(ps).flows && l in Built(ps).flows && Touches(ps[i], k) && Touches(ps[i], l) ==> k == l
  {
    hide Built, Opened, Sums;
    TableIsAggregate(ps);
    forall k | k in Built(ps).flows && Rev(k) in Built(ps).flows ensures k == Rev(k) {
      OnlyOneOpened(ps, k);
    }
    var k := ps[i].key;
    SomeoneOpened(ps, k, i);
    assert Rev(Rev(k)) == k && Touches(ps[i], k) && Touches(ps[i], Rev(k));
  }

  // ------------------------------------------------------------------ directions

  /** The packets that carry exactly this 4-tuple. */
  function Carrying(ps: seq<Packet>, k: Key): seq<Packet> {
    if ps == [] then []
    else
      var n := |ps| - 1;
      Carrying(ps[..n], k) + if ps[n].key == k then [ps[n]] else []
  }

  lemma {:induction false} SeenCarrying(ps: seq<Packet>, k: Key)
    ensures Seen(ps, k) <==> Carrying(ps, k) != []
  {
    if ps != [] {
      var n := |ps| - 1;
      SeenCarrying(ps[..n], k);
      assert ps == ps[..n] + [ps[n]];
      if Seen(ps[..n], k) {
        var i :| 0 <= i < n && ps[..n][i].key == k;
        assert ps[i].key == k;
      }
    }
  }

  /** Between two different ends, the direction is that of the 4-tuple. */
  lemma {:induction false} OrdinaryParts(ps: seq<Packet>, k: Key)
    requires k != Rev(k)
    ensures Part(ps, k, C2S) == Carrying(ps, k) && Part(ps, k, S2C) == Carrying(ps, Rev(k))
  {
    if ps != [] {
      OrdinaryParts(ps[..|ps| - 1], k);
    }
  }

  /** Where both ends coincide, the first packet is client to server and all others are server to client. */
  lemma {:induction false} SelfParts(ps: seq<Packet>, k: Key)
    requires k == Rev(k)
    ensures Part(ps, k, C2S) + Part(ps, k, S2C) == Carrying(ps, k)
    ensures |Part(ps, k, C2S)| == if Seen(ps, k) then 1 else 0
  {
    if ps != [] {
      var n := |ps| - 1;
      var before, p := ps[..n], ps[n];
      SelfParts(before, k);
      SeenCarrying(before, k);
      SeenCarrying(ps, k);
      if p.key == k {
        if Seen(before, k) {
          assert Part(before, k, C2S) + (Part(before, k, S2C) + [p]) == Part(before, k, C2S) + Part(before, k, S2C) + [p];
        } else {
          assert Part(before, k, S2C) == [] && Part(before, k, C2S) == [];
        }
      } else {
        assert Part(before, k, C2S) + [] == Part(before, k, C2S) && Part(before, k, S2C) + [] == Part(before, k, S2C);
      }
    }
  }

  /** What the table counts for a flow between two different ends: client to server the packets with its key,
      server to client those with the reverse. */
  lemma OrdinaryFlow(ps: seq<Packet>, k: Key)
    requires k != Rev(k) && k in Built(ps).flows
    ensures var f := Built(ps).flows[k];
            && f.c2sPackets == |Carrying(ps, k)| && f.c2sBytes == TotalLen(Carrying(ps, k))
            && f.s2cPackets == |Carrying(ps, Rev(k))| && f.s2cBytes == TotalLen(Carrying(ps, Rev(k)))
  {
    hide Built, Part, Carrying, TotalLen, Count, Records;
    TableIsAggregate(ps);
    OrdinaryParts(ps, k);
  }

  /** And for a flow whose two ends coincide: it exists exactly if such a packet was seen; then exactly the
      first of its packets counts as client to server, and all the others as server to client. */
  lemma SelfFlow(ps: seq<Packet>, k: Key)
    requires k == Rev(k)
    ensures k in Built(ps).flows <==> Carrying(ps, k) != []
    ensures k in Built(ps).flows ==>
              var f, mine := Built(ps).flows[k], Carrying(ps, k);
              && f.c2sPackets == 1 && f.c2sBytes == |mine[0].payload|
              && f.s2cPackets == |mine| - 1 && f.s2cBytes == TotalLen(mine[1..])
  {
    hide Built, Part, Carrying, Count, Records, TotalLen, Earliest, Latest, Touches;
    TableIsAggregate(ps);
    SelfParts(ps, k);
    SeenCarrying(ps, k);
    if Seen(ps, k) {
      var i :| 0 <= i < |ps| && ps[i].key == k;
      SomeoneOpened(ps, k, i);
      var first := Part(ps, k, C2S)[0];
      assert Part(ps, k, C2S) == [first];
      assert Carrying(ps, k)[0] == first && Carrying(ps, k)[1..] == Part(ps, k, S2C);
      LenOfOne(first);
    }
    if k in Built(ps).flows {
      assert Opened(ps, k);
    }
  }

  lemma LenOfOne(p: Packet)
    ensures TotalLen([p]) == |p.payload|
  {
    assert [p][..0] == [];
    assert TotalLen([]) == 0;
  }

  // ------------------------------------------------------------------ conservation

  datatype Measure = Packets | Octets | TlsEntries

  const LABELS := [Label(C2S, 20), Label(C2S, 21), Label(C2S, 22), Label(C2S, 23), Label(C2S, 24),
                   Label(S2C, 20), Label(S2C, 21), Label(S2C, 22), Label(S2C, 23), Label(S2C, 24)]

  function CountAll(tls: map<Label, nat>, ls: seq<Label>): nat {
    if ls == [] then 0 else Count(tls, ls[0]) + CountAll(tls, ls[1..])
  }

  function OfFlow(m: Measure, f: Flow): nat {
    match m
    case Packets => f.c2sPackets + f.s2cPackets
    case Octets => f.c2sBytes + f.s2cBytes
    case TlsEntries => CountAll(f.tls, LABELS)
  }

  function OfEvent(m: Measure, e: Event): nat {
    match m
    case Packets => 1
    case Octets => e.payloadLen
    case TlsEntries => |e.records|
  }

  function OverFlows(m: Measure, keys: seq<Key>, flows: map<Key, Flow>): nat
    requires forall k :: k in keys ==> k in flows
  {
    if keys == [] then 0 else OverFlows(m, keys[..|keys| - 1], flows) + OfFlow(m, flows[keys[|keys| - 1]])
  }

  function OverEvents(m: Measure, es: seq<Event>): nat {
    if es == [] then 0 else OverEvents(m, es[..|es| - 1]) + OfEvent(m, es[|es| - 1])
  }

  lemma {:induction false} CountAllOnce(tls: map<Label, nat>, ls: seq<Label>, l: Label)
    requires forall i, j :: 0 <= i < j < |ls| ==> ls[i] != ls[j]
    ensures CountAll(tls[l := Count(tls, l) + 1], ls) == CountAll(tls, ls) + if l in ls then 1 else 0
  {
    if ls != [] {
      CountAllOnce(tls, ls[1..], l);
      assert ls == [ls[0]] + ls[1..];
    }
  }

  lemma {:induction false} TallyAll(tls: map<Label, nat>, d: Dir, rs: seq<Summary>)
    requires forall i :: 0 <= i < |rs| ==> KnownType(rs[i].contentType)
    ensures CountAll(Tally(tls, d, rs), LABELS) == CountAll(tls, LABELS) + |rs|
    decreases |rs|
  {
    hide CountAll;
    if rs != [] {
      var l := Label(d, rs[0].contentType);
      assert LABELS[(if d == C2S then 0 else 5) + rs[0].contentType as int - 20] == l;
      CountAllOnce(tls, LABELS, l);
      TallyAll(tls[l := Count(tls, l) + 1], d, rs[1..]);
    }
  }

  /** A packet adds to its flow what it adds to the event list. */
  lemma BumpAdds(m: Measure, f: Flow, d: Dir, p: Packet)
    ensures OfFlow(m, Bump(f, d, p)) == OfFlow(m, f) + OfEvent(m, EventOf(p))
  {
    hide CountAll, Tally;
    TallyAll(f.tls, d, ParseRecords(p.payload));
  }

  lemma {:induction false} OverFlowsUpdate(m: Measure, keys: seq<Key>, flows: map<Key, Flow>, k: Key, f: Flow, add: nat)
    requires NoRepeats(keys) && (forall l :: l in keys ==> l in flows)
    requires k in flows ==> OfFlow(m, f) == OfFlow(m, flows[k]) + add
    ensures OverFlows(m, keys, flows[k := f]) == OverFlows(m, keys, flows) + if k in keys then add else 0
  {
    hide OfFlow;
    if keys != [] {
      var n := |keys| - 1;
      OverFlowsUpdate(m, keys[..n], flows, k, f, add);
      assert keys == keys[..n] + [keys[n]];
      assert keys[n] !in keys[..n];
    }
  }

  lemma CountedAdds(m: Measure, t: Table, p: Packet)
    requires NoRepeats(t.keys) && forall k :: k in t.keys <==> k in t.flows
    ensures forall k :: k in Counted(t, p).keys ==> k in Counted(t, p).flows
    ensures OverFlows(m, Counted(t, p).keys, Counted(t, p).flows) == OverFlows(m, t.keys, t.flows) + OfEvent(m, EventOf(p))
  {
    hide OfFlow, Bump, EventOf;
    var add := OfEvent(m, EventOf(p));
    if Rev(p.key) in t.flows {
      BumpAdds(m, t.flows[Rev(p.key)], S2C, p);
      OverFlowsUpdate(m, t.keys, t.flows, Rev(p.key), Bump(t.flows[Rev(p.key)], S2C, p), add);
    } else if p.key in t.flows {
      BumpAdds(m, t.flows[p.key], C2S, p);
      OverFlowsUpdate(m, t.keys, t.flows, p.key, Bump(t.flows[p.key], C2S, p), add);
    } else {
      var newFlow := NEW_FLOW.(firstDir := Some(p.key));
      NewFlowHoldsNothing(m, newFlow);
      BumpAdds(m, newFlow, C2S, p);
      OverFlowsUpdate(m, t.keys, t.flows, p.key, Bump(newFlow, C2S, p), add);
      assert (t.keys + [p.key])[..|t.keys|] == t.keys;
    }
  }

  lemma NewFlowHoldsNothing(m: Measure, f: Flow)
    requires f == NEW_FLOW.(firstDir := f.firstDir)
    ensures OfFlow(m, f) == 0
  {
    assert forall l :: Count(f.tls, l) == 0;
    NoneCounted(f.tls, LABELS);
  }

  lemma {:induction false} NoneCounted(tls: map<Label, nat>, ls: seq<Label>)
    requires forall l :: Count(tls, l) == 0
    ensures CountAll(tls, ls) == 0
  {
    if ls != [] {
      NoneCounted(tls, ls[1..]);
    }
  }

  /** Packets, bytes and TLS records: what the flows hold together is what the events hold together. */
  lemma {:induction false} Conservation(m: Measure, ps: seq<Packet>)
    ensures forall k :: k in Built(ps).keys ==> k in Built(ps).flows
    ensures OverFlows(m, Built(ps).keys, Built(ps).flows) == OverEvents(m, Built(ps).events)
    ensures |Built(ps).events| == |ps|
    ensures m == Packets ==> OverEvents(m, Built(ps).events) == |ps|
    ensures m == Octets ==> OverEvents(m, Built(ps).events) == TotalLen(ps)
  {
    hide OverFlows, Aggregates, EventOf, Counted, OfEvent;
    if ps == [] {
      NothingBuilt(m);
    } else {
      var n := |ps| - 1;
      Conservation(m, ps[..n]);
      var t, p := Built(ps[..n]), ps[n];
      KeysAgree(ps[..n]);
      CountedAdds(m, t, p);
      EventsGrow(t, p);
      assert (t.events + [EventOf(p)])[..|t.events|] == t.events;
      EventMeasure(m, p);
    }
  }

  lemma EventsGrow(t: Table, p: Packet)
    ensures Counted(t, p).events == t.events + [EventOf(p)]
  {
  }

  lemma EventMeasure(m: Measure, p: Packet)
    ensures m == Packets ==> OfEvent(m, EventOf(p)) == 1
    ensures m == Octets ==> OfEvent(m, EventOf(p)) == |p.payload|
  {
  }

  lemma KeysAgree(ps: seq<Packet>)
    ensures NoRepeats(Built(ps).keys) && forall k :: k in Built(ps).keys <==> k in Built(ps).flows
  {
    TableIsAggregate(ps);
  }

  lemma NothingBuilt(m: Measure)
    ensures OverFlows(m, EMPTY_TABLE.keys, EMPTY_TABLE.flows) == 0
  {
  }
}
