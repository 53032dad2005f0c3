/** The RTT keepalive in discrete time (internal/beyonder/client.go, StartKeepalive and touchRTT, started
    by Hello). Milliseconds; ticks are exact and sends take no time. */
module Keepalive {
  const RTT_TICK := 3000
  const RTT_IDLE := 5000

  datatype Clock = Clock(now: nat, lastRTT: nat, nextTick: nat, probes: seq<nat>)

  /** Time passes, an RTT reply arrives, or the ticker fires. */
  datatype Event = Elapse(d: nat) | Reply | Tick

  /** Hello notes RTT activity and starts the ticker at the same instant. */
  function Hello(t: nat): Clock {
    Clock(t, t, t + RTT_TICK, [])
  }

  predicate Enabled(c: Clock, e: Event) {
    match e
    case Elapse(d) => c.now + d <= c.nextTick
    case Reply => true
    case Tick => c.now == c.nextTick
  }

  function Step(c: Clock, e: Event): Clock
    requires Enabled(c, e)
  {
    match e
    case Elapse(d) => c.(now := c.now + d)
    case Reply => c.(lastRTT := c.now)
    case Tick =>
      var c' := c.(nextTick := c.nextTick + RTT_TICK);
      if c.now - c.lastRTT >= RTT_IDLE then c'.(probes := c.probes + [c.now], lastRTT := c.now) else c'
  }

  ghost predicate Spaced(start: nat, probes: seq<nat>) {
    && (forall i :: 0 <= i < |probes| ==> probes[i] >= start + 2 * RTT_TICK)
    && (forall i, j :: 0 <= i < j < |probes| ==> probes[j] - probes[i] >= 2 * RTT_TICK * (j - i))
  }

  /** The last moment that counts for the keepalive: its last probe, or its start. */
  function LastProbe(start: nat, c: Clock): nat {
    if c.probes == [] then start else c.probes[|c.probes| - 1]
  }

  ghost predicate Inv(start: nat, c: Clock) {
    && c.lastRTT <= c.now <= c.nextTick
    && c.nextTick - RTT_TICK <= c.now
    && c.nextTick - RTT_TICK < c.lastRTT + RTT_IDLE
    && LastProbe(start, c) <= c.lastRTT
    && LastProbe(start, c) <= c.nextTick - RTT_TICK
    && (c.nextTick - LastProbe(start, c)) % RTT_TICK == 0
    && Spaced(start, c.probes)
  }

  lemma TickInv(start: nat, c: Clock)
    requires Inv(start, c) && Enabled(c, Tick)
    ensures Inv(start, Step(c, Tick))
  {
    if c.now - c.lastRTT >= RTT_IDLE {
      var p, n := LastProbe(start, c), |c.probes|;
      var probes' := c.probes + [c.now];
      assert c.now - p >= 2 * RTT_TICK;
      forall i | 0 <= i < n ensures c.now - c.probes[i] >= 2 * RTT_TICK * (n - i) {
        if i < n - 1 {
          assert c.probes[n - 1] - c.probes[i] >= 2 * RTT_TICK * (n - 1 - i);
        }
      }
      forall i, j | 0 <= i < j < |probes'| ensures probes'[j] - probes'[i] >= 2 * RTT_TICK * (j - i) {
      }
    }
  }

  function Run(c: Clock, events: seq<Event>): Clock
    requires Legal(c, events)
    decreases |events|
  {
    if events == [] then c else Run(Step(c, events[0]), events[1..])
  }

  predicate Legal(c: Clock, events: seq<Event>)
    decreases |events|
  {
    events == [] || (Enabled(c, events[0]) && Legal(Step(c, events[0]), events[1..]))
  }

  lemma {:induction false} RunInv(start: nat, c: Clock, events: seq<Event>)
    requires Inv(start, c) && Legal(c, events)
    ensures Inv(start, Run(c, events))
    decreases |events|
  {
    if events != [] {
      if events[0].Tick? {
        TickInv(start, c);
      }
      RunInv(start, Step(c, events[0]), events[1..]);
    }
  }

  /** For every pattern of replies: probes are at least two ticks apart, the first no sooner than two
      ticks after Hello; since the last RTT activity less than RTT_IDLE has passed right after each tick
      and less than RTT_IDLE + RTT_TICK at any instant. */
  lemma KeepaliveTiming(start: nat, events: seq<Event>)
    requires Legal(Hello(start), events)
    ensures var c := Run(Hello(start), events);
            && c.now - c.lastRTT < RTT_IDLE + RTT_TICK
            && (events != [] && events[|events| - 1].Tick? ==> c.now - c.lastRTT < RTT_IDLE)
            && Spaced(start, c.probes)
  {
    RunInv(start, Hello(start), events);
    if events != [] && events[|events| - 1].Tick? {
      AfterTick(Hello(start), events);
    }
  }

  /** A run that ends with a tick ends at that tick. */
  lemma {:induction false} AfterTick(c: Clock, events: seq<Event>)
    requires Legal(c, events) && events != [] && events[|events| - 1].Tick?
    ensures Run(c, events).nextTick == Run(c, events).now + RTT_TICK
    decreases |events|
  {
    if |events| > 1 {
      AfterTick(Step(c, events[0]), events[1..]);
    }
  }

  /** Number of probes in the closed window [lo, hi]. */
  function CountIn(probes: seq<nat>, lo: int, hi: int): nat {
    if probes == [] then 0
    else (if lo <= probes[0] <= hi then 1 else 0) + CountIn(probes[1..], lo, hi)
  }

  lemma {:induction false} CountBound(start: nat, probes: seq<nat>, lo: int, hi: int)
    requires Spaced(start, probes) && lo <= hi
    ensures CountIn(probes, lo, hi) > 0 ==> probes != [] && probes[0] <= hi
    ensures CountIn(probes, lo, hi) > 0 ==>
              2 * RTT_TICK * (CountIn(probes, lo, hi) - 1) <= hi - (if lo >= probes[0] then lo else probes[0])
  {
    if probes != [] {
      var rest := probes[1..];
      forall i, j | 0 <= i < j < |rest| ensures rest[j] - rest[i] >= 2 * RTT_TICK * (j - i) {
        assert rest[j] == probes[j + 1] && rest[i] == probes[i + 1];
      }
      CountBound(start, rest, lo, hi);
      if CountIn(rest, lo, hi) > 0 {
        assert probes[1] - probes[0] >= 2 * RTT_TICK * (1 - 0);
      }
    }
  }

  /** In any window of T milliseconds there are at most T/6000 + 1 probes. */
  lemma ProbeRate(start: nat, events: seq<Event>, lo: int, T: nat)
    requires Legal(Hello(start), events)
    ensures CountIn(Run(Hello(start), events).probes, lo, lo + T) <= T / 6000 + 1
  {
    KeepaliveTiming(start, events);
    CountBound(start, Run(Hello(start), events).probes, lo, lo + T);
  }

  // ------------------------------------------------------------------ when exactly a probe is sent

  /** The times at which RTT replies arrived. */
  function Replies(c: Clock, events: seq<Event>): seq<nat>
    requires Legal(c, events)
    decreases |events|
  {
    if events == [] then []
    else (if events[0].Reply? then [c.now] else []) + Replies(Step(c, events[0]), events[1..])
  }

  /** Hello, a reply or a probe happened at time t. */
  predicate Active(start: nat, replies: seq<nat>, probes: seq<nat>, t: nat) {
    t == start || t in replies || t in probes
  }

  /** lastRTT is the time of the latest activity. */
  ghost predicate Notes(start: nat, c: Clock, replies: seq<nat>) {
    && Active(start, replies, c.probes, c.lastRTT)
    && forall t: nat :: Active(start, replies, c.probes, t) ==> t <= c.lastRTT <= c.now
  }

  lemma {:induction false} RunNotes(start: nat, c: Clock, replies: seq<nat>, events: seq<Event>)
    requires Legal(c, events) && Notes(start, c, replies)
    ensures Notes(start, Run(c, events), replies + Replies(c, events))
    decreases |events|
  {
    if events == [] {
      assert replies + [] == replies;
    } else {
      var e, c' := events[0], Step(c, events[0]);
      var now := if e.Reply? then [c.now] else [];
      StepNotes(start, c, replies, e);
      RunNotes(start, c', replies + now, events[1..]);
      assert replies + (now + Replies(c', events[1..])) == replies + now + Replies(c', events[1..]);
    }
  }

  lemma StepNotes(start: nat, c: Clock, replies: seq<nat>, e: Event)
    requires Enabled(c, e) && Notes(start, c, replies)
    ensures Notes(start, Step(c, e), replies + if e.Reply? then [c.now] else [])
  {
    assert replies + [] == replies;
    assert Active(start, replies, c.probes, start);
    assert c.now in [c.now];
    assert forall t: nat :: t in c.probes ==> Active(start, replies, c.probes, t);
    assert forall t: nat :: t in replies ==> Active(start, replies, c.probes, t);
  }

  /** No activity within the last 5 s. */
  ghost predicate Idle(start: nat, replies: seq<nat>, probes: seq<nat>, now: nat) {
    forall t: nat :: Active(start, replies, probes, t) ==> now - t >= 5000
  }

  lemma IdleExactly(start: nat, c: Clock, replies: seq<nat>)
    requires Notes(start, c, replies)
    ensures Idle(start, replies, c.probes, c.now) <==> c.now - c.lastRTT >= 5000
  {
  }

  /** Whatever happened before, a tick sends a probe exactly if neither Hello nor a reply nor a probe was within the
      last 5 s: a reply puts the next probe off. Nothing but a tick, every 3 s, sends one. */
  lemma ProbeExact(start: nat, events: seq<Event>, e: Event)
    requires Legal(Hello(start), events) && Enabled(Run(Hello(start), events), e)
    ensures var c := Run(Hello(start), events);
            Step(c, e).probes ==
            c.probes + if e.Tick? && Idle(start, Replies(Hello(start), events), c.probes, c.now) then [c.now] else []
    ensures Hello(start).nextTick == start + 3000
    ensures var c := Run(Hello(start), events);
            e.Tick? ==> c.now == c.nextTick && Step(c, e).nextTick == c.now + 3000
  {
    hide Idle;
    var c, replies := Run(Hello(start), events), Replies(Hello(start), events);
    RunNotes(start, Hello(start), [], events);
    assert [] + replies == replies;
    IdleExactly(start, c, replies);
    assert c.probes + [] == c.probes;
  }
}
