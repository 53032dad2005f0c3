/** The persistent Android TV sender: a cache of one session, one reconnect and replay per call
    (adapters/out/androidtv/androidtv.go). */
module AndroidSender {
  import opened Wire

  datatype Config = Config(host: string, port: int, certPath: string, keyPath: string)
  const ZERO := Config("", 0, "", "")

  datatype Action = Back | Down | Enter | FastForward | Home | Left | Menu | Mute | PlayPause | Power
                  | Rewind | Right | Sleep | Up | VolumeDown | VolumeUp | Wakeup | Unsupported(name: string)

  /** A step is an app link to launch or a key to press. */
  datatype Step = AppLink(link: string) | Key(key: Action)

  const WAKE_LAUNCH_PACKAGE := "com.google.android.youtube.tv"

  /** What a session knows about the device's power. */
  datatype PowerState = PowerState(powered: bool, hasPower: bool)

  /** Fate of one step: it went out, it went out and then failed (session error, context done during the
      delay), or it failed before going out. */
  datatype StepOutcome = Sent | SentThenFailed | NotSent

  /** One pass over the plan on one session. Steps beyond the listed outcomes fail before going out. */
  datatype Attempt = Attempt(power: PowerState, outcomes: seq<StepOutcome>)

  /** Everything the environment decides during a call: the two possible dials and attempts, and whether the
      context is done after the first attempt. */
  datatype Env = Env(dialOk: bool, attempt: Attempt, ctxDone: bool, redialOk: bool, replay: Attempt)

  /** Sessions are numbered in dialing order. dials and attempts count invocations, failed ones included. */
  datatype State = State(session: Option<nat>, config: Config,
                         dialed: seq<Config>, closed: seq<nat>, sent: seq<(nat, Step)>,
                         dials: nat, attempts: nat)

  const START := State(None, ZERO, [], [], [], 0, 0)

  // ------------------------------------------------------------------ planning

  /** None for an action the remote does not have. */
  function Plan(act: Action, power: PowerState): Option<seq<Step>> {
    if act.Unsupported? then None
    else if !power.hasPower then Some([Key(act)])
    else if !power.powered && (act.Home? || act.Power?) then Some([AppLink(WAKE_LAUNCH_PACKAGE), Key(Home)])
    else Some([Key(act)])
  }

  /** How many steps of a plan go out, and whether all of them succeeded. */
  function Transmit(plan: seq<Step>, outcomes: seq<StepOutcome>): (r: (nat, bool))
    ensures r.0 <= |plan|
    ensures r.1 ==> r.0 == |plan|
  {
    if plan == [] then (0, true)
    else if outcomes == [] then (0, false)
    else match outcomes[0]
         case NotSent => (0, false)
         case SentThenFailed => (1, false)
         case Sent =>
           var (n, ok) := Transmit(plan[1..], outcomes[1..]);
           (n + 1, ok)
  }

  function Tagged(id: nat, steps: seq<Step>): (r: seq<(nat, Step)>)
    ensures |r| == |steps|
    ensures forall i :: 0 <= i < |steps| ==> r[i] == (id, steps[i])
  {
    seq(|steps|, i requires 0 <= i < |steps| => (id, steps[i]))
  }

  /** The definition of Transmit at the i-th step. */
  lemma TransmitStep(steps: seq<Step>, outcomes: seq<StepOutcome>, i: nat)
    requires i < |steps| && i <= |outcomes|
    ensures Transmit(steps[i..], outcomes[i..]) ==
            if i == |outcomes| || outcomes[i] == NotSent then (0, false)
            else if outcomes[i] == SentThenFailed then (1, false)
            else var t := Transmit(steps[i + 1..], outcomes[i + 1..]); (t.0 + 1, t.1)
  {
    assert steps[i..][1..] == steps[i + 1..];
    if i < |outcomes| {
      assert outcomes[i..][1..] == outcomes[i + 1..];
    }
  }

  lemma TransmitNothing(outcomes: seq<StepOutcome>)
    ensures Transmit([], outcomes) == (0, true)
  {
  }

  lemma NothingTagged(id: nat, steps: seq<Step>)
    ensures Tagged(id, steps[..0]) == []
  {
  }

  lemma TagOneMore(sent: seq<(nat, Step)>, id: nat, steps: seq<Step>, i: nat)
    requires i < |steps|
    ensures sent + Tagged(id, steps[..i]) + [(id, steps[i])] == sent + Tagged(id, steps[..i + 1])
  {
    assert Tagged(id, steps[..i]) + [(id, steps[i])] == Tagged(id, steps[..i + 1]);
  }

  lemma LastTagged(sent: seq<(nat, Step)>, id: nat, steps: seq<Step>)
    ensures var all := sent + Tagged(id, steps);
            steps != [] ==> all != [] && all[|all| - 1] == (id, steps[|steps| - 1])
  {
  }

  // ------------------------------------------------------------------ the calls as functions of the state

  function Close(s: State): State {
    var s' := match s.session
      case Some(id) => s.(closed := s.closed + [id], session := None)
      case None => s;
    s'.(config := ZERO)
  }

  function Ensure(s: State, cfg: Config, dialOk: bool): (Option<nat>, State) {
    if s.session.Some? && s.config == cfg then (s.session, s)
    else
      var s1 := Close(s).(dials := s.dials + 1);
      if !dialOk then (None, s1)
      else
        var id := |s1.dialed|;
        (Some(id), s1.(dialed := s1.dialed + [cfg], session := Some(id), config := cfg))
  }

  function AttemptSteps(s: State, id: nat, plan: Option<seq<Step>>, outcomes: seq<StepOutcome>): (bool, State) {
    var s1 := s.(attempts := s.attempts + 1);
    match plan
    case None => (false, s1)
    case Some(steps) =>
      var (n, ok) := Transmit(steps, outcomes);
      (ok, s1.(sent := s.sent + Tagged(id, steps[..n])))
  }

  /** What Send and Launch have in common: one attempt, and after a failure with a live context one
      reconnect and one replay. The plan may depend on the session's power state. */
  function WithReplay(s: State, cfg: Config, plan: PowerState -> Option<seq<Step>>, env: Env): (bool, State) {
    match Ensure(s, cfg, env.dialOk)
    case (None, s1) => (false, s1)
    case (Some(id), s1) =>
      match AttemptSteps(s1, id, plan(env.attempt.power), env.attempt.outcomes)
      case (true, s2) => (true, s2)
      case (false, s2) =>
        if env.ctxDone then (false, s2)
        else
          match Ensure(Close(s2), cfg, env.redialOk)
          case (None, s3) => (false, s3)
          case (Some(id2), s3) => AttemptSteps(s3, id2, plan(env.replay.power), env.replay.outcomes)
  }

  datatype Call =
    | Send(cfg: Config, act: Action, env: Env)
    | Launch(cfg: Config, link: string, env: Env)
    | Warmup(cfg: Config, dialOk: bool)

  function PlanOf(c: Call): PowerState -> Option<seq<Step>>
    requires !c.Warmup?
  {
    match c
    case Send(_, act, _) => p => Plan(act, p)
    case Launch(_, link, _) => p => Some([AppLink(link)])
  }

  function Perform(s: State, c: Call): (bool, State) {
    match c
    case Warmup(cfg, dialOk) => (Ensure(s, cfg, dialOk).0.Some?, Ensure(s, cfg, dialOk).1)
    case _ => WithReplay(s, c.cfg, PlanOf(c), c.env)
  }

  function PerformAll(s: State, calls: seq<Call>): State
    decreases |calls|
  {
    if calls == [] then s else PerformAll(Perform(s, calls[0]).1, calls[1..])
  }

  // ------------------------------------------------------------------ the object

  /** What a successful send returns; None stands for the nil result. */
  datatype SendKeyResult = SendKeyResult(session: nat, last: Step)

  class Sender {
    var session: Option<nat>
    var config: Config
    var dialed: seq<Config>
    var closed: seq<nat>
    var sent: seq<(nat, Step)>
    var dials: nat
    var attempts: nat

    ghost function Now(): State
      reads this
    {
      State(session, config, dialed, closed, sent, dials, attempts)
    }

    /** The result tells the last step that went out and on which session. */
    ghost predicate LastSent(r: SendKeyResult)
      reads this
    {
      sent != [] && sent[|sent| - 1] == (r.session, r.last)
    }

    constructor ()
      ensures Now() == START
    {
      session, config := None, ZERO;
      dialed, closed, sent, dials, attempts := [], [], [], 0, 0;
    }

    method CloseSession()
      modifies this
      ensures Now() == Close(old(Now()))
    {
      if session.Some? {
        closed := closed + [session.value];
        session := None;
      }
      config := ZERO;
    }

    method EnsureSession(cfg: Config, dialOk: bool) returns (id: Option<nat>)
      modifies this
      ensures (id, Now()) == Ensure(old(Now()), cfg, dialOk)
    {
      if session.Some? && config == cfg {
        return session;
      }
      CloseSession();
      dials := dials + 1;
      if !dialOk {
        return None;
      }
      session := Some(|dialed|);
      dialed := dialed + [cfg];
      config := cfg;
      return session;
    }

    /** Runs the plan for the session's power state step by step. */
    method SendAction(id: nat, plan: Option<seq<Step>>, outcomes: seq<StepOutcome>)
      returns (ok: bool, result: Option<SendKeyResult>)
      modifies this
      ensures (ok, Now()) == AttemptSteps(old(Now()), id, plan, outcomes)
      ensures ok && plan.value != [] ==>
                result == Some(SendKeyResult(id, plan.value[|plan.value| - 1])) && LastSent(result.value)
    {
      hide Transmit, Tagged;
      attempts := attempts + 1;
      ok, result := false, None;
      if plan.None? {
        return;
      }
      var steps, i := plan.value, 0;
      assert steps[0..] == steps && outcomes[0..] == outcomes;
      ghost var total := Transmit(steps, outcomes);
      NothingTagged(id, steps);
      assert sent + [] == sent;
      while i < |steps|
        invariant 0 <= i <= |steps| && i <= |outcomes|
        invariant total == var t := Transmit(steps[i..], outcomes[i..]); (i + t.0, t.1)
        invariant Now() == old(Now()).(attempts := old(attempts) + 1, sent := old(sent) + Tagged(id, steps[..i]))
        invariant i > 0 ==> result == Some(SendKeyResult(id, steps[i - 1]))
      {
        TransmitStep(steps, outcomes, i);
        if i >= |outcomes| || outcomes[i].NotSent? {
          return false, None;
        }
        TagOneMore(old(sent), id, steps, i);
        sent := sent + [(id, steps[i])];
        if outcomes[i].SentThenFailed? {
          return false, None;
        }
        result := Some(SendKeyResult(id, steps[i]));
        i := i + 1;
      }
      TransmitNothing(outcomes[i..]);
      assert steps[i..] == [] && steps[..i] == steps;
      LastTagged(old(sent), id, steps);
      return true, result;
    }

    /** Send and Launch: the result is present whenever a non-empty plan succeeded. */
    method SendWithPersistentSession(cfg: Config, plan: PowerState -> Option<seq<Step>>, env: Env)
      returns (ok: bool, result: Option<SendKeyResult>)
      requires forall p :: plan(p).Some? ==> plan(p).value != []
      modifies this
      ensures (ok, Now()) == WithReplay(old(Now()), cfg, plan, env)
      ensures ok ==> result.Some? && LastSent(result.value)
    {
      var id := EnsureSession(cfg, env.dialOk);
      if id.None? {
        return false, None;
      }
      ok, result := SendAction(id.value, plan(env.attempt.power), env.attempt.outcomes);
      if ok {
        return;
      }
      if env.ctxDone {
        return false, None;
      }
      CloseSession();
      id := EnsureSession(cfg, env.redialOk);
      if id.None? {
        return false, None;
      }
      ok, result := SendAction(id.value, plan(env.replay.power), env.replay.outcomes);
    }

    method Send(cfg: Config, act: Action, env: Env) returns (ok: bool, result: Option<SendKeyResult>)
      modifies this
      ensures (ok, Now()) == Perform(old(Now()), Call.Send(cfg, act, env))
      ensures ok ==> result.Some? && LastSent(result.value)
    {
      ok, result := SendWithPersistentSession(cfg, PlanOf(Call.Send(cfg, act, env)), env);
    }

    method Launch(cfg: Config, link: string, env: Env) returns (ok: bool)
      modifies this
      ensures (ok, Now()) == Perform(old(Now()), Call.Launch(cfg, link, env))
    {
      var result: Option<SendKeyResult>;
      ok, result := SendWithPersistentSession(cfg, PlanOf(Call.Launch(cfg, link, env)), env);
    }

    method Warmup(cfg: Config, dialOk: bool) returns (ok: bool)
      modifies this
      ensures (ok, Now()) == Perform(old(Now()), Call.Warmup(cfg, dialOk))
    {
      var id := EnsureSession(cfg, dialOk);
      return id.Some?;
    }
  }

  // ------------------------------------------------------------------ the cache

  /** At most one session is open and it is the cached one, dialed with exactly the stored configuration;
      without a session there is no configuration. */
  ghost predicate CacheInv(s: State) {
    && (s.session.None? ==> s.config == ZERO)
    && (s.session.Some? ==> s.session.value < |s.dialed| && s.dialed[s.session.value] == s.config)
    && (forall id: nat :: id in s.closed <==> id < |s.dialed| && s.session != Some(id))
    && |s.closed| + (if s.session.Some? then 1 else 0) == |s.dialed|
  }

  lemma CloseInv(s: State)
    requires CacheInv(s)
    ensures CacheInv(Close(s))
    ensures Close(s) == s.(session := None, config := ZERO, closed := Close(s).closed)
  {
  }

  lemma EnsureInv(s: State, cfg: Config, dialOk: bool)
    requires CacheInv(s)
    ensures var (id, s') := Ensure(s, cfg, dialOk);
            && CacheInv(s') && id == s'.session && s.dialed <= s'.dialed
            && (id.Some? ==> s'.config == cfg && s'.dialed[id.value] == cfg)
            && s'.sent == s.sent && s'.attempts == s.attempts && s.dials <= s'.dials <= s.dials + 1
  {
  }

  /** The steps this call put on the wire, in order. */
  function Added(s: State, s': State): seq<(nat, Step)>
    requires s.sent <= s'.sent
  {
    s'.sent[|s.sent|..]
  }

  /** One attempt on a session dialed with cfg: the steps that went out are a beginning of its plan. */
  lemma AttemptLaw(s: State, id: nat, cfg: Config, plan: Option<seq<Step>>, outcomes: seq<StepOutcome>)
    requires CacheInv(s) && s.session == Some(id) && s.config == cfg
    ensures var (ok, s') := AttemptSteps(s, id, plan, outcomes);
            var n := Count(plan, outcomes);
            && CacheInv(s') && s' == s.(attempts := s.attempts + 1, sent := s.sent + Tagged(id, StepsOf(plan)[..n]))
            && (ok ==> plan.Some? && n == |plan.value|)
  {
    assert s.sent + Tagged(id, []) == s.sent;
  }

  function Count(plan: Option<seq<Step>>, outcomes: seq<StepOutcome>): (n: nat)
    ensures n <= |StepsOf(plan)|
  {
    if plan.Some? then Transmit(plan.value, outcomes).0 else 0
  }

  /** All these steps went out on sessions dialed with cfg. */
  ghost predicate OnConfig(sent: seq<(nat, Step)>, dialed: seq<Config>, cfg: Config) {
    forall i :: 0 <= i < |sent| ==> sent[i].0 < |dialed| && dialed[sent[i].0] == cfg
  }

  /** Everything about one Send or Launch: the cache stays sound; at most two dials and two attempts, and
      only one of each once the context is done; every step goes out on a session dialed with this call's
      configuration; and the steps are a beginning of the first plan, followed perhaps by a beginning of
      the plan recomputed for the second session, the last one complete if the call succeeds. */
  lemma CallLaw(s: State, cfg: Config, plan: PowerState -> Option<seq<Step>>, env: Env)
    requires CacheInv(s)
    ensures var (ok, s') := WithReplay(s, cfg, plan, env);
            && CacheInv(s') && s.dialed <= s'.dialed && s.sent <= s'.sent
            && s'.dials <= s.dials + 2 && s'.attempts <= s.attempts + 2
            && (env.ctxDone ==> s'.dials <= s.dials + 1 && s'.attempts <= s.attempts + 1)
            && OnConfig(Added(s, s'), s'.dialed, cfg)
            && ReplayShape(Added(s, s'), plan(env.attempt.power), plan(env.replay.power), ok)
  {
    hide CacheInv, AttemptSteps, Ensure, Close, Transmit, Count, ReplayShape, Tagged, OnConfig;
    var p1, p2 := plan(env.attempt.power), plan(env.replay.power);
    EnsureInv(s, cfg, env.dialOk);
    var (id, s1) := Ensure(s, cfg, env.dialOk);
    if id.None? {
      assert Added(s, s1) == Tagged(0, StepsOf(p1)[..0]);
      OnePart(Added(s, s1), 0, p1, 0, p2, false);
      NothingOnConfig(s1.dialed, cfg);
      assert Added(s, s1) == [];
    } else {
      AttemptLaw(s1, id.value, cfg, p1, env.attempt.outcomes);
      var (ok1, s2) := AttemptSteps(s1, id.value, p1, env.attempt.outcomes);
      var n1 := Count(p1, env.attempt.outcomes);
      var a := Tagged(id.value, StepsOf(p1)[..n1]);
      assert Added(s, s2) == a;
      OnePart(a, id.value, p1, n1, p2, ok1);
      TaggedOnConfig(id.value, StepsOf(p1)[..n1], s2.dialed, cfg);
      if !ok1 && !env.ctxDone {
        ReplayLaw(s, s2, id.value, cfg, p1, n1, p2, env);
      }
    }
  }

  lemma NothingOnConfig(dialed: seq<Config>, cfg: Config)
    ensures OnConfig([], dialed, cfg)
  {
  }

  lemma TaggedOnConfig(id: nat, steps: seq<Step>, dialed: seq<Config>, cfg: Config)
    requires id < |dialed| && dialed[id] == cfg
    ensures OnConfig(Tagged(id, steps), dialed, cfg)
  {
  }

  lemma OnConfigGrows(a: seq<(nat, Step)>, b: seq<(nat, Step)>, dialed: seq<Config>, dialed': seq<Config>, cfg: Config)
    requires dialed <= dialed' && OnConfig(a, dialed, cfg) && OnConfig(b, dialed', cfg)
    ensures OnConfig(a + b, dialed', cfg)
  {
  }

  /** The reconnect and the replay, after a first attempt on session id1 put n1 steps of p1 on the wire. */
  lemma ReplayLaw(s: State, s2: State, id1: nat, cfg: Config, p1: Option<seq<Step>>, n1: nat,
                  p2: Option<seq<Step>>, env: Env)
    requires CacheInv(s2) && s2.session == Some(id1) && n1 <= |StepsOf(p1)|
    requires s2.sent == s.sent + Tagged(id1, StepsOf(p1)[..n1])
    requires OnConfig(Tagged(id1, StepsOf(p1)[..n1]), s2.dialed, cfg)
    ensures var (id2, s3) := Ensure(Close(s2), cfg, env.redialOk);
            var (ok, s') := if id2.None? then (false, s3) else AttemptSteps(s3, id2.value, p2, env.replay.outcomes);
            && CacheInv(s') && s2.dialed <= s'.dialed && s.sent <= s'.sent
            && s'.dials <= s2.dials + 1 && s'.attempts <= s2.attempts + 1
            && OnConfig(Added(s, s'), s'.dialed, cfg)
            && ReplayShape(Added(s, s'), p1, p2, ok)
  {
    hide CacheInv, AttemptSteps, Ensure, Close, Transmit, Tagged, OnConfig, ReplayShape;
    var a := Tagged(id1, StepsOf(p1)[..n1]);
    CloseInv(s2);
    EnsureInv(Close(s2), cfg, env.redialOk);
    var (id2, s3) := Ensure(Close(s2), cfg, env.redialOk);
    KeptOnConfig(a, s2.dialed, s3.dialed, cfg);
    if id2.None? {
      NoReplay(s, s3, id1, p1, n1, p2);
    } else {
      FreshSession(s2, cfg, env.redialOk);
      ReplayAttempt(s, s3, id1, id2.value, cfg, p1, n1, p2, env.replay.outcomes);
    }
  }

  /** The second dial failed: what went out is what the first attempt sent. */
  lemma NoReplay(s: State, s3: State, id1: nat, p1: Option<seq<Step>>, n1: nat, p2: Option<seq<Step>>)
    requires n1 <= |StepsOf(p1)| && s3.sent == s.sent + Tagged(id1, StepsOf(p1)[..n1])
    ensures s.sent <= s3.sent && Added(s, s3) == Tagged(id1, StepsOf(p1)[..n1])
    ensures ReplayShape(Added(s, s3), p1, p2, false)
  {
    hide ReplayShape, Tagged;
    OnePart(Tagged(id1, StepsOf(p1)[..n1]), id1, p1, n1, p2, false);
  }

  /** The second attempt, on another session than the first. */
  lemma ReplayAttempt(s: State, s3: State, id1: nat, id2: nat, cfg: Config, p1: Option<seq<Step>>, n1: nat,
                      p2: Option<seq<Step>>, outcomes: seq<StepOutcome>)
    requires CacheInv(s3) && s3.session == Some(id2) && s3.config == cfg && id1 != id2 && n1 <= |StepsOf(p1)|
    requires s3.sent == s.sent + Tagged(id1, StepsOf(p1)[..n1])
    requires OnConfig(Tagged(id1, StepsOf(p1)[..n1]), s3.dialed, cfg)
    requires id2 < |s3.dialed| && s3.dialed[id2] == cfg
    ensures var (ok, s') := AttemptSteps(s3, id2, p2, outcomes);
            && CacheInv(s') && s'.dialed == s3.dialed && s.sent <= s'.sent
            && s'.dials == s3.dials && s'.attempts == s3.attempts + 1
            && OnConfig(Added(s, s'), s'.dialed, cfg)
            && ReplayShape(Added(s, s'), p1, p2, ok)
  {
    hide CacheInv, AttemptSteps, Tagged, OnConfig, ReplayShape, Count;
    AttemptLaw(s3, id2, cfg, p2, outcomes);
    var (ok, s') := AttemptSteps(s3, id2, p2, outcomes);
    var n2 := Count(p2, outcomes);
    var a, b := Tagged(id1, StepsOf(p1)[..n1]), Tagged(id2, StepsOf(p2)[..n2]);
    AddedTwice(s.sent, a, b);
    assert Added(s, s') == a + b;
    TaggedOnConfig(id2, StepsOf(p2)[..n2], s3.dialed, cfg);
    OnConfigGrows(a, b, s3.dialed, s3.dialed, cfg);
    BothParts(a + b, id1, id2, p1, p2, n1, n2, ok);
  }

  lemma AddedTwice(sent: seq<(nat, Step)>, a: seq<(nat, Step)>, b: seq<(nat, Step)>)
    ensures sent <= sent + a + b && (sent + a + b)[|sent|..] == a + b
  {
  }

  lemma BothParts(sent: seq<(nat, Step)>, id1: nat, id2: nat, p1: Option<seq<Step>>, p2: Option<seq<Step>>,
                  n1: nat, n2: nat, ok: bool)
    requires TwoParts(sent, id1, id2, p1, p2, n1, n2) && id1 != id2
    requires ok ==> p2.Some? && n2 == |p2.value|
    ensures ReplayShape(sent, p1, p2, ok)
  {
    hide TwoParts;
  }

  lemma KeptOnConfig(a: seq<(nat, Step)>, dialed: seq<Config>, dialed': seq<Config>, cfg: Config)
    requires dialed <= dialed' && OnConfig(a, dialed, cfg)
    ensures OnConfig(a, dialed', cfg)
  {
  }

  /** After closing, a new session has a new number. */
  lemma FreshSession(s: State, cfg: Config, dialOk: bool)
    requires CacheInv(s) && Ensure(Close(s), cfg, dialOk).0.Some?
    ensures s.session != Ensure(Close(s), cfg, dialOk).0
  {
  }

  function StepsOf(plan: Option<seq<Step>>): seq<Step> {
    if plan.Some? then plan.value else []
  }

  /** sent is n1 steps of the first plan on one session, then n2 of the second on another. */
  ghost predicate TwoParts(sent: seq<(nat, Step)>, id1: nat, id2: nat,
                           p1: Option<seq<Step>>, p2: Option<seq<Step>>, n1: nat, n2: nat) {
    && n1 <= |StepsOf(p1)| && n2 <= |StepsOf(p2)|
    && sent == Tagged(id1, StepsOf(p1)[..n1]) + Tagged(id2, StepsOf(p2)[..n2])
  }

  ghost predicate ReplayShape(sent: seq<(nat, Step)>, p1: Option<seq<Step>>, p2: Option<seq<Step>>, ok: bool) {
    exists id1: nat, id2: nat, n1: nat, n2: nat ::
      && TwoParts(sent, id1, id2, p1, p2, n1, n2)
      && (n2 > 0 ==> id1 != id2)
      && (ok ==> (p1.Some? && n1 == |p1.value| && n2 == 0) || (p2.Some? && n2 == |p2.value|))
  }

  lemma OnePart(a: seq<(nat, Step)>, id: nat, p1: Option<seq<Step>>, n1: nat, p2: Option<seq<Step>>, ok: bool)
    requires n1 <= |StepsOf(p1)| && a == Tagged(id, StepsOf(p1)[..n1])
    requires ok ==> p1.Some? && n1 == |p1.value|
    ensures ReplayShape(a, p1, p2, ok)
  {
    assert a == a + Tagged(id, StepsOf(p2)[..0]);
    assert TwoParts(a, id, id, p1, p2, n1, 0);
  }

  /** The plan of a key: exactly that key, except that Home and Power on a device known to be off become
      the wake-up app link followed by Home. It is never empty. */
  lemma PlanShape(act: Action, power: PowerState)
    ensures Plan(act, power).None? <==> act.Unsupported?
    ensures !act.Unsupported? ==>
              if power == PowerState(false, true) && act in {Home, Power}
              then Plan(act, power).value == [AppLink(WAKE_LAUNCH_PACKAGE), Key(Home)]
              else Plan(act, power).value == [Key(act)]
  {
  }

  /** Every step of the plan has the outcome that it went out. */
  ghost predicate AllGoOut(plan: Option<seq<Step>>, outcomes: seq<StepOutcome>) {
    plan.Some? && |plan.value| <= |outcomes| && forall i :: 0 <= i < |plan.value| ==> outcomes[i] == Sent
  }

  /** The first n steps are those that go out: the ones before the last without failing, and where they stop
      short of the plan the last one failed or the next one did not go out. */
  ghost predicate GoesOut(plan: seq<Step>, outcomes: seq<StepOutcome>, n: nat) {
    && n <= |plan| && n <= |outcomes|
    && (forall i :: 0 <= i < n ==> outcomes[i] != NotSent)
    && (forall i :: 0 <= i < n - 1 ==> outcomes[i] == Sent)
    && (n < |plan| && (n == 0 || outcomes[n - 1] == Sent) ==> n == |outcomes| || outcomes[n] == NotSent)
  }

  /** How many steps of a plan go out, and that it succeeds exactly if all of them do without failing. */
  lemma {:induction false} TransmitExact(plan: seq<Step>, outcomes: seq<StepOutcome>)
    ensures GoesOut(plan, outcomes, Transmit(plan, outcomes).0)
    ensures Transmit(plan, outcomes).1 <==> AllGoOut(Some(plan), outcomes)
  {
    if plan != [] && outcomes != [] && outcomes[0] == Sent {
      var rest := outcomes[1..];
      TransmitExact(plan[1..], rest);
      assert forall i :: 0 <= i < |rest| ==> rest[i] == outcomes[i + 1];
      assert forall i :: 0 < i < |outcomes| ==> outcomes[i] == rest[i - 1];
    }
  }

  /** That number is determined. */
  lemma GoesOutOnce(plan: seq<Step>, outcomes: seq<StepOutcome>, m: nat, n: nat)
    requires GoesOut(plan, outcomes, m) && GoesOut(plan, outcomes, n)
    ensures m == n
  {
  }

  lemma AttemptExact(s: State, id: nat, plan: Option<seq<Step>>, outcomes: seq<StepOutcome>)
    ensures AttemptSteps(s, id, plan, outcomes).0 <==> AllGoOut(plan, outcomes)
    ensures GoesOut(StepsOf(plan), outcomes, Count(plan, outcomes))
    ensures AttemptSteps(s, id, plan, outcomes).1 ==
            s.(attempts := s.attempts + 1, sent := s.sent + Tagged(id, StepsOf(plan)[..Count(plan, outcomes)]))
  {
    hide Transmit;
    assert s.sent + Tagged(id, []) == s.sent;
    if plan.Some? {
      TransmitExact(plan.value, outcomes);
    }
  }

  /** The first attempt of a call fails: its plan does not exist or one of the steps does not succeed. */
  ghost predicate FirstAttemptFails(plan: PowerState -> Option<seq<Step>>, env: Env) {
    !AllGoOut(plan(env.attempt.power), env.attempt.outcomes)
  }

  /** The steps that carry out an action on a device in this power state. */
  function StepsFor(act: Action, power: PowerState): seq<Step> {
    if power == PowerState(false, true) && act in {Home, Power} then [AppLink(WAKE_LAUNCH_PACKAGE), Key(Home)]
    else [Key(act)]
  }

  /** None of these steps went out on session id. */
  ghost predicate Elsewhere(sent: seq<(nat, Step)>, id: nat) {
    forall i :: 0 <= i < |sent| ==> sent[i].0 != id
  }

  /** These steps went out on session id, once and after everything else, which went out elsewhere; alone if
      there was nothing else. */
  ghost predicate SentLast(added: seq<(nat, Step)>, id: nat, steps: seq<Step>, alone: bool) {
    var n := |added| - |steps|;
    n >= 0 && added[n..] == Tagged(id, steps) && Elsewhere(added[..n], id) && (alone ==> n == 0)
  }

  lemma SentAlone(id: nat, steps: seq<Step>)
    ensures SentLast(Tagged(id, steps), id, steps, true)
  {
  }

  lemma SentAfter(id1: nat, steps1: seq<Step>, id2: nat, steps2: seq<Step>)
    requires id1 != id2
    ensures SentLast(Tagged(id1, steps1) + Tagged(id2, steps2), id2, steps2, false)
  {
    hide Elsewhere, Tagged;
    var a, b := Tagged(id1, steps1), Tagged(id2, steps2);
    TaggedElsewhere(id1, steps1, id2);
    assert (a + b)[|a|..] == b && (a + b)[..|a|] == a;
  }

  /** An attempt that succeeds sends its whole plan. */
  lemma WholePlan(s: State, id: nat, cfg: Config, plan: Option<seq<Step>>, outcomes: seq<StepOutcome>)
    requires CacheInv(s) && s.session == Some(id) && s.config == cfg && AttemptSteps(s, id, plan, outcomes).0
    ensures plan.Some?
    ensures AttemptSteps(s, id, plan, outcomes).1 == s.(attempts := s.attempts + 1, sent := s.sent + Tagged(id, plan.value))
  {
    hide CacheInv, AttemptSteps, Tagged, Count;
    AttemptLaw(s, id, cfg, plan, outcomes);
    assert plan.value[..|plan.value|] == plan.value;
  }

  lemma FailsAsPlanned(s: State, id: nat, plan: PowerState -> Option<seq<Step>>, env: Env)
    ensures AttemptSteps(s, id, plan(env.attempt.power), env.attempt.outcomes).0 <==> !FirstAttemptFails(plan, env)
  {
    hide AttemptSteps, AllGoOut, GoesOut;
    AttemptExact(s, id, plan(env.attempt.power), env.attempt.outcomes);
  }

  /** A successful Send or Launch sent a whole plan, that of the session it leaves cached, dialed for this
      call, last of all and once; if the first attempt succeeded, nothing else. */
  lemma SuccessfulCall(s: State, cfg: Config, plan: PowerState -> Option<seq<Step>>, env: Env)
    requires CacheInv(s) && WithReplay(s, cfg, plan, env).0
    ensures var s' := WithReplay(s, cfg, plan, env).1;
            var failed := FirstAttemptFails(plan, env);
            var done := plan(if failed then env.replay.power else env.attempt.power);
            && s'.session.Some? && s'.config == cfg && s.sent <= s'.sent && done.Some?
            && SentLast(Added(s, s'), s'.session.value, done.value, !failed)
  {
    hide CacheInv, Ensure, AttemptSteps, Close, Tagged, SentLast, FirstAttemptFails, Count;
    var p1, p2 := plan(env.attempt.power), plan(env.replay.power);
    EnsureInv(s, cfg, env.dialOk);
    var (id, s1) := Ensure(s, cfg, env.dialOk);
    FailsAsPlanned(s1, id.value, plan, env);
    var (ok1, s2) := AttemptSteps(s1, id.value, p1, env.attempt.outcomes);
    if ok1 {
      WholePlan(s1, id.value, cfg, p1, env.attempt.outcomes);
      SentAlone(id.value, p1.value);
    } else {
      AttemptLaw(s1, id.value, cfg, p1, env.attempt.outcomes);
      CloseInv(s2);
      EnsureInv(Close(s2), cfg, env.redialOk);
      FreshSession(s2, cfg, env.redialOk);
      var (id2, s3) := Ensure(Close(s2), cfg, env.redialOk);
      WholePlan(s3, id2.value, cfg, p2, env.replay.outcomes);
      var steps1 := StepsOf(p1)[..Count(p1, env.attempt.outcomes)];
      AddedTwice(s.sent, Tagged(id.value, steps1), Tagged(id2.value, p2.value));
      SentAfter(id.value, steps1, id2.value, p2.value);
    }
  }

  /** What a successful Send did: on the session it leaves cached it sent exactly the steps that the action
      takes in that session's power state. */
  lemma SuccessfulSend(s: State, cfg: Config, act: Action, env: Env)
    requires CacheInv(s) && Perform(s, Send(cfg, act, env)).0
    ensures var s' := Perform(s, Send(cfg, act, env)).1;
            var failed := FirstAttemptFails(PlanOf(Send(cfg, act, env)), env);
            var steps := StepsFor(act, if failed then env.replay.power else env.attempt.power);
            && !act.Unsupported? && s'.session.Some? && s'.config == cfg && s.sent <= s'.sent
            && SentLast(Added(s, s'), s'.session.value, steps, !failed)
  {
    hide CacheInv, WithReplay, FirstAttemptFails, SentLast, Plan;
    SuccessfulCall(s, cfg, PlanOf(Send(cfg, act, env)), env);
    PlanShape(act, env.attempt.power);
    PlanShape(act, env.replay.power);
  }

  /** A Send succeeds exactly if the remote has the action, there is a session, and all its steps for the power state
      of the first session go out or, with a live context and a second dial that works, all those for the second. */
  lemma SendExact(s: State, cfg: Config, act: Action, env: Env)
    ensures Perform(s, Send(cfg, act, env)).0 <==>
            && !act.Unsupported? && Available(s, cfg, env.dialOk)
            && (|| AllGoOut(Some(StepsFor(act, env.attempt.power)), env.attempt.outcomes)
                || (!env.ctxDone && env.redialOk && AllGoOut(Some(StepsFor(act, env.replay.power)), env.replay.outcomes)))
  {
    hide WithReplay, AllGoOut, Plan, StepsFor;
    CallExact(s, cfg, PlanOf(Send(cfg, act, env)), env);
    PlanFor(act, env.attempt.power);
    PlanFor(act, env.replay.power);
    NoPlan(env.attempt.outcomes);
    NoPlan(env.replay.outcomes);
  }

  lemma PlanFor(act: Action, power: PowerState)
    ensures Plan(act, power) == if act.Unsupported? then None else Some(StepsFor(act, power))
  {
  }

  lemma NoPlan(outcomes: seq<StepOutcome>)
    ensures !AllGoOut(None, outcomes)
  {
  }

  /** What a Launch does: it succeeds exactly if the link goes out on some session, and a success sent that link and
      nothing after it on the session it leaves cached. */
  lemma LaunchSends(s: State, cfg: Config, link: string, env: Env)
    requires CacheInv(s)
    ensures var (ok, s') := Perform(s, Launch(cfg, link, env));
            var first := env.attempt.outcomes != [] && env.attempt.outcomes[0] == Sent;
            var second := env.replay.outcomes != [] && env.replay.outcomes[0] == Sent;
            && (ok <==> Available(s, cfg, env.dialOk) && (first || (!env.ctxDone && env.redialOk && second)))
            && s.sent <= s'.sent
            && (ok ==> s'.session.Some? && s'.config == cfg
                       && SentLast(Added(s, s'), s'.session.value, [AppLink(link)], first))
  {
    hide CacheInv, WithReplay, SentLast;
    var plan := PlanOf(Launch(cfg, link, env));
    CallExact(s, cfg, plan, env);
    CallLaw(s, cfg, plan, env);
    if WithReplay(s, cfg, plan, env).0 {
      SuccessfulCall(s, cfg, plan, env);
    }
  }

  lemma TaggedElsewhere(id: nat, steps: seq<Step>, other: nat)
    requires id != other
    ensures Elsewhere(Tagged(id, steps), other)
  {
  }

  lemma PerformInv(s: State, c: Call)
    requires CacheInv(s)
    ensures CacheInv(Perform(s, c).1)
  {
    hide CacheInv, WithReplay, Ensure;
    match c
    case Warmup(cfg, dialOk) => EnsureInv(s, cfg, dialOk);
    case _ => CallLaw(s, c.cfg, PlanOf(c), c.env);
  }

  lemma {:induction false} RunInv(s: State, calls: seq<Call>)
    requires CacheInv(s)
    ensures CacheInv(PerformAll(s, calls))
    decreases |calls|
  {
    hide CacheInv, Perform;
    if calls != [] {
      PerformInv(s, calls[0]);
      RunInv(Perform(s, calls[0]).1, calls[1..]);
    }
  }

  /** Over any sequence of Send, Launch and Warmup calls: as many sessions are open as are cached, none or
      one, and the cached one was dialed with exactly the stored configuration. */
  lemma CacheIsSound(calls: seq<Call>)
    ensures var s := PerformAll(START, calls);
            && |s.dialed| - |s.closed| == (if s.session.Some? then 1 else 0)
            && (s.session.None? ==> s.config == ZERO)
            && (s.session.Some? ==> s.session.value < |s.dialed| && s.dialed[s.session.value] == s.config
                                    && s.session.value !in s.closed)
  {
    RunInv(START, calls);
  }

  /** When a Send or Launch costs the session that was cached: exactly if it is for another configuration, or
      the first attempt fails while the context is live. */
  lemma SessionLostExactly(s: State, cfg: Config, plan: PowerState -> Option<seq<Step>>, env: Env)
    requires CacheInv(s) && s.session.Some?
    ensures s.session.value in WithReplay(s, cfg, plan, env).1.closed <==>
            s.config != cfg || (FirstAttemptFails(plan, env) && !env.ctxDone)
  {
    hide Tagged, StepsOf, Transmit, FirstAttemptFails;
    var id := s.session.value;
    EnsureInv(s, cfg, env.dialOk);
    if s.config == cfg {
      assert Ensure(s, cfg, env.dialOk) == (Some(id), s);
      FailsAsPlanned(s, id, plan, env);
    } else {
      assert id in Close(s).closed;
    }
  }

  /** What a Send or Launch leaves in the cache after a first attempt: the session it ran on if that succeeded
      or the context is done, otherwise the outcome of the second dial. */
  lemma SessionLeftExactly(s: State, cfg: Config, plan: PowerState -> Option<seq<Step>>, env: Env)
    requires CacheInv(s) && Ensure(s, cfg, env.dialOk).0.Some?
    ensures var (id, s1) := Ensure(s, cfg, env.dialOk);
            var s' := WithReplay(s, cfg, plan, env).1;
            && (s'.session == id <==> !FirstAttemptFails(plan, env) || env.ctxDone)
            && (s'.session.None? <==> FirstAttemptFails(plan, env) && !env.ctxDone && !env.redialOk)
  {
    EnsureInv(s, cfg, env.dialOk);
    var (id, s1) := Ensure(s, cfg, env.dialOk);
    FailsAsPlanned(s1, id.value, plan, env);
  }

  /** An action the remote does not have never succeeds and sends nothing. It costs the cached session exactly
      if the context is live; the session is then dialed again, and the cache is empty if that fails too. */
  lemma UnsupportedReconnects(s: State, name: string, env: Env)
    requires CacheInv(s) && s.session.Some?
    ensures var (ok, s') := Perform(s, Send(s.config, Unsupported(name), env));
            && !ok && s'.sent == s.sent
            && (s.session.value in s'.closed <==> !env.ctxDone)
            && s'.dials == s.dials + (if env.ctxDone then 0 else 1)
            && (s'.session.None? <==> !env.ctxDone && !env.redialOk)
  {
    var c := Send(s.config, Unsupported(name), env);
    assert FirstAttemptFails(PlanOf(c), env);
    SessionLostExactly(s, s.config, PlanOf(c), env);
    SessionLeftExactly(s, s.config, PlanOf(c), env);
  }

  // ------------------------------------------------------------------ exactly what a call does

  /** A session for this configuration is cached, or can be dialed. */
  predicate Available(s: State, cfg: Config, dialOk: bool) {
    (s.session.Some? && s.config == cfg) || dialOk
  }

  lemma EnsureExact(s: State, cfg: Config, dialOk: bool)
    ensures Ensure(s, cfg, dialOk).0.Some? <==> Available(s, cfg, dialOk)
    ensures Ensure(s, cfg, dialOk).1.dials == s.dials + if s.session.Some? && s.config == cfg then 0 else 1
    ensures s.session.Some? && s.config == cfg ==> Ensure(s, cfg, dialOk) == (s.session, s)
  {
  }

  /** The first attempt is made and fails while the context is live. */
  ghost predicate Retries(s: State, cfg: Config, plan: PowerState -> Option<seq<Step>>, env: Env) {
    Available(s, cfg, env.dialOk) && !AllGoOut(plan(env.attempt.power), env.attempt.outcomes) && !env.ctxDone
  }

  /** When a Send or Launch succeeds: exactly if there is a session and either every step of the plan goes out
      on it or, with a live context, the second dial works and every step of the plan recomputed for the new
      session goes out. And exactly how often it dialed and tried. */
  lemma CallExact(s: State, cfg: Config, plan: PowerState -> Option<seq<Step>>, env: Env)
    ensures var (ok, s') := WithReplay(s, cfg, plan, env);
            && (ok <==>
                || (Available(s, cfg, env.dialOk) && AllGoOut(plan(env.attempt.power), env.attempt.outcomes))
                || (Retries(s, cfg, plan, env) && env.redialOk
                    && AllGoOut(plan(env.replay.power), env.replay.outcomes)))
            && s'.dials == s.dials + (if s.session.Some? && s.config == cfg then 0 else 1)
                                   + (if Retries(s, cfg, plan, env) then 1 else 0)
            && s'.attempts == s.attempts + (if Available(s, cfg, env.dialOk) then 1 else 0)
                                         + (if Retries(s, cfg, plan, env) && env.redialOk then 1 else 0)
  {
    hide AttemptSteps, Ensure, AllGoOut, GoesOut, Tagged, Count;
    EnsureExact(s, cfg, env.dialOk);
    var (id, s1) := Ensure(s, cfg, env.dialOk);
    EnsureKeepsAttempts(s, cfg, env.dialOk);
    if id.Some? {
      AttemptExact(s1, id.value, plan(env.attempt.power), env.attempt.outcomes);
      var s2 := AttemptSteps(s1, id.value, plan(env.attempt.power), env.attempt.outcomes).1;
      EnsureExact(Close(s2), cfg, env.redialOk);
      EnsureKeepsAttempts(Close(s2), cfg, env.redialOk);
      var (id2, s3) := Ensure(Close(s2), cfg, env.redialOk);
      if id2.Some? {
        AttemptExact(s3, id2.value, plan(env.replay.power), env.replay.outcomes);
      }
    }
  }

  lemma EnsureKeepsAttempts(s: State, cfg: Config, dialOk: bool)
    ensures var s' := Ensure(s, cfg, dialOk).1; s'.attempts == s.attempts && s'.sent == s.sent
  {
  }

  /** Exactly what a Send or Launch puts on the wire: what goes out of the plan on the session it starts with
      and then, if it retries and the second dial works, what goes out of the recomputed plan on the session it
      leaves cached. */
  lemma StepsExact(s: State, cfg: Config, plan: PowerState -> Option<seq<Step>>, env: Env)
    requires Available(s, cfg, env.dialOk)
    ensures var s' := WithReplay(s, cfg, plan, env).1;
            var id1 := Ensure(s, cfg, env.dialOk).0.value;
            var p1, p2 := StepsOf(plan(env.attempt.power)), StepsOf(plan(env.replay.power));
            var again := Retries(s, cfg, plan, env) && env.redialOk;
            && (again ==> s'.session.Some?)
            && exists n1: nat, n2: nat ::
                 && GoesOut(p1, env.attempt.outcomes, n1) && GoesOut(p2, env.replay.outcomes, n2)
                 && s'.sent == s.sent + Tagged(id1, p1[..n1])
                                      + (if again then Tagged(s'.session.value, p2[..n2]) else [])
  {
    hide AttemptSteps, Ensure, AllGoOut, GoesOut, Tagged, Count, StepsOf;
    EnsureExact(s, cfg, env.dialOk);
    EnsureKeepsAttempts(s, cfg, env.dialOk);
    var (id, s1) := Ensure(s, cfg, env.dialOk);
    var p1, p2 := plan(env.attempt.power), plan(env.replay.power);
    AttemptExact(s1, id.value, p1, env.attempt.outcomes);
    var s2 := AttemptSteps(s1, id.value, p1, env.attempt.outcomes).1;
    EnsureExact(Close(s2), cfg, env.redialOk);
    EnsureKeepsAttempts(Close(s2), cfg, env.redialOk);
    EnsureCaches(Close(s2), cfg, env.redialOk);
    var (id2, s3) := Ensure(Close(s2), cfg, env.redialOk);
    AttemptExact(s3, if id2.Some? then id2.value else 0, p2, env.replay.outcomes);
    var n1, n2 := Count(p1, env.attempt.outcomes), Count(p2, env.replay.outcomes);
    var first := s.sent + Tagged(id.value, StepsOf(p1)[..n1]);
    assert first + [] == first;
    assert WithReplay(s, cfg, plan, env).1.sent ==
           first + (if Retries(s, cfg, plan, env) && env.redialOk then Tagged(id2.value, StepsOf(p2)[..n2]) else []);
  }

  lemma EnsureCaches(s: State, cfg: Config, dialOk: bool)
    ensures Ensure(s, cfg, dialOk).0.Some? ==> Ensure(s, cfg, dialOk).1.session == Ensure(s, cfg, dialOk).0
  {
  }

  /** A Warmup succeeds exactly if a session is cached for the configuration or can be dialed. */
  lemma WarmupExact(s: State, cfg: Config, dialOk: bool)
    ensures var (ok, s') := Perform(s, Warmup(cfg, dialOk));
            && (ok <==> Available(s, cfg, dialOk))
            && s'.sent == s.sent && s'.attempts == s.attempts
            && s'.dials == s.dials + if s.session.Some? && s.config == cfg then 0 else 1
  {
    hide Ensure;
    EnsureExact(s, cfg, dialOk);
    EnsureKeepsAttempts(s, cfg, dialOk);
  }
}
