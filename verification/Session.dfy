/** The Hello / Pair / SendSpecialInput / LaunchApp protocol over one connection
    (internal/beyonder/session.go). What the network and the caller's context do is a script: the
    outcome of each send and the messages that arrive. */
module Session {
  import opened Wire
  import opened Messages

  const CAP_RTT_MESSAGING := 1024
  const LEVEL_VIRTUAL_INPUT: Int32 := 1000
  const RESULT_SUCCESS: Int32 := 1
  const LAUNCH_SUCCESS: Int32 := 0
  const ACTIVITY_NOT_FOUND: Int32 := 1

  /** Why a wait ends without a message: the context is done, or the queue was closed, with or without a cause. */
  datatype WaitEnd = ContextDone | Closed(cause: Option<Cause>)

  /** What the next receive yields. */
  datatype Incoming = Arrived(m: Message) | WaitEnds(why: WaitEnd)

  /** What a wait returns. */
  datatype Waited = Found(message: Message) | Over(why: WaitEnd)

  /** Refused: the context was done before anything was written. Broken: the write was tried and failed. */
  datatype SendOutcome = Sent | Broken | Refused

  /** Everything observable a call does, in order. */
  datatype Event =
    | Wrote(frame: Bytes)
    | Took(m: Message)
    | Authorized(level: Int32)
    | KeepaliveStarted
    | ParsesCredentials(cert: Bytes, key: Bytes)

  datatype Error = EncodeFailed | SendFailed | WaitFailed(why: WaitEnd) | PromptFailed | PairingRefused | CredentialsMissing
                 | NotPaired | NotInstalled | LaunchFailed
  datatype Outcome<+T> = Done(value: T) | Error(error: Error)

  /** What a wait is for. */
  datatype Want = AnAuthLevel | APinChallenge | APairingResult | ALaunchResult

  predicate Accepts(w: Want, m: Message) {
    match w
    case AnAuthLevel => m.authLevel.Some?
    case APinChallenge => m.pinChallenge
    case APairingResult => m.pairingResult.Some?
    case ALaunchResult => m.launchResult.Some?
  }

  datatype State = State(level: Int32, caps: Int32, name: Bytes,
                         inbox: seq<Incoming>, sends: seq<SendOutcome>, trace: seq<Event>)

  /** A fresh connection has no authorization. */
  function Start(inbox: seq<Incoming>, sends: seq<SendOutcome>): State {
    State(0, 0, [], inbox, sends, [])
  }

  predicate HasRTT(caps: Int32) { caps / CAP_RTT_MESSAGING % 2 == 1 }

  // ------------------------------------------------------------------ the calls as functions of the state

  function SendSpec(s: State, frame: Bytes): (bool, State) {
    if s.sends == [] then (false, s)
    else
      var s' := s.(sends := s.sends[1..]);
      if s.sends[0].Refused? then (false, s')
      else (s.sends[0].Sent?, s'.(trace := s.trace + [Wrote(frame)]))
  }

  function WaitSpec(s: State, w: Want): (r: (Waited, State))
    ensures r.0.Found? ==> Accepts(w, r.0.message)
    decreases |s.inbox|
  {
    if s.inbox == [] then (Over(ContextDone), s)
    else
      var s' := s.(inbox := s.inbox[1..]);
      match s.inbox[0]
      case WaitEnds(why) => (Over(why), s')
      case Arrived(m) =>
        var s'' := s'.(trace := s.trace + [Took(m)]);
        if Accepts(w, m) then (Found(m), s'') else WaitSpec(s'', w)
  }

  function Log(s: State, e: Event): State { s.(trace := s.trace + [e]) }

  function HelloSpec(s: State, name: Bytes): (Outcome<AuthorizationLevel>, State) {
    match EncodeHello(name)
    case None => (Error(EncodeFailed), s)
    case Some(f) =>
      var (sent, s1) := SendSpec(s, f);
      if !sent then (Error(SendFailed), s1)
      else
        match WaitSpec(s1, AnAuthLevel)
        case (Over(why), s2) => (Error(WaitFailed(why)), s2)
        case (Found(m), s2) =>
          var al := m.authLevel.value;
          var s3 := Log(s2, Authorized(al.level)).(level := al.level, caps := al.capability, name := al.deviceName);
          (Done(al), if HasRTT(al.capability) then Log(s3, KeepaliveStarted) else s3)
  }

  /** pin is what the prompt returns, None if it fails. The result is what credential parsing is given. */
  function PairSpec(s: State, pin: Option<Bytes>, deviceId: Bytes): (Outcome<(Bytes, Bytes)>, State) {
    match EncodePinRequest()
    case None => (Error(EncodeFailed), s)
    case Some(req) =>
      var (asked, s1) := SendSpec(s, req);
      if !asked then (Error(SendFailed), s1)
      else
        match WaitSpec(s1, APinChallenge)
        case (Over(why), s2) => (Error(WaitFailed(why)), s2)
        case (Found(_), s2) =>
          match pin
          case None => (Error(PromptFailed), s2)
          case Some(p) =>
            match EncodePinCode(p, deviceId)
            case None => (Error(EncodeFailed), s2)
            case Some(code) =>
              var (answered, s3) := SendSpec(s2, code);
              if !answered then (Error(SendFailed), s3) else PairResultSpec(s3)
  }

  function PairResultSpec(s: State): (Outcome<(Bytes, Bytes)>, State) {
    match WaitSpec(s, APairingResult)
    case (Over(why), s1) => (Error(WaitFailed(why)), s1)
    case (Found(m), s1) =>
      var pr := m.pairingResult.value;
      if pr.resultType != RESULT_SUCCESS then (Error(PairingRefused), s1)
      else if pr.privateKey == [] || pr.certificate == [] then (Error(CredentialsMissing), s1)
      else (Done((pr.certificate, pr.privateKey)), Log(s1, ParsesCredentials(pr.certificate, pr.privateKey)))
  }

  function SpecialInputSpec(s: State, v: Int32): (Outcome<()>, State) {
    if s.level != LEVEL_VIRTUAL_INPUT then (Error(NotPaired), s)
    else
      match EncodeSpecialInput(v)
      case None => (Error(EncodeFailed), s)
      case Some(f) =>
        var (sent, s1) := SendSpec(s, f);
        (if sent then Done(()) else Error(SendFailed), s1)
  }

  function LaunchSpec(s: State, pkg: Bytes): (Outcome<()>, State) {
    if s.level != LEVEL_VIRTUAL_INPUT then (Error(NotPaired), s)
    else
      match EncodeLaunch(pkg)
      case None => (Error(EncodeFailed), s)
      case Some(f) =>
        var (sent, s1) := SendSpec(s, f);
        if !sent then (Error(SendFailed), s1)
        else
          match WaitSpec(s1, ALaunchResult)
          case (Over(why), s2) => (Error(WaitFailed(why)), s2)
          case (Found(m), s2) =>
            if m.launchResult.value.result == LAUNCH_SUCCESS then (Done(()), s2)
            else if m.launchResult.value.result == ACTIVITY_NOT_FOUND then (Error(NotInstalled), s2)
            else (Error(LaunchFailed), s2)
  }

  // ------------------------------------------------------------------ the client object

  class Client {
    var level: Int32
    var caps: Int32
    var name: Bytes
    var inbox: seq<Incoming>
    var sends: seq<SendOutcome>
    var trace: seq<Event>

    ghost function Now(): State
      reads this
    {
      State(level, caps, name, inbox, sends, trace)
    }

    constructor (inbox: seq<Incoming>, sends: seq<SendOutcome>)
      ensures Now() == Start(inbox, sends)
    {
      level, caps, name, trace := 0, 0, [], [];
      this.inbox, this.sends := inbox, sends;
    }

    method Send(frame: Bytes) returns (ok: bool)
      modifies this
      ensures (ok, Now()) == SendSpec(old(Now()), frame)
    {
      if sends == [] {
        return false;
      }
      var outcome := sends[0];
      sends := sends[1..];
      if outcome.Refused? {
        return false;
      }
      trace := trace + [Wrote(frame)];
      ok := outcome.Sent?;
    }

    method Wait(w: Want) returns (found: Waited)
      modifies this
      ensures (found, Now()) == WaitSpec(old(Now()), w)
      ensures found.Found? ==> Accepts(w, found.message)
    {
      while inbox != []
        invariant WaitSpec(old(Now()), w) == WaitSpec(Now(), w)
        decreases |inbox|
      {
        var next := inbox[0];
        inbox := inbox[1..];
        if next.WaitEnds? {
          return Over(next.why);
        }
        trace := trace + [Took(next.m)];
        if Accepts(w, next.m) {
          return Found(next.m);
        }
      }
      return Over(ContextDone);
    }

    method Hello(helloName: Bytes) returns (r: Outcome<AuthorizationLevel>)
      modifies this
      ensures (r, Now()) == HelloSpec(old(Now()), helloName)
    {
      hide SendSpec, WaitSpec, EncodeHello;
      var f := EncodeHello(helloName);
      if f.None? {
        return Error(EncodeFailed);
      }
      var sent := Send(f.value);
      if !sent {
        return Error(SendFailed);
      }
      var m := Wait(AnAuthLevel);
      if m.Over? {
        return Error(WaitFailed(m.why));
      }
      var al := m.message.authLevel.value;
      level, caps, name := al.level, al.capability, al.deviceName;
      trace := trace + [Authorized(al.level)];
      if HasRTT(al.capability) {
        trace := trace + [KeepaliveStarted];
      }
      return Done(al);
    }

    method Pair(pin: Option<Bytes>, deviceId: Bytes) returns (r: Outcome<(Bytes, Bytes)>)
      modifies this
      ensures (r, Now()) == PairSpec(old(Now()), pin, deviceId)
    {
      hide SendSpec, WaitSpec, EncodePinRequest, EncodePinCode;
      var req := EncodePinRequest();
      if req.None? {
        return Error(EncodeFailed);
      }
      var asked := Send(req.value);
      if !asked {
        return Error(SendFailed);
      }
      var challenge := Wait(APinChallenge);
      if challenge.Over? {
        return Error(WaitFailed(challenge.why));
      }
      if pin.None? {
        return Error(PromptFailed);
      }
      var code := EncodePinCode(pin.value, deviceId);
      if code.None? {
        return Error(EncodeFailed);
      }
      var answered := Send(code.value);
      if !answered {
        return Error(SendFailed);
      }
      var m := Wait(APairingResult);
      if m.Over? {
        return Error(WaitFailed(m.why));
      }
      var pr := m.message.pairingResult.value;
      if pr.resultType != RESULT_SUCCESS {
        return Error(PairingRefused);
      }
      if |pr.privateKey| == 0 || |pr.certificate| == 0 {
        return Error(CredentialsMissing);
      }
      trace := trace + [ParsesCredentials(pr.certificate, pr.privateKey)];
      return Done((pr.certificate, pr.privateKey));
    }

    method SendSpecialInput(v: Int32) returns (r: Outcome<()>)
      modifies this
      ensures (r, Now()) == SpecialInputSpec(old(Now()), v)
    {
      if level != LEVEL_VIRTUAL_INPUT {
        return Error(NotPaired);
      }
      var f := EncodeSpecialInput(v);
      if f.None? {
        return Error(EncodeFailed);
      }
      var sent := Send(f.value);
      return if sent then Done(()) else Error(SendFailed);
    }

    method LaunchApp(pkg: Bytes) returns (r: Outcome<()>)
      modifies this
      ensures (r, Now()) == LaunchSpec(old(Now()), pkg)
    {
      if level != LEVEL_VIRTUAL_INPUT {
        return Error(NotPaired);
      }
      var f := EncodeLaunch(pkg);
      if f.None? {
        return Error(EncodeFailed);
      }
      var sent := Send(f.value);
      if !sent {
        return Error(SendFailed);
      }
      var m := Wait(ALaunchResult);
      if m.Over? {
        return Error(WaitFailed(m.why));
      }
      var result := m.message.launchResult.value.result;
      if result == LAUNCH_SUCCESS {
        return Done(());
      } else if result == ACTIVITY_NOT_FOUND {
        return Error(NotInstalled);
      } else {
        return Error(LaunchFailed);
      }
    }
  }
}

/** Safety of whole runs of calls, stated on the bytes written and the messages consumed. */
module SessionSafety {
  import opened Wire
  import opened Messages
  import opened Session

  datatype Call =
    | HelloCall(name: Bytes)
    | PairCall(pin: Option<Bytes>, deviceId: Bytes)
    | SpecialInputCall(v: Int32)
    | LaunchCall(pkg: Bytes)

  function Perform(s: State, c: Call): State {
    match c
    case HelloCall(name) => HelloSpec(s, name).1
    case PairCall(pin, deviceId) => PairSpec(s, pin, deviceId).1
    case SpecialInputCall(v) => SpecialInputSpec(s, v).1
    case LaunchCall(pkg) => LaunchSpec(s, pkg).1
  }

  function PerformAll(s: State, calls: seq<Call>): State
    decreases |calls|
  {
    if calls == [] then s else PerformAll(Perform(s, calls[0]), calls[1..])
  }

  // ------------------------------------------------------------------ what a frame is, judged by its bytes

  /** A frame that a receiver decodes as virtual input or as a launcher request. */
  predicate IsInput(frame: Bytes) {
    && Decode(frame).Ok?
    && Decode(frame).message.base.serviceId in {SERVICE_VIRTUAL_INPUT, SERVICE_REMOTE_LAUNCHER}
  }

  predicate IsAuthCommand(frame: Bytes, command: Int32) {
    && Decode(frame).Ok?
    && Decode(frame).message.authentication.Some?
    && Decode(frame).message.authentication.value.command == command
  }

  /** The level the latest completed Hello got; 0 before the first. */
  function LatestLevel(trace: seq<Event>): Int32 {
    if trace == [] then 0
    else if trace[|trace| - 1].Authorized? then trace[|trace| - 1].level
    else LatestLevel(trace[..|trace| - 1])
  }

  /** Input is only ever written when the latest completed Hello got the virtual-input level. */
  ghost predicate InputGated(trace: seq<Event>) {
    forall i :: 0 <= i < |trace| && trace[i].Wrote? && IsInput(trace[i].frame) ==>
      LatestLevel(trace[..i]) == LEVEL_VIRTUAL_INPUT
  }

  predicate Requests(e: Event) { e.Wrote? && IsAuthCommand(e.frame, COMMAND_PIN_REQUEST) }

  predicate Answers(e: Event) { e.Wrote? && IsAuthCommand(e.frame, COMMAND_PIN_CODE) }

  predicate Challenges(e: Event) { e.Took? && e.m.pinChallenge }

  predicate Grants(e: Event, cert: Bytes, key: Bytes) {
    && e.Took? && e.m.pairingResult.Some?
    && var pr := e.m.pairingResult.value;
       && pr.resultType == RESULT_SUCCESS
       && pr.privateKey == key && key != []
       && pr.certificate == cert && cert != []
  }

  /** Since event j, nothing but consumed messages, at least one. */
  ghost predicate WaitedSince(trace: seq<Event>, j: nat) {
    j + 1 < |trace| && forall i :: j < i < |trace| ==> trace[i].Took?
  }

  /** The last event consumed a challenge, and the last thing done before waiting for it was to write a
      request: every PIN code answers a challenge to its own request. */
  ghost predicate Challenged(trace: seq<Event>) {
    && trace != [] && Challenges(trace[|trace| - 1])
    && exists j: nat :: WaitedSince(trace, j) && Requests(trace[j])
  }

  /** The last event consumed a successful result with these credentials, and the last thing done before
      waiting for it was to write a PIN code. */
  ghost predicate Granted(trace: seq<Event>, cert: Bytes, key: Bytes) {
    && trace != [] && Grants(trace[|trace| - 1], cert, key)
    && exists j: nat :: WaitedSince(trace, j) && Answers(trace[j])
  }

  ghost predicate PairingOrdered(trace: seq<Event>) {
    && (forall i :: 0 <= i < |trace| && Answers(trace[i]) ==> Challenged(trace[..i]))
    && (forall i :: 0 <= i < |trace| && trace[i].ParsesCredentials? ==>
          Granted(trace[..i], trace[i].cert, trace[i].key))
  }

  ghost predicate Safe(s: State) {
    InputGated(s.trace) && PairingOrdered(s.trace) && s.level == LatestLevel(s.trace)
  }

  // ------------------------------------------------------------------ one event at a time

  /** What the last event must satisfy given the trace before it. */
  ghost predicate Justified(trace: seq<Event>, e: Event) {
    && (e.Wrote? && IsInput(e.frame) ==> LatestLevel(trace) == LEVEL_VIRTUAL_INPUT)
    && (Answers(e) ==> Challenged(trace))
    && (e.ParsesCredentials? ==> Granted(trace, e.cert, e.key))
  }

  lemma AppendEvent(trace: seq<Event>, e: Event)
    requires InputGated(trace) && PairingOrdered(trace) && Justified(trace, e)
    ensures InputGated(trace + [e]) && PairingOrdered(trace + [e])
    ensures LatestLevel(trace + [e]) == if e.Authorized? then e.level else LatestLevel(trace)
  {
    hide IsInput, IsAuthCommand, LatestLevel, Challenged, Granted;
    var t := trace + [e];
    assert forall i :: 0 <= i < |trace| ==> t[i] == trace[i] && t[..i] == trace[..i];
    assert t[..|trace|] == trace;
    LatestOfAppend(trace, e);
  }

  lemma LatestOfAppend(trace: seq<Event>, e: Event)
    ensures LatestLevel(trace + [e]) == if e.Authorized? then e.level else LatestLevel(trace)
  {
    assert (trace + [e])[..|trace|] == trace;
  }

  /** The trace grew by consumed messages only. */
  ghost predicate OnlyTook(before: seq<Event>, after: seq<Event>) {
    before <= after && forall i :: |before| <= i < |after| ==> after[i].Took?
  }

  lemma SendSafe(s: State, frame: Bytes)
    requires Safe(s) && Justified(s.trace, Wrote(frame))
    ensures var r := SendSpec(s, frame);
            && Safe(r.1) && s.trace <= r.1.trace && r.1.level == s.level
            && (r.0 ==> r.1.trace == s.trace + [Wrote(frame)])
  {
    hide InputGated, PairingOrdered, LatestLevel, Justified;
    AppendEvent(s.trace, Wrote(frame));
  }

  lemma {:induction false} WaitSafe(s: State, w: Want)
    requires Safe(s)
    ensures var r := WaitSpec(s, w);
            && Safe(r.1) && OnlyTook(s.trace, r.1.trace) && r.1.level == s.level
            && (r.0.Found? ==> |r.1.trace| > |s.trace| && r.1.trace[|r.1.trace| - 1] == Took(r.0.message))
    decreases |s.inbox|
  {
    hide InputGated, PairingOrdered, LatestLevel, Accepts;
    if s.inbox != [] && s.inbox[0].Arrived? {
      var m := s.inbox[0].m;
      AppendEvent(s.trace, Took(m));
      WaitSafe(s.(inbox := s.inbox[1..], trace := s.trace + [Took(m)]), w);
    }
  }

  /** Only an input frame is input: handshakes and authentication commands are not. */
  lemma HelloJustified(trace: seq<Event>, name: Bytes)
    requires EncodeHello(name).Some?
    ensures Justified(trace, Wrote(EncodeHello(name).value))
  {
    hide LatestLevel, Challenged, Decode, EncodeHello;
    HelloDecodes(name);
  }

  lemma PinRequestJustified(trace: seq<Event>)
    ensures EncodePinRequest().Some? && Justified(trace, Wrote(EncodePinRequest().value))
    ensures Requests(Wrote(EncodePinRequest().value))
  {
    hide LatestLevel, Challenged, Decode, EncodePinRequest;
    PinRequestDecodes();
  }

  lemma PinCodeJustified(trace: seq<Event>, pin: Bytes, deviceId: Bytes)
    requires EncodePinCode(pin, deviceId).Some? && Challenged(trace)
    ensures Justified(trace, Wrote(EncodePinCode(pin, deviceId).value))
    ensures Answers(Wrote(EncodePinCode(pin, deviceId).value))
  {
    hide LatestLevel, Challenged, Decode, EncodePinCode, ReadPinCode;
    PinCodeDecodes(pin, deviceId);
  }

  lemma InputJustified(trace: seq<Event>, frame: Bytes)
    requires LatestLevel(trace) == LEVEL_VIRTUAL_INPUT
    requires (exists v :: EncodeSpecialInput(v) == Some(frame)) || (exists pkg :: EncodeLaunch(pkg) == Some(frame))
    ensures Justified(trace, Wrote(frame))
  {
    hide LatestLevel, Challenged, Decode, EncodeSpecialInput, EncodeLaunch, ReadVirtualInput, ReadLaunchRequest;
    if v :| EncodeSpecialInput(v) == Some(frame) {
      SpecialInputDecodes(v);
    } else {
      var pkg :| EncodeLaunch(pkg) == Some(frame);
      LaunchDecodes(pkg);
    }
  }

  // ------------------------------------------------------------------ one call at a time

  lemma HelloSafe(s: State, name: Bytes)
    requires Safe(s)
    ensures Safe(HelloSpec(s, name).1)
  {
    hide InputGated, PairingOrdered, LatestLevel, EncodeHello, SendSpec, WaitSpec, Justified;
    var enc := EncodeHello(name);
    if enc.Some? {
      HelloJustified(s.trace, name);
      SendSafe(s, enc.value);
      var (sent, s1) := SendSpec(s, enc.value);
      WaitSafe(s1, AnAuthLevel);
      var (found, s2) := WaitSpec(s1, AnAuthLevel);
      if sent && found.Found? {
        var al := found.message.authLevel.value;
        QuietEvent(s2.trace, Authorized(al.level));
        AppendEvent(s2.trace, Authorized(al.level));
        var t := s2.trace + [Authorized(al.level)];
        QuietEvent(t, KeepaliveStarted);
        AppendEvent(t, KeepaliveStarted);
      }
    }
  }

  lemma QuietEvent(trace: seq<Event>, e: Event)
    requires !e.Wrote? && !e.ParsesCredentials?
    ensures Justified(trace, e)
  {
  }

  lemma PairResultSafe(s: State)
    requires Safe(s) && s.trace != [] && Answers(s.trace[|s.trace| - 1])
    ensures Safe(PairResultSpec(s).1) && PairResultSpec(s).1.level == s.level
  {
    hide InputGated, PairingOrdered, LatestLevel, WaitSpec, IsAuthCommand, IsInput;
    WaitSafe(s, APairingResult);
    var (found, s1) := WaitSpec(s, APairingResult);
    if found.Found? {
      var pr := found.message.pairingResult.value;
      if pr.resultType == RESULT_SUCCESS && pr.privateKey != [] && pr.certificate != [] {
        assert Answers(s1.trace[|s.trace| - 1]) && WaitedSince(s1.trace, |s.trace| - 1);
        assert Grants(s1.trace[|s1.trace| - 1], pr.certificate, pr.privateKey);
        assert Granted(s1.trace, pr.certificate, pr.privateKey);
        AppendEvent(s1.trace, ParsesCredentials(pr.certificate, pr.privateKey));
      }
    }
  }

  /** Pairing keeps the run safe and leaves the authorization level alone. */
  lemma PairSafe(s: State, pin: Option<Bytes>, deviceId: Bytes)
    requires Safe(s)
    ensures Safe(PairSpec(s, pin, deviceId).1) && PairSpec(s, pin, deviceId).1.level == s.level
  {
    hide InputGated, PairingOrdered, LatestLevel, SendSpec, WaitSpec, IsAuthCommand, IsInput,
      EncodePinRequest, EncodePinCode, PairResultSpec, Justified, Challenged, Requests, Answers;
    PinRequestJustified(s.trace);
    var req := EncodePinRequest().value;
    SendSafe(s, req);
    var (asked, s1) := SendSpec(s, req);
    if asked {
      WaitSafe(s1, APinChallenge);
      var (found, s2) := WaitSpec(s1, APinChallenge);
      if found.Found? && pin.Some? && EncodePinCode(pin.value, deviceId).Some? {
        ChallengeSeen(s.trace, req, s2.trace);
        var code := EncodePinCode(pin.value, deviceId).value;
        PinCodeJustified(s2.trace, pin.value, deviceId);
        SendSafe(s2, code);
        var (answered, s3) := SendSpec(s2, code);
        if answered {
          assert s3.trace[|s3.trace| - 1] == Wrote(code);
          PairResultSafe(s3);
        }
      }
    }
  }

  lemma ChallengeSeen(before: seq<Event>, req: Bytes, trace: seq<Event>)
    requires Requests(Wrote(req)) && OnlyTook(before + [Wrote(req)], trace) && |trace| > |before| + 1
    requires Challenges(trace[|trace| - 1])
    ensures Challenged(trace)
  {
    hide Requests, Challenges;
    assert trace[|before|] == (before + [Wrote(req)])[|before|];
    assert WaitedSince(trace, |before|);
  }

  lemma InputSafe(s: State, c: Call)
    requires Safe(s) && (c.SpecialInputCall? || c.LaunchCall?)
    ensures Safe(Perform(s, c))
  {
    hide InputGated, PairingOrdered, LatestLevel, SendSpec, WaitSpec, EncodeSpecialInput, EncodeLaunch, Justified;
    if s.level == LEVEL_VIRTUAL_INPUT {
      var enc := if c.SpecialInputCall? then EncodeSpecialInput(c.v) else EncodeLaunch(c.pkg);
      if enc.Some? {
        InputJustified(s.trace, enc.value);
        SendSafe(s, enc.value);
        WaitSafe(SendSpec(s, enc.value).1, ALaunchResult);
      }
    }
  }

  lemma PerformSafe(s: State, c: Call)
    requires Safe(s)
    ensures Safe(Perform(s, c))
  {
    match c
    case HelloCall(name) => HelloSafe(s, name);
    case PairCall(pin, deviceId) => PairSafe(s, pin, deviceId);
    case SpecialInputCall(_) => InputSafe(s, c);
    case LaunchCall(_) => InputSafe(s, c);
  }

  lemma {:induction false} PerformAllSafe(s: State, calls: seq<Call>)
    requires Safe(s)
    ensures Safe(PerformAll(s, calls))
    decreases |calls|
  {
    hide Safe, Perform;
    if calls != [] {
      PerformSafe(s, calls[0]);
      PerformAllSafe(Perform(s, calls[0]), calls[1..]);
    }
  }

  /** For every sequence of calls and everything a peer may answer: a frame a receiver would take as input
      or launch was written only while the latest completed Hello had granted the input level; a PIN code
      only right after consuming a challenge to its own request; and credentials were parsed only right
      after consuming a successful result, carrying exactly them, to a PIN code. */
  lemma RunsAreSafe(inbox: seq<Incoming>, sends: seq<SendOutcome>, calls: seq<Call>)
    ensures var t := PerformAll(Start(inbox, sends), calls).trace;
            InputGated(t) && PairingOrdered(t)
  {
    PerformAllSafe(Start(inbox, sends), calls);
  }

  // ------------------------------------------------------------------ Pair alone never opens the gate

  /** t' goes on from t without a completed Hello. */
  ghost predicate Continues(t: seq<Event>, t': seq<Event>) {
    t <= t' && forall i :: |t| <= i < |t'| ==> !t'[i].Authorized?
  }

  lemma {:induction false} WaitContinues(s: State, w: Want)
    ensures Continues(s.trace, WaitSpec(s, w).1.trace) && WaitSpec(s, w).1.level == s.level
    decreases |s.inbox|
  {
    hide Accepts;
    if s.inbox != [] && s.inbox[0].Arrived? {
      WaitContinues(s.(inbox := s.inbox[1..], trace := s.trace + [Took(s.inbox[0].m)]), w);
    }
  }

  lemma PairContinues(s: State, pin: Option<Bytes>, deviceId: Bytes)
    ensures Continues(s.trace, PairSpec(s, pin, deviceId).1.trace) && PairSpec(s, pin, deviceId).1.level == s.level
  {
    hide WaitSpec, EncodePinRequest, EncodePinCode;
    if EncodePinRequest().Some? {
      var s1 := SendSpec(s, EncodePinRequest().value).1;
      WaitContinues(s1, APinChallenge);
      var s2 := WaitSpec(s1, APinChallenge).1;
      if pin.Some? && EncodePinCode(pin.value, deviceId).Some? {
        WaitContinues(SendSpec(s2, EncodePinCode(pin.value, deviceId).value).1, APairingResult);
      }
    }
  }

  lemma {:induction false} RunContinues(s: State, calls: seq<Call>)
    requires s.level != LEVEL_VIRTUAL_INPUT
    requires forall i :: 0 <= i < |calls| ==> !calls[i].HelloCall?
    ensures Continues(s.trace, PerformAll(s, calls).trace) && PerformAll(s, calls).level == s.level
    decreases |calls|
  {
    hide PairSpec;
    if calls != [] {
      if calls[0].PairCall? {
        PairContinues(s, calls[0].pin, calls[0].deviceId);
      }
      RunContinues(Perform(s, calls[0]), calls[1..]);
    }
  }

  lemma {:induction false} LevelContinues(t: seq<Event>, t': seq<Event>)
    requires Continues(t, t')
    ensures LatestLevel(t') == LatestLevel(t)
    decreases |t'|
  {
    if |t'| > |t| {
      LevelContinues(t, t'[..|t'| - 1]);
    } else {
      assert t == t';
    }
  }

  /** On a connection that is not authorized, no run of Pair and input calls writes an input frame, however
      the pairings end: only a Hello opens the gate. */
  lemma PairNeverAuthorizes(s: State, calls: seq<Call>)
    requires Safe(s) && s.level != LEVEL_VIRTUAL_INPUT
    requires forall i :: 0 <= i < |calls| ==> !calls[i].HelloCall?
    ensures var t := PerformAll(s, calls).trace;
            forall i :: |s.trace| <= i < |t| && t[i].Wrote? ==> !IsInput(t[i].frame)
  {
    hide IsInput, Perform, LatestLevel, PairingOrdered;
    RunContinues(s, calls);
    PerformAllSafe(s, calls);
    var t := PerformAll(s, calls).trace;
    forall i | |s.trace| <= i < |t| && t[i].Wrote? ensures !IsInput(t[i].frame) {
      assert s.trace <= t[..i];
      LevelContinues(s.trace, t[..i]);
    }
  }
}

/** What a call's result says about what went over the connection. */
module SessionResults {
  import opened Wire
  import opened Messages
  import opened Session
  import opened SessionSafety

  /** From event i to event k only messages were consumed, and the k-th is the first that was waited for. */
  ghost predicate FirstAccepted(t: seq<Event>, i: nat, k: nat, w: Want) {
    && i <= k < |t|
    && (forall j :: i <= j <= k ==> t[j].Took?)
    && (forall j :: i <= j < k ==> !Accepts(w, t[j].m))
    && Accepts(w, t[k].m)
  }

  /** Nothing but the consumed messages changes, and the one returned is the first acceptable one. */
  lemma {:induction false} WaitLaw(s: State, w: Want)
    ensures var (found, s') := WaitSpec(s, w);
            && OnlyTook(s.trace, s'.trace)
            && s' == s.(inbox := s'.inbox, trace := s'.trace)
            && (found.Found? ==> s'.trace != [] && s'.trace[|s'.trace| - 1] == Took(found.message))
            && (found.Found? ==> FirstAccepted(s'.trace, |s.trace|, |s'.trace| - 1, w))
            && (found.Over? ==> forall j :: |s.trace| <= j < |s'.trace| ==> !Accepts(w, s'.trace[j].m))
    decreases |s.inbox|
  {
    hide Accepts;
    if s.inbox != [] && s.inbox[0].Arrived? {
      var m := s.inbox[0].m;
      var s1 := s.(inbox := s.inbox[1..], trace := s.trace + [Took(m)]);
      if !Accepts(w, m) {
        WaitLaw(s1, w);
        assert WaitSpec(s1, w).1.trace[|s.trace|] == s1.trace[|s.trace|] == Took(m);
      }
    }
  }

  /** The trace of a completed Hello: its frame, then the messages up to the first authorization level, then
      the authorization and, exactly if the peer supports RTT messages, the start of the keepalive. */
  ghost predicate HelloTrace(before: seq<Event>, t: seq<Event>, frame: Bytes, al: AuthorizationLevel) {
    exists k: nat ::
      && before + [Wrote(frame)] <= t
      && FirstAccepted(t, |before| + 1, k, AnAuthLevel) && t[k].m.authLevel == Some(al)
      && t[k + 1..] == [Authorized(al.level)] + if HasRTT(al.capability) then [KeepaliveStarted] else []
  }

  /** A Hello that succeeds leaves exactly the values of the first authorization level received; one that
      fails leaves the old ones and authorizes nothing. */
  lemma HelloLaw(s: State, name: Bytes)
    ensures var (r, s') := HelloSpec(s, name);
            && (r.Done? ==> EncodeHello(name).Some? && HelloTrace(s.trace, s'.trace, EncodeHello(name).value, r.value)
                            && s'.level == r.value.level && s'.caps == r.value.capability && s'.name == r.value.deviceName)
            && (r.Error? ==> s'.level == s.level && s'.caps == s.caps && s'.name == s.name && Quiet(s.trace, s'.trace))
  {
    hide EncodeHello, WaitSpec, HasRTT;
    var enc := EncodeHello(name);
    if enc.Some? {
      var (sent, s1) := SendSpec(s, enc.value);
      WaitLaw(s1, AnAuthLevel);
      var (found, s2) := WaitSpec(s1, AnAuthLevel);
      if sent && found.Found? {
        HelloEnds(s, enc.value, s2.trace, found.message);
      }
    }
  }

  /** Only writes and consumed messages were added. */
  ghost predicate Quiet(before: seq<Event>, t: seq<Event>) {
    before <= t && forall i :: |before| <= i < |t| ==> t[i].Wrote? || t[i].Took?
  }

  lemma HelloEnds(s: State, frame: Bytes, waited: seq<Event>, m: Message)
    requires OnlyTook(s.trace + [Wrote(frame)], waited) && m.authLevel.Some?
    requires FirstAccepted(waited, |s.trace| + 1, |waited| - 1, AnAuthLevel) && waited[|waited| - 1] == Took(m)
    ensures var al := m.authLevel.value;
            HelloTrace(s.trace, waited + [Authorized(al.level)] + (if HasRTT(al.capability) then [KeepaliveStarted] else []), frame, al)
  {
    hide Accepts, HasRTT;
    var al := m.authLevel.value;
    var more := [Authorized(al.level)] + if HasRTT(al.capability) then [KeepaliveStarted] else [];
    var t := waited + [Authorized(al.level)] + if HasRTT(al.capability) then [KeepaliveStarted] else [];
    assert t == waited + more;
    var k := |waited| - 1;
    assert t[k + 1..] == more;
    assert forall j :: 0 <= j < |waited| ==> t[j] == waited[j];
    assert FirstAccepted(t, |s.trace| + 1, k, AnAuthLevel);
  }

  function LaunchOutcome(result: Int32): Outcome<()> {
    if result == LAUNCH_SUCCESS then Done(())
    else if result == ACTIVITY_NOT_FOUND then Error(NotInstalled)
    else Error(LaunchFailed)
  }

  /** The launch request is on the wire and the first launch result after it decides. */
  ghost predicate LaunchAnswered(before: seq<Event>, t: seq<Event>, frame: Bytes, r: Outcome<()>) {
    && before + [Wrote(frame)] <= t && |t| > |before| + 1
    && FirstAccepted(t, |before| + 1, |t| - 1, ALaunchResult)
    && r == LaunchOutcome(t[|t| - 1].m.launchResult.value.result)
  }

  /** A launch is refused without touching the connection exactly below the input level; it reports success,
      a missing app or a failure exactly as the first launch result received says. */
  lemma LaunchLaw(s: State, pkg: Bytes)
    ensures var (r, s') := LaunchSpec(s, pkg);
            && s' == s.(inbox := s'.inbox, sends := s'.sends, trace := s'.trace)
            && (r == Error(NotPaired) <==> s.level != LEVEL_VIRTUAL_INPUT) && (r == Error(NotPaired) ==> s' == s)
            && (r in {Done(()), Error(NotInstalled), Error(LaunchFailed)} <==>
                EncodeLaunch(pkg).Some? && LaunchAnswered(s.trace, s'.trace, EncodeLaunch(pkg).value, r))
  {
    hide Accepts, EncodeLaunch, WaitSpec;
    var enc := EncodeLaunch(pkg);
    if s.level == LEVEL_VIRTUAL_INPUT && enc.Some? {
      var (sent, s1) := SendSpec(s, enc.value);
      WaitLaw(s1, ALaunchResult);
    }
  }

  /** Pair hands on exactly the credentials whose parsing its last event records; a pairing that fails
      parses none. */
  lemma PairLaw(s: State, pin: Option<Bytes>, deviceId: Bytes)
    ensures var (r, s') := PairSpec(s, pin, deviceId);
            && s.trace <= s'.trace
            && (r.Done? ==> |s'.trace| > |s.trace| && s'.trace[|s'.trace| - 1] == ParsesCredentials(r.value.0, r.value.1))
            && (r.Error? ==> Quiet(s.trace, s'.trace))
  {
    hide Accepts, EncodePinRequest, EncodePinCode, WaitSpec;
    var req := EncodePinRequest();
    if req.Some? {
      var (asked, s1) := SendSpec(s, req.value);
      WaitLaw(s1, APinChallenge);
      var s2 := WaitSpec(s1, APinChallenge).1;
      if asked && pin.Some? && EncodePinCode(pin.value, deviceId).Some? {
        WaitLaw(SendSpec(s2, EncodePinCode(pin.value, deviceId).value).1, APairingResult);
      }
    }
  }

  // ------------------------------------------------------------------ when the calls succeed

  /** The first k incoming things are messages. */
  ghost predicate Heard(inbox: seq<Incoming>, k: nat) {
    k <= |inbox| && forall j :: 0 <= j < k ==> inbox[j].Arrived?
  }

  function TookAll(inbox: seq<Incoming>): (es: seq<Event>)
    requires forall j :: 0 <= j < |inbox| ==> inbox[j].Arrived?
    ensures |es| == |inbox| && forall j :: 0 <= j < |inbox| ==> es[j] == Took(inbox[j].m)
  {
    seq(|inbox|, j requires 0 <= j < |inbox| => Took(inbox[j].m))
  }

  /** The k-th message to arrive is the first that is waited for. */
  ghost predicate Answer(inbox: seq<Incoming>, w: Want, k: nat) {
    && Heard(inbox, k + 1)
    && (forall j :: 0 <= j < k ==> !Accepts(w, inbox[j].m))
    && Accepts(w, inbox[k].m)
  }

  /** What each wait is for, in terms of the decoded message. */
  lemma WantsExactly(m: Message)
    ensures Accepts(AnAuthLevel, m) <==> m.authLevel != None
    ensures Accepts(APinChallenge, m) <==> m.pinChallenge
    ensures Accepts(APairingResult, m) <==> m.pairingResult != None
    ensures Accepts(ALaunchResult, m) <==> m.launchResult != None
  {
  }

  /** The connection after k messages were received. */
  function Received(s: State, k: nat): State
    requires Heard(s.inbox, k)
  {
    s.(inbox := s.inbox[k..], trace := s.trace + TookAll(s.inbox[..k]))
  }

  lemma ReceiveOne(s: State, k: nat)
    requires 0 < k && Heard(s.inbox, k)
    ensures var s1 := s.(inbox := s.inbox[1..], trace := s.trace + [Took(s.inbox[0].m)]);
            Heard(s1.inbox, k - 1) && Received(s1, k - 1) == Received(s, k)
  {
    var rest := s.inbox[1..];
    assert forall j :: 0 <= j < k - 1 ==> rest[j] == s.inbox[j + 1];
    assert rest[k - 1..] == s.inbox[k..];
    assert [Took(s.inbox[0].m)] + TookAll(rest[..k - 1]) == TookAll(s.inbox[..k]);
    assert s.trace + ([Took(s.inbox[0].m)] + TookAll(rest[..k - 1])) == s.trace + [Took(s.inbox[0].m)] + TookAll(rest[..k - 1]);
  }

  /** The definition of WaitSpec, for use where it is hidden. */
  lemma WaitStep(s: State, w: Want)
    ensures WaitSpec(s, w) ==
            if s.inbox == [] then (Over(ContextDone), s)
            else if s.inbox[0].WaitEnds? then (Over(s.inbox[0].why), s.(inbox := s.inbox[1..]))
            else
              var m := s.inbox[0].m;
              var s1 := s.(inbox := s.inbox[1..], trace := s.trace + [Took(m)]);
              if Accepts(w, m) then (Found(m), s1) else WaitSpec(s1, w)
  {
    hide Accepts;
  }

  lemma NoAnswer(inbox: seq<Incoming>, w: Want)
    requires inbox == [] || inbox[0].WaitEnds?
    ensures forall k: nat :: !Answer(inbox, w, k)
  {
    hide Accepts;
  }

  lemma FirstReceived(s: State)
    requires s.inbox != [] && s.inbox[0].Arrived?
    ensures Heard(s.inbox, 1)
    ensures Received(s, 1) == s.(inbox := s.inbox[1..], trace := s.trace + [Took(s.inbox[0].m)])
  {
    assert TookAll(s.inbox[..1]) == [Took(s.inbox[0].m)];
  }

  /** A wait returns the first message waited for, having received those before it; it finds none exactly if
      none comes before the waiting ends. */
  lemma {:induction false} WaitExact(s: State, w: Want)
    ensures forall k: nat :: Answer(s.inbox, w, k) ==> WaitSpec(s, w) == (Found(s.inbox[k].m), Received(s, k + 1))
    ensures WaitSpec(s, w).0.Found? <==> exists k: nat :: Answer(s.inbox, w, k)
    decreases |s.inbox|
  {
    hide Accepts, WaitSpec, Answer, Received;
    WaitStep(s, w);
    if s.inbox == [] || s.inbox[0].WaitEnds? {
      NoAnswer(s.inbox, w);
    } else {
      var m := s.inbox[0].m;
      var s1 := s.(inbox := s.inbox[1..], trace := s.trace + [Took(m)]);
      forall k: nat ensures Answer(s.inbox, w, k) <==>
          if Accepts(w, m) then k == 0 else k > 0 && Answer(s1.inbox, w, k - 1) {
        AnswerLater(s.inbox, w, k);
      }
      if Accepts(w, m) {
        FirstReceived(s);
        assert Answer(s.inbox, w, 0);
      } else {
        WaitExact(s1, w);
        forall k: nat | Answer(s.inbox, w, k)
          ensures Heard(s.inbox, k + 1) && WaitSpec(s, w) == (Found(s.inbox[k].m), Received(s, k + 1))
        {
          AnswerIsHeard(s.inbox, w, k);
          assert Answer(s1.inbox, w, k - 1) && s1.inbox[k - 1] == s.inbox[k];
          ReceiveOne(s, k + 1);
        }
        if k: nat :| Answer(s1.inbox, w, k) {
          assert Answer(s.inbox, w, k + 1);
        }
      }
    }
  }

  lemma AnswerLater(inbox: seq<Incoming>, w: Want, k: nat)
    requires inbox != [] && inbox[0].Arrived?
    ensures Answer(inbox, w, k) <==>
            if Accepts(w, inbox[0].m) then k == 0 else k > 0 && Answer(inbox[1..], w, k - 1)
  {
    hide Accepts;
    var rest := inbox[1..];
    assert forall j :: 0 <= j < |rest| ==> rest[j] == inbox[j + 1];
    if k > 0 && Answer(rest, w, k - 1) && !Accepts(w, inbox[0].m) {
      forall j | 0 <= j < k ensures !Accepts(w, inbox[j].m) {
        assert j > 0 ==> inbox[j] == rest[j - 1];
      }
      forall j | 0 <= j < k + 1 ensures inbox[j].Arrived? {
        assert j > 0 ==> inbox[j] == rest[j - 1];
      }
    }
    if k > 0 && Answer(inbox, w, k) {
      assert forall j :: 0 <= j < k - 1 ==> !Accepts(w, rest[j].m);
    }
  }

  /** The next write goes out whole. */
  predicate GoesOut(s: State) { s.sends != [] && s.sends[0].Sent? }

  /** The connection after a frame was written whole. */
  function Put(s: State, frame: Bytes): State
    requires GoesOut(s)
  {
    s.(sends := s.sends[1..], trace := s.trace + [Wrote(frame)])
  }

  /** A Hello succeeds exactly if its frame encodes and goes out and an authorization level arrives. What it
      does then: the frame, the messages up to that level, the level adopted, and the keepalive if the peer
      has bit 10 of its capabilities set. */
  lemma HelloExact(s: State, name: Bytes)
    ensures HelloSpec(s, name).0.Done? <==>
            EncodeHello(name).Some? && GoesOut(s) && exists k: nat :: Answer(s.inbox, AnAuthLevel, k)
    ensures forall k: nat :: EncodeHello(name).Some? && GoesOut(s) && Answer(s.inbox, AnAuthLevel, k) ==>
              var al := s.inbox[k].m.authLevel.value;
              var s1 := Received(Put(s, EncodeHello(name).value), k + 1);
              var started := if al.capability / 1024 % 2 == 1 then [KeepaliveStarted] else [];
              HelloSpec(s, name) ==
              (Done(al), s1.(level := al.level, caps := al.capability, name := al.deviceName,
                             trace := s1.trace + [Authorized(al.level)] + started))
  {
    hide EncodeHello, WaitSpec, Answer, Received;
    if EncodeHello(name).Some? && GoesOut(s) {
      WaitExact(Put(s, EncodeHello(name).value), AnAuthLevel);
      forall k: nat | Answer(s.inbox, AnAuthLevel, k)
        ensures Heard(s.inbox, k + 1) && Accepts(AnAuthLevel, s.inbox[k].m)
      {
        AnswerIsHeard(s.inbox, AnAuthLevel, k);
      }
      assert forall t: seq<Event> :: t + [] == t;
    }
  }

  lemma AnswerIsHeard(inbox: seq<Incoming>, w: Want, k: nat)
    requires Answer(inbox, w, k)
    ensures Heard(inbox, k + 1) && Accepts(w, inbox[k].m)
  {
  }

  /** A special input at the input level is written, and succeeds exactly if it goes out whole: nothing else
      happens. Only a context that is done keeps it from being written. */
  lemma SpecialInputExact(s: State, v: Int32)
    ensures s.level != 1000 ==> SpecialInputSpec(s, v) == (Error(NotPaired), s)
    ensures s.level == 1000 && s.sends == [] ==> SpecialInputSpec(s, v) == (Error(SendFailed), s)
    ensures s.level == 1000 && s.sends != [] ==>
              var f := EncodeSpecialInput(v);
              && f.Some?
              && SpecialInputSpec(s, v) ==
                 (if s.sends[0] == Sent then Done(()) else Error(SendFailed),
                  s.(sends := s.sends[1..], trace := s.trace + if s.sends[0] == Refused then [] else [Wrote(f.value)]))
  {
    hide EncodeSpecialInput;
    SpecialInputEncodes(v);
    assert s.trace + [] == s.trace;
  }

  /** A launch whose frame goes out is answered by the first launch result to arrive: 0 is success, 1 a missing
      app, everything else a failure; and exactly then one of these is reported. */
  lemma LaunchExact(s: State, pkg: Bytes)
    requires s.level == 1000 && EncodeLaunch(pkg).Some?
    ensures LaunchSpec(s, pkg).0 in {Done(()), Error(NotInstalled), Error(LaunchFailed)} <==>
            GoesOut(s) && exists k: nat :: Answer(s.inbox, ALaunchResult, k)
    ensures forall k: nat :: GoesOut(s) && Answer(s.inbox, ALaunchResult, k) ==>
              var result := s.inbox[k].m.launchResult.value.result;
              LaunchSpec(s, pkg) ==
              (if result == 0 then Done(()) else if result == 1 then Error(NotInstalled) else Error(LaunchFailed),
               Received(Put(s, EncodeLaunch(pkg).value), k + 1))
  {
    hide EncodeLaunch, WaitSpec, Answer, Received;
    if GoesOut(s) {
      WaitExact(Put(s, EncodeLaunch(pkg).value), ALaunchResult);
      forall k: nat | Answer(s.inbox, ALaunchResult, k)
        ensures Heard(s.inbox, k + 1) && Accepts(ALaunchResult, s.inbox[k].m)
      {
        AnswerIsHeard(s.inbox, ALaunchResult, k);
      }
    }
  }

  /** The connection once the PIN request is out and the k-th message, the challenge, has been received. */
  ghost predicate ChallengedBy(s: State, k: nat) {
    EncodePinRequest().Some? && GoesOut(s) && Answer(s.inbox, APinChallenge, k)
  }

  function AtChallenge(s: State, k: nat): State
    requires ChallengedBy(s, k)
  {
    Received(Put(s, EncodePinRequest().value), k + 1)
  }

  /** And once the PIN code is out too and the j-th message after the challenge, the result, has been received. */
  ghost predicate AnsweredBy(s: State, pin: Option<Bytes>, deviceId: Bytes, k: nat, j: nat) {
    && ChallengedBy(s, k)
    && pin.Some? && EncodePinCode(pin.value, deviceId).Some?
    && GoesOut(AtChallenge(s, k)) && Answer(AtChallenge(s, k).inbox, APairingResult, j)
  }

  function AtResult(s: State, pin: Option<Bytes>, deviceId: Bytes, k: nat, j: nat): State
    requires AnsweredBy(s, pin, deviceId, k, j)
  {
    Received(Put(AtChallenge(s, k), EncodePinCode(pin.value, deviceId).value), j + 1)
  }

  /** A pairing that hears a challenge and, after its PIN code, a result: it ends as that result says. */
  lemma PairAnswered(s: State, pin: Option<Bytes>, deviceId: Bytes, k: nat, j: nat)
    requires AnsweredBy(s, pin, deviceId, k, j)
    ensures var pr := AtChallenge(s, k).inbox[j].m.pairingResult.value;
            var s' := AtResult(s, pin, deviceId, k, j);
            PairSpec(s, pin, deviceId) ==
            if pr.resultType != 1 then (Error(PairingRefused), s')
            else if pr.privateKey == [] || pr.certificate == [] then (Error(CredentialsMissing), s')
            else (Done((pr.certificate, pr.privateKey)),
                  s'.(trace := s'.trace + [ParsesCredentials(pr.certificate, pr.privateKey)]))
  {
    hide EncodePinRequest, EncodePinCode, WaitSpec, Answer, Received;
    var s1 := Put(s, EncodePinRequest().value);
    AnswerIsHeard(s.inbox, APinChallenge, k);
    WaitExact(s1, APinChallenge);
    var s2 := AtChallenge(s, k);
    AnswerIsHeard(s2.inbox, APairingResult, j);
    WaitExact(Put(s2, EncodePinCode(pin.value, deviceId).value), APairingResult);
  }

  /** It gets that far exactly if the request goes out, a challenge arrives, the prompt yields a PIN that
      encodes, the code goes out and a result arrives; only then can the result refuse it or lack credentials. */
  lemma PairExact(s: State, pin: Option<Bytes>, deviceId: Bytes)
    ensures var r := PairSpec(s, pin, deviceId).0;
            r.Done? || r.error in {PairingRefused, CredentialsMissing} <==>
            exists k: nat, j: nat :: AnsweredBy(s, pin, deviceId, k, j)
    ensures PairSpec(s, pin, deviceId).0 == Error(PromptFailed) <==> pin == None && exists k: nat :: ChallengedBy(s, k)
  {
    hide EncodePinRequest, EncodePinCode, WaitSpec, Answer, Received, AtChallenge;
    forall k: nat, j: nat | AnsweredBy(s, pin, deviceId, k, j)
      ensures var r := PairSpec(s, pin, deviceId).0; r.Done? || r.error in {PairingRefused, CredentialsMissing}
    {
      PairAnswered(s, pin, deviceId, k, j);
    }
    if EncodePinRequest().Some? && GoesOut(s) {
      var s1 := Put(s, EncodePinRequest().value);
      WaitExact(s1, APinChallenge);
      if k: nat :| Answer(s.inbox, APinChallenge, k) {
        assert ChallengedBy(s, k);
        ChallengeReached(s, pin, deviceId, k);
      }
    }
  }

  lemma ChallengeReached(s: State, pin: Option<Bytes>, deviceId: Bytes, k: nat)
    requires ChallengedBy(s, k)
    ensures pin == None <==> PairSpec(s, pin, deviceId).0 == Error(PromptFailed)
    ensures var r := PairSpec(s, pin, deviceId).0;
            r.Done? || r.error in {PairingRefused, CredentialsMissing} ==>
            exists j: nat :: AnsweredBy(s, pin, deviceId, k, j)
  {
    hide EncodePinRequest, EncodePinCode, WaitSpec, Answer, Received;
    AnswerIsHeard(s.inbox, APinChallenge, k);
    WaitExact(Put(s, EncodePinRequest().value), APinChallenge);
    var s2 := AtChallenge(s, k);
    if pin.Some? && EncodePinCode(pin.value, deviceId).Some? && GoesOut(s2) {
      WaitExact(Put(s2, EncodePinCode(pin.value, deviceId).value), APairingResult);
      if j: nat :| Answer(s2.inbox, APairingResult, j) {
        assert AnsweredBy(s, pin, deviceId, k, j);
      }
    }
  }

  // ------------------------------------------------------------------ when and how the calls fail

  /** k messages arrive that are not waited for, and then the waiting ends for this reason. */
  ghost predicate EndsAfter(inbox: seq<Incoming>, w: Want, k: nat, why: WaitEnd) {
    && Heard(inbox, k) && (forall j :: 0 <= j < k ==> !Accepts(w, inbox[j].m))
    && if k < |inbox| then inbox[k] == WaitEnds(why) else why == ContextDone
  }

  ghost predicate Unanswered(inbox: seq<Incoming>, w: Want, why: WaitEnd) {
    exists k: nat :: EndsAfter(inbox, w, k, why)
  }

  lemma EndsLater(inbox: seq<Incoming>, w: Want, k: nat, why: WaitEnd)
    requires inbox != [] && inbox[0].Arrived?
    ensures EndsAfter(inbox, w, k, why) <==> k > 0 && !Accepts(w, inbox[0].m) && EndsAfter(inbox[1..], w, k - 1, why)
  {
    hide Accepts;
    var rest := inbox[1..];
    assert forall j :: 0 <= j < |rest| ==> rest[j] == inbox[j + 1];
    assert forall j :: 0 < j < |inbox| ==> inbox[j] == rest[j - 1];
  }

  lemma EndsNow(inbox: seq<Incoming>, w: Want, why: WaitEnd)
    requires inbox == [] || inbox[0].WaitEnds?
    ensures Unanswered(inbox, w, why) <==> why == if inbox == [] then ContextDone else inbox[0].why
  {
    hide Accepts;
    assert EndsAfter(inbox, w, 0, if inbox == [] then ContextDone else inbox[0].why);
  }

  /** A wait ends without a message for exactly the reason that comes before any message waited for. */
  lemma {:induction false} WaitOver(s: State, w: Want, why: WaitEnd)
    ensures WaitSpec(s, w).0 == Over(why) <==> Unanswered(s.inbox, w, why)
    decreases |s.inbox|
  {
    hide Accepts, WaitSpec, EndsAfter;
    WaitStep(s, w);
    if s.inbox == [] || s.inbox[0].WaitEnds? {
      EndsNow(s.inbox, w, why);
    } else {
      var m := s.inbox[0].m;
      var s1 := s.(inbox := s.inbox[1..], trace := s.trace + [Took(m)]);
      forall k: nat ensures EndsAfter(s.inbox, w, k, why) <==>
          k > 0 && !Accepts(w, m) && EndsAfter(s1.inbox, w, k - 1, why) {
        EndsLater(s.inbox, w, k, why);
      }
      if !Accepts(w, m) {
        WaitOver(s1, w, why);
        if k: nat :| EndsAfter(s1.inbox, w, k, why) {
          assert EndsAfter(s.inbox, w, k + 1, why);
        }
      }
    }
  }

  /** Each error of Hello and LaunchApp, exactly when it is returned. */
  lemma HelloFails(s: State, name: Bytes, why: WaitEnd)
    ensures var r, enc := HelloSpec(s, name).0, EncodeHello(name);
            && (r == Error(EncodeFailed) <==> enc == None)
            && (r == Error(SendFailed) <==> enc.Some? && !GoesOut(s))
            && (r == Error(WaitFailed(why)) <==> enc.Some? && GoesOut(s) && Unanswered(s.inbox, AnAuthLevel, why))
  {
    hide EncodeHello, WaitSpec, Unanswered;
    if EncodeHello(name).Some? && GoesOut(s) {
      WaitOver(Put(s, EncodeHello(name).value), AnAuthLevel, why);
    }
  }

  lemma LaunchFails(s: State, pkg: Bytes, why: WaitEnd)
    requires s.level == 1000
    ensures var r, enc := LaunchSpec(s, pkg).0, EncodeLaunch(pkg);
            && (r == Error(EncodeFailed) <==> enc == None)
            && (r == Error(SendFailed) <==> enc.Some? && !GoesOut(s))
            && (r == Error(WaitFailed(why)) <==> enc.Some? && GoesOut(s) && Unanswered(s.inbox, ALaunchResult, why))
  {
    hide EncodeLaunch, WaitSpec, Unanswered;
    if EncodeLaunch(pkg).Some? && GoesOut(s) {
      WaitOver(Put(s, EncodeLaunch(pkg).value), ALaunchResult, why);
    }
  }

  /** Before the challenge, a pairing fails exactly if its request does not go out or no challenge comes. */
  lemma PairUnchallenged(s: State, pin: Option<Bytes>, deviceId: Bytes, why: WaitEnd)
    requires forall k: nat :: !ChallengedBy(s, k)
    ensures PairSpec(s, pin, deviceId).0 == Error(SendFailed) <==> !GoesOut(s)
    ensures PairSpec(s, pin, deviceId).0 == Error(WaitFailed(why)) <==> GoesOut(s) && Unanswered(s.inbox, APinChallenge, why)
  {
    hide EncodePinRequest, EncodePinCode, WaitSpec, Answer, Unanswered;
    PinRequestDecodes();
    if GoesOut(s) {
      var s1 := Put(s, EncodePinRequest().value);
      WaitOver(s1, APinChallenge, why);
      WaitExact(s1, APinChallenge);
      assert forall k: nat :: Answer(s.inbox, APinChallenge, k) ==> ChallengedBy(s, k);
    }
  }

  /** After it, exactly if there is no PIN, the code does not encode or does not go out, or no result comes. */
  lemma PairChallenged(s: State, pin: Option<Bytes>, deviceId: Bytes, k: nat, why: WaitEnd)
    requires ChallengedBy(s, k)
    ensures var r, s2 := PairSpec(s, pin, deviceId).0, AtChallenge(s, k);
            && (r == Error(PromptFailed) <==> pin == None)
            && (r == Error(EncodeFailed) <==> pin.Some? && EncodePinCode(pin.value, deviceId) == None)
            && (r == Error(SendFailed) <==> pin.Some? && EncodePinCode(pin.value, deviceId).Some? && !GoesOut(s2))
            && (r == Error(WaitFailed(why)) <==>
                pin.Some? && EncodePinCode(pin.value, deviceId).Some? && GoesOut(s2)
                && Unanswered(s2.inbox, APairingResult, why))
  {
    hide EncodePinRequest, EncodePinCode, WaitSpec, Answer, Received, Unanswered;
    AnswerIsHeard(s.inbox, APinChallenge, k);
    WaitExact(Put(s, EncodePinRequest().value), APinChallenge);
    var s2 := AtChallenge(s, k);
    if pin.Some? && EncodePinCode(pin.value, deviceId).Some? && GoesOut(s2) {
      WaitOver(Put(s2, EncodePinCode(pin.value, deviceId).value), APairingResult, why);
    }
  }
}

/** What a wait learns from the state of its connection. */
module WaitingEnds {
  import opened Wire
  import opened Messages
  import opened Session
  import Delivery

  /** What a receive from the queue of a connection yields, if it does not block. */
  function ReceiveSees(c: Delivery.State): Option<Incoming> {
    if c.queue != [] then Some(Arrived(c.queue[0]))
    else if c.closed then Some(WaitEnds(Closed(c.err)))
    else None
  }

  /** For every interleaving of a connection's reader, consumer, keepalive and Close: a wait that ends because
      the queue is closed reports no cause only after Close; without Close it reports a cause, and only once
      every message decoded has been received. */
  lemma NoCauseOnlyAfterClose(run: seq<Delivery.Action>, cause: Option<Cause>)
    requires Delivery.Run(Delivery.START, run).Some?
    requires ReceiveSees(Delivery.Run(Delivery.START, run).value) == Some(WaitEnds(Closed(cause)))
    ensures var c := Delivery.Run(Delivery.START, run).value;
            && (cause.None? ==> c.done)
            && (!c.done ==> cause.Some? && c.consumed == Delivery.Forwarded(Delivery.DecodedSoFar(c)))
  {
    Delivery.DeliveryIsComplete(run);
    var c := Delivery.Run(Delivery.START, run).value;
    assert c.consumed + [] == c.consumed;
  }
}
