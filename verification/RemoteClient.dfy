/** The message-driven state of the Android TV remote client (internal/atvremote/remote.go,
    handleIncoming, run, setErr, markReady, markStarted). */
module RemoteClient {
  import opened Wire
  import opened Messages
  import opened VarintStream

  const DEFAULT_FEATURES: Int32 := 1 + 2 + 32 + 64 + 512
  const PROTO_CODE: Int32 := 622

  /** The fields of an incoming RemoteMessage the client looks at; several may be set at once. */
  datatype RemoteMessage = RemoteMessage(
    configure: Option<Int32>,   // RemoteConfigure.Code1
    setActive: bool,
    ping: Option<Int32>,        // RemotePingRequest.Val1
    start: Option<bool>,        // RemoteStart.Started
    error: Option<bool>)        // RemoteError.Value

  datatype Reply = ConfigureReply(code1: Int32) | SetActiveReply(active: Int32) | PingReply(val1: Int32)

  datatype Failure = WriteError | DeviceError | ReadError(end: End) | BadMessage

  /** closes counts how often a latch's channel was closed; closing it twice would panic. */
  datatype State = State(
    powered: bool, hasPowerState: bool, supportedBits: Int32, activeFeatures: Int32,
    readyCloses: nat, startCloses: nat, replies: seq<Reply>, lastErr: Option<Failure>)

  const START := State(false, false, 0, DEFAULT_FEATURES, 0, 0, [], None)

  /** What a message means to the client: the first of these that is present. */
  datatype Meaning = Configure(code1: Int32) | SetActive | Ping(val1: Int32) | Start(started: bool)
                   | DeviceFault(value: bool) | Ignored

  function MeaningOf(m: RemoteMessage): Meaning {
    if m.configure.Some? then Configure(m.configure.value)
    else if m.setActive then SetActive
    else if m.ping.Some? then Ping(m.ping.value)
    else if m.start.Some? then Start(m.start.value)
    else if m.error.Some? then DeviceFault(m.error.value)
    else Ignored
  }

  /** A handled message: what it meant and whether the reply, if it needs one, could be written. */
  datatype Handled = Handled(meaning: Meaning, writeOk: bool)

  /** The error handling it returns. */
  function ErrorOf(h: Handled): Option<Failure> {
    match h.meaning
    case Configure(_) => if h.writeOk then None else Some(WriteError)
    case SetActive => if h.writeOk then None else Some(WriteError)
    case Ping(_) => if h.writeOk then None else Some(WriteError)
    case DeviceFault(v) => if v then Some(DeviceError) else None
    case _ => None
  }

  function ReplyTo(m: Meaning): Option<Reply> {
    match m
    case Configure(_) => Some(ConfigureReply(PROTO_CODE))
    case SetActive => Some(SetActiveReply(PROTO_CODE))
    case Ping(v) => Some(PingReply(v))
    case _ => None
  }

  // ------------------------------------------------------------------ the history view

  ghost predicate Any(hs: seq<Handled>, p: Handled -> bool) {
    exists i :: 0 <= i < |hs| && p(hs[i])
  }

  predicate IsStart(h: Handled) { h.meaning.Start? }
  predicate IsConfigure(h: Handled) { h.meaning.Configure? }
  predicate MakesReady(h: Handled) { h.meaning.Start? || (h.meaning.SetActive? && h.writeOk) }

  /** The value of the last RemoteStart, if there was one. */
  function LastStart(hs: seq<Handled>): Option<bool> {
    if hs == [] then None
    else if IsStart(hs[|hs| - 1]) then Some(hs[|hs| - 1].meaning.started)
    else LastStart(hs[..|hs| - 1])
  }

  function LastConfigure(hs: seq<Handled>): Option<Int32> {
    if hs == [] then None
    else if IsConfigure(hs[|hs| - 1]) then Some(hs[|hs| - 1].meaning.code1)
    else LastConfigure(hs[..|hs| - 1])
  }

  /** The replies that went out: those of the messages whose reply could be written, in order. */
  function RepliesTo(hs: seq<Handled>): seq<Reply> {
    if hs == [] then []
    else
      var h := hs[|hs| - 1];
      RepliesTo(hs[..|hs| - 1]) +
      (if ReplyTo(h.meaning).Some? && h.writeOk then [ReplyTo(h.meaning).value] else [])
  }

  /** The client's state as a function of the messages handled so far. */
  ghost predicate Reflects(s: State, hs: seq<Handled>) {
    && s.startCloses == (if Any(hs, IsStart) then 1 else 0)
    && s.readyCloses == (if Any(hs, MakesReady) then 1 else 0)
    && s.hasPowerState == LastStart(hs).Some?
    && s.powered == (if LastStart(hs).Some? then LastStart(hs).value else false)
    && s.activeFeatures == (if LastConfigure(hs).Some? then PROTO_CODE else DEFAULT_FEATURES)
    && s.supportedBits == (if LastConfigure(hs).Some? then LastConfigure(hs).value else 0)
    && s.replies == RepliesTo(hs)
  }

  lemma AnyAppend(hs: seq<Handled>, h: Handled, p: Handled -> bool)
    ensures Any(hs + [h], p) <==> Any(hs, p) || p(h)
  {
    var all := hs + [h];
    assert all[|hs|] == h;
    assert forall i :: 0 <= i < |hs| ==> all[i] == hs[i];
    if Any(all, p) {
      var i :| 0 <= i < |all| && p(all[i]);
      assert i < |hs| ==> p(hs[i]);
    }
    if Any(hs, p) {
      var i :| 0 <= i < |hs| && p(hs[i]);
      assert p(all[i]);
    }
  }

  lemma {:induction false} LastStartIsAny(hs: seq<Handled>)
    ensures LastStart(hs).Some? <==> Any(hs, IsStart)
  {
    if hs != [] {
      var n := |hs| - 1;
      assert hs == hs[..n] + [hs[n]];
      AnyAppend(hs[..n], hs[n], IsStart);
      LastStartIsAny(hs[..n]);
    }
  }

  lemma {:induction false} StartedImpliesReady(hs: seq<Handled>)
    ensures Any(hs, IsStart) ==> Any(hs, MakesReady)
  {
    if Any(hs, IsStart) {
      var i :| 0 <= i < |hs| && IsStart(hs[i]);
      assert MakesReady(hs[i]);
    }
  }

  /** What handling one message does to the state. */
  function Apply(s: State, h: Handled): State {
    var s' := match h.meaning
      case Configure(code1) => s.(supportedBits := code1, activeFeatures := PROTO_CODE)
      case SetActive => if h.writeOk then Ready(s) else s
      case Start(b) => Ready(s.(powered := b, hasPowerState := true, startCloses := if s.startCloses == 0 then 1 else s.startCloses))
      case _ => s;
    if ReplyTo(h.meaning).Some? && h.writeOk then s'.(replies := s.replies + [ReplyTo(h.meaning).value]) else s'
  }

  function Ready(s: State): State {
    if s.readyCloses == 0 then s.(readyCloses := 1) else s
  }

  lemma ApplyReflects(s: State, hs: seq<Handled>, h: Handled)
    requires Reflects(s, hs)
    ensures Reflects(Apply(s, h), hs + [h])
  {
    hide Any, LastStart, LastConfigure, RepliesTo;
    AnyAppend(hs, h, IsStart);
    AnyAppend(hs, h, MakesReady);
    HistoryStep(hs, h);
  }

  lemma HistoryStep(hs: seq<Handled>, h: Handled)
    ensures LastStart(hs + [h]) == if IsStart(h) then Some(h.meaning.started) else LastStart(hs)
    ensures LastConfigure(hs + [h]) == if IsConfigure(h) then Some(h.meaning.code1) else LastConfigure(hs)
    ensures RepliesTo(hs + [h]) == RepliesTo(hs) + if ReplyTo(h.meaning).Some? && h.writeOk then [ReplyTo(h.meaning).value] else []
  {
    assert (hs + [h])[..|hs|] == hs;
  }

  /** The client's state after a history, starting from a new client. */
  function After(hs: seq<Handled>): State {
    if hs == [] then START else Apply(After(hs[..|hs| - 1]), hs[|hs| - 1])
  }

  lemma {:induction false} AfterReflects(hs: seq<Handled>)
    ensures Reflects(After(hs), hs)
  {
    hide Reflects;
    if hs == [] {
      StartReflects();
    } else {
      var n := |hs| - 1;
      AfterReflects(hs[..n]);
      ApplyReflects(After(hs[..n]), hs[..n], hs[n]);
      assert hs[..n] + [hs[n]] == hs;
    }
  }

  lemma StartReflects()
    ensures Reflects(START, [])
  {
  }

  /** The state determined by a history: any state that reflects it, latches and replies included. */
  lemma HistoryDetermines(s: State, t: State, hs: seq<Handled>)
    requires Reflects(s, hs) && Reflects(t, hs) && s.lastErr == t.lastErr
    ensures s == t
  {
  }

  /** A client object whose history is hs and that has recorded no error is in the state After(hs). */
  lemma AfterIsTheState(s: State, hs: seq<Handled>)
    requires Reflects(s, hs) && s.lastErr == None
    ensures s == After(hs)
  {
    AfterReflects(hs);
    NoErrorYet(hs);
    HistoryDetermines(s, After(hs), hs);
  }

  lemma {:induction false} NoErrorYet(hs: seq<Handled>)
    ensures After(hs).lastErr == None
  {
    if hs != [] {
      NoErrorYet(hs[..|hs| - 1]);
    }
  }

  // ------------------------------------------------------------------ the client object

  /** One turn of the reading loop: a message and the fate of its reply, or the end of the stream, or a
      payload that is no message. */
  datatype Turn = Message(msg: RemoteMessage, writeOk: bool) | StreamEnds(end: End) | Garbage

  class Client {
    var powered: bool
    var hasPowerState: bool
    var supportedBits: Int32
    var activeFeatures: Int32
    var lastErr: Option<Failure>
    var readyOnce: bool
    var readyCloses: nat
    var startOnce: bool
    var startCloses: nat
    var replies: seq<Reply>
    ghost var handled: seq<Handled>

    ghost function Now(): State
      reads this
    {
      State(powered, hasPowerState, supportedBits, activeFeatures, readyCloses, startCloses, replies, lastErr)
    }

    ghost predicate LatchesAgree()
      reads this
    {
      readyOnce == (readyCloses > 0) && startOnce == (startCloses > 0)
    }

    ghost predicate Valid()
      reads this
    {
      Reflects(Now(), handled) && LatchesAgree()
    }

    constructor ()
      ensures Valid() && handled == [] && Now() == START
    {
      powered, hasPowerState := false, false;
      supportedBits, activeFeatures := 0, DEFAULT_FEATURES;
      lastErr := None;
      readyOnce, readyCloses, startOnce, startCloses := false, 0, false, 0;
      replies, handled := [], [];
    }

    method SetErr(e: Failure)
      requires Valid()
      modifies this`lastErr
      ensures Valid() && lastErr == if old(lastErr) == None then Some(e) else old(lastErr)
    {
      if lastErr == None {
        lastErr := Some(e);
      }
    }

    method MarkReady()
      modifies this`readyOnce, this`readyCloses
      ensures readyOnce
      ensures readyCloses == if old(readyOnce) then old(readyCloses) else old(readyCloses) + 1
    {
      if !readyOnce {
        readyOnce := true;
        readyCloses := readyCloses + 1;
      }
    }

    method MarkStarted()
      modifies this`startOnce, this`startCloses
      ensures startOnce
      ensures startCloses == if old(startOnce) then old(startCloses) else old(startCloses) + 1
    {
      if !startOnce {
        startOnce := true;
        startCloses := startCloses + 1;
      }
    }

    method WriteReply(r: Reply, ok: bool) returns (err: Option<Failure>)
      modifies this`replies
      ensures replies == if ok then old(replies) + [r] else old(replies)
      ensures err == if ok then None else Some(WriteError)
    {
      if !ok {
        return Some(WriteError);
      }
      replies := replies + [r];
      return None;
    }

    /** Handles one message; the state stays the one its whole history prescribes. */
    method HandleIncoming(msg: RemoteMessage, writeOk: bool) returns (err: Option<Failure>)
      requires Valid()
      modifies this
      ensures Valid() && lastErr == old(lastErr)
      ensures handled == old(handled) + [Handled(MeaningOf(msg), writeOk)]
      ensures Now() == Apply(old(Now()), Handled(MeaningOf(msg), writeOk))
      ensures err == ErrorOf(Handled(MeaningOf(msg), writeOk))
    {
      hide Reflects, Apply, MeaningOf, ErrorOf;
      ghost var h := Handled(MeaningOf(msg), writeOk);
      ApplyReflects(Now(), handled, h);
      err := React(msg, writeOk);
      handled := handled + [h];
    }

    /** The branches of HandleIncoming. */
    method React(msg: RemoteMessage, writeOk: bool) returns (err: Option<Failure>)
      requires LatchesAgree()
      modifies this
      ensures LatchesAgree() && handled == old(handled) && lastErr == old(lastErr)
      ensures Now() == Apply(old(Now()), Handled(MeaningOf(msg), writeOk))
      ensures err == ErrorOf(Handled(MeaningOf(msg), writeOk))
    {
      if msg.configure.Some? {
        supportedBits := msg.configure.value;
        activeFeatures := PROTO_CODE;
        err := WriteReply(ConfigureReply(PROTO_CODE), writeOk);
        return;
      } else if msg.setActive {
        err := WriteReply(SetActiveReply(PROTO_CODE), writeOk);
        if err == None {
          MarkReady();
        }
        return;
      } else if msg.ping.Some? {
        err := WriteReply(PingReply(msg.ping.value), writeOk);
        return;
      } else if msg.start.Some? {
        powered := msg.start.value;
        hasPowerState := true;
        MarkStarted();
        MarkReady();
        return None;
      } else if msg.error.Some? {
        if msg.error.value {
          return Some(DeviceError);
        }
      }
      return None;
    }

    /** The reading loop: it stops at the first turn that fails, and records why unless the stream ended
        cleanly. goesOn tells whether it is still reading when the turns are over. The object is then in the
        state that all it handled prescribes. */
    method Run(turns: seq<Turn>) returns (goesOn: bool)
      requires Valid() && lastErr == None
      modifies this
      ensures Valid()
      ensures handled == old(handled) + HandledBy(turns)
      ensures lastErr == RunError(turns)
      ensures Now() == After(handled).(lastErr := RunError(turns))
      ensures goesOn <==> Reached(turns, |turns|)
    {
      hide Valid, MeaningOf, ErrorOf, HandledBy, RunError, Reflects, Apply, After, GoesOn, Errs;
      var i := 0;
      assert turns[0..] == turns;
      while i < |turns|
        invariant 0 <= i <= |turns|
        invariant Valid() && lastErr == None
        invariant old(handled) + HandledBy(turns) == handled + HandledBy(turns[i..])
        invariant RunError(turns) == RunError(turns[i..])
        invariant Reached(turns, i)
      {
        TurnStep(turns, i);
        StopsHere(turns, i);
        ghost var before := handled;
        match turns[i]
        case StreamEnds(end) =>
          if end != CleanEof {
            SetErr(ReadError(end));
          }
          assert handled + [] == handled;
          StateIsAfter();
          return false;
        case Garbage =>
          SetErr(BadMessage);
          assert handled + [] == handled;
          StateIsAfter();
          return false;
        case Message(msg, ok) =>
          var err := HandleIncoming(msg, ok);
          if err.Some? {
            SetErr(err.value);
            StateIsAfter();
            return false;
          }
          i := i + 1;
          assert before + ([Handled(MeaningOf(msg), ok)] + HandledBy(turns[i..])) == handled + HandledBy(turns[i..]);
      }
      TurnEnd();
      assert turns[i..] == [] && handled + [] == handled;
      StateIsAfter();
      return true;
    }

    /** The history determines the state, except for the error. */
    lemma StateIsAfter()
      requires Valid()
      ensures Now() == After(handled).(lastErr := lastErr)
    {
      hide Reflects, After;
      var s := Now().(lastErr := None);
      assert Reflects(s, handled) by { ErrorApart(Now(), handled); }
      AfterIsTheState(s, handled);
    }

    /** What a caller reads off the object. */
    method Current() returns (s: State)
      ensures s == Now()
    {
      s := State(powered, hasPowerState, supportedBits, activeFeatures, readyCloses, startCloses, replies, lastErr);
    }
  }

  lemma ErrorApart(s: State, hs: seq<Handled>)
    requires Reflects(s, hs)
    ensures Reflects(s.(lastErr := None), hs)
  {
  }

  /** Whether the loop goes on after turn i. */
  lemma StopsHere(turns: seq<Turn>, i: nat)
    requires i < |turns| && Reached(turns, i)
    ensures GoesOn(turns[i]) <==>
            turns[i].Message? && ErrorOf(Handled(MeaningOf(turns[i].msg), turns[i].writeOk)).None?
    ensures GoesOn(turns[i]) <==> Reached(turns, i + 1)
    ensures !GoesOn(turns[i]) ==> !Reached(turns, |turns|)
  {
    hide MeaningOf;
    if turns[i].Message? {
      ErrsExactly(turns[i].msg, turns[i].writeOk);
    }
  }

  lemma TurnEnd()
    ensures HandledBy([]) == [] && RunError([]) == None
  {
  }

  /** The definitions of HandledBy and RunError at the i-th turn. */
  lemma TurnStep(turns: seq<Turn>, i: nat)
    requires i < |turns|
    ensures HandledBy(turns[i..]) ==
            if !turns[i].Message? then []
            else
              var h := Handled(MeaningOf(turns[i].msg), turns[i].writeOk);
              if ErrorOf(h).Some? then [h] else [h] + HandledBy(turns[i + 1..])
    ensures RunError(turns[i..]) ==
            match turns[i]
            case StreamEnds(end) => if end == CleanEof then None else Some(ReadError(end))
            case Garbage => Some(BadMessage)
            case Message(msg, ok) =>
              var e := ErrorOf(Handled(MeaningOf(msg), ok));
              if e.Some? then e else RunError(turns[i + 1..])
  {
    assert turns[i..][1..] == turns[i + 1..];
  }

  /** The messages handled in a run: all up to the first turn that fails, that one included. */
  function HandledBy(turns: seq<Turn>): seq<Handled>
    decreases |turns|
  {
    if turns == [] || !turns[0].Message? then []
    else
      var h := Handled(MeaningOf(turns[0].msg), turns[0].writeOk);
      [h] + if ErrorOf(h).Some? then [] else HandledBy(turns[1..])
  }

  /** The error of the first turn that fails; none if it was a clean end of stream. */
  function RunError(turns: seq<Turn>): Option<Failure>
    decreases |turns|
  {
    if turns == [] then None
    else match turns[0]
         case StreamEnds(end) => if end == CleanEof then None else Some(ReadError(end))
         case Garbage => Some(BadMessage)
         case Message(msg, ok) =>
           var e := ErrorOf(Handled(MeaningOf(msg), ok));
           if e.Some? then e else RunError(turns[1..])
  }

  /** What every reflecting state promises: each latch closes at most once, started implies ready, the power
      state is known exactly when a RemoteStart was handled, and the features are active exactly when a
      RemoteConfigure was. */
  lemma LatchesAndPower(s: State, hs: seq<Handled>)
    requires Reflects(s, hs)
    ensures s.startCloses <= s.readyCloses <= 1
    ensures s.readyCloses == 1 <==> exists i :: 0 <= i < |hs| && MakesReady(hs[i])
    ensures s.hasPowerState <==> s.startCloses == 1
    ensures s.hasPowerState <==> exists i :: 0 <= i < |hs| && hs[i].meaning.Start?
    ensures s.hasPowerState ==>
              exists i :: 0 <= i < |hs| && hs[i].meaning == Start(s.powered)
                          && forall j :: i < j < |hs| ==> !hs[j].meaning.Start?
    ensures s.activeFeatures == PROTO_CODE <==> exists i :: 0 <= i < |hs| && hs[i].meaning.Configure?
  {
    StartedImpliesReady(hs);
    LastStartIsAny(hs);
    LastStartAt(hs);
    LastConfigureIsAny(hs);
    assert Any(hs, IsStart) ==> exists i :: 0 <= i < |hs| && hs[i].meaning.Start?;
    assert (exists i :: 0 <= i < |hs| && hs[i].meaning.Start?) ==> Any(hs, IsStart) by {
      if i :| 0 <= i < |hs| && hs[i].meaning.Start? { assert IsStart(hs[i]); }
    }
    assert (exists i :: 0 <= i < |hs| && hs[i].meaning.Configure?) ==> Any(hs, IsConfigure) by {
      if i :| 0 <= i < |hs| && hs[i].meaning.Configure? { assert IsConfigure(hs[i]); }
    }
  }

  lemma {:induction false} LastConfigureIsAny(hs: seq<Handled>)
    ensures LastConfigure(hs).Some? <==> Any(hs, IsConfigure)
  {
    if hs != [] {
      var n := |hs| - 1;
      assert hs == hs[..n] + [hs[n]];
      AnyAppend(hs[..n], hs[n], IsConfigure);
      LastConfigureIsAny(hs[..n]);
    }
  }

  lemma {:induction false} LastStartAt(hs: seq<Handled>)
    ensures LastStart(hs).Some? ==>
              exists i :: 0 <= i < |hs| && hs[i].meaning == Start(LastStart(hs).value)
                          && forall j :: i < j < |hs| ==> !hs[j].meaning.Start?
  {
    if hs != [] && LastStart(hs).Some? {
      var n := |hs| - 1;
      if IsStart(hs[n]) {
        assert hs[n].meaning == Start(LastStart(hs).value);
      } else {
        var before := hs[..n];
        LastStartAt(before);
        var i: nat :| i < n && before[i].meaning == Start(LastStart(before).value)
                      && forall j :: i < j < n ==> !before[j].meaning.Start?;
        assert hs == before + [hs[n]];
        assert hs[i].meaning == Start(LastStart(hs).value);
      }
    }
  }

  // ------------------------------------------------------------------ a run, turn by turn

  /** A message with one of these fields is answered. */
  predicate WantsReply(msg: RemoteMessage) {
    msg.configure.Some? || msg.setActive || msg.ping.Some?
  }

  /** Handling the message fails: its reply cannot be written, or it holds nothing but a device error. */
  predicate Errs(msg: RemoteMessage, writeOk: bool) {
    if WantsReply(msg) then !writeOk else msg.start == None && msg.error == Some(true)
  }

  /** A turn that ends the run with an error to record. */
  predicate Fails(t: Turn) {
    match t
    case StreamEnds(end) => end != CleanEof
    case Garbage => true
    case Message(msg, ok) => Errs(msg, ok)
  }

  /** A turn after which the loop reads on. */
  predicate GoesOn(t: Turn) { t.Message? && !Errs(t.msg, t.writeOk) }

  /** The loop gets as far as turn i. */
  ghost predicate Reached(turns: seq<Turn>, i: nat) {
    i <= |turns| && forall j :: 0 <= j < i ==> GoesOn(turns[j])
  }

  /** Turn i is the one that fails the run. */
  ghost predicate FailsAt(turns: seq<Turn>, i: nat) {
    i < |turns| && Reached(turns, i) && Fails(turns[i])
  }

  /** The error such a turn leaves behind. */
  function FailureOf(t: Turn): Failure
    requires Fails(t)
  {
    match t
    case StreamEnds(end) => ReadError(end)
    case Garbage => BadMessage
    case Message(msg, _) => if WantsReply(msg) then WriteError else DeviceError
  }

  lemma ReachedLater(turns: seq<Turn>, i: nat)
    requires turns != [] && i > 0
    ensures Reached(turns, i) <==> GoesOn(turns[0]) && Reached(turns[1..], i - 1)
  {
    hide GoesOn;
    if Reached(turns, i) {
      assert forall j :: 0 <= j < i - 1 ==> turns[1..][j] == turns[j + 1];
    }
    if GoesOn(turns[0]) && Reached(turns[1..], i - 1) {
      forall j | 0 <= j < i ensures GoesOn(turns[j]) {
        if j > 0 {
          assert turns[j] == turns[1..][j - 1];
        }
      }
    }
  }

  lemma FailsLater(turns: seq<Turn>, i: nat)
    requires turns != []
    ensures FailsAt(turns, i) <==> if i == 0 then Fails(turns[0]) else GoesOn(turns[0]) && FailsAt(turns[1..], i - 1)
  {
    hide GoesOn, Fails, Reached;
    if i > 0 {
      ReachedLater(turns, i);
      assert i < |turns| ==> turns[i] == turns[1..][i - 1];
    } else {
      assert Reached(turns, 0) by { NowhereToGo(turns); }
    }
  }

  lemma NowhereToGo(turns: seq<Turn>)
    ensures Reached(turns, 0)
  {
  }

  /** The i-th message handled is that of the i-th turn, for exactly the turns reached that hold one. */
  lemma {:induction false} HandledExact(turns: seq<Turn>, i: nat)
    ensures i < |HandledBy(turns)| <==> i < |turns| && Reached(turns, i) && turns[i].Message?
    ensures i < |HandledBy(turns)| ==> HandledBy(turns)[i] == Handled(MeaningOf(turns[i].msg), turns[i].writeOk)
    decreases i
  {
    hide Reached, MeaningOf, ErrorOf, Errs;
    NowhereToGo(turns);
    if turns != [] && i > 0 {
      ReachedLater(turns, i);
      HandledExact(turns[1..], i - 1);
      if turns[0].Message? {
        ErrsExactly(turns[0].msg, turns[0].writeOk);
      }
    }
  }

  lemma ErrsExactly(msg: RemoteMessage, writeOk: bool)
    ensures ErrorOf(Handled(MeaningOf(msg), writeOk)).Some? <==> Errs(msg, writeOk)
    ensures Errs(msg, writeOk) ==>
              ErrorOf(Handled(MeaningOf(msg), writeOk)) ==
              Some(if WantsReply(msg) then WriteError else DeviceError)
  {
  }

  /** A run records an error exactly when it comes to a turn that fails: garbage, a stream end that is not
      clean, a reply that cannot be written or a device error. It records that turn's error. */
  lemma {:induction false} RunErrorExact(turns: seq<Turn>)
    ensures RunError(turns).Some? <==> exists i: nat :: FailsAt(turns, i)
    ensures forall i: nat :: FailsAt(turns, i) ==> RunError(turns) == Some(FailureOf(turns[i]))
    decreases |turns|
  {
    hide Reached, RunError, Errs, MeaningOf, GoesOn, Fails;
    if turns == [] {
      NothingFails();
    } else {
      RunErrorExact(turns[1..]);
      FirstTurn(turns);
      forall i: nat ensures FailsAt(turns, i) <==>
          if i == 0 then Fails(turns[0]) else GoesOn(turns[0]) && FailsAt(turns[1..], i - 1) {
        FailsLater(turns, i);
      }
      assert Fails(turns[0]) ==> FailsAt(turns, 0);
      if GoesOn(turns[0]) && exists i: nat :: FailsAt(turns[1..], i) {
        var i: nat :| FailsAt(turns[1..], i);
        assert FailsAt(turns, i + 1);
      }
      if i: nat :| FailsAt(turns, i) {
        assert i == 0 || FailsAt(turns[1..], i - 1);
      }
      forall i: nat | FailsAt(turns, i) ensures RunError(turns) == Some(FailureOf(turns[i])) {
        RunErrorStep(turns, i);
      }
    }
  }

  lemma NothingFails()
    ensures RunError([]) == None && forall i: nat :: !FailsAt([], i)
  {
  }

  /** RunError at the first turn. */
  lemma FirstTurn(turns: seq<Turn>)
    requires turns != []
    ensures RunError(turns) ==
            if GoesOn(turns[0]) then RunError(turns[1..])
            else if Fails(turns[0]) then Some(FailureOf(turns[0]))
            else None
    ensures !(GoesOn(turns[0]) && Fails(turns[0]))
  {
    hide MeaningOf;
    if turns[0].Message? {
      ErrsExactly(turns[0].msg, turns[0].writeOk);
    }
  }

  lemma RunErrorStep(turns: seq<Turn>, i: nat)
    requires FailsAt(turns, i)
    requires i > 0 ==> forall j: nat :: FailsAt(turns[1..], j) ==> RunError(turns[1..]) == Some(FailureOf(turns[1..][j]))
    ensures RunError(turns) == Some(FailureOf(turns[i]))
  {
    hide RunError, MeaningOf, Errs;
    FirstTurn(turns);
    FailsLater(turns, i);
    if i > 0 {
      assert FailsAt(turns[1..], i - 1) && turns[1..][i - 1] == turns[i];
    }
  }

  /** Every message before the last one handled was handled without error, and the last one too unless it
      failed the run. */
  lemma {:induction false} RunStopsAtFirstError(turns: seq<Turn>)
    ensures forall i :: 0 <= i < |HandledBy(turns)| - 1 ==> ErrorOf(HandledBy(turns)[i]) == None
    ensures RunError(turns) == None ==> forall i :: 0 <= i < |HandledBy(turns)| ==> ErrorOf(HandledBy(turns)[i]) == None
    decreases |turns|
  {
    if turns != [] && turns[0].Message? && ErrorOf(Handled(MeaningOf(turns[0].msg), turns[0].writeOk)).None? {
      RunStopsAtFirstError(turns[1..]);
      var rest := HandledBy(turns[1..]);
      assert forall i :: 1 <= i < |HandledBy(turns)| ==> HandledBy(turns)[i] == rest[i - 1];
    }
  }

  // ------------------------------------------------------------------ in terms of the message fields

  /** The message is handled as a SetActive, a ping, a RemoteStart: the first of its fields that is present
      decides, in the order configure, set active, ping, start, error. */
  predicate ActsAsSetActive(m: RemoteMessage) { m.configure == None && m.setActive }
  predicate ActsAsPing(m: RemoteMessage) { m.configure == None && !m.setActive && m.ping != None }
  predicate ActsAsStart(m: RemoteMessage) { m.configure == None && !m.setActive && m.ping == None && m.start != None }

  /** The reply that is due to a message. */
  function Due(m: RemoteMessage): seq<Reply> {
    if m.configure.Some? then [ConfigureReply(622)]
    else if m.setActive then [SetActiveReply(622)]
    else if m.ping.Some? then [PingReply(m.ping.value)]
    else []
  }

  /** What handling a message does, by its fields: a configure sets the features, an answered SetActive makes the
      client ready, a ping is echoed, a RemoteStart sets the power and closes both latches, and nothing else
      changes anything. A reply that is due goes out unless it cannot be written. */
  lemma HandlingExact(s: State, m: RemoteMessage, writeOk: bool)
    ensures var s' := Apply(s, Handled(MeaningOf(m), writeOk));
            && s'.powered == (if ActsAsStart(m) then m.start.value else s.powered)
            && s'.hasPowerState == (ActsAsStart(m) || s.hasPowerState)
            && s'.supportedBits == (if m.configure.Some? then m.configure.value else s.supportedBits)
            && s'.activeFeatures == (if m.configure.Some? then 622 else s.activeFeatures)
            && s'.startCloses == (if ActsAsStart(m) && s.startCloses == 0 then 1 else s.startCloses)
            && s'.readyCloses == (if (ActsAsStart(m) || (ActsAsSetActive(m) && writeOk)) && s.readyCloses == 0 then 1
                                  else s.readyCloses)
            && s'.replies == s.replies + (if writeOk then Due(m) else [])
            && s'.lastErr == s.lastErr
    ensures ErrorOf(Handled(MeaningOf(m), writeOk)) ==
            if WantsReply(m) then if writeOk then None else Some(WriteError)
            else if m.start == None && m.error == Some(true) then Some(DeviceError)
            else None
  {
    assert s.replies + [] == s.replies;
  }

  /** Turn i is reached and holds a message that acts as a RemoteStart, a configure. */
  ghost predicate StartsAt(turns: seq<Turn>, i: nat) {
    i < |turns| && Reached(turns, i) && turns[i].Message? && ActsAsStart(turns[i].msg)
  }

  ghost predicate ConfiguresAt(turns: seq<Turn>, i: nat) {
    i < |turns| && Reached(turns, i) && turns[i].Message? && turns[i].msg.configure.Some?
  }

  /** Turn i is reached and makes the client ready: a SetActive that was answered, or a RemoteStart. */
  ghost predicate ReadyAt(turns: seq<Turn>, i: nat) {
    && i < |turns| && Reached(turns, i) && turns[i].Message?
    && (ActsAsStart(turns[i].msg) || (ActsAsSetActive(turns[i].msg) && turns[i].writeOk))
  }

  /** The replies that went out in the first n turns. */
  function RepliesIn(turns: seq<Turn>, n: nat): seq<Reply>
    requires n <= |turns|
  {
    if n == 0 then []
    else
      RepliesIn(turns, n - 1) +
      (if turns[n - 1].Message? && turns[n - 1].writeOk then Due(turns[n - 1].msg) else [])
  }

  /** The power is that of the last RemoteStart in the first n turns, unknown if there is none. */
  ghost predicate PowerFrom(s: State, turns: seq<Turn>, n: nat) {
    && (s.hasPowerState <==> exists i: nat :: i < n && StartsAt(turns, i))
    && (s.powered ==> s.hasPowerState)
    && (forall i: nat :: i < n && StartsAt(turns, i) && (forall j: nat :: i < j < n ==> !StartsAt(turns, j)) ==>
          s.powered == turns[i].msg.start.value)
  }

  /** The features are those of the last configure. */
  ghost predicate FeaturesFrom(s: State, turns: seq<Turn>, n: nat) {
    && (s.activeFeatures == (if exists i: nat :: i < n && ConfiguresAt(turns, i) then 622 else 611))
    && (forall i: nat :: i < n && ConfiguresAt(turns, i) && (forall j: nat :: i < j < n ==> !ConfiguresAt(turns, j)) ==>
          s.supportedBits == turns[i].msg.configure.value)
    && ((forall i: nat :: i < n ==> !ConfiguresAt(turns, i)) ==> s.supportedBits == 0)
  }

  /** Each latch has closed once if anything closed it, and not at all otherwise. */
  ghost predicate LatchesFrom(s: State, turns: seq<Turn>, n: nat) {
    && (s.readyCloses == if exists i: nat :: i < n && ReadyAt(turns, i) then 1 else 0)
    && (s.startCloses == if exists i: nat :: i < n && StartsAt(turns, i) then 1 else 0)
  }

  /** s is what the first n turns, all of them handled, make of a new client. */
  ghost predicate FirstTurns(s: State, turns: seq<Turn>, n: nat)
    requires n <= |turns|
  {
    PowerFrom(s, turns, n) && FeaturesFrom(s, turns, n) && LatchesFrom(s, turns, n) && s.replies == RepliesIn(turns, n)
  }

  lemma OneMorePower(s: State, s': State, turns: seq<Turn>, n: nat)
    requires 0 < n <= |turns| && PowerFrom(s, turns, n - 1)
    requires s'.hasPowerState == (StartsAt(turns, n - 1) || s.hasPowerState)
    requires s'.powered == if StartsAt(turns, n - 1) then turns[n - 1].msg.start.value else s.powered
    ensures PowerFrom(s', turns, n)
  {
    hide StartsAt;
    assert StartsAt(turns, n - 1) || !StartsAt(turns, n - 1);
  }

  lemma OneMoreFeature(s: State, s': State, turns: seq<Turn>, n: nat)
    requires 0 < n <= |turns| && FeaturesFrom(s, turns, n - 1)
    requires s'.supportedBits == if ConfiguresAt(turns, n - 1) then turns[n - 1].msg.configure.value else s.supportedBits
    requires s'.activeFeatures == if ConfiguresAt(turns, n - 1) then 622 else s.activeFeatures
    ensures FeaturesFrom(s', turns, n)
  {
    assert ConfiguresAt(turns, n - 1) || !ConfiguresAt(turns, n - 1);
  }

  lemma OneMoreLatch(s: State, s': State, turns: seq<Turn>, n: nat)
    requires 0 < n <= |turns| && LatchesFrom(s, turns, n - 1)
    requires s'.readyCloses == if ReadyAt(turns, n - 1) && s.readyCloses == 0 then 1 else s.readyCloses
    requires s'.startCloses == if StartsAt(turns, n - 1) && s.startCloses == 0 then 1 else s.startCloses
    ensures LatchesFrom(s', turns, n)
  {
    hide StartsAt, ReadyAt;
    assert StartsAt(turns, n - 1) || !StartsAt(turns, n - 1);
    assert ReadyAt(turns, n - 1) || !ReadyAt(turns, n - 1);
  }

  lemma OneMoreTurn(s: State, turns: seq<Turn>, n: nat)
    requires 0 < n <= |turns| && FirstTurns(s, turns, n - 1)
    requires Reached(turns, n - 1) && turns[n - 1].Message?
    ensures FirstTurns(Apply(s, Handled(MeaningOf(turns[n - 1].msg), turns[n - 1].writeOk)), turns, n)
  {
    hide Reached, MeaningOf, Apply, ActsAsStart, ActsAsSetActive, PowerFrom, FeaturesFrom, LatchesFrom, Due;
    var t := turns[n - 1];
    var s' := Apply(s, Handled(MeaningOf(t.msg), t.writeOk));
    HandlingExact(s, t.msg, t.writeOk);
    OneMorePower(s, s', turns, n);
    OneMoreFeature(s, s', turns, n);
    OneMoreLatch(s, s', turns, n);
  }

  lemma NoTurns(turns: seq<Turn>)
    ensures After([]) == START && FirstTurns(START, turns, 0)
  {
  }

  lemma {:induction false} FirstTurnsReached(turns: seq<Turn>, n: nat)
    requires n <= |HandledBy(turns)| <= |turns|
    ensures FirstTurns(After(HandledBy(turns)[..n]), turns, n)
    decreases n
  {
    hide Reached, MeaningOf, Apply, HandledBy, FirstTurns;
    var hs := HandledBy(turns);
    if n == 0 {
      NoTurns(turns);
    } else {
      FirstTurnsReached(turns, n - 1);
      HandledExact(turns, n - 1);
      assert hs[..n][..n - 1] == hs[..n - 1];
      OneMoreTurn(After(hs[..n - 1]), turns, n);
    }
  }

  /** The client's state after the reading loop took these turns, by the fields of the messages alone: the power is
      that of the last RemoteStart it came to, the supported features those of the last configure, the latches are
      closed once or not at all, and the replies are those due, in order. */
  lemma StateExact(turns: seq<Turn>)
    ensures |HandledBy(turns)| <= |turns|
    ensures FirstTurns(After(HandledBy(turns)), turns, |HandledBy(turns)|)
    ensures forall i: nat :: i < |HandledBy(turns)| <==> i < |turns| && Reached(turns, i) && turns[i].Message?
  {
    hide Reached, HandledBy, FirstTurns, After;
    var n := |HandledBy(turns)|;
    forall i: nat ensures i < n <==> i < |turns| && Reached(turns, i) && turns[i].Message? {
      HandledExact(turns, i);
    }
    assert n <= |turns| by { if n > |turns| { HandledExact(turns, |turns|); } }
    FirstTurnsReached(turns, n);
    assert HandledBy(turns)[..n] == HandledBy(turns);
  }
}
