/** Concurrent senders that hold one mutex over all the writes of a message (internal/beyonder/client.go,
    Send, and internal/atvremote/remote.go, writeMessage). What differs between the two is only how a
    message is cut into writes, the parameter `frames`. */
module Writers {
  import opened Wire

  type Framer = Bytes -> seq<Bytes>

  /** One caller. Holding counts the writes of its message that have succeeded. */
  datatype Thread = Idle | Waiting(msg: Bytes) | Holding(msg: Bytes, sent: nat)

  /** order: messages in the order the mutex was taken for them. wire: what the writes delivered.
      done: messages all of whose writes succeeded. part: writes of the one message that is under way,
      or that was cut off when the connection broke. */
  datatype System = System(threads: seq<Thread>, mutex: Option<nat>, broken: bool,
                           order: seq<Bytes>, wire: seq<Bytes>, done: seq<Bytes>, part: seq<Bytes>)

  /** Atomic steps of thread t. A failing write may still deliver the first k of its bytes. A connection that
      failed a write fails all later ones and delivers nothing more. */
  datatype Action =
    | Call(t: nat, msg: Bytes)
    | Lock(t: nat)
    | Write(t: nat)
    | WriteFails(t: nat, k: nat)
    | Unlock(t: nat)

  function Start(n: nat): System {
    System(seq(n, i => Idle), None, false, [], [], [], [])
  }

  predicate Enabled(frames: Framer, s: System, a: Action) {
    && a.t < |s.threads|
    && var th := s.threads[a.t];
       match a
       case Call(_, _) => th.Idle?
       case Lock(_) => th.Waiting? && s.mutex == None
       case Write(_) => th.Holding? && th.sent < |frames(th.msg)| && !s.broken
       case WriteFails(_, k) =>
         && th.Holding? && th.sent < |frames(th.msg)|
         && (k > 0 ==> !s.broken && k < |frames(th.msg)[th.sent]|)
       case Unlock(_) => th.Holding? && th.sent == |frames(th.msg)|
  }

  function Step(frames: Framer, s: System, a: Action): System
    requires Enabled(frames, s, a)
  {
    var th := s.threads[a.t];
    match a
    case Call(t, msg) => s.(threads := s.threads[t := Waiting(msg)])
    case Lock(t) =>
      s.(threads := s.threads[t := Holding(th.msg, 0)], mutex := Some(t), order := s.order + [th.msg])
    case Write(t) =>
      var f := frames(th.msg)[th.sent];
      var last := th.sent + 1 == |frames(th.msg)|;
      s.(threads := s.threads[t := Holding(th.msg, th.sent + 1)],
         wire := s.wire + [f],
         done := if last then s.done + [th.msg] else s.done,
         part := if last then [] else s.part + [f])
    case WriteFails(t, k) =>
      var piece := if k == 0 then [] else [frames(th.msg)[th.sent][..k]];
      s.(threads := s.threads[t := Idle], mutex := None, broken := true,
         wire := s.wire + piece, part := s.part + piece)
    case Unlock(t) => s.(threads := s.threads[t := Idle], mutex := None)
  }

  function AllFrames(frames: Framer, msgs: seq<Bytes>): seq<Bytes> {
    if msgs == [] then [] else frames(msgs[0]) + AllFrames(frames, msgs[1..])
  }

  lemma {:induction false} AllFramesAppend(frames: Framer, a: seq<Bytes>, m: Bytes)
    ensures AllFrames(frames, a + [m]) == AllFrames(frames, a) + frames(m)
  {
    if a == [] {
      assert [] + [m] == [m] && [m][1..] == [];
      assert frames(m) + [] == frames(m) && [] + frames(m) == frames(m);
    } else {
      assert (a + [m])[1..] == a[1..] + [m];
      AllFramesAppend(frames, a[1..], m);
      assert frames(a[0]) + (AllFrames(frames, a[1..]) + frames(m))
          == frames(a[0]) + AllFrames(frames, a[1..]) + frames(m);
    }
  }

  /** part is the first i writes of m whole and, when k > 0, k bytes of the next one. */
  ghost predicate CutAt(frames: Framer, m: Bytes, part: seq<Bytes>, i: nat, k: nat) {
    && i < |frames(m)|
    && (k > 0 ==> k < |frames(m)[i]|)
    && part == frames(m)[..i] + (if k == 0 then [] else [frames(m)[i][..k]])
  }

  /** part is a beginning of the writes of m that is not all of them. */
  ghost predicate Beginning(frames: Framer, m: Bytes, part: seq<Bytes>) {
    exists i: nat, k: nat :: CutAt(frames, m, part, i, k)
  }

  ghost predicate Sane(frames: Framer) {
    forall m: Bytes :: frames(m) != []
  }

  /** The thread recorded in the mutex, and no other, is inside its critical section. */
  ghost predicate Exclusive(s: System) {
    && (s.mutex.Some? ==> s.mutex.value < |s.threads|)
    && forall t: nat :: t < |s.threads| ==> (s.threads[t].Holding? <==> s.mutex == Some(t))
  }

  /** What is on the wire, with the writes of finished messages first and each message's together. */
  ghost predicate Contiguous(frames: Framer, s: System) {
    && s.wire == AllFrames(frames, s.done) + s.part
    && s.done <= s.order
    && (s.part != [] ==> |s.done| < |s.order| && Beginning(frames, s.order[|s.done|], s.part))
  }

  ghost predicate InStep(frames: Framer, s: System) {
    match s.mutex
    case None => !s.broken ==> s.done == s.order && s.part == []
    case Some(t) =>
      && t < |s.threads| && s.threads[t].Holding?
      && var th := s.threads[t];
         && th.sent <= |frames(th.msg)|
         && (s.broken ==> th.sent == 0)
         && (!s.broken ==>
               if th.sent == |frames(th.msg)| then s.done == s.order && s.part == []
               else s.order == s.done + [th.msg] && s.part == frames(th.msg)[..th.sent])
  }

  ghost predicate Inv(frames: Framer, s: System) {
    Exclusive(s) && Contiguous(frames, s) && InStep(frames, s)
  }

  lemma StartInv(frames: Framer, n: nat)
    ensures Inv(frames, Start(n))
  {
  }

  lemma BeginningWhole(frames: Framer, m: Bytes, i: nat)
    requires i < |frames(m)|
    ensures Beginning(frames, m, frames(m)[..i])
  {
    assert frames(m)[..i] + [] == frames(m)[..i];
    assert CutAt(frames, m, frames(m)[..i], i, 0);
  }

  lemma StepWrite(frames: Framer, s: System, t: nat)
    requires Inv(frames, s) && Enabled(frames, s, Write(t))
    ensures Inv(frames, Step(frames, s, Write(t)))
  {
    var s', th := Step(frames, s, Write(t)), s.threads[t];
    var f := frames(th.msg);
    assert f[..th.sent] + [f[th.sent]] == f[..th.sent + 1];
    if th.sent + 1 == |f| {
      AllFramesAppend(frames, s.done, th.msg);
      assert f[..th.sent + 1] == f;
      assert s'.wire == AllFrames(frames, s.done) + (f[..th.sent] + [f[th.sent]]);
      assert s'.wire == AllFrames(frames, s'.done) + [];
    } else {
      BeginningWhole(frames, th.msg, th.sent + 1);
      assert s'.wire == AllFrames(frames, s.done) + (s.part + [f[th.sent]]);
    }
  }

  lemma StepFails(frames: Framer, s: System, t: nat, k: nat)
    requires Inv(frames, s) && Enabled(frames, s, WriteFails(t, k))
    ensures Inv(frames, Step(frames, s, WriteFails(t, k)))
  {
    var s', th := Step(frames, s, WriteFails(t, k)), s.threads[t];
    var f := frames(th.msg);
    if k == 0 {
      assert s.part + [] == s.part && s.wire + [] == s.wire;
    } else {
      assert CutAt(frames, th.msg, s'.part, th.sent, k);
      assert Beginning(frames, th.msg, s'.part);
      assert s'.wire == AllFrames(frames, s.done) + (s.part + [f[th.sent][..k]]);
    }
  }

  /** Every step of every thread keeps the invariant. */
  lemma StepInv(frames: Framer, s: System, a: Action)
    requires Sane(frames) && Inv(frames, s) && Enabled(frames, s, a)
    ensures Inv(frames, Step(frames, s, a))
  {
    match a
    case Call(t, msg) =>
    case Lock(t) =>
      var th := s.threads[t];
      assert frames(th.msg) != [];
      assert frames(th.msg)[..0] == [];
    case Write(t) => StepWrite(frames, s, t);
    case WriteFails(t, k) => StepFails(frames, s, t, k);
    case Unlock(t) =>
  }

  /** A run of steps; None if one of them was not enabled. */
  function Run(frames: Framer, s: System, run: seq<Action>): Option<System>
    decreases |run|
  {
    if run == [] then Some(s)
    else if !Enabled(frames, s, run[0]) then None
    else Run(frames, Step(frames, s, run[0]), run[1..])
  }

  lemma {:induction false} RunInv(frames: Framer, s: System, run: seq<Action>)
    requires Sane(frames) && Inv(frames, s) && Run(frames, s, run).Some?
    ensures Inv(frames, Run(frames, s, run).value)
    decreases |run|
  {
    if run != [] {
      StepInv(frames, s, run[0]);
      RunInv(frames, Step(frames, s, run[0]), run[1..]);
    }
  }

  /** For every interleaving of any number of senders: the wire carries the writes of whole messages, one
      message after the other in the order the mutex was taken, then at most one unfinished message; and
      when the connection is sound and the mutex free, of all of them. */
  lemma SendsAreContiguous(frames: Framer, n: nat, run: seq<Action>)
    requires Sane(frames) && Run(frames, Start(n), run).Some?
    ensures var s := Run(frames, Start(n), run).value;
            && Exclusive(s)
            && Contiguous(frames, s)
            && (s.mutex == None && !s.broken ==> s.wire == AllFrames(frames, s.order))
  {
    StartInv(frames, n);
    RunInv(frames, Start(n), run);
    var s := Run(frames, Start(n), run).value;
    assert AllFrames(frames, s.done) + [] == AllFrames(frames, s.done);
  }

  // ------------------------------------------------------------------ nobody is stuck

  lemma {:induction false} RunTwice(frames: Framer, s: System, a: seq<Action>, b: seq<Action>)
    requires Run(frames, s, a).Some?
    ensures Run(frames, s, a + b) == Run(frames, Run(frames, s, a).value, b)
    decreases |a|
  {
    hide Enabled, Step;
    if a == [] {
      assert a + b == b;
    } else {
      assert (a + b)[1..] == a[1..] + b;
      RunTwice(frames, Step(frames, s, a[0]), a[1..], b);
    }
  }

  lemma RunOne(frames: Framer, s: System, a: Action)
    requires Enabled(frames, s, a)
    ensures Run(frames, s, [a]) == Some(Step(frames, s, a))
  {
    assert [a][1..] == [];
  }

  /** The sender that holds the mutex can write the rest of its message and let go. */
  lemma {:induction false} HolderFinishes(frames: Framer, s: System, t: nat) returns (run: seq<Action>)
    requires Sane(frames) && Inv(frames, s) && !s.broken && s.mutex == Some(t)
    ensures Run(frames, s, run).Some?
    ensures var s' := Run(frames, s, run).value;
            Inv(frames, s') && s' == s.(threads := s.threads[t := Idle], mutex := None, wire := s'.wire,
                                        done := s'.done, part := s'.part)
    decreases |frames(s.threads[t].msg)| - s.threads[t].sent
  {
    var th := s.threads[t];
    var a := if th.sent == |frames(th.msg)| then Unlock(t) else Write(t);
    StepInv(frames, s, a);
    RunOne(frames, s, a);
    if th.sent == |frames(th.msg)| {
      run := [a];
    } else {
      var s1 := Step(frames, s, a);
      var rest := HolderFinishes(frames, s1, t);
      RunTwice(frames, s, [a], rest);
      run := [a] + rest;
      assert s1.threads[t := Idle] == s.threads[t := Idle];
    }
  }

  /** The threads that wait for the mutex. */
  function WaitingThreads(s: System): set<nat> {
    set t: nat | t < |s.threads| && s.threads[t].Waiting?
  }

  /** Every message a thread waits to send is among these. */
  ghost predicate AllAmong(s: System, msgs: seq<Bytes>) {
    forall t: nat :: t < |s.threads| && s.threads[t].Waiting? ==> s.threads[t].msg in msgs
  }

  /** The next thread in line gets the mutex and sends its message. */
  lemma OneMoreSends(frames: Framer, s: System, t: nat) returns (run: seq<Action>)
    requires Sane(frames) && Inv(frames, s) && !s.broken && s.mutex == None
    requires t < |s.threads| && s.threads[t].Waiting?
    ensures Run(frames, s, run).Some?
    ensures var s' := Run(frames, s, run).value;
            && Inv(frames, s') && !s'.broken && s'.mutex == None
            && s'.threads == s.threads[t := Idle] && s'.order == s.order + [s.threads[t].msg]
  {
    StepInv(frames, s, Lock(t));
    RunOne(frames, s, Lock(t));
    var s1 := Step(frames, s, Lock(t));
    var rest := HolderFinishes(frames, s1, t);
    RunTwice(frames, s, [Lock(t)], rest);
    run := [Lock(t)] + rest;
    assert s1.threads[t := Idle] == s.threads[t := Idle];
  }

  lemma {:induction false} WaitersSend(frames: Framer, s: System) returns (run: seq<Action>)
    requires Sane(frames) && Inv(frames, s) && !s.broken && s.mutex == None
    ensures Run(frames, s, run).Some?
    ensures var s' := Run(frames, s, run).value;
            && Inv(frames, s') && !s'.broken && s'.mutex == None
            && s.order <= s'.order && AllAmong(s, s'.order)
            && |s'.threads| == |s.threads| && forall t: nat :: t < |s.threads| ==> s'.threads[t].Idle?
    decreases |WaitingThreads(s)|
  {
    hide Inv, Sane, Enabled, Step, Run;
    if t: nat :| t < |s.threads| && s.threads[t].Waiting? {
      var first := OneMoreSends(frames, s, t);
      var s1 := Run(frames, s, first).value;
      assert WaitingThreads(s1) == WaitingThreads(s) - {t};
      var rest := WaitersSend(frames, s1);
      RunTwice(frames, s, first, rest);
      run := first + rest;
      var s2 := Run(frames, s1, rest).value;
      assert s1.order[|s.order|] == s.threads[t].msg && s2.order[|s.order|] == s.threads[t].msg;
      forall u: nat | u < |s.threads| && s.threads[u].Waiting? ensures s.threads[u].msg in s2.order {
        if u != t {
          assert s1.threads[u] == s.threads[u];
        }
      }
    } else {
      run := [];
      NobodyHolds(frames, s);
    }
  }

  lemma NobodyHolds(frames: Framer, s: System)
    requires Inv(frames, s) && s.mutex == None
    ensures Run(frames, s, []) == Some(s)
    ensures forall t: nat :: t < |s.threads| ==> !s.threads[t].Holding?
  {
  }

  /** From every reachable state of a connection that has not failed, all senders can finish: there are steps after
      which nobody holds or waits for the mutex and everything that was waiting is on the wire, whole and after what
      was there in mutex order. */
  lemma EverySendCanFinish(frames: Framer, n: nat, run: seq<Action>) returns (more: seq<Action>)
    requires Sane(frames) && Run(frames, Start(n), run).Some? && !Run(frames, Start(n), run).value.broken
    ensures Run(frames, Start(n), run + more).Some?
    ensures var s, s' := Run(frames, Start(n), run).value, Run(frames, Start(n), run + more).value;
            && s.order <= s'.order && AllAmong(s, s'.order)
            && s'.mutex == None && (forall t: nat :: t < |s'.threads| ==> s'.threads[t].Idle?)
            && s'.wire == AllFrames(frames, s'.order)
  {
    hide Enabled, Step;
    StartInv(frames, n);
    RunInv(frames, Start(n), run);
    var s := Run(frames, Start(n), run).value;
    var first := [];
    if s.mutex.Some? {
      first := HolderFinishes(frames, s, s.mutex.value);
    }
    var s1 := Run(frames, s, first).value;
    var rest := WaitersSend(frames, s1);
    more := first + rest;
    RunTwice(frames, s, first, rest);
    RunTwice(frames, Start(n), run, more);
    SendsAreContiguous(frames, n, run + more);
    StillWaiting(s, s1, Run(frames, s1, rest).value.order);
  }

  lemma StillWaiting(s: System, s1: System, msgs: seq<Bytes>)
    requires |s1.threads| == |s.threads| && AllAmong(s1, msgs)
    requires forall t: nat :: t < |s.threads| && s.threads[t].Waiting? ==> s1.threads[t] == s.threads[t]
    ensures AllAmong(s, msgs)
  {
  }
}
