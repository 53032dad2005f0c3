/** Opening a remote session: what DialSession waits for and what it returns (internal/atvremote/session.go,
    DialSession; internal/atvremote/remote.go, waitReady, waitStarted, getErr). */
module RemoteSession {
  import opened Lists
  import opened Wire
  import opened VarintStream
  import opened RemoteClient

  datatype DialResult = NotReady | Broken(failure: Failure) | Session(state: State)

  /** The reading loop has taken readyBy turns when the client stops waiting for the ready latch, because it
      closed or because of the time limit, and graceBy turns when it looks for an error. */
  function DialSession(turns: seq<Turn>, readyBy: nat, graceBy: nat): DialResult
    requires readyBy <= graceBy <= |turns|
  {
    if After(HandledBy(turns[..readyBy])).readyCloses == 0 then NotReady
    else
      match RunError(turns[..graceBy])
      case Some(e) => Broken(e)
      case None => Session(After(HandledBy(turns[..graceBy])))
  }

  /** A run over more turns handles what the first turns held and, if the loop went on after them, the rest. */
  lemma {:induction false} HandledSplit(turns: seq<Turn>, i: nat)
    requires i <= |turns|
    ensures HandledBy(turns) == HandledBy(turns[..i]) + if Reached(turns, i) then HandledBy(turns[i..]) else []
    decreases i
  {
    hide Reached, HandledBy, GoesOn;
    NowhereToGo(turns);
    NothingHandled();
    if i == 0 {
      assert turns[0..] == turns && turns[..0] == [];
      assert [] + HandledBy(turns) == HandledBy(turns);
    } else {
      PartsOfTail(turns, i);
      ReachedLater(turns, i);
      FirstHandled(turns);
      FirstHandled(turns[..i]);
      var now := if turns[0].Message? then [Handled(MeaningOf(turns[0].msg), turns[0].writeOk)] else [];
      if GoesOn(turns[0]) {
        HandledSplit(turns[1..], i - 1);
        Regroup(now, HandledBy(turns[1..][..i - 1]), if Reached(turns, i) then HandledBy(turns[i..]) else []);
      } else {
        assert now + [] == now;
      }
    }
  }

  lemma PartsOfTail(turns: seq<Turn>, i: nat)
    requires 0 < i <= |turns|
    ensures turns[..i] != [] && turns[..i][0] == turns[0] && turns[..i][1..] == turns[1..][..i - 1]
    ensures turns[i..] == turns[1..][i - 1..]
  {
  }

  /** More turns only add to what has been handled. */
  lemma HandledGrows(turns: seq<Turn>, i: nat, j: nat)
    requires i <= j <= |turns|
    ensures HandledBy(turns[..i]) <= HandledBy(turns[..j])
  {
    hide HandledBy, Reached;
    HandledSplit(turns[..j], i);
    assert turns[..j][..i] == turns[..i];
  }

  /** And its error is that of the first turns, unless the loop went on after them: then it is that of the
      rest, and there was none before. */
  lemma {:induction false} ErrorSplit(turns: seq<Turn>, i: nat)
    requires i <= |turns|
    ensures Reached(turns, i) ==> RunError(turns[..i]) == None && RunError(turns) == RunError(turns[i..])
    ensures !Reached(turns, i) ==> RunError(turns) == RunError(turns[..i])
    decreases i
  {
    hide Reached, RunError, GoesOn, Fails, FailureOf;
    NowhereToGo(turns);
    NothingHandled();
    if i == 0 {
      assert turns[0..] == turns && turns[..0] == [];
    } else {
      PartsOfTail(turns, i);
      ReachedLater(turns, i);
      FirstTurn(turns);
      FirstTurn(turns[..i]);
      if GoesOn(turns[0]) {
        ErrorSplit(turns[1..], i - 1);
      }
    }
  }

  lemma FirstHandled(turns: seq<Turn>)
    requires turns != []
    ensures HandledBy(turns) ==
            (if turns[0].Message? then [Handled(MeaningOf(turns[0].msg), turns[0].writeOk)] else []) +
            if GoesOn(turns[0]) then HandledBy(turns[1..]) else []
  {
    hide MeaningOf;
    if turns[0].Message? {
      ErrsExactly(turns[0].msg, turns[0].writeOk);
    }
  }

  /** DialSession on the client object: its reading loop runs until the ready latch is no longer waited for,
      then until the end of the grace period. */
  method Dial(turns: seq<Turn>, readyBy: nat, graceBy: nat) returns (r: DialResult)
    requires readyBy <= graceBy <= |turns|
    ensures r == DialSession(turns, readyBy, graceBy)
  {
    hide HandledBy, RunError, After, Reached;
    var early, all := turns[..readyBy], turns[..graceBy];
    assert all[..readyBy] == early;
    HandledSplit(all, readyBy);
    ErrorSplit(all, readyBy);
    SameReach(early, all, readyBy);
    NothingHandled();
    var client := new Client();
    var goesOn := client.Run(early);
    assert [] + HandledBy(early) == HandledBy(early);
    if client.readyCloses == 0 {
      return NotReady;
    }
    if goesOn {
      var goesOnStill := client.Run(all[readyBy..]);
    } else {
      assert HandledBy(early) + [] == HandledBy(early);
    }
    if client.lastErr.Some? {
      return Broken(client.lastErr.value);
    }
    NoErrorYet(HandledBy(all));
    var current := client.Current();
    return Session(current);
  }

  lemma SameReach(a: seq<Turn>, b: seq<Turn>, i: nat)
    requires i == |a| <= |b| && b[..i] == a
    ensures Reached(a, i) <==> Reached(b, i)
  {
    hide GoesOn;
    assert forall j :: 0 <= j < i ==> a[j] == b[j];
  }

  lemma NothingHandled()
    ensures After([]) == START && HandledBy([]) == [] && RunError([]) == None
  {
  }

  lemma HandledReady(turns: seq<Turn>)
    ensures (exists i :: 0 <= i < |HandledBy(turns)| && MakesReady(HandledBy(turns)[i])) <==>
            exists i: nat :: ReadyAt(turns, i)
    ensures (exists i :: 0 <= i < |HandledBy(turns)| && HandledBy(turns)[i].meaning.Start?) <==>
            exists i: nat :: StartsAt(turns, i)
  {
    hide Reached, HandledBy;
    var hs := HandledBy(turns);
    forall i: nat ensures ReadyAt(turns, i) <==> i < |hs| && MakesReady(hs[i]) {
      HandledExact(turns, i);
    }
    forall i: nat ensures StartsAt(turns, i) <==> i < |hs| && hs[i].meaning.Start? {
      HandledExact(turns, i);
    }
    if i :| 0 <= i < |hs| && MakesReady(hs[i]) {
      assert ReadyAt(turns, i);
    }
    if i :| 0 <= i < |hs| && hs[i].meaning.Start? {
      assert StartsAt(turns, i);
    }
  }

  /** In terms of the turns and their message fields alone: a session comes back exactly if one of the turns taken
      in time made the client ready and none of those taken by the end of the grace period failed the run;
      readiness in time and a failure give that turn's error; no readiness in time gives neither. A session is
      ready, knows the power exactly if a RemoteStart came by then, and has the power of the last one and the
      features of the last configure. */
  lemma DialExact(turns: seq<Turn>, readyBy: nat, graceBy: nat)
    requires readyBy <= graceBy <= |turns|
    ensures var early, all, r := turns[..readyBy], turns[..graceBy], DialSession(turns, readyBy, graceBy);
            && (r.NotReady? <==> !exists i: nat :: ReadyAt(early, i))
            && (r.Session? <==> (exists i: nat :: ReadyAt(early, i)) && !exists i: nat :: FailsAt(all, i))
            && (forall i: nat :: FailsAt(all, i) && !r.NotReady? ==> r == Broken(FailureOf(all[i])))
            && (r.Session? ==> Reflects(r.state, HandledBy(all)) && r.state.readyCloses == 1)
            && (r.Session? ==> (r.state.hasPowerState <==> exists i: nat :: StartsAt(all, i)))
    ensures var all, r := turns[..graceBy], DialSession(turns, readyBy, graceBy);
            r.Session? ==>
              && (forall i: nat :: StartsAt(all, i) && (forall j: nat :: i < j ==> !StartsAt(all, j)) ==>
                    r.state.powered == all[i].msg.start.value)
              && (forall i: nat :: ConfiguresAt(all, i) && (forall j: nat :: i < j ==> !ConfiguresAt(all, j)) ==>
                    r.state.supportedBits == all[i].msg.configure.value)
              && (r.state.activeFeatures == if exists i: nat :: ConfiguresAt(all, i) then 622 else 611)
  {
    hide Reflects, RunError, HandledBy, ReadyAt, StartsAt, ConfiguresAt, FailsAt, FirstTurns;
    var early, all := turns[..readyBy], turns[..graceBy];
    HandledGrows(turns, readyBy, graceBy);
    HandledReady(early);
    HandledReady(all);
    RunErrorExact(all);
    AfterReflects(HandledBy(early));
    AfterReflects(HandledBy(all));
    LatchesAndPower(After(HandledBy(early)), HandledBy(early));
    LatchesAndPower(After(HandledBy(all)), HandledBy(all));
    if i :| 0 <= i < |HandledBy(early)| && MakesReady(HandledBy(early)[i]) {
      assert HandledBy(all)[i] == HandledBy(early)[i];
    }
    SessionFeatures(all);
  }

  /** The power and the features after the turns, by the fields of the messages. */
  lemma SessionFeatures(turns: seq<Turn>)
    ensures var s := After(HandledBy(turns));
            && (forall i: nat :: StartsAt(turns, i) && (forall j: nat :: i < j ==> !StartsAt(turns, j)) ==>
                  s.powered == turns[i].msg.start.value)
            && (forall i: nat :: ConfiguresAt(turns, i) && (forall j: nat :: i < j ==> !ConfiguresAt(turns, j)) ==>
                  s.supportedBits == turns[i].msg.configure.value)
            && (s.activeFeatures == if exists i: nat :: ConfiguresAt(turns, i) then 622 else 611)
  {
    hide HandledBy, Reached, After;
    StateExact(turns);
  }

  /** A peer that answers and then closes the connection cleanly still yields a session: the end of the
      stream records no error. */
  lemma CleanCloseStillDials()
    ensures var turns := [Message(RemoteMessage(None, true, None, None, None), true), StreamEnds(CleanEof)];
            DialSession(turns, 1, 2).Session?
  {
    var msg := RemoteMessage(None, true, None, None, None);
    var turns := [Message(msg, true), StreamEnds(CleanEof)];
    var h := Handled(RemoteClient.Meaning.SetActive, true);
    assert turns[..1][1..] == [] && turns[..2] == turns && turns[1..] == [StreamEnds(CleanEof)];
    assert HandledBy([]) == [];
    assert HandledBy(turns[..1]) == [h];
    assert After([h]).readyCloses == 1;
    assert RunError(turns[1..]) == None;
  }

  /** The turns are what the reading loop gets from a stream: each payload read, as a message or as garbage, and
      then the end of the stream. */
  ghost predicate Presents(turns: seq<Turn>, r: VarintStream.Reading) {
    && |turns| == |r.msgs| + 1
    && (forall i :: 0 <= i < |r.msgs| ==> !turns[i].StreamEnds?)
    && turns[|r.msgs|] == StreamEnds(r.end)
  }

  /** A stream that breaks off inside a message, after messages that were handled without error: the loop
      handles just those, and it records no error exactly if the break came before the message's first byte
      or exactly between its length prefix and its payload. */
  lemma CutUnrecordedExactly(msgs: seq<Bytes>, raw: Bytes, cut: nat, turns: seq<Turn>)
    requires forall i :: 0 <= i < |msgs| ==> |msgs[i]| <= REMOTE_LIMIT
    requires 0 < |raw| <= REMOTE_LIMIT && cut < |DelimitedBytes(raw)|
    requires Presents(turns, ReadAll(DelimitedStream(msgs) + DelimitedBytes(raw)[..cut], REMOTE_LIMIT))
    requires forall i :: 0 <= i < |msgs| && i < |turns| ==> GoesOn(turns[i])
    ensures |HandledBy(turns)| == |msgs|
    ensures RunError(turns) == None <==> cut == 0 || cut == |EncodeVarint(|raw|)|
  {
    hide ReadAll, DelimitedStream, DelimitedBytes, GoesOn, HandledBy, RunError, EncodeVarint;
    ReadBack(msgs, DelimitedBytes(raw)[..cut], REMOTE_LIMIT);
    CutMessage(raw, cut, REMOTE_LIMIT);
    assert msgs + [] == msgs;
    var n := |msgs|;
    assert Reached(turns, n);
    HandledExact(turns, n);
    if n > 0 {
      HandledExact(turns, n - 1);
      assert Reached(turns, n - 1);
      OnlyMessagesGoOn(turns[n - 1]);
    }
    RunErrorExact(turns);
    if Fails(turns[n]) {
      assert FailsAt(turns, n);
    } else {
      forall i: nat ensures !FailsAt(turns, i) {
        if FailsAt(turns, i) && i < n {
          GoesOnOrFails(turns[i]);
        }
      }
    }
  }

  lemma OnlyMessagesGoOn(t: Turn)
    ensures GoesOn(t) ==> t.Message?
  {
  }

  lemma GoesOnOrFails(t: Turn)
    ensures !(GoesOn(t) && Fails(t))
  {
  }
}
