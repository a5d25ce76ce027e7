/**
 The client and the daemon agree on every turn. The daemon folds its whole log; the client folds
 the stretch from the accepted seq up to the first envelope its own test calls terminal.
 */
module TurnAgreement {
  import opened Wrappers
  import opened Envelopes
  import opened Turn
  import opened TurnEvents

  function From(log: seq<Envelope>, at: int): seq<Envelope> {
    if log == [] then [] else (if log[0].seqNo >= at then [log[0]] else []) + From(log[1..], at)
  }

  function ThroughTerminal(turn: string, es: seq<Envelope>): seq<Envelope> {
    if es == [] then []
    else if IsTurnTerminal(turn, es[0]) then [es[0]]
    else [es[0]] + ThroughTerminal(turn, es[1..])
  }

  /** What `collect` has in its buffer when it stops reading, or when the log so far is used up. */
  function ClientBuffer(turn: string, log: seq<Envelope>, at: int): seq<Envelope> {
    ThroughTerminal(turn, From(log, at))
  }

  /** One worker's log, in increasing seq. */
  predicate IsLog(log: seq<Envelope>, worker: string) {
    StrictlyBySeq(log) && forall e :: e in log ==> e.workerId == worker
  }

  predicate Opens(turn: string, e: Envelope) {
    e.turnId == Some(turn) && !e.replay
  }

  /** The turn's first envelope sits at the seq the prompt was accepted with. */
  predicate AcceptedAt(turn: string, log: seq<Envelope>, at: int) {
    && (exists e :: e in log && e.seqNo == at && Opens(turn, e))
    && forall e :: e in log && Opens(turn, e) ==> e.seqNo >= at
  }

  /** The client did not take replayed history for the end of the turn. */
  predicate NoReplayedEnd(turn: string, log: seq<Envelope>, at: int) {
    forall e :: e in ClientBuffer(turn, log, at) && e.replay ==> !IsTurnTerminal(turn, e)
  }

  function Live(es: seq<Envelope>): seq<Envelope> {
    if es == [] then [] else (if es[0].replay then [] else [es[0]]) + Live(es[1..])
  }

  lemma {:induction false} LiveMembers(es: seq<Envelope>)
    ensures forall e :: e in Live(es) <==> e in es && !e.replay
  {
    if es != [] {
      LiveMembers(es[1..]);
      assert es == [es[0]] + es[1..];
    }
  }

  lemma FirstIsBefore(es: seq<Envelope>, e: Envelope)
    requires es != [] && StrictlyBySeq(es) && e in es[1..]
    ensures es[0].seqNo < e.seqNo
  {
    var k :| 0 <= k < |es[1..]| && es[1..][k] == e;
    assert es[k + 1] == e;
  }

  lemma {:induction false} LiveInOrder(es: seq<Envelope>)
    requires StrictlyBySeq(es)
    ensures StrictlyBySeq(Live(es))
  {
    if es != [] {
      LiveInOrder(es[1..]);
      LiveMembers(es[1..]);
      forall e | e in Live(es[1..])
        ensures es[0].seqNo < e.seqNo
      {
        FirstIsBefore(es, e);
      }
      OneMoreInFront(es[0], Live(es[1..]));
    }
  }

  /** On one worker's log, sorting and de-duplicating change nothing. */
  lemma FoldOfLog(turn: string, log: seq<Envelope>, worker: string)
    requires IsLog(log, worker)
    ensures FoldOf(turn, log) == Run(turn, Initial, Live(log))
  {
    FoldIsOverOwnEvents(turn, log, worker);
    OrderedMembers(log, worker);
    LiveMembers(log);
    LiveInOrder(log);
    SameOrder(Ordered(log, worker), Live(log));
  }

  lemma LiveHead(es: seq<Envelope>)
    requires es != []
    ensures es[0].replay ==> Live(es) == Live(es[1..])
    ensures !es[0].replay ==> Live(es) != [] && Live(es)[0] == es[0] && Live(es)[1..] == Live(es[1..])
  {
    assert Live(es) == (if es[0].replay then [] else [es[0]]) + Live(es[1..]);
  }

  lemma {:induction false} FromMembers(log: seq<Envelope>, at: int)
    requires StrictlyBySeq(log)
    ensures StrictlyBySeq(From(log, at))
    ensures forall e :: e in From(log, at) <==> e in log && e.seqNo >= at
  {
    if log != [] {
      assert log == [log[0]] + log[1..];
      FromMembers(log[1..], at);
      HeadIsLeast(log, From(log[1..], at));
    }
  }

  lemma HeadIsLeast(log: seq<Envelope>, rest: seq<Envelope>)
    requires StrictlyBySeq(log) && log != []
    requires StrictlyBySeq(rest) && forall e :: e in rest ==> e in log[1..]
    ensures StrictlyBySeq([log[0]] + rest)
  {
    forall i | 0 <= i < |rest|
      ensures log[0].seqNo < rest[i].seqNo
    {
      assert rest[i] in log[1..];
      var k :| 0 <= k < |log[1..]| && log[1..][k] == rest[i];
      assert log[k + 1] == rest[i];
    }
  }

  lemma {:induction false} CutMembers(turn: string, log: seq<Envelope>)
    requires StrictlyBySeq(log)
    ensures StrictlyBySeq(ThroughTerminal(turn, log))
    ensures forall e :: e in ThroughTerminal(turn, log) ==> e in log
  {
    if log != [] {
      assert log == [log[0]] + log[1..];
      CutMembers(turn, log[1..]);
      HeadIsLeast(log, ThroughTerminal(turn, log[1..]));
    }
  }

  predicate Started(f: FoldState, worker: string) {
    f.startSeq.Some? && f.workerId == Some(worker)
  }

  /** Once a turn has started, what the client's test calls terminal ends the fold. */
  lemma StepAtTerminal(turn: string, f: FoldState, e: Envelope, worker: string)
    requires f.terminal == NotTerminal && e.workerId == worker
    requires Started(f, worker) || (f == Initial && e.turnId == Some(turn))
    ensures Started(Step(turn, f, e), worker)
    ensures Step(turn, f, e).terminal != NotTerminal <==> IsTurnTerminal(turn, e)
  {
  }

  lemma {:induction false} CutLosesNothing(turn: string, f: FoldState, es: seq<Envelope>, worker: string)
    requires forall e :: e in es ==> e.workerId == worker
    requires forall e :: e in ThroughTerminal(turn, es) && e.replay ==> !IsTurnTerminal(turn, e)
    requires Started(f, worker) || (f == Initial && es != [] && Opens(turn, es[0]))
    ensures Run(turn, f, Live(ThroughTerminal(turn, es))) == Run(turn, f, Live(es))
    decreases |es|
  {
    if es != [] && f.terminal == NotTerminal {
      var e, cut := es[0], ThroughTerminal(turn, es);
      LiveHead(es);
      LiveHead(cut);
      assert e in cut;
      if IsTurnTerminal(turn, e) {
        StepAtTerminal(turn, f, e, worker);
      } else {
        assert cut[1..] == ThroughTerminal(turn, es[1..]);
        assert forall x :: x in cut[1..] ==> x in cut;
        if !e.replay {
          StepAtTerminal(turn, f, e, worker);
          CutLosesNothing(turn, Step(turn, f, e), es[1..], worker);
        } else {
          CutLosesNothing(turn, f, es[1..], worker);
        }
      }
    }
  }

  lemma AcceptedLater(turn: string, log: seq<Envelope>, at: int, worker: string)
    requires IsLog(log, worker) && AcceptedAt(turn, log, at) && log[0].seqNo < at
    ensures IsLog(log[1..], worker) && AcceptedAt(turn, log[1..], at)
    ensures From(log, at) == From(log[1..], at) && !Opens(turn, log[0])
  {
    assert log == [log[0]] + log[1..];
    var opening :| opening in log && opening.seqNo == at && Opens(turn, opening);
    assert opening in log[1..];
  }

  lemma AcceptedFirst(turn: string, log: seq<Envelope>, at: int, worker: string)
    requires IsLog(log, worker) && AcceptedAt(turn, log, at) && log[0].seqNo >= at
    ensures From(log, at) == log && Opens(turn, log[0])
  {
    var opening :| opening in log && opening.seqNo == at && Opens(turn, opening);
    var k :| 0 <= k < |log| && log[k] == opening;
    assert k == 0;
    FromAll(log, at);
  }

  lemma {:induction false} NothingBeforeAccepted(turn: string, log: seq<Envelope>, at: int, worker: string)
    requires IsLog(log, worker) && AcceptedAt(turn, log, at)
    ensures Run(turn, Initial, Live(log)) == Run(turn, Initial, Live(From(log, at)))
    ensures From(log, at) != [] && Opens(turn, From(log, at)[0])
    decreases |log|
  {
    if log[0].seqNo < at {
      LiveHead(log);
      AcceptedLater(turn, log, at, worker);
      NothingBeforeAccepted(turn, log[1..], at, worker);
      if !log[0].replay {
        assert Step(turn, Initial, log[0]) == Initial;
      }
    } else {
      AcceptedFirst(turn, log, at, worker);
    }
  }

  lemma {:induction false} FromAll(log: seq<Envelope>, at: int)
    requires StrictlyBySeq(log) && (log != [] ==> log[0].seqNo >= at)
    ensures From(log, at) == log
  {
    if log != [] {
      FromAll(log[1..], at);
    }
  }

  /** Main result: the client's local fold is the daemon's answer, finished or still running. */
  lemma ClientAndDaemonAgree(turn: string, worker: string, log: seq<Envelope>, at: int)
    requires IsLog(log, worker) && AcceptedAt(turn, log, at) && NoReplayedEnd(turn, log, at)
    ensures FoldOf(turn, ClientBuffer(turn, log, at)) == FoldOf(turn, log)
    ensures Reduced(turn, ClientBuffer(turn, log, at)) == Reduced(turn, log)
    ensures StatusOf(turn, ClientBuffer(turn, log, at)) == StatusOf(turn, log)
  {
    var rest := From(log, at);
    FromMembers(log, at);
    CutMembers(turn, rest);
    FoldOfLog(turn, log, worker);
    FoldOfLog(turn, ClientBuffer(turn, log, at), worker);
    NothingBeforeAccepted(turn, log, at, worker);
    CutLosesNothing(turn, Initial, rest, worker);
  }

  // ---- exactly when ----

  /** The client stops reading at the last envelope of `log`, and not before. */
  predicate StopsAtEnd(turn: string, log: seq<Envelope>, at: int) {
    && log != [] && log[|log| - 1].seqNo >= at
    && forall k :: 0 <= k < |log| && log[k].seqNo >= at ==> (IsTurnTerminal(turn, log[k]) <==> k == |log| - 1)
  }

  predicate AgreesOn(turn: string, log: seq<Envelope>, at: int) {
    Reduced(turn, ClientBuffer(turn, log, at)) == Reduced(turn, log)
  }

  lemma {:induction false} CutOfExtension(turn: string, log: seq<Envelope>,
                                          more: seq<Envelope>, at: int, worker: string)
    requires IsLog(log + more, worker) && StopsAtEnd(turn, log, at)
    ensures ClientBuffer(turn, log + more, at) == From(log, at)
    decreases |log|
  {
    assert (log + more)[0] == log[0];
    assert (log + more)[1..] == log[1..] + more;
    if |log| == 1 {
      assert log[1..] == [];
      assert From(log, at) == [log[0]];
      assert From(log + more, at) == [log[0]] + From((log + more)[1..], at);
    } else {
      assert StopsAtEnd(turn, log[1..], at);
      CutOfExtension(turn, log[1..], more, at, worker);
      assert From(log, at) == (if log[0].seqNo >= at then [log[0]] else []) + From(log[1..], at);
      assert From(log + more, at) == (if log[0].seqNo >= at then [log[0]] else []) + From(log[1..] + more, at);
      var all := From(log + more, at);
      if log[0].seqNo >= at {
        assert all[0] == log[0] && all[1..] == From(log[1..] + more, at);
      } else {
        assert all == From(log[1..] + more, at);
      }
    }
  }

  lemma {:induction false} LiveAppend(a: seq<Envelope>, b: seq<Envelope>)
    ensures Live(a + b) == Live(a) + Live(b)
  {
    if a == [] {
      assert a + b == b;
    } else {
      assert (a + b)[1..] == a[1..] + b;
      LiveAppend(a[1..], b);
      assert Live(a + b) == (if a[0].replay then [] else [a[0]]) + Live(a[1..] + b);
    }
  }

  lemma {:induction false} RunAppend(turn: string, f: FoldState, a: seq<Envelope>, b: seq<Envelope>)
    ensures Run(turn, f, a + b) == Run(turn, Run(turn, f, a), b)
    decreases |a|
  {
    if a == [] {
      assert a + b == b;
    } else if f.terminal == NotTerminal {
      assert (a + b)[1..] == a[1..] + b;
      RunAppend(turn, Step(turn, f, a[0]), a[1..], b);
    }
  }

  lemma {:induction false} StaysOpen(turn: string, f: FoldState, es: seq<Envelope>)
    requires f.terminal == NotTerminal
    requires forall e :: e in es ==> !IsTurnTerminal(turn, e)
    ensures Run(turn, f, es).terminal == NotTerminal
    decreases |es|
  {
    if es != [] {
      assert es[0] in es;
      StaysOpen(turn, Step(turn, f, es[0]), es[1..]);
    }
  }

  function Said(turn: string, worker: string, at: int): Envelope {
    Envelope(worker, at, "", Some(turn), false, SessionUpdate(MessageChunk(Some("x"))))
  }

  lemma NoLiveEnd(turn: string, log: seq<Envelope>, at: int, e: Envelope)
    requires StrictlyBySeq(log) && StopsAtEnd(turn, log, at) && log[|log| - 1].replay
    requires e in log && e.seqNo >= at && !e.replay
    ensures !IsTurnTerminal(turn, e)
  {
    var k :| 0 <= k < |log| && log[k] == e;
    assert k != |log| - 1;
  }

  /** A log the client stopped reading at replayed history leaves the fold open. */
  lemma FoldStillOpen(turn: string, worker: string, log: seq<Envelope>, at: int)
    requires IsLog(log, worker) && AcceptedAt(turn, log, at) && StopsAtEnd(turn, log, at)
    requires log[|log| - 1].replay
    ensures FoldOf(turn, log).terminal == NotTerminal
    ensures FoldOf(turn, log) == FoldOf(turn, From(log, at))
  {
    var rest := From(log, at);
    NothingBeforeAccepted(turn, log, at, worker);
    FromMembers(log, at);
    FoldOfLog(turn, log, worker);
    FoldOfLog(turn, rest, worker);
    LiveMembers(rest);
    forall e | e in Live(rest)
      ensures !IsTurnTerminal(turn, e)
    {
      NoLiveEnd(turn, log, at, e);
    }
    StaysOpen(turn, Initial, Live(rest));
  }

  lemma LogGoesOn(worker: string, log: seq<Envelope>, e: Envelope)
    requires IsLog(log, worker) && log != [] && log[|log| - 1].seqNo < e.seqNo && e.workerId == worker
    ensures IsLog(log + [e], worker)
  {
    assert forall i :: 0 <= i < |log| - 1 ==> log[i].seqNo < log[|log| - 1].seqNo;
  }

  lemma FoldOfOneMore(turn: string, worker: string, log: seq<Envelope>, e: Envelope)
    requires IsLog(log, worker) && IsLog(log + [e], worker) && !e.replay
    requires FoldOf(turn, log).terminal == NotTerminal
    ensures FoldOf(turn, log + [e]) == Step(turn, FoldOf(turn, log), e)
  {
    FoldOfLog(turn, log, worker);
    FoldOfLog(turn, log + [e], worker);
    LiveAppend(log, [e]);
    assert [e][1..] == [];
    assert Live([e]) == [e];
    RunAppend(turn, Initial, Live(log), [e]);
    var f := FoldOf(turn, log);
    assert Run(turn, f, [e]) == Run(turn, Step(turn, f, e), []);
  }

  lemma SaidIsSeen(turn: string, f: FoldState, worker: string, at: int)
    ensures Step(turn, f, Said(turn, worker, at)).text == f.text + "x"
  {
  }

  /** If the client stopped at replayed history, the daemon's turn goes on: one more chunk tells. */
  lemma ReplayedEndBreaksAgreement(turn: string, worker: string, log: seq<Envelope>, at: int)
    requires IsLog(log, worker) && AcceptedAt(turn, log, at) && StopsAtEnd(turn, log, at)
    requires log[|log| - 1].replay
    ensures var more := [Said(turn, worker, log[|log| - 1].seqNo + 1)];
      IsLog(log + more, worker) && !AgreesOn(turn, log + more, at)
  {
    var e := Said(turn, worker, log[|log| - 1].seqNo + 1);
    LogGoesOn(worker, log, e);
    FoldStillOpen(turn, worker, log, at);
    FoldOfOneMore(turn, worker, log, e);
    CutOfExtension(turn, log, [e], at, worker);
    SaidIsSeen(turn, FoldOf(turn, log), worker, e.seqNo);
    assert Reduced(turn, log + [e]).text == FoldOf(turn, log).text + "x";
    assert Reduced(turn, ClientBuffer(turn, log + [e], at)).text == FoldOf(turn, log).text;
  }

  lemma StoppedAtRealEnd(turn: string, worker: string, log: seq<Envelope>, more: seq<Envelope>, at: int)
    requires IsLog(log, worker) && AcceptedAt(turn, log, at) && StopsAtEnd(turn, log, at)
    requires !log[|log| - 1].replay && IsLog(log + more, worker)
    ensures AgreesOn(turn, log + more, at)
  {
    CutOfExtension(turn, log, more, at, worker);
    FromMembers(log, at);
    forall e | e in From(log, at) && e.replay
      ensures !IsTurnTerminal(turn, e)
    {
      var k :| 0 <= k < |log| && log[k] == e;
    }
    var last := log[|log| - 1];
    forall e | e in log + more && Opens(turn, e)
      ensures e.seqNo >= at
    {
      var k :| 0 <= k < |log + more| && (log + more)[k] == e;
      if k >= |log| {
        assert (log + more)[|log| - 1] == last;
      } else {
        assert e in log;
      }
    }
    var opening :| opening in log && opening.seqNo == at && Opens(turn, opening);
    assert opening in log + more;
    ClientAndDaemonAgree(turn, worker, log + more, at);
  }

  /** However the log goes on, they agree if and only if the client did not stop at replayed history. */
  lemma AgreementExactlyWhen(turn: string, worker: string, log: seq<Envelope>, at: int)
    requires IsLog(log, worker) && AcceptedAt(turn, log, at) && StopsAtEnd(turn, log, at)
    ensures (forall more :: IsLog(log + more, worker) ==> AgreesOn(turn, log + more, at)) <==> !log[|log| - 1].replay
  {
    if log[|log| - 1].replay {
      ReplayedEndBreaksAgreement(turn, worker, log, at);
    } else {
      forall more | IsLog(log + more, worker)
        ensures AgreesOn(turn, log + more, at)
      {
        StoppedAtRealEnd(turn, worker, log, more, at);
      }
    }
  }
}
