/**
 The reducer gives what is read off the window, field by field, for the result and for the status.
 */
module TurnReadingLaws {
  import opened Wrappers
  import opened Envelopes
  import opened Turn
  import opened TurnEvents
  import opened TurnAgreement
  import opened TurnVerdict
  import opened TurnReading
  import opened Reading

  // ---- what is read off a list of calls ----

  lemma {:induction false} FailedRead(calls: seq<ToolCall>)
    ensures IdsWhere(calls, IsFailedStatus) == Collected(calls, FailedIn)
  {
    if calls != [] {
      FailedRead(calls[1..]);
      CollectedCons(calls, FailedIn);
    }
  }

  lemma {:induction false} StrandedRead(calls: seq<ToolCall>)
    ensures IdsWhere(calls, IsOpenStatus) == Collected(calls, StrandedIn)
  {
    if calls != [] {
      StrandedRead(calls[1..]);
      CollectedCons(calls, StrandedIn);
    }
  }

  lemma {:induction false} ChangesInRead(content: seq<Content>)
    ensures ChangesIn(content) == Collected(content, ChangeIn)
  {
    if content != [] {
      ChangesInRead(content[1..]);
      CollectedCons(content, ChangeIn);
    }
  }

  lemma {:induction false} ChangesRead(calls: seq<ToolCall>)
    ensures ChangesOf(calls) == Collected(calls, ChangesInCall)
  {
    if calls != [] {
      ChangesRead(calls[1..]);
      ChangesInRead(calls[0].content);
      CollectedCons(calls, ChangesInCall);
    }
  }

  lemma {:induction false} DeniedWarningsRead(ids: seq<string>)
    ensures DeniedWarnings(ids) == Collected(ids, DeniedWarning)
  {
    if ids != [] {
      DeniedWarningsRead(ids[..|ids| - 1]);
    }
  }

  lemma {:induction false} FailedWarningsRead(ids: seq<string>)
    ensures FailedWarnings(ids) == Collected(ids, FailedWarning)
  {
    if ids != [] {
      FailedWarningsRead(ids[..|ids| - 1]);
    }
  }

  lemma UnpolicedRead(watched: seq<string>, named: seq<InteractionRecord>, c: ToolCall)
    ensures UnpolicedIn(watched, named, c) == if IsUnpoliced(watched, named, c) then [UnpolicedWarning(c)] else []
  {
  }

  lemma {:induction false} UnpolicedWarningsRead(watched: seq<string>, calls: seq<ToolCall>,
                                                 named: seq<InteractionRecord>)
    requires forall i, j :: 0 <= i < j < |calls| ==> calls[i].toolCallId != calls[j].toolCallId
    ensures UnpolicedWarnings(watched, calls, named) == Collected(calls, c => UnpolicedIn(watched, named, c))
  {
    if calls != [] {
      var earlier, last := calls[..|calls| - 1], calls[|calls| - 1];
      UnpolicedWarningsRead(watched, earlier, named);
      UnpolicedRead(watched, named, last);
      assert !Reported(watched, earlier, named, last.toolCallId);
    }
  }

  // ---- what one envelope adds to the fold ----

  lemma AddsText(f: FoldState, e: Envelope)
    ensures Absorbed(f, e).text == f.text + TextIn(e)
  {
  }

  lemma AddsRecords(f: FoldState, e: Envelope)
    ensures Absorbed(f, e).interactions == f.interactions + RecordIn(e)
  {
  }

  lemma AddsUsageAndError(f: FoldState, e: Envelope)
    ensures Absorbed(f, e).usage == UsageIn(e).OrElse(f.usage)
    ensures Absorbed(f, e).error == ErrorIn(e).OrElse(f.error)
  {
  }

  lemma AddsCall(f: FoldState, e: Envelope)
    ensures Absorbed(f, e).order ==
            f.order + if CallIn(e) != [] && CallIn(e)[0] !in f.calls then CallIn(e) else []
  {
  }

  lemma AddsDenial(f: FoldState, e: Envelope)
    ensures Absorbed(f, e).denied ==
            f.denied + if DenialIn(e) != [] && DenialIn(e)[0] !in f.denied then DenialIn(e) else []
  {
    if e.body.PolicyDecision? {
      DenialsAreRead(e);
    }
  }

  lemma DenialsAreRead(e: Envelope)
    requires e.body.PolicyDecision?
    ensures DenialIn(e) == if IsDenial(e.body.decision) then [e.body.decision.toolCallId.value] else []
  {
  }

  lemma DecisionWarns(d: Decision)
    ensures DecisionWarnings(d) == OnDecision(d)
  {
  }

  lemma AddsWarnings(f: FoldState, e: Envelope)
    ensures Absorbed(f, e).streamWarnings == f.streamWarnings + WarningsIn(e)
  {
    match e.body
    case PolicyDecision(d) => DecisionWarns(d);
    case Interaction(_, _, _, _) =>
    case SessionUpdate(u) =>
      if Settles(e) && u.meta.Some? && u.meta.value.patch.Some? {
        Reassociated(f.streamWarnings, u.meta.value.warnings, u.meta.value.patch.value.warnings);
      }
    case _ =>
  }

  // ---- what stays parked ----

  lemma {:induction false} WithoutLast(s: seq<string>, last: string, x: string)
    ensures Without(s + [last], x) == Without(s, x) + if last == x then [] else [last]
  {
    if s == [] {
      assert [] + [last] == [last] && [last][1..] == [];
    } else {
      assert (s + [last])[1..] == s[1..] + [last];
      WithoutLast(s[1..], last, x);
    }
  }

  lemma StayGoesOn(win: seq<Envelope>, k: nat)
    requires win != [] && k < |win| - 1
    ensures StartsLastingStay(win, k) <==>
            StartsLastingStay(win[..|win| - 1], k) && !SettlesRequest(win[|win| - 1], win[k].body.requestId)
  {
    var front := win[..|win| - 1];
    assert front[..k] == win[..k] && front[k] == win[k];
    if StartsLastingStay(win, k) {
      forall m | k < m < |front|
        ensures !SettlesRequest(front[m], front[k].body.requestId)
      {
        assert front[m] == win[m];
      }
    }
    if StartsLastingStay(front, k) && !SettlesRequest(win[|win| - 1], win[k].body.requestId) {
      forall m | k < m < |win|
        ensures !SettlesRequest(win[m], win[k].body.requestId)
      {
        if m < |front| {
          assert front[m] == win[m];
        }
      }
    }
  }

  lemma {:induction false} ParkedBefore(win: seq<Envelope>, k: nat)
    requires win != [] && k < |win|
    ensures var front, last := win[..|win| - 1], win[|win| - 1];
            ParkedBy(win, k) ==
            if last.body.Interaction? && last.body.status != Pending
            then Without(ParkedBy(front, k), last.body.requestId) else ParkedBy(front, k)
  {
    if k > 0 {
      var front, last := win[..|win| - 1], win[|win| - 1];
      ParkedBefore(win, k - 1);
      StayGoesOn(win, k - 1);
      assert front[k - 1] == win[k - 1];
      if last.body.Interaction? && win[k - 1].body.Interaction? {
        WithoutLast(ParkedBy(front, k - 1), win[k - 1].body.requestId, last.body.requestId);
      }
    }
  }

  lemma ParkedStep(win: seq<Envelope>)
    requires win != []
    ensures var front, last := win[..|win| - 1], win[|win| - 1];
            Parked(win) ==
            if !last.body.Interaction? then Parked(front)
            else if last.body.status != Pending then Without(Parked(front), last.body.requestId)
            else if LastStatus(front, last.body.requestId) == Some(Pending) then Parked(front)
            else Parked(front) + [last.body.requestId]
  {
    ParkedBefore(win, |win| - 1);
  }

  lemma AddsParked(win: seq<Envelope>, f: FoldState)
    requires win != [] && Signals(win[..|win| - 1], f) && f.pending == Parked(win[..|win| - 1])
    ensures Absorbed(f, win[|win| - 1]).pending == Parked(win)
  {
    ParkedStep(win);
  }

  // ---- what the fold has gathered ----

  ghost predicate GatheredLists(win: seq<Envelope>, f: FoldState) {
    && f.text == Collected(win, TextIn)
    && f.interactions == Collected(win, RecordIn)
    && f.streamWarnings == Collected(win, WarningsIn)
    && f.usage == LastOf(win, UsageIn)
    && f.error == LastOf(win, ErrorIn)
  }

  ghost predicate GatheredIds(win: seq<Envelope>, f: FoldState) {
    && f.order == FirstOccurrences(Collected(win, CallIn))
    && f.denied == FirstOccurrences(Collected(win, DenialIn))
    && f.pending == Parked(win)
  }

  lemma ListsGrow(win: seq<Envelope>, f: FoldState)
    requires win != [] && GatheredLists(win[..|win| - 1], f)
    ensures GatheredLists(win, Absorbed(f, win[|win| - 1]))
  {
    AddsText(f, win[|win| - 1]);
    AddsRecords(f, win[|win| - 1]);
    AddsWarnings(f, win[|win| - 1]);
    AddsUsageAndError(f, win[|win| - 1]);
  }

  lemma IdsGrow(win: seq<Envelope>, f: FoldState)
    requires win != [] && GatheredIds(win[..|win| - 1], f)
    requires IsLastWriterView(win[..|win| - 1], f.order, f.calls) && Signals(win[..|win| - 1], f)
    ensures GatheredIds(win, Absorbed(f, win[|win| - 1]))
  {
    var front, last := win[..|win| - 1], win[|win| - 1];
    AddsCall(f, last);
    OccurrencesAreMembers(Collected(front, CallIn));
    OneMoreOccurrence(Collected(front, CallIn), CallIn(last));
    AddsDenial(f, last);
    OccurrencesAreMembers(Collected(front, DenialIn));
    OneMoreOccurrence(Collected(front, DenialIn), DenialIn(last));
    AddsParked(win, f);
  }

  lemma {:induction false} GatheredFromWindow(f: FoldState, win: seq<Envelope>)
    requires f.calls == map[] && GatheredLists([], f) && GatheredIds([], f)
    ensures GatheredLists(win, AbsorbAll(f, win)) && GatheredIds(win, AbsorbAll(f, win))
    decreases |win|
  {
    if win != [] {
      var front := win[..|win| - 1];
      GatheredFromWindow(f, front);
      ToolCallsAreLastWriterView(f, front);
      SignalsOfWindow(f, front);
      AbsorbLast(f, win);
      ListsGrow(win, AbsorbAll(f, front));
      IdsGrow(win, AbsorbAll(f, front));
    }
  }

  // ---- what an idle gives ----

  /** Only an idle sets these. */
  ghost predicate SameSettling(f: FoldState, g: FoldState) {
    && g.stopReason == f.stopReason && g.endSeq == f.endSeq && g.tokens == f.tokens
    && g.vendorPatch == f.vendorPatch && g.patch == f.patch && g.alertOnUnpoliced == f.alertOnUnpoliced
  }

  lemma {:induction false} NotSettledYet(f: FoldState, win: seq<Envelope>)
    requires forall e :: e in win ==> !Settles(e)
    ensures SameSettling(f, AbsorbAll(f, win))
    decreases |win|
  {
    if win != [] {
      assert win[0] in win;
      assert SameSettling(f, Absorbed(f, win[0]));
      NotSettledYet(Absorbed(f, win[0]), win[1..]);
    }
  }

  lemma {:induction false} MineOfOneMore(turn: string, es: seq<Envelope>, e: Envelope)
    ensures Mine(turn, es + [e]) == Mine(turn, es) + if e.turnId == Some(turn) then [e] else []
  {
    if es == [] {
      assert [] + [e] == [e] && [e][1..] == [];
    } else {
      var first := if es[0].turnId == Some(turn) then [es[0]] else [];
      assert (es + [e])[1..] == es[1..] + [e];
      MineOfOneMore(turn, es[1..], e);
      Reassociated(first, Mine(turn, es[1..]), if e.turnId == Some(turn) then [e] else []);
    }
  }

  lemma {:induction false} MineAreOfThese(turn: string, es: seq<Envelope>)
    ensures forall e :: e in Mine(turn, es) ==> e in es && e.turnId == Some(turn)
  {
    if es != [] {
      MineAreOfThese(turn, es[1..]);
    }
  }

  lemma {:induction false} OnlyTheLastEnds(turn: string, es: seq<Envelope>)
    ensures var cut := ThroughTerminal(turn, es);
            forall k :: 0 <= k < |cut| - 1 ==> !IsTurnTerminal(turn, cut[k])
  {
    if es != [] && !IsTurnTerminal(turn, es[0]) {
      OnlyTheLastEnds(turn, es[1..]);
      assert ThroughTerminal(turn, es)[1..] == ThroughTerminal(turn, es[1..]);
    }
  }

  /** The window of a settled turn ends with the idle, and nothing before it settles. */
  lemma WindowEnds(turn: string, own: seq<Envelope>)
    ensures var win := Window(turn, own);
            if SettledBy(turn, own).Some?
            then win != [] && Settles(win[|win| - 1]) && Some(win[|win| - 1].body.update) == SettledBy(turn, own)
                 && win[|win| - 1] == Span(turn, own)[|Span(turn, own)| - 1]
                 && forall e :: e in win[..|win| - 1] ==> !Settles(e)
            else forall e :: e in win ==> !Settles(e)
  {
    var span := Span(turn, own);
    if span != [] {
      var front, last := span[..|span| - 1], span[|span| - 1];
      OnlyTheLastEnds(turn, Since(turn, own));
      assert span == front + [last];
      MineOfOneMore(turn, front, last);
      MineAreOfThese(turn, front);
      forall e | e in Mine(turn, front)
        ensures !Settles(e)
      {
        var k :| 0 <= k < |front| && front[k] == e;
        assert span[k] == e && !IsTurnTerminal(turn, ThroughTerminal(turn, Since(turn, own))[k]);
      }
    }
  }

  // ---- where the turn begins and ends ----

  /** The three ends of a turn: its own idle, its worker's close, and a restart of the worker. */
  predicate EndsTurn(turn: string, e: Envelope) {
    match e.body
    case SessionUpdate(StateUpdate(state, _, _, _)) => e.turnId == Some(turn) && state == "idle"
    case WorkerStateChange(state, reason, _) => state == Closed || (state == Starting && reason == "restart")
    case _ => false
  }

  lemma EndsAreTerminal(turn: string, e: Envelope)
    ensures IsTurnTerminal(turn, e) <==> EndsTurn(turn, e)
    ensures IsRestart(e) || IsClose(e) <==> EndsTurn(turn, e) && e.body.WorkerStateChange?
  {
  }

  lemma {:induction false} SinceIsRead(turn: string, own: seq<Envelope>) returns (i: nat)
    ensures i <= |own| && Since(turn, own) == own[i..]
    ensures forall k :: 0 <= k < i ==> own[k].turnId != Some(turn)
    ensures i < |own| ==> own[i].turnId == Some(turn)
    decreases |own|
  {
    if own == [] || own[0].turnId == Some(turn) {
      i := 0;
    } else {
      i := SinceIsRead(turn, own[1..]);
      i := i + 1;
      assert own[1..][i - 1..] == own[i..];
    }
  }

  lemma {:induction false} CutIsRead(turn: string, es: seq<Envelope>) returns (j: nat)
    ensures j <= |es| && ThroughTerminal(turn, es) == es[..j]
    ensures forall k :: 0 <= k < j - 1 ==> !EndsTurn(turn, es[k])
    ensures j < |es| ==> j > 0 && EndsTurn(turn, es[j - 1])
    decreases |es|
  {
    if es == [] {
      j := 0;
    } else {
      EndsAreTerminal(turn, es[0]);
      if IsTurnTerminal(turn, es[0]) {
        j := 1;
      } else {
        j := CutIsRead(turn, es[1..]);
        j := j + 1;
        assert es[..j] == [es[0]] + es[1..][..j - 1];
      }
    }
  }

  /** The span of a turn: from its own first envelope through the first end, or to the end of the log. */
  lemma SpanIsRead(turn: string, own: seq<Envelope>) returns (i: nat, j: nat)
    ensures i <= j <= |own| && Span(turn, own) == own[i..j]
    ensures forall k :: 0 <= k < i ==> own[k].turnId != Some(turn)
    ensures i < |own| ==> own[i].turnId == Some(turn)
    ensures forall k :: i <= k < j - 1 ==> !EndsTurn(turn, own[k])
    ensures j < |own| ==> i < j && EndsTurn(turn, own[j - 1])
    ensures IsOver(turn, own) <==> i < j && EndsTurn(turn, own[j - 1])
    ensures EndedByWorker(turn, own) <==> IsOver(turn, own) && own[j - 1].body.WorkerStateChange?
  {
    i := SinceIsRead(turn, own);
    var n := CutIsRead(turn, own[i..]);
    j := i + n;
    assert own[i..][..n] == own[i..j];
    forall k | i <= k < j - 1
      ensures !EndsTurn(turn, own[k])
    {
      assert own[i..][k - i] == own[k];
    }
    if i < j {
      EndsAreTerminal(turn, own[j - 1]);
    }
  }

  function SettlingMeta(turn: string, own: seq<Envelope>): Option<SettleMeta> {
    var idle := SettledBy(turn, own);
    if idle.Some? then MetaOf(idle.value) else None
  }

  /** What an idle sets, when one ended the turn; nothing otherwise. */
  ghost predicate IdleIsRead(turn: string, own: seq<Envelope>, f: FoldState) {
    var idle, meta := SettledBy(turn, own), SettlingMeta(turn, own);
    && f.stopReason == (if idle.Some? then idle.value.stopReason else None)
    && f.tokens == (if idle.Some? then idle.value.tokens else None)
    && f.vendorPatch == (if meta.Some? then meta.value.vendorPatch else None)
    && f.patch == (if meta.Some? && meta.value.patch.Some? then meta.value.patch.value.patch else None)
    && f.alertOnUnpoliced == (if meta.Some? then meta.value.alertOnUnpoliced else [])
  }

  ghost predicate SettlingIsRead(turn: string, own: seq<Envelope>, g: FoldState) {
    && IdleIsRead(turn, own, g)
    && g.endSeq == (if SettledBy(turn, own).Some? then Some(Span(turn, own)[|Span(turn, own)| - 1].seqNo) else None)
  }

  /** What the idle sets of a fold that no idle has touched. */
  lemma IdleSets(f: FoldState, e: Envelope)
    requires SameSettling(Initial, f) && Settles(e)
    ensures var g, meta := Absorbed(f, e), e.body.update.meta;
            && g.stopReason == e.body.update.stopReason && g.endSeq == Some(e.seqNo)
            && g.tokens == e.body.update.tokens
            && g.vendorPatch == (if meta.Some? then meta.value.vendorPatch else None)
            && g.patch == (if meta.Some? && meta.value.patch.Some? then meta.value.patch.value.patch else None)
            && g.alertOnUnpoliced == (if meta.Some? then meta.value.alertOnUnpoliced else [])
  {
  }

  lemma SettlingRead(turn: string, own: seq<Envelope>, b: FoldState)
    requires SameSettling(Initial, b)
    ensures SettlingIsRead(turn, own, AbsorbAll(b, Window(turn, own)))
  {
    var win := Window(turn, own);
    WindowEnds(turn, own);
    if SettledBy(turn, own).Some? {
      var front := win[..|win| - 1];
      AbsorbLast(b, win);
      NotSettledYet(b, front);
      IdleSets(AbsorbAll(b, front), win[|win| - 1]);
    } else {
      NotSettledYet(b, win);
    }
  }

  // ---- the finished fold ----

  ghost predicate FoldIsRead(turn: string, own: seq<Envelope>, f: FoldState) {
    var win := Window(turn, own);
    && f.text == Collected(win, TextIn)
    && f.interactions == Collected(win, RecordIn)
    && f.streamWarnings == Collected(win, WarningsIn)
    && f.usage == LastOf(win, UsageIn)
    && GatheredIds(win, f)
    && IsLastWriterView(win, f.order, f.calls)
  }

  ghost predicate EndIsRead(turn: string, worker: string, own: seq<Envelope>, f: FoldState) {
    var since, span := Since(turn, own), Span(turn, own);
    && f.error == ErrorRead(turn, own)
    && f.startSeq == (if since == [] then None else Some(since[0].seqNo))
    && f.workerId == (if since == [] then None else Some(worker))
    && (f.terminal != NotTerminal <==> IsOver(turn, own))
    && f.endSeq == (if IsOver(turn, own) then Some(span[|span| - 1].seqNo) else None)
  }

  lemma CodesAreRead(reason: string)
    ensures CloseCode(reason) == CodeOf(reason)
  {
  }

  lemma EndErrorIsRead(e: Envelope)
    requires IsRestart(e) || IsClose(e)
    ensures EndError(e) == ErrorOfEnd(e)
  {
    CodesAreRead(e.body.reason);
  }

  lemma {:induction false} AbsorbingKeepsWorker(f: FoldState, es: seq<Envelope>)
    ensures AbsorbAll(f, es).workerId == f.workerId
    decreases |es|
  {
    if es != [] {
      assert Absorbed(f, es[0]).workerId == f.workerId;
      AbsorbingKeepsWorker(Absorbed(f, es[0]), es[1..]);
    }
  }

  /** From the absorbed window to the finished fold: what the worker's end adds. */
  lemma FinishedIsRead(turn: string, worker: string, own: seq<Envelope>, g: FoldState, f: FoldState)
    requires Since(turn, own) != [] && forall e :: e in own ==> e.workerId == worker
    requires RunsTo(turn, Begun(turn, Since(turn, own)[0]), Since(turn, own), f)
    requires g == AbsorbAll(Begun(turn, Since(turn, own)[0]), Window(turn, own))
    requires g.error == LastOf(Window(turn, own), ErrorIn) && SettlingIsRead(turn, own, g)
    ensures EndIsRead(turn, worker, own, f) && IdleIsRead(turn, own, f)
  {
    var span, b := Span(turn, own), Begun(turn, Since(turn, own)[0]);
    var last := span[|span| - 1];
    NothingBeforeTheTurn(turn, own);
    SinceStartsMine(turn, own);
    MineAreOfThese(turn, span);
    AbsorbingKeepsStart(turn, b, Window(turn, own));
    AbsorbingKeepsWorker(b, Window(turn, own));
    if EndedByWorker(turn, own) {
      EndErrorIsRead(last);
      assert f == Ended(g, last);
    } else {
      assert f == g;
    }
  }

  lemma FoldOfOwnIsRead(turn: string, worker: string, own: seq<Envelope>)
    requires forall e :: e in own ==> e.workerId == worker
    ensures var f := Run(turn, Initial, own);
            FoldIsRead(turn, own, f) && EndIsRead(turn, worker, own, f) && IdleIsRead(turn, own, f)
  {
    var since, win, f := Since(turn, own), Window(turn, own), Run(turn, Initial, own);
    FoldOverWindow(turn, own, worker);
    assert IsLastWriterView(win, f.order, f.calls) by {
      FoldKeepsWindow(turn, own, worker);
    }
    if since != [] {
      var b := Begun(turn, since[0]);
      GatheredFromWindow(b, win);
      SettlingRead(turn, own, b);
      FinishedIsRead(turn, worker, own, AbsorbAll(b, win), f);
    }
  }

  // ---- the result and the status ----

  lemma CallsAreRead(win: seq<Envelope>, f: FoldState)
    requires f.order == FirstOccurrences(Collected(win, CallIn)) && IsLastWriterView(win, f.order, f.calls)
    ensures ViewOf(f, f.order) == CallsRead(win)
  {
    assert forall id :: id in f.order ==> id in f.calls;
    ViewIsByOrder(f, f.order);
    forall i | 0 <= i < |f.order|
      ensures f.order[i] in f.calls
    {
      assert f.order[i] in f.order;
    }
  }

  lemma CallsAreDistinct(win: seq<Envelope>, f: FoldState)
    requires f.order == FirstOccurrences(Collected(win, CallIn)) && IsLastWriterView(win, f.order, f.calls)
    ensures var calls := CallsRead(win);
            forall i, j :: 0 <= i < j < |calls| ==> calls[i].toolCallId != calls[j].toolCallId
  {
    EachOnce(win, f);
    forall i, j | 0 <= i < j < |CallsRead(win)|
      ensures CallsRead(win)[i].toolCallId != CallsRead(win)[j].toolCallId
    {
      CallHasItsId(win, i);
      CallHasItsId(win, j);
    }
  }

  lemma CallHasItsId(win: seq<Envelope>, i: nat)
    requires i < |FirstOccurrences(Collected(win, CallIn))|
    ensures |CallsRead(win)| == |FirstOccurrences(Collected(win, CallIn))|
    ensures CallsRead(win)[i].toolCallId == FirstOccurrences(Collected(win, CallIn))[i]
  {
  }

  lemma EachOnce(win: seq<Envelope>, f: FoldState)
    requires IsLastWriterView(win, f.order, f.calls)
    ensures forall i, j :: 0 <= i < j < |f.order| ==> f.order[i] != f.order[j]
  {
    forall i, j | 0 <= i < j < |f.order|
      ensures f.order[i] != f.order[j]
    {
      assert SeenBefore(win, f.order[i], f.order[j]);
    }
  }

  lemma WarningsAreRead(turn: string, own: seq<Envelope>, f: FoldState)
    requires FoldIsRead(turn, own, f) && IdleIsRead(turn, own, f)
    ensures Materialized(turn, f).warnings == WarningsRead(turn, own)
  {
    var win := Window(turn, own);
    var calls := CallsRead(win);
    CallsAreRead(win, f);
    CallsAreDistinct(win, f);
    UnpolicedWarningsRead(f.alertOnUnpoliced, calls, f.interactions);
    FailedRead(calls);
    DeniedWarningsRead(f.denied);
    FailedWarningsRead(IdsWhere(calls, IsFailedStatus));
  }

  lemma NoCallShort(calls: seq<ToolCall>, over: bool)
    ensures IdsWhere(calls, IsFailedStatus) == [] && (over ==> IdsWhere(calls, IsOpenStatus) == []) <==>
            forall c :: c in calls ==> c.status == Some("completed") || (!over && c.status != Some("failed"))
  {
    NoneWhere(calls, IsFailedStatus);
    NoneWhere(calls, IsOpenStatus);
    assert forall i :: 0 <= i < |calls| ==> calls[i] in calls;
  }

  lemma VerdictIsRead(turn: string, worker: string, own: seq<Envelope>, f: FoldState)
    requires FoldIsRead(turn, own, f) && EndIsRead(turn, worker, own, f)
    ensures Materialized(turn, f).verdict == VerdictRead(turn, own)
  {
    var win := Window(turn, own);
    CallsAreRead(win, f);
    NoneCollected(Collected(win, DenialIn));
    NoCallShort(CallsRead(win), IsOver(turn, own));
  }

  lemma MaterializedIsRead(turn: string, worker: string, own: seq<Envelope>, f: FoldState)
    requires FoldIsRead(turn, own, f) && EndIsRead(turn, worker, own, f) && IdleIsRead(turn, own, f)
    ensures Materialized(turn, f) == ReadOff(turn, worker, own)
  {
    CallsAreRead(Window(turn, own), f);
    ChangesRead(CallsRead(Window(turn, own)));
    FailedRead(CallsRead(Window(turn, own)));
    StrandedRead(CallsRead(Window(turn, own)));
    WarningsAreRead(turn, own, f);
    VerdictIsRead(turn, worker, own, f);
  }

  /** Main result: whatever pile a turn is folded from, its result is what its window reads off as. */
  lemma ResultIsReadOff(turn: string, es: seq<Envelope>, worker: string)
    requires TurnOf(turn, es, worker) && SeqIsIdentity(es, worker)
    ensures Reduced(turn, es) == ReadOff(turn, worker, Ordered(es, worker))
  {
    FoldIsOverOwnEvents(turn, es, worker);
    OrderedAreOwn(es, worker);
    FoldOfOwnIsRead(turn, worker, Ordered(es, worker));
    MaterializedIsRead(turn, worker, Ordered(es, worker), FoldOf(turn, es));
  }

  /** And so is its status. */
  lemma StatusIsReadOff(turn: string, es: seq<Envelope>, worker: string)
    requires TurnOf(turn, es, worker) && SeqIsIdentity(es, worker)
    ensures StatusOf(turn, es) == StatusRead(turn, worker, Ordered(es, worker))
  {
    FoldIsOverOwnEvents(turn, es, worker);
    OrderedAreOwn(es, worker);
    FoldOfOwnIsRead(turn, worker, Ordered(es, worker));
    ResultIsReadOff(turn, es, worker);
  }
}
