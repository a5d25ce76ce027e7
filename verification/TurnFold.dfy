/**
 The turn reducer as the program runs it: a mutable `Fold` record updated in place by loops, then
 read out into a `TurnResult`. Every method is tied to the function of module `Turn` it computes.
 */
module TurnFold {
  import opened Wrappers
  import opened Envelopes
  import opened Turn

  /** The fields an update carries overwrite those of the call; the rest stay. */
  method Overwrite(before: ToolCall, p: ToolPatch) returns (call: ToolCall)
    ensures call == Patched(before, p)
  {
    call := before;
    if p.title.Some? {
      call := call.(title := p.title);
    }
    if p.kind.Some? {
      call := call.(kind := p.kind);
    }
    if p.status.Some? {
      call := call.(status := p.status);
    }
    if p.locations.Some? {
      call := call.(locations := p.locations.value);
    }
    if p.content.Some? {
      call := call.(content := p.content.value);
    }
    if p.rawInput.Some? {
      call := call.(rawInput := p.rawInput);
    }
    if p.rawOutput.Some? {
      call := call.(rawOutput := p.rawOutput);
    }
  }

  class Fold {
    var workerId: Option<string>
    var startSeq: Option<int>
    var endSeq: Option<int>
    var terminal: Terminal
    var stopReason: Option<string>
    var text: string
    var order: seq<string>
    var calls: map<string, ToolCall>
    var usage: Option<Json>
    var interactions: seq<InteractionRecord>
    var error: Option<ErrorBody>
    var tokens: Option<Json>
    var vendorPatch: Option<Json>
    var streamWarnings: seq<Warning>
    var alertOnUnpoliced: seq<string>
    var denied: seq<string>
    var patch: Option<Json>
    var pending: seq<string>

    /** The record as a value. */
    function View(): FoldState
      reads this
    {
      FoldState(workerId, startSeq, endSeq, terminal, stopReason, text, order, calls, usage, interactions,
                error, tokens, vendorPatch, streamWarnings, alertOnUnpoliced, denied, patch, pending)
    }

    constructor ()
      ensures View() == Initial
    {
      workerId, startSeq, endSeq, terminal, stopReason := None, None, None, NotTerminal, None;
      text, order, calls, usage, interactions := "", [], map[], None, [];
      error, tokens, vendorPatch, streamWarnings := None, None, None, [];
      alertOnUnpoliced, denied, patch, pending := [], [], None, [];
    }

    method UpsertToolCall(p: ToolPatch)
      modifies this
      ensures View() == Upserted(old(View()), p)
    {
      if p.toolCallId.None? {
        return;
      }
      var id := p.toolCallId.value;
      if id !in calls {
        calls := calls[id := NewCall(id)];
        order := order + [id];
      }
      var call := Overwrite(calls[id], p);
      calls := calls[id := call];
    }

    method ReadMeta(m: SettleMeta)
      modifies this
      ensures View() == WithMeta(old(View()), m)
    {
      vendorPatch := m.vendorPatch.OrElse(vendorPatch);
      streamWarnings := streamWarnings + m.warnings;
      alertOnUnpoliced := m.alertOnUnpoliced;
      if m.patch.Some? {
        patch := m.patch.value.patch;
        streamWarnings := streamWarnings + m.patch.value.warnings;
      }
    }

    method Settle(at: int, reason: Option<string>, used: Option<Json>, meta: Option<SettleMeta>)
      modifies this
      ensures View() == Settled(old(View()), at, reason, used, meta)
    {
      terminal := ByIdle;
      endSeq := Some(at);
      stopReason := reason;
      tokens := used.OrElse(tokens);
      assert View() == Settled(old(View()), at, reason, used, None);
      if meta.Some? {
        ReadMeta(meta.value);
      }
    }

    method ApplySessionUpdate(at: int, u: Update)
      modifies this
      ensures View() == Updated(old(View()), at, u)
    {
      match u
      case StateUpdate(state, reason, used, meta) =>
        if state == "idle" {
          Settle(at, reason, used, meta);
        }
      case MessageChunk(chunk) =>
        if chunk.Some? {
          text := text + chunk.value;
        }
      case ToolUpdate(p) => UpsertToolCall(p);
      case UsageUpdate(latest) =>
        if latest.Some? {
          usage := latest;
        }
      case OtherUpdate =>
    }

    method RecordDecision(d: Decision, ts: string)
      modifies this
      ensures View() == Decided(old(View()), d, ts)
    {
      interactions := interactions + [RecordOf(d, ts)];
      if d.interactionMethod.GetOr(PERMISSION) == PERMISSION && d.decision == Deny && d.toolCallId.Some? {
        if d.toolCallId.value !in denied {
          denied := denied + [d.toolCallId.value];
        }
      }
      streamWarnings := streamWarnings + DecisionWarnings(d);
    }

    method TrackInteraction(requestId: string, how: string, status: InteractionStatus, action: Option<string>)
      modifies this
      ensures View() == Interacted(old(View()), requestId, how, status, action)
    {
      if status == Pending {
        if requestId !in pending {
          pending := pending + [requestId];
        }
        return;
      }
      pending := Without(pending, requestId);
      streamWarnings := streamWarnings + SettleWarnings(requestId, how, status, action);
    }

    /** A close or a restart: it ends the turn when it concerns it. */
    method End(e: Envelope) returns (stop: bool)
      requires e.body.WorkerStateChange? && terminal == NotTerminal
      modifies this
      ensures View() == if Concerns(old(View()), e) then Ended(old(View()), e) else old(View())
      ensures stop <==> terminal != NotTerminal
    {
      if startSeq.None? || (workerId.Some? && e.workerId != workerId.value) {
        return false;
      }
      Conclude(e.seqNo, e.workerId, EndError(e));
      return true;
    }

    method StopAt(seqNo: int)
      modifies `terminal, `endSeq, `stopReason
      ensures View() == old(View()).(terminal := ByClose, endSeq := Some(seqNo), stopReason := None)
    {
      terminal := ByClose;
      endSeq := Some(seqNo);
      stopReason := None;
    }

    method Conclude(seqNo: int, worker: string, why: ErrorBody)
      modifies `terminal, `endSeq, `stopReason, `error, `workerId
      ensures View() == EndedWith(old(View()), seqNo, worker, why)
    {
      StopAt(seqNo);
      if error.None? {
        error := Some(why);
      }
      if workerId.None? {
        workerId := Some(worker);
      }
    }

    method Absorb(e: Envelope)
      modifies this
      ensures View() == Absorbed(old(View()), e)
    {
      match e.body {
        case SessionUpdate(u) => ApplySessionUpdate(e.seqNo, u);
        case PolicyDecision(d) => RecordDecision(d, e.ts);
        case ErrorReport(b) => error := Some(b);
        case Interaction(id, how, status, action) => TrackInteraction(id, how, status, action);
        case WorkerStateChange(_, _, _) =>
        case Unfolded(_) =>
      }
    }

    method Notice(turn: string, e: Envelope)
      modifies this
      ensures View() == Noticed(turn, old(View()), e)
    {
      if e.turnId == Some(turn) {
        if startSeq.None? {
          startSeq := Some(e.seqNo);
        }
        if workerId.None? {
          workerId := Some(e.workerId);
        }
      }
    }

    /** One round of the loop; `stop` says the loop breaks here. */
    method Take(turn: string, e: Envelope) returns (stop: bool)
      requires View().terminal == NotTerminal
      modifies this
      ensures View() == Step(turn, old(View()), e)
      ensures stop <==> View().terminal != NotTerminal
    {
      Notice(turn, e);
      if IsRestart(e) || IsClose(e) {
        stop := End(e);
        return;
      }
      if e.turnId != Some(turn) {
        return false;
      }
      Absorb(e);
      stop := terminal != NotTerminal;
    }

    method TakeAll(turn: string, ordered: seq<Envelope>)
      requires View() == Initial
      modifies this
      ensures View() == Run(turn, Initial, ordered)
    {
      var i, stop := 0, false;
      while i < |ordered| && !stop
        invariant 0 <= i <= |ordered|
        invariant stop <==> View().terminal != NotTerminal
        invariant Run(turn, Initial, ordered) == Run(turn, View(), ordered[i..])
      {
        assert ordered[i..][1..] == ordered[i + 1..];
        stop := Take(turn, ordered[i]);
        i := i + 1;
      }
    }
  }

  /** The de-duplication loop with its `seen` set of identities. */
  method Deduplicate(envelopes: seq<Envelope>) returns (kept: seq<Envelope>)
    ensures kept == Unique(envelopes)
  {
    kept := [];
    var seen: set<(string, int)> := {};
    for i := 0 to |envelopes|
      invariant kept == Unique(envelopes[..i])
      invariant forall w, n :: (w, n) in seen <==>
                  exists k :: 0 <= k < |kept| && kept[k].workerId == w && kept[k].seqNo == n
    {
      var e := envelopes[i];
      assert envelopes[..i + 1][..i] == envelopes[..i];
      if !e.replay && (e.workerId, e.seqNo) !in seen {
        assert !Known(kept, e);
        seen := seen + {(e.workerId, e.seqNo)};
        ghost var was := kept;
        kept := kept + [e];
        assert kept[|was|] == e;
        assert forall k :: 0 <= k < |was| ==> kept[k] == was[k];
      } else {
        assert e.replay || Known(kept, e);
      }
    }
    assert envelopes[..|envelopes|] == envelopes;
  }

  method FoldEnvelopes(turn: string, envelopes: seq<Envelope>) returns (f: Fold)
    ensures fresh(f) && f.View() == FoldOf(turn, envelopes)
  {
    var kept := Deduplicate(envelopes);
    f := new Fold();
    f.TakeAll(turn, Sorted(kept));
  }

  method FindUnpoliced(watched: seq<string>, calls: seq<ToolCall>, interactions: seq<InteractionRecord>)
    returns (out: seq<Warning>)
    ensures out == UnpolicedWarnings(watched, calls, interactions)
  {
    out := [];
    if watched == [] {
      NothingWatched(calls, interactions);
      return;
    }
    var policed := set i | i in interactions && i.toolCallId.Some? :: i.toolCallId.value;
    var seen: set<string> := {};
    for k := 0 to |calls|
      invariant out == UnpolicedWarnings(watched, calls[..k], interactions)
      invariant forall id :: id in seen <==> Reported(watched, calls[..k], interactions, id)
    {
      var call := calls[k];
      assert calls[..k + 1][..k] == calls[..k];
      assert call.toolCallId in policed <==> exists i :: i in interactions && i.toolCallId == Some(call.toolCallId);
      assert calls[..k + 1][|calls[..k + 1]| - 1] == call;
      ReportedGrows(watched, calls[..k + 1], interactions);
      if call.kind.Some? && call.kind.value in watched && call.toolCallId !in policed && call.toolCallId !in seen {
        assert IsUnpoliced(watched, interactions, call);
        seen := seen + {call.toolCallId};
        out := out + [UnpolicedWarning(call)];
      }
    }
    assert calls[..|calls|] == calls;
  }

  lemma {:induction false} NothingWatched(calls: seq<ToolCall>, interactions: seq<InteractionRecord>)
    ensures UnpolicedWarnings([], calls, interactions) == []
  {
    if calls != [] {
      NothingWatched(calls[..|calls| - 1], interactions);
    }
  }

  method Materialize(turn: string, f: FoldState) returns (r: TurnResult)
    ensures r == Materialized(turn, f)
  {
    var calls := ViewOf(f, f.order);
    var failed := IdsWhere(calls, IsFailedStatus);
    var stranded := if f.terminal == NotTerminal then [] else IdsWhere(calls, IsOpenStatus);
    var unpoliced := FindUnpoliced(f.alertOnUnpoliced, calls, f.interactions);
    var warnings := f.streamWarnings + unpoliced + DeniedWarnings(f.denied) + FailedWarnings(failed);
    var verdict := Ok;
    if f.error.Some? {
      verdict := Bad;
    } else if |failed| > 0 || |f.denied| > 0 || |stranded| > 0 || |f.pending| > 0 {
      verdict := Partial;
    }
    r := TurnResult(turn, f.workerId.GetOr("w_unknown"), f.stopReason, f.text, calls, ChangesOf(calls),
                    f.patch, f.vendorPatch, f.usage, f.tokens, f.interactions, verdict, warnings,
                    failed, f.denied, stranded, f.pending, f.error);
  }

  method ReduceTurn(turn: string, envelopes: seq<Envelope>) returns (r: TurnResult)
    ensures r == Reduced(turn, envelopes)
  {
    var f := FoldEnvelopes(turn, envelopes);
    r := Materialize(turn, f.View());
  }

  method GetTurnStatus(turn: string, envelopes: seq<Envelope>) returns (s: TurnStatus)
    ensures s == StatusOf(turn, envelopes)
  {
    var f := FoldEnvelopes(turn, envelopes);
    if f.startSeq.None? {
      return TurnStatus(turn, UnknownTurn, None, None, None, None);
    }
    var r := Materialize(turn, f.View());
    var state := if f.terminal == NotTerminal then RunningTurn else if r.error.None? then CompletedTurn else FailedTurn;
    s := TurnStatus(turn, state, f.startSeq, f.endSeq, r.stopReason, Some(r));
  }
}
