/**
 The event envelopes that a worker's log carries, as the turn reducer reads them.

 Payload values that no decision depends on are kept as JSON text. A payload field that the
 reducer reads defensively is an `Option`: `None` when the key is absent or of the wrong type.
 */
module Envelopes {
  import opened Wrappers

  /** JSON text, carried along and never looked into. */
  type Json = string

  datatype ErrorBody = ErrorBody(code: string, message: string, acp: Option<Json>)

  datatype WarningDetail =
    | Given(json: Option<Json>)
    | Clamp(from: string, to: string, limiter: string, rule: string)
    | Blinded(requestId: string, optionId: Option<string>)
    | Outcome(requestId: string, action: Option<string>, interactionMethod: string)
    | OfTool(toolCallId: string)
    | Unpoliced(toolCallId: string, kind: string)

  datatype Warning = Warning(code: string, message: string, source: string, detail: WarningDetail)

  datatype V1Diff = V1Diff(oldText: Option<string>, newText: Option<string>, fragment: bool)

  datatype V2Change = V2Change(path: Option<string>, operation: Option<string>)

  /** One `ToolCallContent` item; a diff block may be written in either protocol version. */
  datatype Content =
    | DiffV2(changes: seq<Option<V2Change>>, v1Text: Option<V1Diff>)
    | DiffV1(path: Option<string>, operation: Option<string>, text: V1Diff)
    | OtherContent(json: Json)

  datatype Location = Location(path: string, line: Option<int>)

  /** `tool_call` and `tool_call_update`: every field may be missing. */
  datatype ToolPatch = ToolPatch(
    toolCallId: Option<string>,
    title: Option<string>,
    kind: Option<string>,
    status: Option<string>,
    locations: Option<seq<Location>>,
    content: Option<seq<Content>>,
    rawInput: Option<Json>,
    rawOutput: Option<Json>)

  datatype PatchBlock = PatchBlock(patch: Option<Json>, warnings: seq<Warning>)

  /** `_meta` of the settling `state_update`, as the four stamped keys read. */
  datatype SettleMeta = SettleMeta(
    vendorPatch: Option<Json>,
    warnings: seq<Warning>,
    alertOnUnpoliced: seq<string>,
    patch: Option<PatchBlock>)

  datatype Update =
    | StateUpdate(state: string, stopReason: Option<string>, tokens: Option<Json>, meta: Option<SettleMeta>)
    | MessageChunk(text: Option<string>)
    | ToolUpdate(tool: ToolPatch)
    | UsageUpdate(usage: Option<Json>)
    | OtherUpdate

  datatype Verb = Allow | Deny | Answer | Cancel | Error

  datatype Decision = Decision(
    requestId: string,
    kind: Option<string>,
    interactionMethod: Option<string>,
    title: string,
    decision: Verb,
    actor: Option<string>,
    parkedMs: Option<int>,
    toolCallId: Option<string>,
    optionId: Option<string>,
    rule: string,
    clamped: Option<(string, string)>,
    blindsPolicy: bool)

  datatype InteractionStatus = Pending | Answered | Failed | Expired | Cancelled

  datatype WorkerState = Starting | Ready | Running | RequiresAction | Hibernated | Closed

  datatype Body =
    | SessionUpdate(update: Update)
    | PolicyDecision(decision: Decision)
    | Interaction(requestId: string, interactionMethod: string, status: InteractionStatus, action: Option<string>)
    | WorkerStateChange(state: WorkerState, reason: string, error: Option<ErrorBody>)
    | ErrorReport(body: ErrorBody)
    | Unfolded(kind: string)

  datatype Envelope = Envelope(
    workerId: string,
    seqNo: int,
    ts: string,
    turnId: Option<string>,
    replay: bool,
    body: Body)

  /** The turn is over at this state change, even though no `idle` was sent. */
  predicate IsRestart(e: Envelope) {
    e.body.WorkerStateChange? && e.body.state == Starting && e.body.reason == "restart"
  }

  predicate IsClose(e: Envelope) {
    e.body.WorkerStateChange? && e.body.state == Closed
  }

  predicate IsIdle(turn: string, e: Envelope) {
    && e.body.SessionUpdate?
    && e.turnId == Some(turn)
    && e.body.update.StateUpdate?
    && e.body.update.state == "idle"
  }

  /** The client's test for the end of a turn. It does not look at `replay` or at the worker. */
  predicate IsTurnTerminal(turn: string, e: Envelope) {
    IsRestart(e) || IsClose(e) || IsIdle(turn, e)
  }
}
