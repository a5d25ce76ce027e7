/**
 A second account of a turn's result, which knows nothing of the fold: every field is read off the window of the
 turn's own envelopes, and the reducer is proved to give exactly that.
 */
module TurnReading {
  import opened Wrappers
  import opened Envelopes
  import opened Turn
  import opened TurnEvents
  import opened TurnAgreement
  import opened TurnVerdict
  import opened Reading

  // ---- what one envelope carries ----

  predicate Settles(e: Envelope) {
    e.body.SessionUpdate? && e.body.update.StateUpdate? && e.body.update.state == "idle"
  }

  function TextIn(e: Envelope): string {
    if e.body.SessionUpdate? && e.body.update.MessageChunk? then e.body.update.text.GetOr("") else ""
  }

  function CallIn(e: Envelope): seq<string> {
    if e.body.SessionUpdate? && e.body.update.ToolUpdate? && e.body.update.tool.toolCallId.Some?
    then [e.body.update.tool.toolCallId.value] else []
  }

  function UsageIn(e: Envelope): Option<Json> {
    if e.body.SessionUpdate? && e.body.update.UsageUpdate? then e.body.update.usage else None
  }

  function ErrorIn(e: Envelope): Option<ErrorBody> {
    if e.body.ErrorReport? then Some(e.body.body) else None
  }

  /** One row for each decision; what an older daemon left out reads as what it must have been. */
  function RecordIn(e: Envelope): seq<InteractionRecord> {
    if !e.body.PolicyDecision? then []
    else
      var d := e.body.decision;
      [InteractionRecord(
        requestId := d.requestId, title := d.title, decision := d.decision, toolCallId := d.toolCallId,
        optionId := d.optionId, rule := d.rule, at := e.ts,
        kind := if d.kind.Some? then d.kind.value else "permission",
        interactionMethod := if d.interactionMethod.Some? then d.interactionMethod.value
                             else "session/request_permission",
        actor := if d.actor.Some? then d.actor.value else "baseline",
        parkedMs := if d.parkedMs.Some? then d.parkedMs.value else 0)]
  }

  /** A tool call whose permission was denied. */
  function DenialIn(e: Envelope): seq<string> {
    if e.body.PolicyDecision? && e.body.decision.decision == Deny && e.body.decision.toolCallId.Some?
       && e.body.decision.interactionMethod in {None, Some("session/request_permission")}
    then [e.body.decision.toolCallId.value] else []
  }

  // ---- what one envelope warns of ----

  function OnIdle(m: SettleMeta): seq<Warning> {
    m.warnings + if m.patch.Some? then m.patch.value.warnings else []
  }

  function OnDecision(d: Decision): seq<Warning> {
    OnlyIf(d.decision == Error,
           Warning("permission_not_offered", "no acceptable permission option was offered", "policy", Given(None)))
    + (if d.clamped.Some? then [Clamped(d.clamped.value.0, d.decision, d.clamped.value.1, d.rule)] else [])
    + OnlyIf(d.blindsPolicy,
             Warning("policy_blinded",
                     "a session-wide grant was selected for interaction " + d.requestId +
                     "; the policy engine will not be consulted again for this session",
                     "policy", Blinded(d.requestId, d.optionId)))
  }

  function NameOf(v: Verb): string {
    if v == Allow then "allow"
    else if v == Deny then "deny"
    else if v == Answer then "answer"
    else if v == Cancel then "cancel"
    else "error"
  }

  function Clamped(from: string, to: Verb, limiter: string, rule: string): Warning {
    Warning("policy_clamped", "\"" + from + "\" was narrowed to \"" + NameOf(to) + "\" by " + limiter,
            "policy", Clamp(from, NameOf(to), limiter, rule))
  }

  /** Nothing while it is parked; otherwise that it expired, and that it was declined or cancelled. */
  function OnInteraction(b: Body): seq<Warning>
    requires b.Interaction?
  {
    OnlyIf(b.status == Expired,
           Warning("interaction_expired", "interaction " + b.requestId + " expired with no answer",
                   "policy", Outcome(b.requestId, None, b.interactionMethod)))
    + (if b.status != Pending && b.action in {Some("decline"), Some("cancel")}
       then [Warning("interaction_declined", "interaction " + b.requestId + " was " + b.action.value + "d",
                     "policy", Outcome(b.requestId, b.action, b.interactionMethod))]
       else [])
  }

  function WarningsIn(e: Envelope): seq<Warning> {
    if e.body.PolicyDecision? then OnDecision(e.body.decision)
    else if e.body.Interaction? then OnInteraction(e.body)
    else if Settles(e) && e.body.update.meta.Some? then OnIdle(e.body.update.meta.value)
    else []
  }

  // ---- what stays parked ----

  predicate IsAboutRequest(e: Envelope, id: string) {
    e.body.Interaction? && e.body.requestId == id
  }

  predicate StartsStay(win: seq<Envelope>, k: nat)
    requires k < |win|
  {
    && win[k].body.Interaction? && win[k].body.status == Pending
    && LastStatus(win[..k], win[k].body.requestId) != Some(Pending)
  }

  predicate SettlesRequest(e: Envelope, id: string) {
    IsAboutRequest(e, id) && e.body.status != Pending
  }

  /** The interaction is parked at this envelope and not settled since. */
  predicate StartsLastingStay(win: seq<Envelope>, k: nat)
    requires k < |win|
  {
    StartsStay(win, k) && forall m :: k < m < |win| ==> !SettlesRequest(win[m], win[k].body.requestId)
  }

  function ParkedBy(win: seq<Envelope>, k: nat): seq<string>
    requires k <= |win|
  {
    if k == 0 then []
    else if StartsLastingStay(win, k - 1) then ParkedBy(win, k - 1) + [win[k - 1].body.requestId]
    else ParkedBy(win, k - 1)
  }

  /** The interactions still parked, in the order in which they were parked. */
  function Parked(win: seq<Envelope>): seq<string> {
    ParkedBy(win, |win|)
  }

  // ---- the calls and what they changed ----

  /** Every call once, in the order of its first update, each field as last written. */
  function CallsRead(win: seq<Envelope>): seq<ToolCall> {
    var ids := FirstOccurrences(Collected(win, CallIn));
    seq(|ids|, i requires 0 <= i < |ids| => AsLastWritten(win, ids[i]))
  }

  function PathIn(c: Content): Option<string> {
    if c.DiffV1? then c.path
    else if c.DiffV2? && c.changes != [] && c.changes[0].Some? then c.changes[0].value.path
    else None
  }

  function OperationIn(c: Content): Option<string> {
    if c.DiffV1? then c.operation
    else if c.DiffV2? && c.changes != [] && c.changes[0].Some? then c.changes[0].value.operation
    else None
  }

  function DiffTextIn(c: Content): Option<V1Diff> {
    if c.DiffV1? then Some(c.text) else if c.DiffV2? then c.v1Text else None
  }

  /** A diff block is a change when it names a path and carries a new text. */
  function ChangeIn(c: Content): seq<FileChange> {
    if PathIn(c).Some? && DiffTextIn(c).Some? && DiffTextIn(c).value.newText.Some? then
      var t := DiffTextIn(c).value;
      var byText := if t.oldText.Some? then "modify" else "add";
      [FileChange(path := PathIn(c).value, operation := OperationIn(c).GetOr(byText),
                  oldText := t.oldText, newText := t.newText.value, fragment := t.fragment)]
    else []
  }

  function ChangesInCall(c: ToolCall): seq<FileChange> {
    Collected(c.content, ChangeIn)
  }

  function FailedIn(c: ToolCall): seq<string> {
    OnlyIf(c.status == Some("failed"), c.toolCallId)
  }

  function StrandedIn(c: ToolCall): seq<string> {
    OnlyIf(c.status !in {Some("completed"), Some("failed")}, c.toolCallId)
  }

  /** A call of a watched kind, named by no interaction. */
  function UnpolicedIn(watched: seq<string>, named: seq<InteractionRecord>, c: ToolCall): seq<Warning> {
    if c.kind.Some? && c.kind.value in watched && Some(c.toolCallId) !in (set i | i in named :: i.toolCallId)
    then [Warning("unpoliced_tool_call",
                  "a \"" + c.kind.value + "\" tool call ran without reaching the policy engine",
                  "policy", Unpoliced(c.toolCallId, c.kind.value))]
    else []
  }

  function DeniedWarning(id: string): seq<Warning> {
    [Warning("tool_denied", "tool call " + id + " was denied by policy", "policy", OfTool(id))]
  }

  function FailedWarning(id: string): seq<Warning> {
    [Warning("tool_failed", "tool call " + id + " ended with status failed", "tool_status", OfTool(id))]
  }

  // ---- how the turn ended ----

  /** The update that settled the turn, when an idle ended it. */
  function SettledBy(turn: string, own: seq<Envelope>): Option<Update> {
    var span := Span(turn, own);
    if span != [] && span[|span| - 1].turnId == Some(turn) && Settles(span[|span| - 1])
    then Some(span[|span| - 1].body.update) else None
  }

  function MetaOf(u: Update): Option<SettleMeta> {
    if u.StateUpdate? then u.meta else None
  }

  /** Why a worker closes, and what that makes the turn's error. */
  const CODE_OF: map<string, string> := map[
    "client_request" := "worker_closed",
    "daemon_shutdown" := "worker_closed",
    "not_resumable" := "worker_closed",
    "spawn_failed" := "agent_error",
    "handshake_error" := "agent_error",
    "agent_exited" := "agent_error",
    "agent_crashed" := "agent_error",
    "protocol_error" := "agent_error",
    "handshake_timeout" := "agent_timeout",
    "cancel_timeout" := "agent_timeout",
    "idle_timeout" := "worker_closed",
    "orphaned" := "worker_closed",
    "wake_failed" := "agent_error",
    "acl_revoked" := "forbidden"]

  function CodeOf(reason: string): string {
    if reason in CODE_OF then CODE_OF[reason] else "internal"
  }

  /** The error of a turn that its worker ended: the worker's own, or one that says what happened to it. */
  function ErrorOfEnd(e: Envelope): ErrorBody
    requires e.body.WorkerStateChange?
  {
    match e.body.error
    case Some(given) => given
    case None =>
      if e.body.state == Closed
      then ErrorBody(CodeOf(e.body.reason), "worker closed during turn (" + e.body.reason + ")", None)
      else ErrorBody("restarted", "the worker was restarted while this turn was running", None)
  }

  function ErrorRead(turn: string, own: seq<Envelope>): Option<ErrorBody> {
    var reported := LastOf(Window(turn, own), ErrorIn);
    if reported.Some? then reported
    else if EndedByWorker(turn, own) then Some(ErrorOfEnd(Span(turn, own)[|Span(turn, own)| - 1]))
    else None
  }

  // ---- the whole result ----

  function WarningsRead(turn: string, own: seq<Envelope>): seq<Warning> {
    var win, idle := Window(turn, own), SettledBy(turn, own);
    var watched :=
      if idle.Some? && MetaOf(idle.value).Some? then MetaOf(idle.value).value.alertOnUnpoliced else [];
    var named := Collected(win, RecordIn);
    Collected(win, WarningsIn)
    + Collected(CallsRead(win), c => UnpolicedIn(watched, named, c))
    + Collected(FirstOccurrences(Collected(win, DenialIn)), DeniedWarning)
    + Collected(Collected(CallsRead(win), FailedIn), FailedWarning)
  }

  function VerdictRead(turn: string, own: seq<Envelope>): Verdict {
    var win := Window(turn, own);
    if ErrorRead(turn, own).Some? then Bad
    else if (forall c :: c in CallsRead(win) ==>
               c.status == Some("completed") || (!IsOver(turn, own) && c.status != Some("failed")))
            && Collected(win, DenialIn) == [] && Parked(win) == []
    then Ok else Partial
  }

  function ReadOff(turn: string, worker: string, own: seq<Envelope>): TurnResult {
    var win, idle := Window(turn, own), SettledBy(turn, own);
    var meta := if idle.Some? then MetaOf(idle.value) else None;
    TurnResult(
      turnId := turn,
      workerId := if Since(turn, own) == [] then "w_unknown" else worker,
      stopReason := if idle.Some? then idle.value.stopReason else None,
      text := Collected(win, TextIn),
      toolCalls := CallsRead(win),
      changes := Collected(CallsRead(win), ChangesInCall),
      patch := if meta.Some? && meta.value.patch.Some? then meta.value.patch.value.patch else None,
      vendorPatch := if meta.Some? then meta.value.vendorPatch else None,
      usage := LastOf(win, UsageIn),
      tokens := if idle.Some? then idle.value.tokens else None,
      interactions := Collected(win, RecordIn),
      verdict := VerdictRead(turn, own),
      warnings := WarningsRead(turn, own),
      failedToolCalls := Collected(CallsRead(win), FailedIn),
      deniedToolCalls := FirstOccurrences(Collected(win, DenialIn)),
      strandedToolCalls := if IsOver(turn, own) then Collected(CallsRead(win), StrandedIn) else [],
      pendingInteractions := Parked(win),
      error := ErrorRead(turn, own))
  }

  function StatusRead(turn: string, worker: string, own: seq<Envelope>): TurnStatus {
    var since, span := Since(turn, own), Span(turn, own);
    if since == [] then TurnStatus(turn, UnknownTurn, None, None, None, None)
    else
      var r := ReadOff(turn, worker, own);
      TurnStatus(
        turnId := turn,
        state := if !IsOver(turn, own) then RunningTurn else if r.error.Some? then FailedTurn else CompletedTurn,
        startSeq := Some(since[0].seqNo),
        endSeq := if IsOver(turn, own) then Some(span[|span| - 1].seqNo) else None,
        stopReason := r.stopReason,
        result := Some(r))
  }
}
