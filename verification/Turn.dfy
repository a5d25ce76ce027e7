/**
 The turn reducer: one pass over event envelopes that both the daemon and the client run.

 `FoldState` and the functions over it say what the pass computes. Class `Fold` is the mutable
 record the program updates, and each of its methods is proved to compute that function.
 */
module Turn {
  import opened Wrappers
  import opened Envelopes

  datatype ToolCall = ToolCall(
    toolCallId: string,
    title: Option<string>,
    kind: Option<string>,
    status: Option<string>,
    locations: seq<Location>,
    content: seq<Content>,
    rawInput: Option<Json>,
    rawOutput: Option<Json>)

  datatype InteractionRecord = InteractionRecord(
    requestId: string,
    kind: string,
    interactionMethod: string,
    title: string,
    decision: Verb,
    actor: string,
    parkedMs: int,
    toolCallId: Option<string>,
    optionId: Option<string>,
    rule: string,
    at: string)

  datatype Terminal = NotTerminal | ByIdle | ByClose

  datatype FoldState = FoldState(
    workerId: Option<string>,
    startSeq: Option<int>,
    endSeq: Option<int>,
    terminal: Terminal,
    stopReason: Option<string>,
    text: string,
    order: seq<string>,
    calls: map<string, ToolCall>,
    usage: Option<Json>,
    interactions: seq<InteractionRecord>,
    error: Option<ErrorBody>,
    tokens: Option<Json>,
    vendorPatch: Option<Json>,
    streamWarnings: seq<Warning>,
    alertOnUnpoliced: seq<string>,
    denied: seq<string>,
    patch: Option<Json>,
    pending: seq<string>)

  const Initial: FoldState := FoldState(
    None, None, None, NotTerminal, None, "", [], map[], None, [], None, None, None, [], [], [], None, [])

  const PERMISSION := "session/request_permission"

  // ---- what one envelope does to the record ----

  function NewCall(id: string): ToolCall {
    ToolCall(id, None, None, None, [], [], None, None)
  }

  /** An absent field means "unchanged"; a present one replaces. */
  function Patched(c: ToolCall, p: ToolPatch): ToolCall {
    c.(title := p.title.OrElse(c.title),
       kind := p.kind.OrElse(c.kind),
       status := p.status.OrElse(c.status),
       locations := p.locations.GetOr(c.locations),
       content := p.content.GetOr(c.content),
       rawInput := p.rawInput.OrElse(c.rawInput),
       rawOutput := p.rawOutput.OrElse(c.rawOutput))
  }

  function Upserted(f: FoldState, p: ToolPatch): FoldState {
    match p.toolCallId
    case None => f
    case Some(id) =>
      if id in f.calls then
        f.(calls := f.calls[id := Patched(f.calls[id], p)])
      else
        f.(calls := f.calls[id := Patched(NewCall(id), p)], order := f.order + [id])
  }

  function WithMeta(f: FoldState, m: SettleMeta): FoldState {
    var g := f.(vendorPatch := m.vendorPatch.OrElse(f.vendorPatch),
                streamWarnings := f.streamWarnings + m.warnings,
                alertOnUnpoliced := m.alertOnUnpoliced);
    match m.patch
    case None => g
    case Some(block) => g.(patch := block.patch, streamWarnings := g.streamWarnings + block.warnings)
  }

  function Settled(f: FoldState, at: int, stopReason: Option<string>,
                   tokens: Option<Json>, meta: Option<SettleMeta>): FoldState {
    var g := f.(terminal := ByIdle, endSeq := Some(at), stopReason := stopReason, tokens := tokens.OrElse(f.tokens));
    if meta.Some? then WithMeta(g, meta.value) else g
  }

  function Updated(f: FoldState, at: int, u: Update): FoldState {
    match u
    case StateUpdate(state, stopReason, tokens, meta) =>
      if state == "idle" then Settled(f, at, stopReason, tokens, meta) else f
    case MessageChunk(text) => f.(text := f.text + text.GetOr(""))
    case ToolUpdate(p) => Upserted(f, p)
    case UsageUpdate(usage) => f.(usage := usage.OrElse(f.usage))
    case OtherUpdate => f
  }

  function RecordOf(d: Decision, ts: string): InteractionRecord {
    InteractionRecord(
      d.requestId, d.kind.GetOr("permission"), d.interactionMethod.GetOr(PERMISSION), d.title,
      d.decision, d.actor.GetOr("baseline"), d.parkedMs.GetOr(0), d.toolCallId, d.optionId, d.rule, ts)
  }

  /** We refused a tool call. A declined elicitation refuses nothing. */
  predicate IsDenial(d: Decision) {
    d.interactionMethod.GetOr(PERMISSION) == PERMISSION && d.decision == Deny && d.toolCallId.Some?
  }

  function VerbText(v: Verb): string {
    match v
    case Allow => "allow"
    case Deny => "deny"
    case Answer => "answer"
    case Cancel => "cancel"
    case Error => "error"
  }

  function DecisionWarnings(d: Decision): seq<Warning> {
    (if d.decision == Error then
       [Warning("permission_not_offered", "no acceptable permission option was offered", "policy", Given(None))]
     else []) +
    (match d.clamped
     case None => []
     case Some((from, limiter)) =>
       [Warning("policy_clamped",
                "\"" + from + "\" was narrowed to \"" + VerbText(d.decision) + "\" by " + limiter,
                "policy", Clamp(from, VerbText(d.decision), limiter, d.rule))]) +
    (if d.blindsPolicy then
       [Warning("policy_blinded",
                "a session-wide grant was selected for interaction " + d.requestId +
                "; the policy engine will not be consulted again for this session",
                "policy", Blinded(d.requestId, d.optionId))]
     else [])
  }

  function Decided(f: FoldState, d: Decision, ts: string): FoldState {
    f.(interactions := f.interactions + [RecordOf(d, ts)],
       denied := if IsDenial(d) && d.toolCallId.value !in f.denied
                 then f.denied + [d.toolCallId.value] else f.denied,
       streamWarnings := f.streamWarnings + DecisionWarnings(d))
  }

  /** Deleting from an insertion-ordered set whose members are distinct. */
  function Without(s: seq<string>, x: string): (r: seq<string>)
    ensures forall y :: y in r <==> y in s && y != x
  {
    if s == [] then [] else if s[0] == x then Without(s[1..], x) else [s[0]] + Without(s[1..], x)
  }

  function SettleWarnings(requestId: string, how: string,
                          status: InteractionStatus, action: Option<string>): seq<Warning> {
    (if status == Expired then
       [Warning("interaction_expired", "interaction " + requestId + " expired with no answer", "policy",
                Outcome(requestId, None, how))]
     else []) +
    (if action == Some("decline") || action == Some("cancel") then
       [Warning("interaction_declined", "interaction " + requestId + " was " + action.value + "d", "policy",
                Outcome(requestId, action, how))]
     else [])
  }

  function Interacted(f: FoldState, requestId: string, how: string,
                      status: InteractionStatus, action: Option<string>): FoldState {
    if status == Pending then
      f.(pending := if requestId in f.pending then f.pending else f.pending + [requestId])
    else
      f.(pending := Without(f.pending, requestId),
         streamWarnings := f.streamWarnings + SettleWarnings(requestId, how, status, action))
  }

  /** One of the turn's own envelopes that is neither a close nor a restart. */
  function Absorbed(f: FoldState, e: Envelope): FoldState {
    match e.body
    case SessionUpdate(u) => Updated(f, e.seqNo, u)
    case PolicyDecision(d) => Decided(f, d, e.ts)
    case ErrorReport(b) => f.(error := Some(b))
    case Interaction(id, how, status, action) => Interacted(f, id, how, status, action)
    case WorkerStateChange(_, _, _) => f
    case Unfolded(_) => f
  }

  function CloseCode(reason: string): string {
    if reason in {"client_request", "daemon_shutdown", "not_resumable", "idle_timeout", "orphaned"} then "worker_closed"
    else if reason in {"spawn_failed", "handshake_error", "agent_exited", "agent_crashed", "protocol_error",
                       "wake_failed"}
    then "agent_error"
    else if reason in {"handshake_timeout", "cancel_timeout"} then "agent_timeout"
    else if reason == "acl_revoked" then "forbidden"
    else "internal"
  }

  /** What the turn reports when the worker ends it. Only for a close or a restart. */
  function EndError(e: Envelope): ErrorBody
    requires e.body.WorkerStateChange?
  {
    if e.body.error.Some? then e.body.error.value
    else if IsRestart(e) then ErrorBody("restarted", "the worker was restarted while this turn was running", None)
    else ErrorBody(CloseCode(e.body.reason), "worker closed during turn (" + e.body.reason + ")", None)
  }

  function Noticed(turn: string, f: FoldState, e: Envelope): FoldState {
    if e.turnId != Some(turn) then f
    else f.(startSeq := f.startSeq.OrElse(Some(e.seqNo)), workerId := f.workerId.OrElse(Some(e.workerId)))
  }

  /** The worker's end at a seq: an error the turn already had, and a worker it already had, stay. */
  function EndedWith(f: FoldState, seqNo: int, worker: string, why: ErrorBody): FoldState {
    f.(terminal := ByClose, endSeq := Some(seqNo), stopReason := None,
       error := f.error.OrElse(Some(why)), workerId := f.workerId.OrElse(Some(worker)))
  }

  function Ended(f: FoldState, e: Envelope): FoldState
    requires e.body.WorkerStateChange?
  {
    EndedWith(f, e.seqNo, e.workerId, EndError(e))
  }

  /** The close or restart concerns this turn: it has started, and on this worker. */
  predicate Concerns(f: FoldState, e: Envelope) {
    f.startSeq.Some? && (f.workerId.Some? ==> e.workerId == f.workerId.value)
  }

  function Step(turn: string, f: FoldState, e: Envelope): FoldState {
    var g := Noticed(turn, f, e);
    if IsRestart(e) || IsClose(e) then
      if Concerns(g, e) then Ended(g, e) else g
    else if e.turnId == Some(turn) then Absorbed(g, e)
    else g
  }

  /** Envelopes in order, until the first that makes the turn terminal. */
  function Run(turn: string, f: FoldState, es: seq<Envelope>): FoldState
    decreases |es|
  {
    if es == [] || f.terminal != NotTerminal then f
    else Run(turn, Step(turn, f, es[0]), es[1..])
  }

  // ---- identity first, then order ----

  predicate SameIdentity(a: Envelope, b: Envelope) {
    a.workerId == b.workerId && a.seqNo == b.seqNo
  }

  predicate Known(es: seq<Envelope>, e: Envelope) {
    exists i :: 0 <= i < |es| && SameIdentity(es[i], e)
  }

  /** Replayed history dropped, and of several envelopes with one identity the first kept. */
  function Unique(es: seq<Envelope>): seq<Envelope> {
    if es == [] then []
    else
      var last := es[|es| - 1];
      var before := Unique(es[..|es| - 1]);
      if last.replay || Known(before, last) then before else before + [last]
  }

  predicate InSeqOrder(es: seq<Envelope>) {
    forall i, j :: 0 <= i < j < |es| ==> es[i].seqNo <= es[j].seqNo
  }

  /** Puts an envelope after all those with the same or a lower seq. */
  function Inserted(es: seq<Envelope>, e: Envelope): seq<Envelope> {
    if es == [] || es[|es| - 1].seqNo <= e.seqNo then es + [e]
    else Inserted(es[..|es| - 1], e) + [es[|es| - 1]]
  }

  /** The stable sort by seq. */
  function Sorted(es: seq<Envelope>): seq<Envelope> {
    if es == [] then [] else Inserted(Sorted(es[..|es| - 1]), es[|es| - 1])
  }

  function FoldOf(turn: string, es: seq<Envelope>): FoldState {
    Run(turn, Initial, Sorted(Unique(es)))
  }

  // ---- the result ----

  datatype FileChange = FileChange(
    path: string, operation: string, oldText: Option<string>, newText: string, fragment: bool)

  datatype Verdict = Ok | Partial | Bad

  datatype TurnResult = TurnResult(
    turnId: string,
    workerId: string,
    stopReason: Option<string>,
    text: string,
    toolCalls: seq<ToolCall>,
    changes: seq<FileChange>,
    patch: Option<Json>,
    vendorPatch: Option<Json>,
    usage: Option<Json>,
    tokens: Option<Json>,
    interactions: seq<InteractionRecord>,
    verdict: Verdict,
    warnings: seq<Warning>,
    failedToolCalls: seq<string>,
    deniedToolCalls: seq<string>,
    strandedToolCalls: seq<string>,
    pendingInteractions: seq<string>,
    error: Option<ErrorBody>)

  datatype TurnState = RunningTurn | CompletedTurn | FailedTurn | UnknownTurn

  datatype TurnStatus = TurnStatus(
    turnId: string, state: TurnState, startSeq: Option<int>, endSeq: Option<int>,
    stopReason: Option<string>, result: Option<TurnResult>)

  function ViewOf(f: FoldState, order: seq<string>): seq<ToolCall> {
    if order == [] then []
    else (if order[0] in f.calls then [f.calls[order[0]]] else []) + ViewOf(f, order[1..])
  }

  function ChangeFrom(path: Option<string>, operation: Option<string>, t: V1Diff): Option<FileChange> {
    if path.None? || t.newText.None? then None
    else Some(FileChange(path.value, operation.GetOr(if t.oldText.None? then "add" else "modify"),
                         t.oldText, t.newText.value, t.fragment))
  }

  /** One diff block. Text is never invented: a block without it contributes no change. */
  function ReadDiffBlock(c: Content): Option<FileChange>
    requires !c.OtherContent?
  {
    match c
    case DiffV2(changes, v1) =>
      if changes == [] || changes[0].None? || v1.None? then None
      else ChangeFrom(changes[0].value.path, changes[0].value.operation, v1.value)
    case DiffV1(path, operation, text) => ChangeFrom(path, operation, text)
  }

  function ChangesIn(content: seq<Content>): seq<FileChange> {
    if content == [] then []
    else
      var rest := ChangesIn(content[1..]);
      if content[0].OtherContent? then rest
      else match ReadDiffBlock(content[0]) case None => rest case Some(c) => [c] + rest
  }

  function ChangesOf(calls: seq<ToolCall>): seq<FileChange> {
    if calls == [] then [] else ChangesIn(calls[0].content) + ChangesOf(calls[1..])
  }

  /** The ids of the calls whose status satisfies `p`, in order. */
  function IdsWhere(calls: seq<ToolCall>, p: Option<string> -> bool): seq<string> {
    if calls == [] then []
    else if p(calls[0].status) then [calls[0].toolCallId] + IdsWhere(calls[1..], p)
    else IdsWhere(calls[1..], p)
  }

  predicate IsFailedStatus(s: Option<string>) { s == Some("failed") }

  predicate IsCompletedStatus(s: Option<string>) { s == Some("completed") }

  /** Neither completed nor failed; "we were never told" counts. */
  predicate IsOpenStatus(s: Option<string>) {
    s.None? || (s.value != "completed" && s.value != "failed")
  }

  /** A call of a watched kind that no recorded interaction names. */
  predicate IsUnpoliced(watched: seq<string>, interactions: seq<InteractionRecord>, c: ToolCall) {
    && c.kind.Some? && c.kind.value in watched
    && forall i :: i in interactions ==> i.toolCallId != Some(c.toolCallId)
  }

  function UnpolicedWarning(c: ToolCall): Warning
    requires c.kind.Some?
  {
    Warning("unpoliced_tool_call", "a \"" + c.kind.value + "\" tool call ran without reaching the policy engine",
            "policy", Unpoliced(c.toolCallId, c.kind.value))
  }

  /** Some call with this id would be warned about. */
  predicate Reported(watched: seq<string>, calls: seq<ToolCall>, interactions: seq<InteractionRecord>, id: string) {
    exists c :: c in calls && c.toolCallId == id && IsUnpoliced(watched, interactions, c)
  }

  lemma ReportedGrows(watched: seq<string>, calls: seq<ToolCall>, interactions: seq<InteractionRecord>)
    requires calls != []
    ensures forall id :: Reported(watched, calls, interactions, id) <==>
      Reported(watched, calls[..|calls| - 1], interactions, id) ||
      (calls[|calls| - 1].toolCallId == id && IsUnpoliced(watched, interactions, calls[|calls| - 1]))
  {
    assert calls == calls[..|calls| - 1] + [calls[|calls| - 1]];
  }

  function UnpolicedWarnings(watched: seq<string>, calls: seq<ToolCall>,
                             interactions: seq<InteractionRecord>): seq<Warning> {
    if calls == [] then []
    else
      var earlier, last := calls[..|calls| - 1], calls[|calls| - 1];
      UnpolicedWarnings(watched, earlier, interactions) +
      if IsUnpoliced(watched, interactions, last) && !Reported(watched, earlier, interactions, last.toolCallId)
      then [UnpolicedWarning(last)] else []
  }

  function DeniedWarnings(ids: seq<string>): seq<Warning> {
    seq(|ids|, i requires 0 <= i < |ids| =>
      Warning("tool_denied", "tool call " + ids[i] + " was denied by policy", "policy", OfTool(ids[i])))
  }

  function FailedWarnings(ids: seq<string>): seq<Warning> {
    seq(|ids|, i requires 0 <= i < |ids| =>
      Warning("tool_failed", "tool call " + ids[i] + " ended with status failed", "tool_status", OfTool(ids[i])))
  }

  function Materialized(turn: string, f: FoldState): TurnResult {
    var calls := ViewOf(f, f.order);
    var failed := IdsWhere(calls, IsFailedStatus);
    var stranded := if f.terminal == NotTerminal then [] else IdsWhere(calls, IsOpenStatus);
    TurnResult(
      turn, f.workerId.GetOr("w_unknown"), f.stopReason, f.text, calls, ChangesOf(calls),
      f.patch, f.vendorPatch, f.usage, f.tokens, f.interactions,
      if f.error.Some? then Bad
      else if failed != [] || f.denied != [] || stranded != [] || f.pending != [] then Partial
      else Ok,
      f.streamWarnings + UnpolicedWarnings(f.alertOnUnpoliced, calls, f.interactions)
        + DeniedWarnings(f.denied) + FailedWarnings(failed),
      failed, f.denied, stranded, f.pending, f.error)
  }

  function Reduced(turn: string, es: seq<Envelope>): TurnResult {
    Materialized(turn, FoldOf(turn, es))
  }

  function StatusOf(turn: string, es: seq<Envelope>): TurnStatus {
    var f := FoldOf(turn, es);
    if f.startSeq.None? then TurnStatus(turn, UnknownTurn, None, None, None, None)
    else
      var r := Materialized(turn, f);
      TurnStatus(
        turn,
        if f.terminal == NotTerminal then RunningTurn else if r.error.None? then CompletedTurn else FailedTurn,
        f.startSeq, f.endSeq, r.stopReason, Some(r))
  }
}
