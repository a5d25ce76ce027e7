/**
 What a folded turn says, in terms of the turn's own envelopes: tool calls are the last-writer
 view, a finished turn's calls split into completed, failed and stranded, and the verdict `ok`
 means exactly that nothing went wrong and nothing was left open.
 */
module TurnVerdict {
  import opened Wrappers
  import opened Envelopes
  import opened Turn
  import opened TurnEvents
  import opened TurnAgreement

  // ---- the window of a turn ----

  /** The log from the turn's first envelope on. */
  function Since(turn: string, es: seq<Envelope>): seq<Envelope> {
    if es == [] || es[0].turnId == Some(turn) then es else Since(turn, es[1..])
  }

  /** From the turn's first envelope through the one that ends it, if any. */
  function Span(turn: string, es: seq<Envelope>): seq<Envelope> {
    ThroughTerminal(turn, Since(turn, es))
  }

  function Mine(turn: string, es: seq<Envelope>): seq<Envelope> {
    if es == [] then []
    else (if es[0].turnId == Some(turn) then [es[0]] else []) + Mine(turn, es[1..])
  }

  /** The turn's own envelopes within its span. */
  function Window(turn: string, es: seq<Envelope>): seq<Envelope> {
    Mine(turn, Span(turn, es))
  }

  predicate IsOver(turn: string, es: seq<Envelope>) {
    var span := Span(turn, es);
    span != [] && IsTurnTerminal(turn, span[|span| - 1])
  }

  predicate EndedByWorker(turn: string, es: seq<Envelope>) {
    var span := Span(turn, es);
    span != [] && (IsRestart(span[|span| - 1]) || IsClose(span[|span| - 1]))
  }

  function AbsorbAll(f: FoldState, es: seq<Envelope>): FoldState
    decreases |es|
  {
    if es == [] then f else AbsorbAll(Absorbed(f, es[0]), es[1..])
  }

  lemma {:induction false} AbsorbLast(f: FoldState, es: seq<Envelope>)
    requires es != []
    ensures AbsorbAll(f, es) == Absorbed(AbsorbAll(f, es[..|es| - 1]), es[|es| - 1])
    decreases |es|
  {
    if |es| == 1 {
      assert es[..0] == [] && es[1..] == [];
    } else {
      AbsorbLast(Absorbed(f, es[0]), es[1..]);
      assert es[1..][..|es[1..]| - 1] == es[..|es| - 1][1..];
    }
  }

  /** Absorbing keeps where the turn started; only `idle` makes it terminal. */
  lemma AbsorbKeeps(turn: string, f: FoldState, e: Envelope)
    requires e.turnId == Some(turn) && f.terminal == NotTerminal
    ensures Absorbed(f, e).startSeq == f.startSeq && Absorbed(f, e).workerId == f.workerId
    ensures Absorbed(f, e).terminal != NotTerminal <==> IsIdle(turn, e)
    ensures Absorbed(f, e).terminal != ByClose
  {
  }

  /** What a run of a started turn amounts to. */
  ghost predicate RunsTo(turn: string, f: FoldState, es: seq<Envelope>, fin: FoldState) {
    var cut := ThroughTerminal(turn, es);
    var g := AbsorbAll(f, Mine(turn, cut));
    if cut != [] && (IsRestart(cut[|cut| - 1]) || IsClose(cut[|cut| - 1]))
    then fin == Ended(g, cut[|cut| - 1])
    else fin == g && (g.terminal == NotTerminal <==> cut == [] || !IsTurnTerminal(turn, cut[|cut| - 1]))
  }

  /** The envelope at hand ends the run. */
  lemma RunEndsHere(turn: string, f: FoldState, es: seq<Envelope>, worker: string)
    requires es != [] && es[0].workerId == worker && IsTurnTerminal(turn, es[0])
    requires Started(f, worker) && f.terminal == NotTerminal
    ensures RunsTo(turn, f, es, Run(turn, f, es))
  {
    var e, cut := es[0], ThroughTerminal(turn, es);
    assert cut == [e] && cut[1..] == [];
    assert Noticed(turn, f, e) == f;
    assert Run(turn, f, es) == Run(turn, Step(turn, f, e), es[1..]);
    if e.turnId == Some(turn) {
      assert Mine(turn, cut) == [e];
      assert [e][1..] == [];
      AbsorbKeeps(turn, f, e);
    } else {
      assert Mine(turn, cut) == [];
    }
  }

  /** The envelope at hand is taken in, and the run goes on. */
  lemma RunGoesOn(turn: string, f: FoldState, es: seq<Envelope>, worker: string)
    requires es != [] && es[0].workerId == worker && !IsTurnTerminal(turn, es[0])
    requires Started(f, worker) && f.terminal == NotTerminal
    ensures var g := Step(turn, f, es[0]);
            && Started(g, worker) && g.terminal == NotTerminal
            && (RunsTo(turn, g, es[1..], Run(turn, g, es[1..])) ==> RunsTo(turn, f, es, Run(turn, f, es)))
  {
    var e, cut, rest := es[0], ThroughTerminal(turn, es), ThroughTerminal(turn, es[1..]);
    assert Noticed(turn, f, e) == f;
    assert cut[1..] == rest;
    assert cut != [] && (rest != [] ==> cut[|cut| - 1] == rest[|rest| - 1]);
    if e.turnId == Some(turn) {
      AbsorbKeeps(turn, f, e);
      assert Mine(turn, cut)[1..] == Mine(turn, rest);
    } else {
      assert Mine(turn, cut) == Mine(turn, rest);
    }
  }

  lemma {:induction false} RunOverWindow(turn: string, f: FoldState, es: seq<Envelope>, worker: string)
    requires Started(f, worker) && f.terminal == NotTerminal
    requires forall e :: e in es ==> e.workerId == worker
    ensures RunsTo(turn, f, es, Run(turn, f, es))
    decreases |es|
  {
    if es != [] {
      if IsTurnTerminal(turn, es[0]) {
        RunEndsHere(turn, f, es, worker);
      } else {
        RunGoesOn(turn, f, es, worker);
        RunOverWindow(turn, Step(turn, f, es[0]), es[1..], worker);
      }
    }
  }

  lemma {:induction false} NothingBeforeTheTurn(turn: string, es: seq<Envelope>)
    ensures Run(turn, Initial, es) == Run(turn, Initial, Since(turn, es))
    ensures forall e :: e in Since(turn, es) ==> e in es
    decreases |es|
  {
    if es != [] && es[0].turnId != Some(turn) {
      assert Step(turn, Initial, es[0]) == Initial;
      NothingBeforeTheTurn(turn, es[1..]);
    }
  }

  function Begun(turn: string, e: Envelope): FoldState {
    Initial.(startSeq := Some(e.seqNo), workerId := Some(e.workerId))
  }

  /** The fold of a turn that occurs: its window absorbed, then the worker's end if that ended it. */
  lemma FoldOverWindow(turn: string, es: seq<Envelope>, worker: string)
    requires forall e :: e in es ==> e.workerId == worker
    ensures var rest := Since(turn, es);
      if rest == [] then Run(turn, Initial, es) == Initial && Window(turn, es) == []
      else RunsTo(turn, Begun(turn, rest[0]), rest, Run(turn, Initial, es))
  {
    var rest := Since(turn, es);
    NothingBeforeTheTurn(turn, es);
    if rest != [] {
      SinceStartsMine(turn, es);
      var b := Begun(turn, rest[0]);
      assert Step(turn, Initial, rest[0]) == Step(turn, b, rest[0]);
      assert Run(turn, Initial, rest) == Run(turn, b, rest);
      RunOverWindow(turn, b, rest, worker);
    }
  }

  lemma {:induction false} SinceStartsMine(turn: string, es: seq<Envelope>)
    ensures Since(turn, es) != [] ==> Since(turn, es)[0].turnId == Some(turn)
    decreases |es|
  {
    if es != [] && es[0].turnId != Some(turn) {
      SinceStartsMine(turn, es[1..]);
    }
  }

  // ---- tool calls ----

  predicate Patches(e: Envelope, id: string) {
    e.body.SessionUpdate? && e.body.update.ToolUpdate? && e.body.update.tool.toolCallId == Some(id)
  }

  predicate Mentioned(win: seq<Envelope>, id: string) {
    exists k :: 0 <= k < |win| && Patches(win[k], id)
  }

  /** The value of a field in the last update of this call that carries it. */
  function LastCarried<T>(win: seq<Envelope>, id: string, field: ToolPatch -> Option<T>): Option<T> {
    if win == [] then None
    else
      var last := win[|win| - 1];
      if Patches(last, id) && field(last.body.update.tool).Some? then field(last.body.update.tool)
      else LastCarried(win[..|win| - 1], id, field)
  }

  function TitleOf(p: ToolPatch): Option<string> { p.title }
  function KindOf(p: ToolPatch): Option<string> { p.kind }
  function StatusField(p: ToolPatch): Option<string> { p.status }
  function LocationsOf(p: ToolPatch): Option<seq<Location>> { p.locations }
  function ContentOf(p: ToolPatch): Option<seq<Content>> { p.content }
  function RawInputOf(p: ToolPatch): Option<Json> { p.rawInput }
  function RawOutputOf(p: ToolPatch): Option<Json> { p.rawOutput }

  function AsLastWritten(win: seq<Envelope>, id: string): ToolCall {
    ToolCall(
      id, LastCarried(win, id, TitleOf), LastCarried(win, id, KindOf), LastCarried(win, id, StatusField),
      LastCarried(win, id, LocationsOf).GetOr([]), LastCarried(win, id, ContentOf).GetOr([]),
      LastCarried(win, id, RawInputOf), LastCarried(win, id, RawOutputOf))
  }

  /** Some update of `a` comes before every update of `b`. */
  predicate SeenBefore(win: seq<Envelope>, a: string, b: string) {
    exists k :: 0 <= k < |win| && Patches(win[k], a) && !Mentioned(win[..k], b) && !Patches(win[k], b)
  }

  ghost predicate IsLastWriterView(win: seq<Envelope>, order: seq<string>, calls: map<string, ToolCall>) {
    && (forall id :: id in order <==> Mentioned(win, id))
    && (forall id :: id in calls <==> Mentioned(win, id))
    && (forall id :: id in calls ==> calls[id] == AsLastWritten(win, id))
    && (forall i, j :: 0 <= i < j < |order| ==> SeenBefore(win, order[i], order[j]))
  }

  lemma NotPatchedNotChanged(win: seq<Envelope>, id: string)
    requires win != [] && !Patches(win[|win| - 1], id)
    ensures AsLastWritten(win, id) == AsLastWritten(win[..|win| - 1], id)
  {
  }

  lemma MentionedGrows(win: seq<Envelope>, id: string)
    requires win != []
    ensures Mentioned(win, id) <==> Mentioned(win[..|win| - 1], id) || Patches(win[|win| - 1], id)
  {
    var front := win[..|win| - 1];
    if Mentioned(front, id) {
      var k :| 0 <= k < |front| && Patches(front[k], id);
      assert win[k] == front[k];
    }
    if Mentioned(win, id) && !Patches(win[|win| - 1], id) {
      var k :| 0 <= k < |win| && Patches(win[k], id);
      assert front[k] == win[k];
    }
  }

  lemma SeenBeforeGrows(win: seq<Envelope>, a: string, b: string)
    requires win != [] && SeenBefore(win[..|win| - 1], a, b)
    ensures SeenBefore(win, a, b)
  {
    var front := win[..|win| - 1];
    var k :| 0 <= k < |front| && Patches(front[k], a) && !Mentioned(front[..k], b) && !Patches(front[k], b);
    assert front[..k] == win[..k] && front[k] == win[k];
  }

  lemma SeenBeforeNew(win: seq<Envelope>, a: string, b: string)
    requires win != [] && Mentioned(win[..|win| - 1], a) && !Mentioned(win[..|win| - 1], b)
    ensures SeenBefore(win, a, b)
  {
    var front := win[..|win| - 1];
    var k :| 0 <= k < |front| && Patches(front[k], a);
    assert win[k] == front[k];
    forall m | 0 <= m < k
      ensures !Patches(win[..k][m], b)
    {
      assert front[m] == win[..k][m];
    }
  }

  lemma NeverMentioned(win: seq<Envelope>, id: string)
    requires !Mentioned(win, id)
    ensures AsLastWritten(win, id) == NewCall(id)
  {
    NothingCarried(win, id, TitleOf);
    NothingCarried(win, id, KindOf);
    NothingCarried(win, id, StatusField);
    NothingCarried(win, id, LocationsOf);
    NothingCarried(win, id, ContentOf);
    NothingCarried(win, id, RawInputOf);
    NothingCarried(win, id, RawOutputOf);
  }

  lemma {:induction false} NothingCarried<T>(win: seq<Envelope>, id: string, field: ToolPatch -> Option<T>)
    requires !Mentioned(win, id)
    ensures LastCarried(win, id, field) == None
  {
    if win != [] {
      MentionedGrows(win, id);
      NothingCarried(win[..|win| - 1], id, field);
    }
  }

  lemma PatchedAsWritten(win: seq<Envelope>, id: string)
    requires win != [] && Patches(win[|win| - 1], id)
    ensures Patched(AsLastWritten(win[..|win| - 1], id), win[|win| - 1].body.update.tool) == AsLastWritten(win, id)
  {
  }

  /** Each update of a call is folded into the last-writer view. */
  lemma UpsertKeepsView(win: seq<Envelope>, f: FoldState, id: string)
    requires win != [] && Patches(win[|win| - 1], id)
    requires IsLastWriterView(win[..|win| - 1], f.order, f.calls)
    ensures var g := Upserted(f, win[|win| - 1].body.update.tool); IsLastWriterView(win, g.order, g.calls)
  {
    var front, last := win[..|win| - 1], win[|win| - 1];
    var g := Upserted(f, last.body.update.tool);
    forall x
      ensures Mentioned(win, x) <==> Mentioned(front, x) || x == id
    {
      MentionedGrows(win, x);
    }
    forall x | x in g.calls
      ensures g.calls[x] == AsLastWritten(win, x)
    {
      if x != id {
        NotPatchedNotChanged(win, x);
      } else {
        PatchedAsWritten(win, id);
        if id !in f.calls {
          NeverMentioned(front, id);
        }
      }
    }
    forall i, j | 0 <= i < j < |g.order|
      ensures SeenBefore(win, g.order[i], g.order[j])
    {
      if j < |f.order| {
        assert SeenBefore(front, f.order[i], f.order[j]);
        SeenBeforeGrows(win, g.order[i], g.order[j]);
      } else {
        assert f.order[i] in f.order;
        SeenBeforeNew(win, g.order[i], id);
      }
    }
  }

  lemma OtherKeepsView(win: seq<Envelope>, order: seq<string>, calls: map<string, ToolCall>)
    requires win != []
    requires var b := win[|win| - 1].body; !(b.SessionUpdate? && b.update.ToolUpdate? && b.update.tool.toolCallId.Some?)
    requires IsLastWriterView(win[..|win| - 1], order, calls)
    ensures IsLastWriterView(win, order, calls)
  {
    forall x
      ensures Mentioned(win, x) <==> Mentioned(win[..|win| - 1], x)
    {
      MentionedGrows(win, x);
    }
    forall x | x in calls
      ensures calls[x] == AsLastWritten(win, x)
    {
      NotPatchedNotChanged(win, x);
    }
    forall i, j | 0 <= i < j < |order|
      ensures SeenBefore(win, order[i], order[j])
    {
      SeenBeforeGrows(win, order[i], order[j]);
    }
  }

  lemma AbsorbedCalls(f: FoldState, e: Envelope)
    ensures if e.body.SessionUpdate? && e.body.update.ToolUpdate? then Absorbed(f, e) == Upserted(f, e.body.update.tool)
      else Absorbed(f, e).order == f.order && Absorbed(f, e).calls == f.calls
  {
  }

  /** Main result: after any window, the calls are its last-writer view in first-seen order. */
  lemma {:induction false} ToolCallsAreLastWriterView(f: FoldState, win: seq<Envelope>)
    requires f.order == [] && f.calls == map[]
    ensures IsLastWriterView(win, AbsorbAll(f, win).order, AbsorbAll(f, win).calls)
    decreases |win|
  {
    if win != [] {
      var front, last := win[..|win| - 1], win[|win| - 1];
      ToolCallsAreLastWriterView(f, front);
      AbsorbLast(f, win);
      var g := AbsorbAll(f, front);
      AbsorbedCalls(g, last);
      if last.body.SessionUpdate? && last.body.update.ToolUpdate? && last.body.update.tool.toolCallId.Some? {
        UpsertKeepsView(win, g, last.body.update.tool.toolCallId.value);
      } else {
        OtherKeepsView(win, g.order, g.calls);
      }
    }
  }

  // ---- denials, parked interactions, errors ----

  predicate Denies(e: Envelope, id: string) {
    e.body.PolicyDecision? && IsDenial(e.body.decision) && e.body.decision.toolCallId == Some(id)
  }

  /** The status in the last envelope about this interaction. */
  function LastStatus(win: seq<Envelope>, requestId: string): Option<InteractionStatus> {
    if win == [] then None
    else
      var last := win[|win| - 1];
      if last.body.Interaction? && last.body.requestId == requestId then Some(last.body.status)
      else LastStatus(win[..|win| - 1], requestId)
  }

  ghost predicate Signals(win: seq<Envelope>, f: FoldState) {
    && (f.error.Some? <==> exists k :: 0 <= k < |win| && win[k].body.ErrorReport?)
    && (forall id :: id in f.denied <==> exists k :: 0 <= k < |win| && Denies(win[k], id))
    && (forall id :: id in f.pending <==> LastStatus(win, id) == Some(Pending))
  }

  /** Whether any envelope satisfies a predicate, one envelope on. */
  lemma AnyGrows(front: seq<Envelope>, win: seq<Envelope>, p: Envelope -> bool)
    requires win != [] && front == win[..|win| - 1]
    ensures (exists k :: 0 <= k < |win| && p(win[k])) <==>
            (exists k :: 0 <= k < |front| && p(front[k])) || p(win[|win| - 1])
  {
    assert win == front + [win[|win| - 1]];
    if k :| 0 <= k < |front| && p(front[k]) {
      assert p(win[k]);
    }
    if k :| 0 <= k < |win| && p(win[k]) && k < |front| {
      assert p(front[k]);
    }
  }

  lemma AbsorbedSignals(f: FoldState, e: Envelope, id: string)
    ensures Absorbed(f, e).error.Some? <==> f.error.Some? || e.body.ErrorReport?
    ensures id in Absorbed(f, e).denied <==> id in f.denied || Denies(e, id)
    ensures id in Absorbed(f, e).pending <==>
            (if e.body.Interaction? && e.body.requestId == id then e.body.status == Pending else id in f.pending)
  {
  }

  lemma StepSignals(win: seq<Envelope>, f: FoldState)
    requires win != [] && Signals(win[..|win| - 1], f)
    ensures Signals(win, Absorbed(f, win[|win| - 1]))
  {
    var front, last := win[..|win| - 1], win[|win| - 1];
    AnyGrows(front, win, (e: Envelope) => e.body.ErrorReport?);
    forall id
      ensures id in Absorbed(f, last).denied <==> exists k :: 0 <= k < |win| && Denies(win[k], id)
      ensures id in Absorbed(f, last).pending <==> LastStatus(win, id) == Some(Pending)
    {
      AbsorbedSignals(f, last, id);
      AnyGrows(front, win, (e: Envelope) => Denies(e, id));
    }
    AbsorbedSignals(f, last, "");
  }

  lemma {:induction false} SignalsOfWindow(f: FoldState, win: seq<Envelope>)
    requires f.error == None && f.denied == [] && f.pending == []
    ensures Signals(win, AbsorbAll(f, win))
    decreases |win|
  {
    if win != [] {
      SignalsOfWindow(f, win[..|win| - 1]);
      AbsorbLast(f, win);
      StepSignals(win, AbsorbAll(f, win[..|win| - 1]));
    }
  }

  // ---- the whole turn ----

  lemma {:induction false} ViewIsByOrder(f: FoldState, order: seq<string>)
    requires forall id :: id in order ==> id in f.calls
    ensures |ViewOf(f, order)| == |order|
    ensures forall i :: 0 <= i < |order| ==> ViewOf(f, order)[i] == f.calls[order[i]]
  {
    if order != [] {
      assert order[0] in order;
      assert forall id :: id in order[1..] ==> id in order;
      ViewIsByOrder(f, order[1..]);
    }
  }

  /** What a finished fold keeps of the turn's log. */
  ghost predicate Keeps(turn: string, own: seq<Envelope>, f: FoldState) {
    var win := Window(turn, own);
    && IsLastWriterView(win, f.order, f.calls)
    && (f.error.Some? <==> EndedByWorker(turn, own) || exists k :: 0 <= k < |win| && win[k].body.ErrorReport?)
    && (forall id :: id in f.denied <==> exists k :: 0 <= k < |win| && Denies(win[k], id))
    && (forall id :: id in f.pending <==> LastStatus(win, id) == Some(Pending))
    && (f.terminal != NotTerminal <==> IsOver(turn, own))
  }

  /** How the finished fold differs from the absorbed window: only in what the worker's end adds. */
  ghost predicate FinishedFrom(turn: string, own: seq<Envelope>, g: FoldState, f: FoldState) {
    && f.order == g.order && f.calls == g.calls && f.denied == g.denied && f.pending == g.pending
    && (f.error.Some? <==> EndedByWorker(turn, own) || g.error.Some?)
    && (f.terminal != NotTerminal <==> IsOver(turn, own))
  }

  lemma FinishedAfterWindow(turn: string, es: seq<Envelope>, worker: string)
    requires forall e :: e in es ==> e.workerId == worker
    requires Since(turn, es) != []
    ensures FinishedFrom(turn, es, AbsorbAll(Begun(turn, Since(turn, es)[0]), Window(turn, es)), Run(turn, Initial, es))
  {
    FoldOverWindow(turn, es, worker);
  }

  lemma KeepsWhatItAbsorbed(turn: string, own: seq<Envelope>, g: FoldState, f: FoldState)
    requires FinishedFrom(turn, own, g, f)
    requires IsLastWriterView(Window(turn, own), g.order, g.calls) && Signals(Window(turn, own), g)
    ensures Keeps(turn, own, f)
  {
  }

  /** The finished fold keeps the window's calls, denials and parked interactions. */
  lemma FoldKeepsWindow(turn: string, es: seq<Envelope>, worker: string)
    requires forall e :: e in es ==> e.workerId == worker
    ensures Keeps(turn, es, Run(turn, Initial, es))
  {
    var rest, win := Since(turn, es), Window(turn, es);
    if rest != [] {
      var b := Begun(turn, rest[0]);
      FinishedAfterWindow(turn, es, worker);
      ToolCallsAreLastWriterView(b, win);
      SignalsOfWindow(b, win);
      KeepsWhatItAbsorbed(turn, es, AbsorbAll(b, win), Run(turn, Initial, es));
    } else {
      FoldOverWindow(turn, es, worker);
      KeepsWhatItAbsorbed(turn, es, Initial, Initial);
    }
  }

  lemma OrderedAreOwn(es: seq<Envelope>, worker: string)
    requires SeqIsIdentity(es, worker)
    ensures forall e :: e in Ordered(es, worker) ==> e.workerId == worker
  {
    OrderedMembers(es, worker);
  }

  /** What a list of calls says about a window. */
  ghost predicate Reports(win: seq<Envelope>, calls: seq<ToolCall>) {
    && (forall i :: 0 <= i < |calls| ==> calls[i] == AsLastWritten(win, calls[i].toolCallId))
    && (forall id :: Mentioned(win, id) <==> exists i :: 0 <= i < |calls| && calls[i].toolCallId == id)
    && (forall i, j :: 0 <= i < j < |calls| ==> SeenBefore(win, calls[i].toolCallId, calls[j].toolCallId))
  }

  lemma ViewReports(win: seq<Envelope>, order: seq<string>, view: map<string, ToolCall>, calls: seq<ToolCall>)
    requires IsLastWriterView(win, order, view)
    requires |calls| == |order| && forall i :: 0 <= i < |order| ==> order[i] in view && calls[i] == view[order[i]]
    ensures Reports(win, calls)
  {
    forall i | 0 <= i < |calls|
      ensures calls[i].toolCallId == order[i] && calls[i] == AsLastWritten(win, order[i])
    {
    }
    forall id | Mentioned(win, id)
      ensures exists i :: 0 <= i < |calls| && calls[i].toolCallId == id
    {
      assert id in order;
      var i :| 0 <= i < |order| && order[i] == id;
      assert calls[i].toolCallId == id;
    }
    forall id | exists i :: 0 <= i < |calls| && calls[i].toolCallId == id
      ensures Mentioned(win, id)
    {
      var i :| 0 <= i < |calls| && calls[i].toolCallId == id;
      assert order[i] in order;
    }
  }

  lemma FoldReports(f: FoldState, win: seq<Envelope>)
    requires IsLastWriterView(win, f.order, f.calls)
    ensures Reports(win, ViewOf(f, f.order))
  {
    assert forall id :: id in f.order ==> id in f.calls;
    ViewIsByOrder(f, f.order);
    forall i | 0 <= i < |f.order|
      ensures f.order[i] in f.calls
    {
      assert f.order[i] in f.order;
    }
    ViewReports(win, f.order, f.calls, ViewOf(f, f.order));
  }

  /** Main result: the reported tool calls, whatever the buffer the turn was folded from. */
  lemma ReportedToolCalls(turn: string, es: seq<Envelope>, worker: string)
    requires TurnOf(turn, es, worker) && SeqIsIdentity(es, worker)
    ensures Reports(Window(turn, Ordered(es, worker)), Reduced(turn, es).toolCalls)
  {
    FoldIsOverOwnEvents(turn, es, worker);
    OrderedAreOwn(es, worker);
    FoldKeepsWindow(turn, Ordered(es, worker), worker);
    FoldReports(FoldOf(turn, es), Window(turn, Ordered(es, worker)));
  }

  function IdsOf(calls: seq<ToolCall>): seq<string> {
    seq(|calls|, i requires 0 <= i < |calls| => calls[i].toolCallId)
  }

  lemma HeadCounts(calls: seq<ToolCall>, p: Option<string> -> bool, id: string)
    requires calls != []
    ensures multiset(IdsWhere(calls, p))[id] ==
            multiset(IdsWhere(calls[1..], p))[id] + if p(calls[0].status) && calls[0].toolCallId == id then 1 else 0
  {
  }

  lemma HeadId(calls: seq<ToolCall>, id: string)
    requires calls != []
    ensures multiset(IdsOf(calls))[id] ==
            multiset(IdsOf(calls[1..]))[id] + if calls[0].toolCallId == id then 1 else 0
  {
    assert IdsOf(calls) == [calls[0].toolCallId] + IdsOf(calls[1..]);
  }

  lemma {:induction false} StatusesPartitionAt(calls: seq<ToolCall>, id: string)
    ensures multiset(IdsWhere(calls, IsCompletedStatus))[id] + multiset(IdsWhere(calls, IsFailedStatus))[id]
            + multiset(IdsWhere(calls, IsOpenStatus))[id] == multiset(IdsOf(calls))[id]
  {
    if calls != [] {
      HeadCounts(calls, IsCompletedStatus, id);
      HeadCounts(calls, IsFailedStatus, id);
      HeadCounts(calls, IsOpenStatus, id);
      HeadId(calls, id);
      StatusesPartitionAt(calls[1..], id);
    }
  }

  lemma StatusesPartition(calls: seq<ToolCall>)
    ensures multiset(IdsWhere(calls, IsCompletedStatus)) + multiset(IdsWhere(calls, IsFailedStatus))
      + multiset(IdsWhere(calls, IsOpenStatus)) == multiset(IdsOf(calls))
  {
    forall id
      ensures multiset(IdsWhere(calls, IsCompletedStatus))[id] + multiset(IdsWhere(calls, IsFailedStatus))[id]
              + multiset(IdsWhere(calls, IsOpenStatus))[id] == multiset(IdsOf(calls))[id]
    {
      StatusesPartitionAt(calls, id);
    }
  }

  /** Main result: a finished turn's calls are completed, failed or stranded, each exactly once. */
  lemma FinishedCallsPartition(turn: string, es: seq<Envelope>, worker: string)
    requires TurnOf(turn, es, worker) && SeqIsIdentity(es, worker)
    requires IsOver(turn, Ordered(es, worker))
    ensures var r := Reduced(turn, es);
      multiset(IdsWhere(r.toolCalls, IsCompletedStatus)) + multiset(r.failedToolCalls)
        + multiset(r.strandedToolCalls) == multiset(IdsOf(r.toolCalls))
  {
    FoldIsOverOwnEvents(turn, es, worker);
    OrderedAreOwn(es, worker);
    FoldKeepsWindow(turn, Ordered(es, worker), worker);
    StatusesPartition(Reduced(turn, es).toolCalls);
  }

  predicate NoErrorIn(win: seq<Envelope>) {
    forall k :: 0 <= k < |win| ==> !win[k].body.ErrorReport?
  }

  ghost predicate NoDenialIn(win: seq<Envelope>) {
    forall k, id :: 0 <= k < |win| ==> !Denies(win[k], id)
  }

  ghost predicate NothingParkedIn(win: seq<Envelope>) {
    forall id :: LastStatus(win, id) != Some(Pending)
  }

  /** The last status of no call in the window satisfies `p`. */
  ghost predicate NoCallIs(win: seq<Envelope>, p: Option<string> -> bool) {
    forall id :: Mentioned(win, id) ==> !p(LastCarried(win, id, StatusField))
  }

  /**
   What `ok` promises about the envelopes of the turn: the worker did not end it, no error, no denial, nothing
   parked, no call failed, and, once the turn is over, no call left short of completed.
   */
  ghost predicate NothingWrong(turn: string, own: seq<Envelope>) {
    var win := Window(turn, own);
    && !EndedByWorker(turn, own) && NoErrorIn(win) && NoDenialIn(win) && NothingParkedIn(win)
    && NoCallIs(win, IsFailedStatus)
    && (IsOver(turn, own) ==> NoCallIs(win, IsOpenStatus))
  }

  lemma {:induction false} NoneWhere(calls: seq<ToolCall>, p: Option<string> -> bool)
    ensures IdsWhere(calls, p) == [] <==> forall i :: 0 <= i < |calls| ==> !p(calls[i].status)
  {
    if calls != [] {
      NoneWhere(calls[1..], p);
      assert calls == [calls[0]] + calls[1..];
    }
  }

  /** A property of the reported statuses is one of the last statuses in the window. */
  lemma ReportedStatuses(turn: string, es: seq<Envelope>, worker: string, p: Option<string> -> bool)
    requires TurnOf(turn, es, worker) && SeqIsIdentity(es, worker)
    ensures StatusesSay(Window(turn, Ordered(es, worker)), Reduced(turn, es).toolCalls, p)
  {
    var win, calls := Window(turn, Ordered(es, worker)), Reduced(turn, es).toolCalls;
    ReportedToolCalls(turn, es, worker);
    NoneWhere(calls, p);
    forall i | 0 <= i < |calls|
      ensures Mentioned(win, calls[i].toolCallId)
      ensures calls[i].status == LastCarried(win, calls[i].toolCallId, StatusField)
    {
    }
  }

  lemma NoDenials(win: seq<Envelope>, denied: seq<string>)
    requires forall id :: id in denied <==> exists k :: 0 <= k < |win| && Denies(win[k], id)
    ensures denied == [] <==> NoDenialIn(win)
  {
    if denied != [] {
      assert denied[0] in denied;
      var k :| 0 <= k < |win| && Denies(win[k], denied[0]);
    } else {
      forall k, id | 0 <= k < |win|
        ensures !Denies(win[k], id)
      {
        assert id in denied <==> exists m :: 0 <= m < |win| && Denies(win[m], id);
      }
    }
  }

  lemma NonePending(win: seq<Envelope>, pending: seq<string>)
    requires forall id :: id in pending <==> LastStatus(win, id) == Some(Pending)
    ensures pending == [] <==> NothingParkedIn(win)
  {
    if pending != [] {
      assert pending[0] in pending;
      assert LastStatus(win, pending[0]) == Some(Pending);
    } else {
      forall id
        ensures LastStatus(win, id) != Some(Pending)
      {
        assert id in pending <==> LastStatus(win, id) == Some(Pending);
      }
    }
  }

  lemma VerdictOf(turn: string, f: FoldState)
    ensures Materialized(turn, f).verdict == Ok <==>
            && f.error == None && f.denied == [] && f.pending == []
            && IdsWhere(ViewOf(f, f.order), IsFailedStatus) == []
            && (f.terminal != NotTerminal ==> IdsWhere(ViewOf(f, f.order), IsOpenStatus) == [])
    ensures Materialized(turn, f).toolCalls == ViewOf(f, f.order)
  {
  }

  /** The listed statuses say of the window's calls what `p` says. */
  ghost predicate StatusesSay(win: seq<Envelope>, calls: seq<ToolCall>, p: Option<string> -> bool) {
    IdsWhere(calls, p) == [] <==> NoCallIs(win, p)
  }

  lemma OkOfFold(turn: string, own: seq<Envelope>, f: FoldState)
    requires Keeps(turn, own, f)
    requires StatusesSay(Window(turn, own), ViewOf(f, f.order), IsFailedStatus)
    requires StatusesSay(Window(turn, own), ViewOf(f, f.order), IsOpenStatus)
    ensures Materialized(turn, f).verdict == Ok <==> NothingWrong(turn, own)
  {
    var win := Window(turn, own);
    VerdictOf(turn, f);
    NoDenials(win, f.denied);
    NonePending(win, f.pending);
    assert f.error == None <==> !EndedByWorker(turn, own) && NoErrorIn(win);
  }

  /** Main result: the verdict is `ok` exactly when nothing in the turn's window says otherwise. */
  lemma OkMeansNothingWrong(turn: string, es: seq<Envelope>, worker: string)
    requires TurnOf(turn, es, worker) && SeqIsIdentity(es, worker)
    ensures Reduced(turn, es).verdict == Ok <==> NothingWrong(turn, Ordered(es, worker))
  {
    FoldIsOverOwnEvents(turn, es, worker);
    OrderedAreOwn(es, worker);
    FoldKeepsWindow(turn, Ordered(es, worker), worker);
    VerdictOf(turn, FoldOf(turn, es));
    ReportedStatuses(turn, es, worker, IsFailedStatus);
    ReportedStatuses(turn, es, worker, IsOpenStatus);
    OkOfFold(turn, Ordered(es, worker), FoldOf(turn, es));
  }

  // ---- the status ----

  lemma {:induction false} AbsorbingKeepsStart(turn: string, f: FoldState, es: seq<Envelope>)
    requires forall e :: e in es ==> e.turnId == Some(turn)
    ensures AbsorbAll(f, es).startSeq == f.startSeq
    decreases |es|
  {
    if es != [] {
      assert Absorbed(f, es[0]).startSeq == f.startSeq;
      AbsorbingKeepsStart(turn, Absorbed(f, es[0]), es[1..]);
    }
  }

  lemma {:induction false} MineAreOfTheTurn(turn: string, es: seq<Envelope>)
    ensures forall e :: e in Mine(turn, es) ==> e.turnId == Some(turn)
  {
    if es != [] {
      MineAreOfTheTurn(turn, es[1..]);
    }
  }

  lemma StartedExactlyWhen(turn: string, es: seq<Envelope>, worker: string)
    requires forall e :: e in es ==> e.workerId == worker
    ensures Run(turn, Initial, es).startSeq.Some? <==> Since(turn, es) != []
  {
    FoldOverWindow(turn, es, worker);
    if Since(turn, es) != [] {
      MineAreOfTheTurn(turn, Span(turn, es));
      AbsorbingKeepsStart(turn, Begun(turn, Since(turn, es)[0]), Window(turn, es));
    }
  }

  /** What the status endpoint says of a turn, in terms of its log. */
  predicate IsStatus(turn: string, own: seq<Envelope>, state: TurnState) {
    var wrong := EndedByWorker(turn, own) || !NoErrorIn(Window(turn, own));
    && (state == UnknownTurn <==> Since(turn, own) == [])
    && (state == RunningTurn <==> Since(turn, own) != [] && !IsOver(turn, own))
    && (state == FailedTurn <==> IsOver(turn, own) && wrong)
    && (state == CompletedTurn <==> IsOver(turn, own) && !wrong)
  }

  lemma {:induction false} SpanNeedsStart(turn: string, es: seq<Envelope>)
    ensures Since(turn, es) == [] ==> !IsOver(turn, es)
  {
  }

  /**
   Main result: a turn is unknown until its first envelope, running until one of the three terminals, and then
   failed exactly when the worker's end or an error in its window says so.
   */
  lemma StatusIsTheLogs(turn: string, es: seq<Envelope>, worker: string)
    requires TurnOf(turn, es, worker) && SeqIsIdentity(es, worker)
    ensures IsStatus(turn, Ordered(es, worker), StatusOf(turn, es).state)
  {
    var own, f := Ordered(es, worker), FoldOf(turn, es);
    FoldIsOverOwnEvents(turn, es, worker);
    OrderedAreOwn(es, worker);
    FoldKeepsWindow(turn, own, worker);
    StartedExactlyWhen(turn, own, worker);
    SpanNeedsStart(turn, own);
    assert f.error.Some? <==> EndedByWorker(turn, own) || !NoErrorIn(Window(turn, own));
    assert Materialized(turn, f).error == f.error;
  }

  // ---- unpoliced tool calls ----

  predicate IsAbout(w: Warning, id: string) {
    w.detail.Unpoliced? && w.detail.toolCallId == id
  }

  /** One warning for each id that is to be reported, and none for any other. */
  ghost predicate WarnsOnce(reported: string -> bool, ws: seq<Warning>) {
    && (forall i :: 0 <= i < |ws| ==> ws[i].detail.Unpoliced? && reported(ws[i].detail.toolCallId))
    && (forall id :: reported(id) ==> exists i :: 0 <= i < |ws| && IsAbout(ws[i], id))
    && (forall i, j :: 0 <= i < j < |ws| && ws[i].detail.Unpoliced? ==> !IsAbout(ws[j], ws[i].detail.toolCallId))
  }

  lemma OneMoreWarning(reported: string -> bool, now: string -> bool, ws: seq<Warning>, w: Warning)
    requires WarnsOnce(reported, ws) && w.detail.Unpoliced? && !reported(w.detail.toolCallId)
    requires forall id :: now(id) <==> reported(id) || id == w.detail.toolCallId
    ensures WarnsOnce(now, ws + [w])
  {
    var more := ws + [w];
    assert forall i :: 0 <= i < |ws| ==> more[i] == ws[i];
    forall id | now(id)
      ensures exists i :: 0 <= i < |more| && IsAbout(more[i], id)
    {
      if reported(id) {
        var i :| 0 <= i < |ws| && IsAbout(ws[i], id);
        assert IsAbout(more[i], id);
      } else {
        assert IsAbout(more[|ws|], id);
      }
    }
  }

  function ReportedOf(watched: seq<string>, calls: seq<ToolCall>,
                      interactions: seq<InteractionRecord>): string -> bool {
    id => Reported(watched, calls, interactions, id)
  }

  lemma SameWarnings(reported: string -> bool, now: string -> bool, ws: seq<Warning>)
    requires WarnsOnce(reported, ws) && forall id :: now(id) <==> reported(id)
    ensures WarnsOnce(now, ws)
  {
  }

  lemma ReportedOneMore(watched: seq<string>, calls: seq<ToolCall>, interactions: seq<InteractionRecord>, id: string)
    requires calls != []
    ensures var last := calls[|calls| - 1];
            ReportedOf(watched, calls, interactions)(id) <==>
            ReportedOf(watched, calls[..|calls| - 1], interactions)(id)
            || (IsUnpoliced(watched, interactions, last) && id == last.toolCallId)
  {
    ReportedGrows(watched, calls, interactions);
  }

  /** Main result: of the calls of watched kinds that no interaction names, each is warned about once. */
  lemma {:induction false} UnpolicedOnce(watched: seq<string>, calls: seq<ToolCall>,
                                         interactions: seq<InteractionRecord>)
    ensures WarnsOnce(ReportedOf(watched, calls, interactions), UnpolicedWarnings(watched, calls, interactions))
  {
    if calls != [] {
      var earlier, last := calls[..|calls| - 1], calls[|calls| - 1];
      var reported, now := ReportedOf(watched, earlier, interactions), ReportedOf(watched, calls, interactions);
      UnpolicedOnce(watched, earlier, interactions);
      forall id
        ensures now(id) <==> reported(id) || (IsUnpoliced(watched, interactions, last) && id == last.toolCallId)
      {
        ReportedOneMore(watched, calls, interactions, id);
      }
      if IsUnpoliced(watched, interactions, last) && !reported(last.toolCallId) {
        OneMoreWarning(reported, now, UnpolicedWarnings(watched, earlier, interactions), UnpolicedWarning(last));
      } else {
        SameWarnings(reported, now, UnpolicedWarnings(watched, earlier, interactions));
        assert UnpolicedWarnings(watched, calls, interactions) == UnpolicedWarnings(watched, earlier, interactions);
      }
    }
  }
}
