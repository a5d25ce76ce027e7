/**
 When the registry's limits hold: exactly which steps pass them, and the discipline under which none does.
 */
module SlotsCapacity {
  import opened Wrappers
  import opened Envelopes
  import opened Slots
  import opened SlotsLaws

  // ---- the daemon-wide limit ----

  /** A slot taken with no limit looked at: an auto-wake, or a row rehydrated in a state that owns a process. */
  predicate Unchecked(s: State, t: Step) {
    match t
    case Moves(w, to) => Occupies(to) && w in s.entries && !s.entries[w].live
    case Rehydrates(_, _, state) => Occupies(state)
    case _ => false
  }

  /** No count is negative. */
  lemma CountsAreNatural(s: State, token: string)
    requires Conserved(s)
    ensures s.liveTotal >= 0 && CountOf(s.perToken, token) >= 0
  {
    assert CountOf(s.perToken, token) == |ChargedTo(SlotsOf(s), token)|;
  }

  lemma StepPassesLimitExactlyWhen(s: State, t: Step, max: int)
    requires Enabled(s, t) && 0 <= s.liveTotal <= max
    ensures Next(s, t, max).liveTotal > max <==> s.liveTotal == max && Unchecked(s, t)
  {
    match t
    case Moves(w, to) =>
    case WakeReturns(w, failed) =>
    case _ =>
  }

  /** The limit holds now and after every step. */
  predicate WithinLimit(s: State, ts: seq<Step>, max: int)
    requires IsRun(s, ts, max)
    decreases |ts|
  {
    s.liveTotal <= max && (ts == [] || WithinLimit(Next(s, ts[0], max), ts[1..], max))
  }

  predicate NeverUncheckedWhenFull(s: State, ts: seq<Step>, max: int)
    requires IsRun(s, ts, max)
    decreases |ts|
  {
    || ts == []
    || (!(s.liveTotal >= max && Unchecked(s, ts[0])) && NeverUncheckedWhenFull(Next(s, ts[0], max), ts[1..], max))
  }

  /** A run keeps `maxWorkers` at every step if and only if no unchecked take happens while it is full. */
  lemma {:induction false} LimitHoldsExactlyWhen(s: State, ts: seq<Step>, max: int)
    requires Conserved(s) && IsRun(s, ts, max) && s.liveTotal <= max
    ensures WithinLimit(s, ts, max) <==> NeverUncheckedWhenFull(s, ts, max)
    decreases |ts|
  {
    if ts != [] {
      StepKeeps(s, ts[0], max);
      CountsAreNatural(s, "");
      StepPassesLimitExactlyWhen(s, ts[0], max);
      var next := Next(s, ts[0], max);
      if next.liveTotal <= max {
        LimitHoldsExactlyWhen(next, ts[1..], max);
      }
    }
  }

  // ---- a token's own limit ----

  /** A slot charged to the token although its quota was not looked at; `wake()` by somebody else is such a one. */
  predicate UncheckedFor(s: State, t: Step, token: string, max: int) {
    match t
    case Moves(w, to) => Occupies(to) && w in s.entries && !s.entries[w].live && s.entries[w].owner == token
    case Rehydrates(_, owner, state) => Occupies(state) && owner == token
    case WakeBegins(w, caller, _) =>
      w in s.entries && !s.entries[w].live && s.entries[w].owner == token && caller != token && s.liveTotal < max
    case _ => false
  }

  /** Requests of the token carry its own limit. */
  predicate Carries(t: Step, token: string, quota: int) {
    match t
    case CreateBegins(_, caller, tokenMax) => caller == token ==> tokenMax == quota
    case WakeBegins(_, caller, callerMax) => caller == token ==> callerMax == quota
    case _ => true
  }

  lemma TokenPassesQuotaExactlyWhen(s: State, t: Step, token: string, quota: int, max: int)
    requires Enabled(s, t) && 0 <= CountOf(s.perToken, token) <= quota && Carries(t, token, quota)
    ensures CountOf(Next(s, t, max).perToken, token) > quota <==>
            CountOf(s.perToken, token) == quota && UncheckedFor(s, t, token, max)
  {
    match t
    case Moves(w, to) =>
    case WakeReturns(w, failed) =>
    case _ =>
  }

  predicate WithinQuota(s: State, ts: seq<Step>, token: string, quota: int, max: int)
    requires IsRun(s, ts, max)
    decreases |ts|
  {
    && CountOf(s.perToken, token) <= quota
    && (ts == [] || WithinQuota(Next(s, ts[0], max), ts[1..], token, quota, max))
  }

  predicate NeverUncheckedForWhenFull(s: State, ts: seq<Step>, token: string, quota: int, max: int)
    requires IsRun(s, ts, max)
    decreases |ts|
  {
    || ts == []
    || (!(CountOf(s.perToken, token) >= quota && UncheckedFor(s, ts[0], token, max))
        && NeverUncheckedForWhenFull(Next(s, ts[0], max), ts[1..], token, quota, max))
  }

  /** A run keeps a token's `maxWorkers` at every step if and only if it is never charged unchecked while full. */
  lemma {:induction false} QuotaHoldsExactlyWhen(s: State, ts: seq<Step>, token: string, quota: int, max: int)
    requires Conserved(s) && IsRun(s, ts, max) && CountOf(s.perToken, token) <= quota
    requires forall t :: t in ts ==> Carries(t, token, quota)
    ensures WithinQuota(s, ts, token, quota, max) <==> NeverUncheckedForWhenFull(s, ts, token, quota, max)
    decreases |ts|
  {
    if ts != [] {
      StepKeeps(s, ts[0], max);
      CountsAreNatural(s, token);
      TokenPassesQuotaExactlyWhen(s, ts[0], token, quota, max);
      var next := Next(s, ts[0], max);
      if CountOf(next.perToken, token) <= quota {
        QuotaHoldsExactlyWhen(next, ts[1..], token, quota, max);
      }
    }
  }

  // ---- the discipline ----

  /**
   Slots are taken only by `create` and `wake()`: a worker starts up only inside a `wake()` that reserved
   for it, no two such calls overlap, only the owner calls it, the close bookkeeping follows the close, and
   a row is never rehydrated in a state that owns a process.
   */
  ghost predicate Disciplined(s: State, t: Step, quota: string -> int) {
    match t
    case CreateBegins(_, token, tokenMax) => tokenMax == quota(token)
    case Rehydrates(_, _, state) => !Occupies(state)
    case Moves(w, to) => w in s.entries && MayMove(s, w, to)
    case CloseSettles(w) => w in s.entries && s.entries[w].state == Closed
    case WakeBegins(w, caller, callerMax) =>
      w in s.entries && w !in s.waking && caller == s.entries[w].owner && callerMax == quota(caller)
    case _ => true
  }

  predicate MayMove(s: State, w: string, to: WorkerState)
    requires w in s.entries
  {
    var from := s.entries[w].state;
    if Occupies(to) then Occupies(from) || (from == Hibernated && w in s.waking && s.waking[w] == Reserved)
    else to == Closed || Occupies(from)
  }

  ghost predicate IsDisciplined(s: State, ts: seq<Step>, quota: string -> int, max: int)
    requires IsRun(s, ts, max)
    decreases |ts|
  {
    ts == [] || (Disciplined(s, ts[0], quota) && IsDisciplined(Next(s, ts[0], max), ts[1..], quota, max))
  }

  /** A worker that owns a process is live, and so is one that a `wake()` is about to start. */
  predicate ProcessesAreLive(s: State) {
    && (forall w :: w in s.entries ==> HasSlotIfNeeded(s, w))
    && (forall w :: w in s.waking ==> w in s.entries)
  }

  predicate HasSlotIfNeeded(s: State, w: string)
    requires w in s.entries
  {
    var e := s.entries[w];
    && (Occupies(e.state) ==> e.live && (w in s.waking ==> s.waking[w] == StartSeen))
    && (e.state == Hibernated && w in s.waking && s.waking[w] == Reserved ==> e.live)
  }

  lemma MoveKeepsSlot(s: State, moved: string, to: WorkerState, max: int, w: string)
    requires moved in s.entries && MayMove(s, moved, to) && w in s.entries && HasSlotIfNeeded(s, w)
    requires HasSlotIfNeeded(s, moved)
    ensures HasSlotIfNeeded(Next(s, Moves(moved, to), max), w)
  {
  }

  lemma WakeKeepsSlot(s: State, t: Step, max: int, w: string)
    requires Enabled(s, t) && (t.WakeBegins? || t.WakeReturns?) && w in s.entries && HasSlotIfNeeded(s, w)
    ensures HasSlotIfNeeded(Next(s, t, max), w)
  {
  }

  lemma DisciplineKeepsSlot(s: State, t: Step, quota: string -> int, max: int, w: string)
    requires Enabled(s, t) && Disciplined(s, t, quota) && w in Next(s, t, max).entries
    requires ProcessesAreLive(s)
    ensures HasSlotIfNeeded(Next(s, t, max), w)
  {
    assert w in s.entries ==> HasSlotIfNeeded(s, w);
    match t
    case Moves(moved, to) => MoveKeepsSlot(s, moved, to, max, w);
    case WakeBegins(_, _, _) => WakeKeepsSlot(s, t, max, w);
    case WakeReturns(_, _) => WakeKeepsSlot(s, t, max, w);
    case _ =>
  }

  lemma DisciplineTakesNoneUnchecked(s: State, t: Step, quota: string -> int, max: int)
    requires Enabled(s, t) && Disciplined(s, t, quota) && ProcessesAreLive(s)
    ensures !Unchecked(s, t) && forall token :: !UncheckedFor(s, t, token, max)
  {
    if t.Moves? {
      assert HasSlotIfNeeded(s, t.worker);
    }
  }

  lemma DisciplineKeepsProcessesLive(s: State, t: Step, quota: string -> int, max: int)
    requires Enabled(s, t) && Disciplined(s, t, quota) && ProcessesAreLive(s)
    ensures ProcessesAreLive(Next(s, t, max))
  {
    var r := Next(s, t, max);
    forall w | w in r.entries
      ensures HasSlotIfNeeded(r, w)
    {
      DisciplineKeepsSlot(s, t, quota, max, w);
    }
  }

  ghost predicate WithinQuotas(s: State, quota: string -> int) {
    forall token :: CountOf(s.perToken, token) <= quota(token)
  }

  /** Both limits hold now and after every step. */
  ghost predicate StaysWithin(s: State, ts: seq<Step>, quota: string -> int, max: int)
    requires IsRun(s, ts, max)
    decreases |ts|
  {
    && s.liveTotal <= max && WithinQuotas(s, quota)
    && (ts == [] || StaysWithin(Next(s, ts[0], max), ts[1..], quota, max))
  }

  lemma DisciplinedStepStaysWithin(s: State, t: Step, quota: string -> int, max: int)
    requires Conserved(s) && Enabled(s, t) && Disciplined(s, t, quota) && ProcessesAreLive(s)
    requires s.liveTotal <= max && WithinQuotas(s, quota)
    ensures Next(s, t, max).liveTotal <= max && WithinQuotas(Next(s, t, max), quota)
  {
    DisciplineTakesNoneUnchecked(s, t, quota, max);
    CountsAreNatural(s, "");
    StepPassesLimitExactlyWhen(s, t, max);
    forall token
      ensures CountOf(Next(s, t, max).perToken, token) <= quota(token)
    {
      CountsAreNatural(s, token);
      TokenPassesQuotaExactlyWhen(s, t, token, quota(token), max);
    }
  }

  /** Capacity is never exceeded on a disciplined run, daemon-wide and for every token. */
  lemma {:induction false} CapacityIsNeverExceeded(s: State, ts: seq<Step>, quota: string -> int, max: int)
    requires Conserved(s) && ProcessesAreLive(s) && s.liveTotal <= max && WithinQuotas(s, quota)
    requires IsRun(s, ts, max) && IsDisciplined(s, ts, quota, max)
    ensures StaysWithin(s, ts, quota, max)
    decreases |ts|
  {
    if ts != [] {
      StepKeeps(s, ts[0], max);
      DisciplineKeepsProcessesLive(s, ts[0], quota, max);
      DisciplinedStepStaysWithin(s, ts[0], quota, max);
      CapacityIsNeverExceeded(Next(s, ts[0], max), ts[1..], quota, max);
    }
  }

  /** A daemon that just started is such a state. */
  lemma StartIsWithin(quota: string -> int, max: int)
    requires max >= 0 && forall token :: quota(token) >= 0
    ensures Conserved(Empty) && ProcessesAreLive(Empty) && Empty.liveTotal <= max && WithinQuotas(Empty, quota)
  {
    EmptyIsConserved();
  }

  /** From a daemon that just started, with any limits that are not negative. */
  lemma CapacityHoldsFromTheStart(ts: seq<Step>, quota: string -> int, max: int)
    requires max >= 0 && forall token :: quota(token) >= 0
    requires IsRun(Empty, ts, max) && IsDisciplined(Empty, ts, quota, max)
    ensures StaysWithin(Empty, ts, quota, max)
  {
    StartIsWithin(quota, max);
    CapacityIsNeverExceeded(Empty, ts, quota, max);
  }

  // ---- where the limits fail ----

  const ONE_CREATED: State := State(1, map["t" := 1], map["b" := Held("t", true, Ready)], map[], {}, map[])

  /** A worker is created on a daemon limited to one, and a hibernated one of an earlier boot is woken by a prompt. */
  const AUTO_WAKE: seq<Step> :=
    [CreateBegins(0, "t", 5), CreateSucceeds(0, "b", Ready), Rehydrates("a", "t", Hibernated), Moves("a", Starting)]

  lemma CreateOne()
    ensures Enabled(Empty, AUTO_WAKE[0])
    ensures var s := Next(Empty, AUTO_WAKE[0], 1);
            Enabled(s, AUTO_WAKE[1]) && Next(s, AUTO_WAKE[1], 1) == ONE_CREATED
  {
    var s := Next(Empty, AUTO_WAKE[0], 1);
    assert s == State(1, map["t" := 1], map[], map[0 := "t"], {}, map[]);
  }

  lemma OneTooMany()
    ensures IsRun(ONE_CREATED, AUTO_WAKE[2..], 1) && !WithinLimit(ONE_CREATED, AUTO_WAKE[2..], 1)
  {
    var ts := AUTO_WAKE[2..];
    assert ts == [AUTO_WAKE[2], AUTO_WAKE[3]] && ts[1..] == [AUTO_WAKE[3]];
    var s := Next(ONE_CREATED, ts[0], 1);
    assert s == ONE_CREATED.(entries := ONE_CREATED.entries["a" := Held("t", false, Hibernated)]);
    var t := Next(s, ts[1], 1);
    assert t.liveTotal == 2;
    LastStepPasses(s, ts[1], 1);
  }

  lemma LastStepPasses(s: State, t: Step, max: int)
    requires Enabled(s, t) && Next(s, t, max).liveTotal > max
    ensures IsRun(s, [t], max) && !WithinLimit(s, [t], max)
  {
    assert [t][1..] == [];
    assert IsRun(Next(s, t, max), [], max) && !WithinLimit(Next(s, t, max), [], max);
  }

  /** Waking by prompting does not go through `wake()`: one worker too many on a daemon limited to one. */
  lemma AutoWakePassesTheLimit()
    ensures IsRun(Empty, AUTO_WAKE, 1) && !WithinLimit(Empty, AUTO_WAKE, 1)
  {
    CreateOne();
    OneTooMany();
    var s := Next(Empty, AUTO_WAKE[0], 1);
    assert AUTO_WAKE[1..][1..] == AUTO_WAKE[2..];
    assert IsRun(s, AUTO_WAKE[1..], 1) && !WithinLimit(s, AUTO_WAKE[1..], 1);
  }

  // ---- creations that throw before their clean-up is armed ----

  ghost function CreationsOf(calls: set<nat>): set<Holder> {
    set c | c in calls :: Creation(c)
  }

  lemma {:induction false} OneHolderEach(calls: set<nat>)
    ensures |CreationsOf(calls)| == |calls|
  {
    if calls != {} {
      var c :| c in calls;
      OneHolderEach(calls - {c});
      assert CreationsOf(calls) == CreationsOf(calls - {c}) + {Creation(c)};
    }
  }

  lemma LostHoldSlots(s: State)
    requires Conserved(s)
    ensures s.liveTotal >= |s.lost|
  {
    OneHolderEach(s.lost);
    assert CreationsOf(s.lost) <= SlotsOf(s).Keys;
    SubsetIsNoLarger(CreationsOf(s.lost), SlotsOf(s).Keys);
  }

  lemma SubsetIsNoLarger<T>(a: set<T>, b: set<T>)
    requires a <= b
    ensures |a| <= |b|
  {
    assert b == a + (b - a);
  }

  lemma {:induction false} LostOnlyGrows(s: State, ts: seq<Step>, max: int)
    requires IsRun(s, ts, max)
    ensures s.lost <= After(s, ts, max).lost
    decreases |ts|
  {
    if ts != [] {
      LostOnlyGrows(Next(s, ts[0], max), ts[1..], max);
    }
  }

  /**
   A creation that throws between reserving and its `try` keeps its slot for good: once as many have done
   so as the limit allows, no creation and no wake of a sleeping worker is ever admitted again.
   */
  lemma LostSlotsStayLost(s: State, ts: seq<Step>, max: int, token: string, tokenMax: int, w: string)
    requires Conserved(s) && IsRun(s, ts, max)
    ensures var r := After(s, ts, max);
            && r.liveTotal >= |s.lost|
            && (|s.lost| >= max ==> !MayReserve(r, token, tokenMax, max))
            && (|s.lost| >= max && w in r.entries && !r.entries[w].live ==> !MayWake(r, w, token, tokenMax, max))
  {
    SlotsAreConserved(s, ts, max);
    LostOnlyGrows(s, ts, max);
    LostHoldSlots(After(s, ts, max));
    SubsetIsNoLarger(s.lost, After(s, ts, max).lost);
  }
}
