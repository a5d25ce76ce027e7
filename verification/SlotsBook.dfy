/**
 The registry without counters: a book of who holds a slot and who is charged for it, with every limit read off its
 size. The counters and flags the program keeps are proved to do what the book says, step by step.
 */
module SlotsBook {
  import opened Wrappers
  import opened Envelopes
  import opened Slots
  import opened SlotsLaws

  datatype Known = Known(owner: string, state: WorkerState)

  datatype Book = Book(
    slots: map<Holder, string>,
    known: map<string, Known>,
    lost: set<nat>,
    waking: map<string, WakePhase>)

  const OWNS_A_PROCESS: set<WorkerState> := {Starting, Ready, Running, RequiresAction}

  /** The calls of `create` that reserved and have neither failed nor published an entry. */
  predicate IsCreating(b: Book, c: nat) {
    Creation(c) in b.slots
  }

  predicate MayBe(b: Book, t: Step) {
    match t
    case CreateBegins(c, _, _) => !IsCreating(b, c)
    case CreateThrows(c) => IsCreating(b, c) && c !in b.lost
    case CreateFails(c) => IsCreating(b, c) && c !in b.lost
    case CreateSucceeds(c, w, _) => IsCreating(b, c) && c !in b.lost && w !in b.known
    case Rehydrates(w, _, _) => w !in b.known
    case WakeBegins(w, _, _) => w in b.known && b.known[w].state == Hibernated
    case Moves(w, _) => w in b.known
    case CloseSettles(w) => w in b.known
    case WakeReturns(w, _) => w in b.known
  }

  /** There is room on the daemon, and within the token's own limit. */
  ghost predicate HasRoom(b: Book, token: string, tokenMax: int, max: int) {
    |b.slots| < max && |ChargedTo(b.slots, token)| < tokenMax
  }

  /** A worker that holds its slot may always wake; the owner's limit binds the owner only. */
  ghost predicate WakeIsAdmitted(b: Book, w: string, caller: string, callerMax: int, max: int)
    requires w in b.known
  {
    var owner := b.known[w].owner;
    || Worker(w) in b.slots
    || HasRoom(b, owner, if caller == owner then callerMax else |b.slots| + 1, max)
  }

  function Taken(b: Book, h: Holder, token: string): Book {
    b.(slots := b.slots[h := token])
  }

  function GivenBack(b: Book, h: Holder): Book {
    b.(slots := b.slots - {h})
  }

  /** What each step does to the book. */
  ghost function Turned(b: Book, t: Step, max: int): Book
    requires MayBe(b, t)
  {
    match t
    case CreateBegins(c, token, tokenMax) =>
      if HasRoom(b, token, tokenMax, max) then Taken(b, Creation(c), token) else b
    case CreateThrows(c) => b.(lost := b.lost + {c})
    case CreateFails(c) => GivenBack(b, Creation(c))
    case CreateSucceeds(c, w, state) =>
      var token := b.slots[Creation(c)];
      Taken(GivenBack(b, Creation(c)), Worker(w), token).(known := b.known[w := Known(token, state)])
    case Rehydrates(w, owner, state) =>
      var more := b.(known := b.known[w := Known(owner, state)]);
      if state in OWNS_A_PROCESS then Taken(more, Worker(w), owner) else more
    case Moves(w, to) =>
      var owner := b.known[w].owner;
      var moved := b.(known := b.known[w := Known(owner, to)]);
      if to == Hibernated then GivenBack(moved, Worker(w))
      else if to in OWNS_A_PROCESS then
        Taken(moved, Worker(w), owner).(waking := if w in b.waking then b.waking[w := StartSeen] else b.waking)
      else moved
    case CloseSettles(w) => GivenBack(b, Worker(w))
    case WakeBegins(w, caller, callerMax) =>
      if WakeIsAdmitted(b, w, caller, callerMax, max)
      then Taken(b, Worker(w), b.known[w].owner).(waking := b.waking[w := Reserved])
      else b
    case WakeReturns(w, failed) =>
      var done := b.(waking := b.waking - {w});
      if failed && b.known[w].state == Hibernated then GivenBack(done, Worker(w)) else done
  }

  // ---- the registry keeps this book ----

  function KnownOf(entries: map<string, Held>): map<string, Known> {
    map w | w in entries :: Known(entries[w].owner, entries[w].state)
  }

  ghost function BookOf(s: State): Book {
    Book(SlotsOf(s), KnownOf(s.entries), s.lost, s.waking)
  }

  lemma ReleasingInBook(s: State, w: string)
    requires w in s.entries
    ensures BookOf(Released(s, w)) == GivenBack(BookOf(s), Worker(w))
  {
    SlotsAfterRelease(s, w);
    assert KnownOf(Released(s, w).entries) == KnownOf(s.entries);
  }

  lemma ReacquiringInBook(s: State, w: string)
    requires w in s.entries
    ensures BookOf(Reacquired(s, w)) == Taken(BookOf(s), Worker(w), s.entries[w].owner)
  {
    SlotsAfterReacquire(s, w);
    assert KnownOf(Reacquired(s, w).entries) == KnownOf(s.entries);
  }

  lemma EntryInBook(s: State, w: string, e: Held)
    requires w !in s.entries
    ensures var more := BookOf(s).(known := KnownOf(s.entries)[w := Known(e.owner, e.state)]);
            BookOf(s.(entries := s.entries[w := e])) == if e.live then Taken(more, Worker(w), e.owner) else more
  {
    SlotsAfterNewEntry(s, s.(entries := s.entries[w := e]), w, e);
    assert KnownOf(s.entries[w := e]) == KnownOf(s.entries)[w := Known(e.owner, e.state)];
  }

  lemma WakingInBook(s: State, waking: map<string, WakePhase>)
    ensures BookOf(s.(waking := waking)) == BookOf(s).(waking := waking)
  {
    SlotsSeeNoCounters(s, s.(waking := waking));
  }

  lemma StateInBook(s: State, w: string, to: WorkerState, waking: map<string, WakePhase>)
    requires w in s.entries
    ensures var g := s.(entries := s.entries[w := s.entries[w].(state := to)], waking := waking);
            BookOf(g) == BookOf(s).(known := KnownOf(s.entries)[w := Known(s.entries[w].owner, to)], waking := waking)
  {
    var g := s.(entries := s.entries[w := s.entries[w].(state := to)], waking := waking);
    SlotsSeeNoCounters(s, g);
    assert KnownOf(g.entries) == KnownOf(s.entries)[w := Known(s.entries[w].owner, to)];
  }

  lemma SlotsTellWho(s: State)
    ensures forall c :: Creation(c) in SlotsOf(s) <==> c in s.creating
    ensures forall c :: c in s.creating ==> SlotsOf(s)[Creation(c)] == s.creating[c]
    ensures forall w :: Worker(w) in SlotsOf(s) <==> w in s.entries && s.entries[w].live
    ensures forall w :: Worker(w) in SlotsOf(s) ==> SlotsOf(s)[Worker(w)] == s.entries[w].owner
  {
  }

  lemma MayBeExactlyWhen(s: State, t: Step)
    ensures Enabled(s, t) <==> MayBe(BookOf(s), t)
  {
    SlotsTellWho(s);
  }

  lemma RoomIsCounted(s: State, token: string, tokenMax: int, max: int)
    requires Conserved(s)
    ensures MayReserve(s, token, tokenMax, max) <==> HasRoom(BookOf(s), token, tokenMax, max)
  {
    assert CountOf(s.perToken, token) == |ChargedTo(SlotsOf(s), token)|;
  }

  lemma ChargedAreSlots(slots: map<Holder, string>, token: string)
    ensures |ChargedTo(slots, token)| <= |slots|
  {
    var rest := slots.Keys - ChargedTo(slots, token);
    assert slots.Keys == ChargedTo(slots, token) + rest;
  }

  lemma WakeIsCounted(s: State, w: string, caller: string, callerMax: int, max: int)
    requires Conserved(s) && w in s.entries
    ensures MayWake(s, w, caller, callerMax, max) <==> WakeIsAdmitted(BookOf(s), w, caller, callerMax, max)
  {
    SlotsTellWho(s);
    ChargedAreSlots(SlotsOf(s), s.entries[w].owner);
    assert CountOf(s.perToken, s.entries[w].owner) == |ChargedTo(SlotsOf(s), s.entries[w].owner)|;
  }

  lemma CreatingKeepsBook(s: State, t: Step, max: int)
    requires Conserved(s) && Enabled(s, t) && MayBe(BookOf(s), t)
    requires t.CreateBegins? || t.CreateThrows? || t.CreateFails?
    ensures BookOf(Next(s, t, max)) == Turned(BookOf(s), t, max)
  {
    SlotsTellWho(s);
    match t
    case CreateBegins(c, token, tokenMax) =>
      RoomIsCounted(s, token, tokenMax, max);
      if MayReserve(s, token, tokenMax, max) {
        SlotsAfterBegin(s, Next(s, t, max), c, token);
      }
    case CreateThrows(c) => SlotsSeeNoCounters(s, Next(s, t, max));
    case CreateFails(c) => SlotsAfterFailure(s, Next(s, t, max), c);
  }

  lemma SucceedingKeepsBook(s: State, c: nat, w: string, state: WorkerState, max: int)
    requires Enabled(s, CreateSucceeds(c, w, state)) && MayBe(BookOf(s), CreateSucceeds(c, w, state))
    ensures BookOf(Next(s, CreateSucceeds(c, w, state), max)) == Turned(BookOf(s), CreateSucceeds(c, w, state), max)
  {
    var token := s.creating[c];
    var between := s.(creating := s.creating - {c});
    SlotsAfterFailure(s, between, c);
    EntryInBook(between, w, Held(token, true, state));
  }

  lemma RehydratingKeepsBook(s: State, w: string, owner: string, state: WorkerState, max: int)
    requires Enabled(s, Rehydrates(w, owner, state)) && MayBe(BookOf(s), Rehydrates(w, owner, state))
    ensures BookOf(Next(s, Rehydrates(w, owner, state), max)) == Turned(BookOf(s), Rehydrates(w, owner, state), max)
  {
    var g := s.(entries := s.entries[w := Held(owner, false, state)]);
    EntryInBook(s, w, Held(owner, false, state));
    if Occupies(state) {
      ReacquiringInBook(g, w);
    }
  }

  lemma MovingKeepsBook(s: State, w: string, to: WorkerState, max: int)
    requires Enabled(s, Moves(w, to)) && MayBe(BookOf(s), Moves(w, to))
    ensures BookOf(Next(s, Moves(w, to), max)) == Turned(BookOf(s), Moves(w, to), max)
  {
    var waking := if w in s.waking && Occupies(to) then s.waking[w := StartSeen] else s.waking;
    var g := s.(entries := s.entries[w := s.entries[w].(state := to)], waking := waking);
    StateInBook(s, w, to, waking);
    if to == Hibernated {
      ReleasingInBook(g, w);
    } else if Occupies(to) {
      ReacquiringInBook(g, w);
    }
  }

  lemma WakeBeginKeepsBook(s: State, w: string, caller: string, callerMax: int, max: int)
    requires Conserved(s) && Enabled(s, WakeBegins(w, caller, callerMax))
    requires MayBe(BookOf(s), WakeBegins(w, caller, callerMax))
    ensures BookOf(Next(s, WakeBegins(w, caller, callerMax), max)) ==
            Turned(BookOf(s), WakeBegins(w, caller, callerMax), max)
  {
    WakeIsCounted(s, w, caller, callerMax, max);
    if MayWake(s, w, caller, callerMax, max) {
      ReacquiringInBook(s, w);
      WakingInBook(Reacquired(s, w), s.waking[w := Reserved]);
    }
  }

  lemma WakeReturnKeepsBook(s: State, w: string, failed: bool, max: int)
    requires Enabled(s, WakeReturns(w, failed)) && MayBe(BookOf(s), WakeReturns(w, failed))
    ensures BookOf(Next(s, WakeReturns(w, failed), max)) == Turned(BookOf(s), WakeReturns(w, failed), max)
  {
    var g := if failed && s.entries[w].state == Hibernated then Released(s, w) else s;
    if failed && s.entries[w].state == Hibernated {
      ReleasingInBook(s, w);
    }
    WakingInBook(g, s.waking - {w});
  }

  /** Every step of the registry is the step of the book: which slots it takes, which it gives back, whom it charges. */
  lemma StepKeepsBook(s: State, t: Step, max: int)
    requires Conserved(s) && Enabled(s, t)
    ensures MayBe(BookOf(s), t) && BookOf(Next(s, t, max)) == Turned(BookOf(s), t, max)
  {
    MayBeExactlyWhen(s, t);
    match t
    case CreateBegins(_, _, _) => CreatingKeepsBook(s, t, max);
    case CreateThrows(_) => CreatingKeepsBook(s, t, max);
    case CreateFails(_) => CreatingKeepsBook(s, t, max);
    case CreateSucceeds(c, w, state) => SucceedingKeepsBook(s, c, w, state, max);
    case Rehydrates(w, owner, state) => RehydratingKeepsBook(s, w, owner, state, max);
    case Moves(w, to) => MovingKeepsBook(s, w, to, max);
    case CloseSettles(w) => ReleasingInBook(s, w);
    case WakeBegins(w, caller, callerMax) => WakeBeginKeepsBook(s, w, caller, callerMax, max);
    case WakeReturns(w, failed) => WakeReturnKeepsBook(s, w, failed, max);
  }

  // ---- whole runs ----

  ghost predicate IsBookRun(b: Book, ts: seq<Step>, max: int)
    decreases |ts|
  {
    ts == [] || (MayBe(b, ts[0]) && IsBookRun(Turned(b, ts[0], max), ts[1..], max))
  }

  ghost function BookAfter(b: Book, ts: seq<Step>, max: int): Book
    requires IsBookRun(b, ts, max)
    decreases |ts|
  {
    if ts == [] then b else BookAfter(Turned(b, ts[0], max), ts[1..], max)
  }

  /** Main result: whatever the interleaving, the registry's slots and workers are the book's. */
  lemma {:induction false} RegistryKeepsTheBook(s: State, ts: seq<Step>, max: int)
    requires Conserved(s) && IsRun(s, ts, max)
    ensures IsBookRun(BookOf(s), ts, max) && BookOf(After(s, ts, max)) == BookAfter(BookOf(s), ts, max)
    decreases |ts|
  {
    if ts != [] {
      StepKeepsBook(s, ts[0], max);
      StepKeeps(s, ts[0], max);
      RegistryKeepsTheBook(Next(s, ts[0], max), ts[1..], max);
    }
  }

  /** After any run, who may create and who may wake is read off the slots in use. */
  lemma AdmissionIsTheBooks(s: State, ts: seq<Step>, max: int, token: string, tokenMax: int, w: string)
    requires Conserved(s) && IsRun(s, ts, max) && w in After(s, ts, max).entries
    ensures IsBookRun(BookOf(s), ts, max)
    ensures var r, b := After(s, ts, max), BookAfter(BookOf(s), ts, max);
            && w in b.known
            && (MayReserve(r, token, tokenMax, max) <==> HasRoom(b, token, tokenMax, max))
            && (MayWake(r, w, token, tokenMax, max) <==> WakeIsAdmitted(b, w, token, tokenMax, max))
  {
    RegistryKeepsTheBook(s, ts, max);
    SlotsAreConserved(s, ts, max);
    RoomIsCounted(After(s, ts, max), token, tokenMax, max);
    WakeIsCounted(After(s, ts, max), w, token, tokenMax, max);
  }

  // ---- sleepers ----

  /** A sleeping worker holds a slot only while a `wake()` has it reserved. */
  predicate IsFree(b: Book, w: string) {
    w in b.known && b.known[w].state == Hibernated && Worker(w) in b.slots ==> w in b.waking && b.waking[w] == Reserved
  }

  ghost predicate SleepersAreFree(b: Book) {
    forall w :: IsFree(b, w)
  }

  /** A worker is published asleep, or a `wake()` ends well and leaves the worker it reserved for asleep. */
  predicate LeavesAsleep(b: Book, t: Step) {
    match t
    case CreateSucceeds(_, w, state) => state == Hibernated && !(w in b.waking && b.waking[w] == Reserved)
    case WakeReturns(w, failed) =>
      !failed && w in b.known && b.known[w].state == Hibernated && Worker(w) in b.slots
    case _ => false
  }

  /** The worker that a step is about, if it is about one. */
  function Touched(t: Step): Option<string> {
    match t
    case CreateSucceeds(_, w, _) => Some(w)
    case Rehydrates(w, _, _) => Some(w)
    case Moves(w, _) => Some(w)
    case CloseSettles(w) => Some(w)
    case WakeBegins(w, _, _) => Some(w)
    case WakeReturns(w, _) => Some(w)
    case _ => None
  }

  lemma OthersSleepOn(b: Book, t: Step, max: int, w: string)
    requires MayBe(b, t) && Touched(t) != Some(w)
    ensures IsFree(Turned(b, t, max), w) <==> IsFree(b, w)
  {
  }

  lemma TouchedSleepsExactlyWhen(b: Book, t: Step, max: int)
    requires MayBe(b, t) && Touched(t).Some? && IsFree(b, Touched(t).value)
    requires t.Rehydrates? ==> Worker(t.worker) !in b.slots
    ensures IsFree(Turned(b, t, max), Touched(t).value) <==> !LeavesAsleep(b, t)
  {
    match t
    case WakeBegins(w, caller, callerMax) =>
    case WakeReturns(w, failed) =>
    case _ =>
  }

  lemma StepFreesSleepersExactlyWhen(b: Book, t: Step, max: int)
    requires MayBe(b, t) && SleepersAreFree(b)
    requires t.Rehydrates? ==> Worker(t.worker) !in b.slots
    ensures SleepersAreFree(Turned(b, t, max)) <==> !LeavesAsleep(b, t)
  {
    forall w | Touched(t) != Some(w)
      ensures IsFree(Turned(b, t, max), w)
    {
      assert IsFree(b, w);
      OthersSleepOn(b, t, max, w);
    }
    if Touched(t).Some? {
      assert IsFree(b, Touched(t).value);
      TouchedSleepsExactlyWhen(b, t, max);
    }
  }

  ghost predicate NeverLeavesAsleep(b: Book, ts: seq<Step>, max: int)
    requires IsBookRun(b, ts, max)
    decreases |ts|
  {
    ts == [] || (!LeavesAsleep(b, ts[0]) && NeverLeavesAsleep(Turned(b, ts[0], max), ts[1..], max))
  }

  ghost predicate SleepersStayFree(b: Book, ts: seq<Step>, max: int)
    requires IsBookRun(b, ts, max)
    decreases |ts|
  {
    SleepersAreFree(b) && (ts == [] || SleepersStayFree(Turned(b, ts[0], max), ts[1..], max))
  }

  /** Over a whole run sleepers hold no slot but a reserved one, if and only if no step leaves a holder asleep. */
  lemma {:induction false} SleepersAreFreeExactlyWhen(s: State, ts: seq<Step>, max: int)
    requires Conserved(s) && IsRun(s, ts, max) && SleepersAreFree(BookOf(s))
    ensures IsBookRun(BookOf(s), ts, max)
    ensures SleepersStayFree(BookOf(s), ts, max) <==> NeverLeavesAsleep(BookOf(s), ts, max)
    decreases |ts|
  {
    RegistryKeepsTheBook(s, ts, max);
    if ts != [] {
      var next := Next(s, ts[0], max);
      StepKeepsBook(s, ts[0], max);
      StepKeeps(s, ts[0], max);
      SlotsTellWho(s);
      StepFreesSleepersExactlyWhen(BookOf(s), ts[0], max);
      if SleepersAreFree(BookOf(next)) {
        SleepersAreFreeExactlyWhen(next, ts[1..], max);
      }
    }
  }

  /** A row is rehydrated asleep, and a `wake()` reserves for it and ends well without the worker having started. */
  const WOKEN_ASLEEP: seq<Step> := [Rehydrates("w", "t", Hibernated), WakeBegins("w", "t", 1), WakeReturns("w", false)]

  const HELD_ASLEEP: State := State(1, map["t" := 1], map["w" := Held("t", true, Hibernated)], map[], {}, map[])

  lemma ReservedAsleep()
    ensures Enabled(Empty, WOKEN_ASLEEP[0])
    ensures var s := Next(Empty, WOKEN_ASLEEP[0], 1);
            Enabled(s, WOKEN_ASLEEP[1]) && Next(s, WOKEN_ASLEEP[1], 1) == HELD_ASLEEP.(waking := map["w" := Reserved])
  {
    var s := Next(Empty, WOKEN_ASLEEP[0], 1);
    assert s == State(0, map[], map["w" := Held("t", false, Hibernated)], map[], {}, map[]);
  }

  /** Then the sleeper keeps the slot. */
  lemma SleeperKeepsSlot()
    ensures IsRun(Empty, WOKEN_ASLEEP, 1) && After(Empty, WOKEN_ASLEEP, 1) == HELD_ASLEEP
    ensures !SleepersAreFree(BookOf(HELD_ASLEEP))
  {
    ReservedAsleep();
    var one := Next(Empty, WOKEN_ASLEEP[0], 1);
    var two := Next(one, WOKEN_ASLEEP[1], 1);
    assert Next(two, WOKEN_ASLEEP[2], 1) == HELD_ASLEEP;
    RunOfOneMore(two, WOKEN_ASLEEP[2], [], 1);
    RunOfOneMore(one, WOKEN_ASLEEP[1], [WOKEN_ASLEEP[2]] + [], 1);
    RunOfOneMore(Empty, WOKEN_ASLEEP[0], [WOKEN_ASLEEP[1]] + ([WOKEN_ASLEEP[2]] + []), 1);
    assert WOKEN_ASLEEP == [WOKEN_ASLEEP[0]] + ([WOKEN_ASLEEP[1]] + ([WOKEN_ASLEEP[2]] + []));
    SlotsTellWho(HELD_ASLEEP);
    assert !IsFree(BookOf(HELD_ASLEEP), "w");
  }
}
