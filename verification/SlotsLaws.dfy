/**
 What the registry's counters mean on every interleaving, and exactly when they pass a limit.
 */
module SlotsLaws {
  import opened Wrappers
  import opened Envelopes
  import opened Slots

  /** What holds a slot: a live entry, or a creation that reserved and has no entry yet. */
  datatype Holder = Worker(id: string) | Creation(call: nat)

  ghost function Claims(s: State): set<Holder> {
    (set w | w in s.entries && s.entries[w].live :: Worker(w)) + (set c | c in s.creating :: Creation(c))
  }

  ghost function ChargeOf(s: State, h: Holder): string {
    match h
    case Worker(w) => if w in s.entries then s.entries[w].owner else ""
    case Creation(c) => if c in s.creating then s.creating[c] else ""
  }

  /** Every slot in use, with the token it is charged to. */
  ghost function SlotsOf(s: State): map<Holder, string> {
    map h | h in Claims(s) :: ChargeOf(s, h)
  }

  ghost function ChargedTo(slots: map<Holder, string>, token: string): set<Holder> {
    set h | h in slots && slots[h] == token
  }

  ghost function Total(m: map<string, int>): int
    decreases |m|
  {
    if m == map[] then 0 else
      var k :| k in m;
      m[k] + Total(m - {k})
  }

  ghost predicate PerTokenCounts(perToken: map<string, int>, slots: map<Holder, string>) {
    && (forall t :: CountOf(perToken, t) == |ChargedTo(slots, t)|)
    && (forall t :: t in perToken ==> perToken[t] > 0)
  }

  ghost predicate Counted(liveTotal: int, perToken: map<string, int>, slots: map<Holder, string>) {
    && liveTotal == |slots|
    && liveTotal == Total(perToken)
    && PerTokenCounts(perToken, slots)
  }

  /** The accounting is right, and a creation that threw early still holds what it reserved. */
  ghost predicate Conserved(s: State) {
    Counted(s.liveTotal, s.perToken, SlotsOf(s)) && s.lost <= s.creating.Keys
  }

  // ---- the sum of the per-token counts ----

  lemma {:induction false} TotalTakesOut(m: map<string, int>, k: string)
    requires k in m
    ensures Total(m) == m[k] + Total(m - {k})
    decreases |m|
  {
    var c :| c in m && Total(m) == m[c] + Total(m - {c});
    if c != k {
      TotalTakesOut(m - {c}, k);
      TotalTakesOut(m - {k}, c);
      assert m - {c} - {k} == m - {k} - {c};
    }
  }

  lemma TotalPuts(m: map<string, int>, k: string, n: int)
    ensures Total(m[k := n]) == Total(m) - CountOf(m, k) + n
  {
    TotalTakesOut(m[k := n], k);
    if k in m {
      TotalTakesOut(m, k);
      assert m[k := n] - {k} == m - {k};
    } else {
      assert m[k := n] - {k} == m;
    }
  }

  lemma DroppingTotals(m: map<string, int>, k: string)
    requires k in m && m[k] > 0
    ensures Total(Dropped(m, k)) == Total(m) - 1
  {
    if m[k] <= 1 {
      TotalTakesOut(m, k);
    } else {
      TotalPuts(m, k, m[k] - 1);
    }
  }

  // ---- one slot taken or given back ----

  lemma OneMoreCharged(slots: map<Holder, string>, h: Holder, token: string, t: string)
    requires h !in slots
    ensures |ChargedTo(slots[h := token], t)| == |ChargedTo(slots, t)| + if t == token then 1 else 0
  {
    assert ChargedTo(slots[h := token], t) == ChargedTo(slots, t) + if t == token then {h} else {};
  }

  lemma BumpingCounts(perToken: map<string, int>, slots: map<Holder, string>, h: Holder, token: string)
    requires PerTokenCounts(perToken, slots) && h !in slots
    ensures PerTokenCounts(Bumped(perToken, token), slots[h := token])
  {
    forall t
      ensures CountOf(Bumped(perToken, token), t) == |ChargedTo(slots[h := token], t)|
    {
      OneMoreCharged(slots, h, token, t);
    }
  }

  lemma DroppingCounts(perToken: map<string, int>, slots: map<Holder, string>, h: Holder)
    requires PerTokenCounts(perToken, slots) && h in slots
    ensures CountOf(perToken, slots[h]) > 0
    ensures PerTokenCounts(Dropped(perToken, slots[h]), slots - {h})
  {
    var fewer := slots - {h};
    assert fewer[h := slots[h]] == slots;
    OneMoreCharged(fewer, h, slots[h], slots[h]);
    forall t
      ensures CountOf(Dropped(perToken, slots[h]), t) == |ChargedTo(fewer, t)|
    {
      OneMoreCharged(fewer, h, slots[h], t);
    }
  }

  lemma TakingCounts(liveTotal: int, perToken: map<string, int>, slots: map<Holder, string>, h: Holder, token: string)
    requires Counted(liveTotal, perToken, slots) && h !in slots
    ensures Counted(liveTotal + 1, Bumped(perToken, token), slots[h := token])
  {
    BumpingCounts(perToken, slots, h, token);
    TotalPuts(perToken, token, CountOf(perToken, token) + 1);
    assert slots[h := token].Keys == slots.Keys + {h};
  }

  /** The clamp at zero is never what decides: there is always a slot to give back. */
  lemma GivingCounts(liveTotal: int, perToken: map<string, int>, slots: map<Holder, string>, h: Holder)
    requires Counted(liveTotal, perToken, slots) && h in slots
    ensures liveTotal > 0 && CountOf(perToken, slots[h]) > 0
    ensures Counted(liveTotal - 1, Dropped(perToken, slots[h]), slots - {h})
  {
    DroppingCounts(perToken, slots, h);
    DroppingTotals(perToken, slots[h]);
    assert slots.Keys == (slots - {h}).Keys + {h};
  }

  lemma SlotsAfterLive(s: State, w: string, live: bool)
    requires w in s.entries
    ensures SlotsOf(WithLive(s, w, live)) ==
            if live then SlotsOf(s)[Worker(w) := s.entries[w].owner] else SlotsOf(s) - {Worker(w)}
  {
    assert Claims(WithLive(s, w, live)) == if live then Claims(s) + {Worker(w)} else Claims(s) - {Worker(w)};
  }

  /** Slots are read off who owns what and which entries are live; states and counters do not matter. */
  lemma SlotsSeeNoCounters(s: State, r: State)
    requires s.entries.Keys == r.entries.Keys && s.creating == r.creating
    requires forall w :: w in s.entries ==> r.entries[w] == s.entries[w].(state := r.entries[w].state)
    ensures SlotsOf(s) == SlotsOf(r)
  {
    assert Claims(s) == Claims(r);
  }

  lemma SlotsAfterRelease(s: State, w: string)
    requires w in s.entries
    ensures SlotsOf(Released(s, w)) == SlotsOf(s) - {Worker(w)}
    ensures s.entries[w].live <==> Worker(w) in SlotsOf(s)
    ensures s.entries[w].live ==> SlotsOf(s)[Worker(w)] == s.entries[w].owner
  {
    SlotsAfterLive(s, w, false);
    if s.entries[w].live {
      SlotsSeeNoCounters(Released(s, w), WithLive(s, w, false));
    } else {
      assert SlotsOf(s) - {Worker(w)} == SlotsOf(s);
    }
  }

  lemma ReleasingConserves(s: State, w: string)
    requires w in s.entries && Conserved(s)
    ensures Conserved(Released(s, w))
  {
    SlotsAfterRelease(s, w);
    if s.entries[w].live {
      GivingCounts(s.liveTotal, s.perToken, SlotsOf(s), Worker(w));
    }
  }

  lemma SlotsAfterReacquire(s: State, w: string)
    requires w in s.entries
    ensures SlotsOf(Reacquired(s, w)) == SlotsOf(s)[Worker(w) := s.entries[w].owner]
    ensures s.entries[w].live <==> Worker(w) in SlotsOf(s)
  {
    SlotsAfterLive(s, w, true);
    if !s.entries[w].live {
      SlotsSeeNoCounters(Reacquired(s, w), WithLive(s, w, true));
    } else {
      assert SlotsOf(s)[Worker(w) := s.entries[w].owner] == SlotsOf(s);
    }
  }

  lemma ReacquiringConserves(s: State, w: string)
    requires w in s.entries && Conserved(s)
    ensures Conserved(Reacquired(s, w))
  {
    SlotsAfterReacquire(s, w);
    if !s.entries[w].live {
      TakingCounts(s.liveTotal, s.perToken, SlotsOf(s), Worker(w), s.entries[w].owner);
    }
  }

  // ---- every step, every run ----

  lemma SlotsAfterBegin(s: State, r: State, c: nat, token: string)
    requires c !in s.creating && r.entries == s.entries && r.creating == s.creating[c := token]
    ensures Creation(c) !in SlotsOf(s) && SlotsOf(r) == SlotsOf(s)[Creation(c) := token]
  {
    assert Claims(r) == Claims(s) + {Creation(c)};
  }

  lemma SlotsAfterFailure(s: State, r: State, c: nat)
    requires c in s.creating && r.entries == s.entries && r.creating == s.creating - {c}
    ensures Creation(c) in SlotsOf(s) && SlotsOf(s)[Creation(c)] == s.creating[c]
    ensures SlotsOf(r) == SlotsOf(s) - {Creation(c)}
  {
    assert Claims(r) == Claims(s) - {Creation(c)};
  }

  lemma ClaimsAfterNewEntry(s: State, r: State, w: string, e: Held)
    requires w !in s.entries && r.creating == s.creating && r.entries == s.entries[w := e]
    ensures Worker(w) !in Claims(s) && Claims(r) == if e.live then Claims(s) + {Worker(w)} else Claims(s)
    ensures ChargeOf(r, Worker(w)) == e.owner && forall h :: h in Claims(s) ==> ChargeOf(r, h) == ChargeOf(s, h)
  {
  }

  lemma SlotsAfterNewEntry(s: State, r: State, w: string, e: Held)
    requires w !in s.entries && r.creating == s.creating && r.entries == s.entries[w := e]
    ensures Worker(w) !in SlotsOf(s)
    ensures SlotsOf(r) == if e.live then SlotsOf(s)[Worker(w) := e.owner] else SlotsOf(s)
  {
    ClaimsAfterNewEntry(s, r, w, e);
  }

  lemma BeginKeeps(s: State, c: nat, token: string, tokenMax: int, max: int)
    requires Conserved(s) && Enabled(s, CreateBegins(c, token, tokenMax))
    ensures Conserved(Next(s, CreateBegins(c, token, tokenMax), max))
  {
    if MayReserve(s, token, tokenMax, max) {
      SlotsAfterBegin(s, TookSlot(s, token).(creating := s.creating[c := token]), c, token);
      TakingCounts(s.liveTotal, s.perToken, SlotsOf(s), Creation(c), token);
    }
  }

  lemma FailureKeeps(s: State, c: nat, max: int)
    requires Conserved(s) && Enabled(s, CreateFails(c))
    ensures Conserved(Next(s, CreateFails(c), max))
  {
    SlotsAfterFailure(s, GaveSlot(s, s.creating[c]).(creating := s.creating - {c}), c);
    GivingCounts(s.liveTotal, s.perToken, SlotsOf(s), Creation(c));
  }

  lemma BackAndForth(perToken: map<string, int>, token: string)
    requires CountOf(perToken, token) > 0
    ensures Bumped(Dropped(perToken, token), token) == perToken
  {
    assert CountOf(Dropped(perToken, token), token) == CountOf(perToken, token) - 1;
  }

  lemma HandedOver(liveTotal: int, perToken: map<string, int>, slots: map<Holder, string>, from: Holder, to: Holder)
    requires Counted(liveTotal, perToken, slots) && from in slots && to !in slots
    ensures Counted(liveTotal, perToken, (slots - {from})[to := slots[from]])
  {
    GivingCounts(liveTotal, perToken, slots, from);
    TakingCounts(liveTotal - 1, Dropped(perToken, slots[from]), slots - {from}, to, slots[from]);
    BackAndForth(perToken, slots[from]);
  }

  /** The reservation becomes the entry: no counter moves, the slot changes hands. */
  lemma HandoverKeeps(s: State, c: nat, w: string, state: WorkerState, max: int)
    requires Conserved(s) && Enabled(s, CreateSucceeds(c, w, state))
    ensures Conserved(Next(s, CreateSucceeds(c, w, state), max))
  {
    var token := s.creating[c];
    var between := s.(creating := s.creating - {c});
    SlotsAfterFailure(s, between, c);
    SlotsAfterNewEntry(between, Next(s, CreateSucceeds(c, w, state), max), w, Held(token, true, state));
    assert Worker(w) !in SlotsOf(s);
    HandedOver(s.liveTotal, s.perToken, SlotsOf(s), Creation(c), Worker(w));
  }

  lemma EntryKeeps(s: State, t: Step, max: int)
    requires Conserved(s) && Enabled(s, t) && (t.Rehydrates? || t.Moves? || t.CloseSettles?)
    ensures Conserved(Next(s, t, max))
  {
    match t
    case Rehydrates(w, owner, state) =>
      var g := s.(entries := s.entries[w := Held(owner, false, state)]);
      SlotsAfterNewEntry(s, g, w, Held(owner, false, state));
      if Occupies(state) { ReacquiringConserves(g, w); }
    case Moves(w, to) =>
      var g := s.(entries := s.entries[w := s.entries[w].(state := to)],
                  waking := if w in s.waking && Occupies(to) then s.waking[w := StartSeen] else s.waking);
      SlotsSeeNoCounters(s, g);
      if to == Hibernated {
        ReleasingConserves(g, w);
      } else if Occupies(to) {
        ReacquiringConserves(g, w);
      }
    case CloseSettles(w) => ReleasingConserves(s, w);
  }

  lemma WakingIsNotCounted(s: State, waking: map<string, WakePhase>)
    requires Conserved(s)
    ensures Conserved(s.(waking := waking))
  {
    SlotsSeeNoCounters(s, s.(waking := waking));
  }

  lemma WakeBeginKeeps(s: State, w: string, caller: string, callerMax: int, max: int)
    requires Conserved(s) && Enabled(s, WakeBegins(w, caller, callerMax))
    ensures Conserved(Next(s, WakeBegins(w, caller, callerMax), max))
  {
    ReacquiringConserves(s, w);
    var g := ReservedForWake(s, w, caller, callerMax, max);
    WakingIsNotCounted(g, g.waking[w := Reserved]);
  }

  lemma WakeReturnKeeps(s: State, w: string, failed: bool, max: int)
    requires Conserved(s) && Enabled(s, WakeReturns(w, failed))
    ensures Conserved(Next(s, WakeReturns(w, failed), max))
  {
    ReleasingConserves(s, w);
    var g := if failed && s.entries[w].state == Hibernated then Released(s, w) else s;
    WakingIsNotCounted(g, g.waking - {w});
  }

  lemma StepKeeps(s: State, t: Step, max: int)
    requires Conserved(s) && Enabled(s, t)
    ensures Conserved(Next(s, t, max))
  {
    match t
    case CreateBegins(c, token, tokenMax) => BeginKeeps(s, c, token, tokenMax, max);
    case CreateThrows(c) => SlotsSeeNoCounters(s, Next(s, t, max));
    case CreateFails(c) => FailureKeeps(s, c, max);
    case CreateSucceeds(c, w, state) => HandoverKeeps(s, c, w, state, max);
    case Rehydrates(_, _, _) => EntryKeeps(s, t, max);
    case Moves(_, _) => EntryKeeps(s, t, max);
    case CloseSettles(_) => EntryKeeps(s, t, max);
    case WakeBegins(w, caller, callerMax) => WakeBeginKeeps(s, w, caller, callerMax, max);
    case WakeReturns(w, failed) => WakeReturnKeeps(s, w, failed, max);
  }

  lemma EmptyIsConserved()
    ensures Conserved(Empty)
  {
    assert SlotsOf(Empty) == map[];
    forall t ensures ChargedTo(SlotsOf(Empty), t) == {} {}
  }

  /**
   Conservation on every interleaving: after any run `liveTotal` is the number of slots in use and the
   sum of `perToken`, and `perToken` counts for each token exactly its live entries and its creations
   that still hold a reservation, with no zero stored.
   */
  lemma {:induction false} SlotsAreConserved(s: State, ts: seq<Step>, max: int)
    requires Conserved(s) && IsRun(s, ts, max)
    ensures Conserved(After(s, ts, max))
    decreases |ts|
  {
    if ts != [] {
      StepKeeps(s, ts[0], max);
      SlotsAreConserved(Next(s, ts[0], max), ts[1..], max);
    }
  }

  lemma RunOfOneMore(s: State, t: Step, ts: seq<Step>, max: int)
    requires Enabled(s, t) && IsRun(Next(s, t, max), ts, max)
    ensures IsRun(s, [t] + ts, max) && After(s, [t] + ts, max) == After(Next(s, t, max), ts, max)
  {
    assert ([t] + ts)[1..] == ts;
  }

  // ---- a creation that fails once its entry is published ----

  /**
   What the program's clean-up would leave if something threw between publishing the new entry and returning it:
   the reservation is released although the live entry now holds it.
   */
  function FailedLate(s: State, c: nat, w: string, state: WorkerState, max: int): State
    requires Enabled(s, CreateSucceeds(c, w, state))
  {
    GaveSlot(Next(s, CreateSucceeds(c, w, state), max), s.creating[c])
  }

  /** One slot too few is counted from then on: the accounting is right only while nothing throws there. */
  lemma LateFailureMiscounts(s: State, c: nat, w: string, state: WorkerState, max: int)
    requires Conserved(s) && Enabled(s, CreateSucceeds(c, w, state))
    ensures var r := FailedLate(s, c, w, state, max);
            && r.entries[w].live && r.liveTotal == |SlotsOf(r)| - 1
            && CountOf(r.perToken, s.creating[c]) == |ChargedTo(SlotsOf(r), s.creating[c])| - 1
            && !Conserved(r)
  {
    var published := Next(s, CreateSucceeds(c, w, state), max);
    var r := FailedLate(s, c, w, state, max);
    var token := s.creating[c];
    HandoverKeeps(s, c, w, state, max);
    PublishedHolds(published, w);
    SlotsSeeNoCounters(published, r);
    GivingCounts(published.liveTotal, published.perToken, SlotsOf(published), Worker(w));
    DroppedByOne(published.perToken, token);
  }

  lemma PublishedHolds(s: State, w: string)
    requires w in s.entries && s.entries[w].live
    ensures Worker(w) in SlotsOf(s) && SlotsOf(s)[Worker(w)] == s.entries[w].owner
  {
    SlotsAfterRelease(s, w);
  }

  lemma DroppedByOne(perToken: map<string, int>, token: string)
    requires CountOf(perToken, token) > 0
    ensures CountOf(Dropped(perToken, token), token) == CountOf(perToken, token) - 1
  {
  }
}
