/**
 Creations that throw between reserving their slot and arming their clean-up: what they hold is never given back,
 and exactly when that keeps the daemon from ever admitting a token's creations again.
 */
module SlotsLost {
  import opened Wrappers
  import opened Envelopes
  import opened Slots
  import opened SlotsLaws
  import opened SlotsCapacity

  /** The lost creations that were charged to the token. */
  ghost function LostOf(s: State, token: string): set<nat> {
    set c | c in s.lost && c in s.creating && s.creating[c] == token
  }

  /** Some course of events leads to a state in which the token's next creation is admitted. */
  ghost predicate CanAdmitAgain(s: State, max: int, token: string, tokenMax: int) {
    exists ts :: IsRun(s, ts, max) && MayReserve(After(s, ts, max), token, tokenMax, max)
  }

  // ---- what is lost stays charged ----

  lemma {:induction false} LostStaysCharged(s: State, ts: seq<Step>, max: int, c: nat)
    requires IsRun(s, ts, max) && c in s.lost && c in s.creating
    ensures var r := After(s, ts, max); c in r.lost && c in r.creating && r.creating[c] == s.creating[c]
    decreases |ts|
  {
    if ts != [] {
      OneStepKeepsLost(s, ts[0], max, c);
      LostStaysCharged(Next(s, ts[0], max), ts[1..], max, c);
    }
  }

  lemma OneStepKeepsLost(s: State, t: Step, max: int, c: nat)
    requires Enabled(s, t) && c in s.lost && c in s.creating
    ensures var r := Next(s, t, max); c in r.lost && c in r.creating && r.creating[c] == s.creating[c]
  {
    match t
    case CreateBegins(_, _, _) =>
    case CreateFails(_) =>
    case CreateSucceeds(_, _, _) =>
    case _ =>
  }

  /** The token's count is never below its own lost creations. */
  lemma LostAreCounted(s: State, token: string)
    requires Conserved(s)
    ensures s.liveTotal >= |s.lost| && CountOf(s.perToken, token) >= |LostOf(s, token)|
  {
    LostHoldSlots(s);
    OneHolderEach(LostOf(s, token));
    assert CreationsOf(LostOf(s, token)) <= ChargedTo(SlotsOf(s), token);
    SubsetIsNoLarger(CreationsOf(LostOf(s, token)), ChargedTo(SlotsOf(s), token));
  }

  lemma AdmissionLeavesRoom(s: State, ts: seq<Step>, max: int, token: string, tokenMax: int)
    requires Conserved(s) && IsRun(s, ts, max) && MayReserve(After(s, ts, max), token, tokenMax, max)
    ensures |s.lost| < max && |LostOf(s, token)| < tokenMax
  {
    var r := After(s, ts, max);
    SlotsAreConserved(s, ts, max);
    LostAreCounted(r, token);
    LostOnlyGrows(s, ts, max);
    SubsetIsNoLarger(s.lost, r.lost);
    forall c | c in LostOf(s, token)
      ensures c in LostOf(r, token)
    {
      LostStaysCharged(s, ts, max, c);
    }
    SubsetIsNoLarger(LostOf(s, token), LostOf(r, token));
  }

  // ---- everything else can come back ----

  /** Nothing is live and nothing is under way but what is lost. */
  predicate IsDrained(s: State) {
    (forall w :: w in s.entries ==> !s.entries[w].live) && s.creating.Keys <= s.lost
  }

  /** Closing a live worker, or failing a creation whose clean-up is armed, gives one slot back and loses nothing. */
  lemma OneGivenBack(s: State, t: Step, max: int)
    requires Conserved(s) && Enabled(s, t)
    requires (t.CloseSettles? && s.entries[t.worker].live) || t.CreateFails?
    ensures var r := Next(s, t, max);
            && Conserved(r) && 0 <= r.liveTotal < s.liveTotal && r.lost == s.lost
            && forall token :: LostOf(r, token) == LostOf(s, token)
  {
    var r := Next(s, t, max);
    StepKeeps(s, t, max);
    CountsAreNatural(r, "");
    SomethingHeld(s, t);
    forall token
      ensures LostOf(r, token) == LostOf(s, token)
    {
      NoneOfTheLostGoes(s, t, max, token);
    }
  }

  lemma NoneOfTheLostGoes(s: State, t: Step, max: int, token: string)
    requires Enabled(s, t) && (t.CloseSettles? || t.CreateFails?)
    ensures LostOf(Next(s, t, max), token) == LostOf(s, token)
  {
  }

  lemma SomethingHeld(s: State, t: Step)
    requires Conserved(s) && Enabled(s, t)
    requires (t.CloseSettles? && s.entries[t.worker].live) || t.CreateFails?
    ensures s.liveTotal > 0
  {
    var h := if t.CloseSettles? then Worker(t.worker) else Creation(t.call);
    assert h in SlotsOf(s);
    GivingCounts(s.liveTotal, s.perToken, SlotsOf(s), h);
  }

  lemma {:induction false} DrainingRun(s: State, max: int) returns (ts: seq<Step>)
    requires Conserved(s) && s.liveTotal >= 0
    ensures IsRun(s, ts, max)
    ensures var r := After(s, ts, max);
            IsDrained(r) && Conserved(r) && r.lost == s.lost && forall token :: LostOf(r, token) == LostOf(s, token)
    decreases s.liveTotal
  {
    var t: Step;
    if w :| w in s.entries && s.entries[w].live {
      t := CloseSettles(w);
    } else if c :| c in s.creating && c !in s.lost {
      t := CreateFails(c);
    } else {
      return [];
    }
    OneGivenBack(s, t, max);
    var rest := DrainingRun(Next(s, t, max), max);
    RunOfOneMore(s, t, rest, max);
    ts := [t] + rest;
  }

  /** A drained daemon counts its lost creations and nothing else. */
  lemma DrainedCountsTheLost(s: State, token: string)
    requires Conserved(s) && IsDrained(s)
    ensures s.liveTotal == |s.lost| && CountOf(s.perToken, token) == |LostOf(s, token)|
  {
    assert SlotsOf(s).Keys == CreationsOf(s.lost);
    OneHolderEach(s.lost);
    assert ChargedTo(SlotsOf(s), token) == CreationsOf(LostOf(s, token));
    OneHolderEach(LostOf(s, token));
  }

  /**
   Main result: a token's creations can be admitted again, by some course of events, if and only if lost creations
   fill neither the daemon's limit nor, the token's own among them, the token's.
   */
  lemma AdmitsAgainExactlyWhen(s: State, max: int, token: string, tokenMax: int)
    requires Conserved(s)
    ensures CanAdmitAgain(s, max, token, tokenMax) <==> |s.lost| < max && |LostOf(s, token)| < tokenMax
  {
    if CanAdmitAgain(s, max, token, tokenMax) {
      var ts :| IsRun(s, ts, max) && MayReserve(After(s, ts, max), token, tokenMax, max);
      AdmissionLeavesRoom(s, ts, max, token, tokenMax);
    }
    if |s.lost| < max && |LostOf(s, token)| < tokenMax {
      CountsAreNatural(s, token);
      var ts := DrainingRun(s, max);
      DrainedCountsTheLost(After(s, ts, max), token);
    }
  }

  // ---- the input ----

  /** A creation reserves and throws before its clean-up is armed. */
  const LOSES_ONE: seq<Step> := [CreateBegins(0, "t", 5), CreateThrows(0)]

  lemma LosingOne(max: int)
    requires max >= 1
    ensures IsRun(Empty, LOSES_ONE, max)
    ensures var r := After(Empty, LOSES_ONE, max);
            r == State(1, map["t" := 1], map[], map[0 := "t"], {0}, map[]) && Conserved(r)
  {
    var s := Next(Empty, LOSES_ONE[0], max);
    assert s == State(1, map["t" := 1], map[], map[0 := "t"], {}, map[]);
    assert LOSES_ONE == [LOSES_ONE[0]] + [LOSES_ONE[1]];
    assert [LOSES_ONE[1]] == [LOSES_ONE[1]] + [];
    RunOfOneMore(s, LOSES_ONE[1], [], max);
    RunOfOneMore(Empty, LOSES_ONE[0], [LOSES_ONE[1]], max);
    EmptyIsConserved();
    SlotsAreConserved(Empty, LOSES_ONE, max);
  }

  /** On a daemon limited to one, that one throw keeps every token out for good. */
  lemma OneThrowClosesTheDaemon(token: string, tokenMax: int)
    ensures IsRun(Empty, LOSES_ONE, 1) && !CanAdmitAgain(After(Empty, LOSES_ONE, 1), 1, token, tokenMax)
  {
    LosingOne(1);
    AdmitsAgainExactlyWhen(After(Empty, LOSES_ONE, 1), 1, token, tokenMax);
  }

  /** On a larger daemon it keeps out a token whose own limit is one, and no other token. */
  lemma OneThrowClosesTheToken(max: int, token: string, tokenMax: int)
    requires max > 1 && tokenMax >= 1
    ensures IsRun(Empty, LOSES_ONE, max)
    ensures CanAdmitAgain(After(Empty, LOSES_ONE, max), max, token, tokenMax) <==> token != "t" || tokenMax > 1
  {
    LosingOne(max);
    var r := After(Empty, LOSES_ONE, max);
    AdmitsAgainExactlyWhen(r, max, token, tokenMax);
    assert LostOf(r, token) == if token == "t" then {0} else {};
  }
}
