/**
 The virtual clock is a correct scheduler.
 */
module ClockLaws {
  import opened Wrappers
  import opened Clock

  // ---- what the due-timer search finds ----

  lemma {:induction false} EarliestIsFirst(ts: seq<Timer>, limit: int)
    ensures var i := Earliest(ts, limit);
            && (i == -1 ==> forall j :: 0 <= j < |ts| ==> ts[j].at > limit)
            && (i != -1 ==> ts[i].at <= limit
                            && forall j :: 0 <= j < |ts| && ts[j].at <= limit ==> !Before(ts[j], ts[i]))
    decreases |ts|
  {
    if ts != [] {
      EarliestIsFirst(ts[..|ts| - 1], limit);
    }
  }

  lemma {:induction false} EarliestWidens(ts: seq<Timer>, limit: int, wider: int)
    requires limit <= wider && Earliest(ts, limit) != -1
    ensures Earliest(ts, wider) == Earliest(ts, limit)
    decreases |ts|
  {
    var most := ts[..|ts| - 1];
    EarliestIsFirst(most, limit);
    EarliestIsFirst(most, wider);
    if Earliest(most, limit) != -1 {
      EarliestWidens(most, limit, wider);
    }
  }

  // ---- every timer is in exactly one place ----

  function PendingTimes(ts: seq<Timer>, id: nat): nat {
    if ts == [] then 0 else PendingTimes(ts[..|ts| - 1], id) + if ts[|ts| - 1].id == id then 1 else 0
  }

  function FiredTimes(fs: seq<Firing>, id: nat): nat {
    if fs == [] then 0 else FiredTimes(fs[..|fs| - 1], id) + if fs[|fs| - 1].timer.id == id then 1 else 0
  }

  function Places(s: State, id: nat): nat {
    PendingTimes(s.timers, id) + FiredTimes(s.fired, id) + s.cancelled[id]
  }

  /** The timers ever made are the pending, the fired and the cancelled ones, each counted once. */
  ghost predicate Accounted(s: State) {
    forall id: nat :: Places(s, id) == if id < s.nextId then 1 else 0
  }

  lemma {:induction false} PendingWithout(ts: seq<Timer>, i: nat, id: nat)
    requires i < |ts|
    ensures PendingTimes(ts, id) == PendingTimes(Without(ts, i), id) + if ts[i].id == id then 1 else 0
    decreases |ts|
  {
    var most := ts[..|ts| - 1];
    if i == |ts| - 1 {
      assert Without(ts, i) == most;
    } else {
      PendingWithout(most, i, id);
      var less := Without(ts, i);
      assert less[..|less| - 1] == Without(most, i);
      assert less[|less| - 1] == ts[|ts| - 1];
    }
  }

  lemma {:induction false} IndexOfFinds(ts: seq<Timer>, id: nat)
    ensures var i := IndexOf(ts, id);
            if i == -1 then forall j :: 0 <= j < |ts| ==> ts[j].id != id else ts[i].id == id
    decreases |ts|
  {
    if ts != [] {
      IndexOfFinds(ts[..|ts| - 1], id);
    }
  }

  lemma ActAccounts(s: State, a: Action)
    requires Accounted(s)
    ensures Accounted(Acted(s, a))
  {
    var r := Acted(s, a);
    forall id: nat
      ensures Places(r, id) == if id < r.nextId then 1 else 0
    {
      assert Places(s, id) == if id < s.nextId then 1 else 0;
      match a
      case Schedule(delay) =>
        assert r.timers[..|r.timers| - 1] == s.timers;
      case Cancel(c) =>
        var i := IndexOf(s.timers, c);
        if i != -1 {
          IndexOfFinds(s.timers, c);
          PendingWithout(s.timers, i, id);
        }
    }
  }

  lemma {:induction false} ActsAccount(s: State, acts: seq<Action>)
    requires Accounted(s)
    ensures Accounted(ActedAll(s, acts))
    decreases |acts|
  {
    if acts != [] {
      ActsAccount(s, acts[..|acts| - 1]);
      ActAccounts(ActedAll(s, acts[..|acts| - 1]), acts[|acts| - 1]);
    }
  }

  lemma PopAccounts(s: State, i: nat)
    requires Accounted(s) && i < |s.timers|
    ensures Accounted(Popped(s, i))
  {
    var r := Popped(s, i);
    forall id: nat
      ensures Places(r, id) == if id < r.nextId then 1 else 0
    {
      assert Places(s, id) == if id < s.nextId then 1 else 0;
      PendingWithout(s.timers, i, id);
      assert r.fired[..|r.fired| - 1] == s.fired;
    }
  }

  lemma FiringAccounts(s: State, i: nat, script: nat -> seq<Action>)
    requires Accounted(s) && i < |s.timers|
    ensures Accounted(Fired(s, i, script))
  {
    PopAccounts(s, i);
    ActsAccount(Popped(s, i), script(s.timers[i].id));
  }

  lemma {:induction false} RunAccounts(s: State, limit: int, script: nat -> seq<Action>, n: nat)
    requires Accounted(s)
    ensures Accounted(Run(s, limit, script, n))
    decreases n
  {
    if n > 0 && Earliest(s.timers, limit) != -1 {
      var next := Fired(s, Earliest(s.timers, limit), script);
      FiringAccounts(s, Earliest(s.timers, limit), script);
      RunAccounts(next, limit, script, n - 1);
      assert Run(s, limit, script, n) == Run(next, limit, script, n - 1);
    } else {
      assert Run(s, limit, script, n) == s;
    }
  }

  // ---- consequences of the accounting ----

  lemma {:induction false} PendingCount(ts: seq<Timer>, i: nat)
    requires i < |ts|
    ensures PendingTimes(ts, ts[i].id) >= 1
    ensures forall j :: 0 <= j < i && ts[j].id == ts[i].id ==> PendingTimes(ts, ts[i].id) >= 2
    decreases |ts|
  {
    var most := ts[..|ts| - 1];
    if i < |ts| - 1 {
      PendingCount(most, i);
    } else {
      forall j | 0 <= j < i && ts[j].id == ts[i].id
        ensures PendingTimes(ts, ts[i].id) >= 2
      {
        PendingCount(most, j);
      }
    }
  }

  lemma PendingIsFresh(s: State, i: nat)
    requires Accounted(s) && i < |s.timers|
    ensures s.timers[i].id < s.nextId
    ensures forall j :: 0 <= j < i ==> s.timers[j].id != s.timers[i].id
  {
    PendingCount(s.timers, i);
    assert Places(s, s.timers[i].id) == if s.timers[i].id < s.nextId then 1 else 0;
  }

  /** The timer found is before every other one that is due. */
  lemma EarliestIsBefore(s: State, limit: int, j: nat)
    requires Accounted(s) && j < |s.timers| && s.timers[j].at <= limit
    ensures var i := Earliest(s.timers, limit); i != -1 && (j == i || Before(s.timers[i], s.timers[j]))
  {
    EarliestIsFirst(s.timers, limit);
    var i := Earliest(s.timers, limit);
    PendingIsFresh(s, i);
    PendingIsFresh(s, j);
  }

  lemma RestIsAfter(s: State, limit: int, t: Timer)
    requires Accounted(s) && Earliest(s.timers, limit) != -1
    requires t in Without(s.timers, Earliest(s.timers, limit)) && t.at <= limit
    ensures t in s.timers && Before(s.timers[Earliest(s.timers, limit)], t)
  {
    var i := Earliest(s.timers, limit);
    var k :| 0 <= k < |Without(s.timers, i)| && Without(s.timers, i)[k] == t;
    var j := if k < i then k else k + 1;
    assert s.timers[j] == t;
    EarliestIsBefore(s, limit, j);
  }

  // ---- what callbacks can change ----

  /** A timer that was not there before: newer than all others and not due before now. */
  predicate IsNew(s: State, t: Timer) {
    t.at >= s.now && t.id >= s.nextId
  }

  /** Nothing but new timers is added, and what is gone was cancelled. */
  ghost predicate OnlyRearranged(s: State, r: State) {
    && r.now == s.now && r.fired == s.fired && r.nextId >= s.nextId
    && (forall t :: t in r.timers ==> t in s.timers || IsNew(s, t))
    && (forall t :: t in s.timers ==> t in r.timers || r.cancelled[t.id] > 0)
    && (forall id: nat :: r.cancelled[id] >= s.cancelled[id])
  }

  lemma ActRearranges(s: State, a: Action)
    ensures OnlyRearranged(s, Acted(s, a))
  {
    match a
    case Schedule(delay) =>
    case Cancel(id) =>
      var i := IndexOf(s.timers, id);
      IndexOfFinds(s.timers, id);
      if i != -1 {
        forall t | t in s.timers
          ensures t in Without(s.timers, i) || t.id == id
        {
          var j :| 0 <= j < |s.timers| && s.timers[j] == t;
          if j < i {
            assert Without(s.timers, i)[j] == t;
          } else if j > i {
            assert Without(s.timers, i)[j - 1] == t;
          }
        }
      }
  }

  lemma {:induction false} ActsRearrange(s: State, acts: seq<Action>)
    ensures OnlyRearranged(s, ActedAll(s, acts))
    decreases |acts|
  {
    if acts != [] {
      ActsRearrange(s, acts[..|acts| - 1]);
      ActRearranges(ActedAll(s, acts[..|acts| - 1]), acts[|acts| - 1]);
    }
  }

  // ---- the order of firings ----

  /** A firing is of a timer that was pending or is new, was due, and saw the time its timer was due at. */
  predicate FiredRightly(s: State, limit: int, f: Firing) {
    && (f.timer in s.timers || IsNew(s, f.timer))
    && f.timer.at <= limit
    && f.seen == (if f.timer.at > s.now then f.timer.at else s.now)
  }

  /** The firings from `start` on, strictly ascending by deadline and then by age. */
  predicate Ascending(fs: seq<Firing>, start: nat) {
    forall j, k :: start <= j < k < |fs| ==>
      || fs[j].timer.at < fs[k].timer.at
      || (fs[j].timer.at == fs[k].timer.at && fs[j].timer.id < fs[k].timer.id)
  }

  lemma FirstIsBeforeTheRest(s: State, limit: int, script: nat -> seq<Action>, f: Firing)
    requires Accounted(s) && Earliest(s.timers, limit) != -1
    requires FiredRightly(Fired(s, Earliest(s.timers, limit), script), limit, f)
    ensures Before(s.timers[Earliest(s.timers, limit)], f.timer) && FiredRightly(s, limit, f)
  {
    var i := Earliest(s.timers, limit);
    var popped := Popped(s, i);
    var next := Fired(s, i, script);
    ActsRearrange(popped, script(s.timers[i].id));
    PendingIsFresh(s, i);
    if f.timer in next.timers && f.timer in popped.timers {
      RestIsAfter(s, limit, f.timer);
    } else {
      assert IsNew(popped, f.timer);
    }
  }

  lemma FirstFiring(s: State, limit: int, script: nat -> seq<Action>)
    requires Earliest(s.timers, limit) != -1
    ensures var i := Earliest(s.timers, limit);
            var next := Fired(s, i, script);
            && next.fired == s.fired + [Firing(s.timers[i], next.now)]
            && next.now == Max(s.now, s.timers[i].at)
            && FiredRightly(s, limit, next.fired[|s.fired|])
            && next.now >= s.now && (s.now <= limit ==> next.now <= limit)
  {
    EarliestIsFirst(s.timers, limit);
    ActsRearrange(Popped(s, Earliest(s.timers, limit)), script(s.timers[Earliest(s.timers, limit)].id));
  }

  /** What the firings of a run that started at `s` look like. */
  ghost predicate FiredInOrder(s: State, limit: int, r: State) {
    && s.fired <= r.fired && Ascending(r.fired, |s.fired|)
    && (forall k :: |s.fired| <= k < |r.fired| ==> FiredRightly(s, limit, r.fired[k]))
    && r.now >= s.now && (s.now <= limit ==> r.now <= limit)
  }

  lemma OneMoreInOrder(s: State, next: State, limit: int, script: nat -> seq<Action>, r: State)
    requires Accounted(s) && Earliest(s.timers, limit) != -1 && next == Fired(s, Earliest(s.timers, limit), script)
    requires FiredInOrder(next, limit, r)
    ensures FiredInOrder(s, limit, r)
  {
    var first := s.timers[Earliest(s.timers, limit)];
    FirstFiring(s, limit, script);
    assert r.fired[..|next.fired|] == next.fired;
    assert r.fired[|s.fired|] == next.fired[|s.fired|];
    forall k | |next.fired| <= k < |r.fired|
      ensures Before(first, r.fired[k].timer) && FiredRightly(s, limit, r.fired[k])
    {
      FirstIsBeforeTheRest(s, limit, script, r.fired[k]);
    }
  }

  /**
   `advance` fires in strictly increasing (deadline, age) order, each callback seeing the time its timer was
   due at (or the starting time, when `set` had stepped past it), and `now` never goes back.
   */
  lemma {:induction false} FiresInOrder(s: State, limit: int, script: nat -> seq<Action>, n: nat)
    requires Accounted(s)
    ensures FiredInOrder(s, limit, Run(s, limit, script, n))
    decreases n
  {
    if n > 0 && Earliest(s.timers, limit) != -1 {
      var next := Fired(s, Earliest(s.timers, limit), script);
      RunSteps(s, next, limit, script, n);
      FiringAccounts(s, Earliest(s.timers, limit), script);
      FiresInOrder(next, limit, script, n - 1);
      OneMoreInOrder(s, next, limit, script, Run(next, limit, script, n - 1));
    }
  }

  // ---- what one `advance` does ----

  ghost predicate FiredSince(r: State, start: nat, t: Timer) {
    exists k :: start <= k < |r.fired| && r.fired[k].timer == t
  }

  lemma PoppedKeepsRest(s: State, i: nat, t: Timer)
    requires i < |s.timers| && t in s.timers && t != s.timers[i]
    ensures t in Popped(s, i).timers
  {
    var j :| 0 <= j < |s.timers| && s.timers[j] == t;
    if j < i {
      assert Without(s.timers, i)[j] == t;
    } else {
      assert Without(s.timers, i)[j - 1] == t;
    }
  }

  lemma RunSteps(s: State, next: State, limit: int, script: nat -> seq<Action>, n: nat)
    requires n > 0 && Earliest(s.timers, limit) != -1 && next == Fired(s, Earliest(s.timers, limit), script)
    ensures Run(s, limit, script, n) == Run(next, limit, script, n - 1)
  {}

  lemma FateOfOneFiring(s: State, next: State, limit: int, script: nat -> seq<Action>, t: Timer)
    requires Earliest(s.timers, limit) != -1 && next == Fired(s, Earliest(s.timers, limit), script)
    ensures |next.fired| == |s.fired| + 1 && s.fired <= next.fired && next.cancelled[t.id] >= s.cancelled[t.id]
    ensures t in s.timers ==> t in next.timers || next.fired[|s.fired|].timer == t || next.cancelled[t.id] > 0
  {
    var i := Earliest(s.timers, limit);
    FirstFiring(s, limit, script);
    ActsRearrange(Popped(s, i), script(s.timers[i].id));
    if t in s.timers && t != s.timers[i] {
      PoppedKeepsRest(s, i, t);
    }
  }

  /** Once fired or cancelled, always so. */
  lemma {:induction false} FateIsFinal(s: State, limit: int, script: nat -> seq<Action>, n: nat, t: Timer)
    ensures s.fired <= Run(s, limit, script, n).fired
    ensures Run(s, limit, script, n).cancelled[t.id] >= s.cancelled[t.id]
    decreases n
  {
    if n > 0 && Earliest(s.timers, limit) != -1 {
      var next := Fired(s, Earliest(s.timers, limit), script);
      RunSteps(s, next, limit, script, n);
      FateOfOneFiring(s, next, limit, script, t);
      FateIsFinal(next, limit, script, n - 1, t);
    }
  }

  ghost predicate HasFate(r: State, start: nat, t: Timer) {
    t in r.timers || FiredSince(r, start, t) || r.cancelled[t.id] > 0
  }

  lemma FateCarriesOver(s: State, next: State, r: State, t: Timer)
    requires |next.fired| == |s.fired| + 1 && next.fired <= r.fired && r.cancelled[t.id] >= next.cancelled[t.id]
    requires t in next.timers || next.fired[|s.fired|].timer == t || next.cancelled[t.id] > 0
    requires t in next.timers ==> HasFate(r, |next.fired|, t)
    ensures HasFate(r, |s.fired|, t)
  {
    if next.fired[|s.fired|].timer == t {
      assert r.fired[|s.fired|] == next.fired[|s.fired|];
    }
  }

  /** A pending timer stays, fires, or has been cancelled. */
  lemma {:induction false} Fate(s: State, limit: int, script: nat -> seq<Action>, n: nat, t: Timer)
    requires t in s.timers
    ensures HasFate(Run(s, limit, script, n), |s.fired|, t)
    decreases n
  {
    if n > 0 && Earliest(s.timers, limit) != -1 {
      var next := Fired(s, Earliest(s.timers, limit), script);
      RunSteps(s, next, limit, script, n);
      FateOfOneFiring(s, next, limit, script, t);
      FateIsFinal(next, limit, script, n - 1, t);
      if t in next.timers {
        Fate(next, limit, script, n - 1, t);
      }
      FateCarriesOver(s, next, Run(next, limit, script, n - 1), t);
    }
  }

  lemma {:induction false} FiredCounts(fs: seq<Firing>, k: nat)
    requires k < |fs|
    ensures FiredTimes(fs, fs[k].timer.id) >= 1
    decreases |fs|
  {
    if k < |fs| - 1 {
      FiredCounts(fs[..|fs| - 1], k);
    }
  }

  /**
   `advance` ends at its target with nothing due left, and of the timers pending when it began it has fired
   exactly those that were due and that no callback cancelled.
   */
  lemma FiresExactlyTheDue(s: State, ms: int, script: nat -> seq<Action>, n: nat, t: Timer)
    requires Accounted(s) && Halts(s, Target(s, ms), script, n) && t in s.timers
    ensures var r := Advanced(s, ms, script, n);
            && r.now == (if ms > 0 then s.now + ms else s.now)
            && (FiredSince(r, |s.fired|, t) <==> t.at <= r.now && r.cancelled[t.id] == 0)
  {
    var limit := Target(s, ms);
    var r := Run(s, limit, script, n);
    Fate(s, limit, script, n, t);
    FiresInOrder(s, limit, script, n);
    RunAccounts(s, limit, script, n);
    EarliestIsFirst(r.timers, limit);
    assert FiredSince(r, |s.fired|, t) <==> FiredSince(Advanced(s, ms, script, n), |s.fired|, t);
    if k :| |s.fired| <= k < |r.fired| && r.fired[k].timer == t {
      FiredCounts(r.fired, k);
      assert FiredRightly(s, limit, r.fired[k]);
      assert Places(r, t.id) <= 1;
    }
  }

  /**
   Whatever callbacks schedule on the way, every timer made by the end was fired once, or cancelled once, or
   is pending once with a deadline past the target.
   */
  lemma AdvanceSettlesAll(s: State, ms: int, script: nat -> seq<Action>, n: nat, id: nat)
    requires Accounted(s) && Halts(s, Target(s, ms), script, n)
    ensures var r := Advanced(s, ms, script, n);
            && Places(r, id) == (if id < r.nextId then 1 else 0)
            && forall t :: t in r.timers ==> t.at > r.now
  {
    var limit := Target(s, ms);
    RunAccounts(s, limit, script, n);
    EarliestIsFirst(Run(s, limit, script, n).timers, limit);
    assert Places(Advanced(s, ms, script, n), id) == Places(Run(s, limit, script, n), id);
  }

  // ---- two advances make one ----

  /** Raising `now` to where nothing is due yet changes nothing that happens later. */
  lemma {:induction false} NowCatchesUp(s: State, mid: int, limit: int, script: nat -> seq<Action>, n: nat)
    requires s.now <= mid <= limit && Earliest(s.timers, mid) == -1
    ensures Run(s.(now := mid), limit, script, n).(now := limit) == Run(s, limit, script, n).(now := limit)
  {
    var i := Earliest(s.timers, limit);
    if n > 0 && i != -1 {
      EarliestIsFirst(s.timers, mid);
      assert Popped(s.(now := mid), i) == Popped(s, i);
    }
  }

  lemma HaltingIgnoresNow(s: State, mid: int, limit: int, script: nat -> seq<Action>, n: nat)
    requires s.now <= mid <= limit && Earliest(s.timers, mid) == -1 && Halts(s.(now := mid), limit, script, n)
    ensures Halts(s, limit, script, n)
  {
    NowCatchesUp(s, mid, limit, script, n);
    assert Run(s, limit, script, n).timers == Run(s, limit, script, n).(now := limit).timers;
  }

  // Repeating a step until there is none, whatever the step is.

  function Repeated<S>(s: S, step: S -> Option<S>, n: nat): S {
    if n == 0 || step(s).None? then s else Repeated(step(s).value, step, n - 1)
  }

  lemma {:induction false} MoreIsIdle<S>(s: S, step: S -> Option<S>, n: nat, m: nat)
    requires step(Repeated(s, step, n)).None? && n <= m
    ensures Repeated(s, step, m) == Repeated(s, step, n)
    decreases n
  {
    if n > 0 && step(s).Some? {
      MoreIsIdle(step(s).value, step, n - 1, m - 1);
    }
  }

  /** A step that goes on where another would stop, and agrees with it until then, can be taken in two parts. */
  lemma {:induction false} RepeatedInTwo<S(!new)>(s: S, half: S, short: S -> Option<S>,
                                                  long: S -> Option<S>, n: nat, m: nat)
    requires forall x :: short(x).Some? ==> long(x) == short(x)
    requires half == Repeated(s, short, n) && short(half).None?
    requires long(Repeated(half, long, m)).None?
    ensures Repeated(s, long, n + m) == Repeated(half, long, m)
    decreases n
  {
    if n == 0 || short(s).None? {
      MoreIsIdle(s, long, m, n + m);
    } else {
      RepeatedInTwo(short(s).value, half, short, long, n - 1, m);
    }
  }

  function FireNext(s: State, limit: int, script: nat -> seq<Action>): Option<State> {
    if Earliest(s.timers, limit) == -1 then None else Some(Fired(s, Earliest(s.timers, limit), script))
  }

  function Firer(limit: int, script: nat -> seq<Action>): State -> Option<State> {
    s => FireNext(s, limit, script)
  }

  lemma {:induction false} RunRepeats(s: State, limit: int, script: nat -> seq<Action>, n: nat)
    ensures Run(s, limit, script, n) == Repeated(s, Firer(limit, script), n)
    decreases n
  {
    if n > 0 && Earliest(s.timers, limit) != -1 {
      RunRepeats(Fired(s, Earliest(s.timers, limit), script), limit, script, n - 1);
    }
  }

  lemma FirersAgree(mid: int, limit: int, script: nat -> seq<Action>)
    requires mid <= limit
    ensures forall x :: Firer(mid, script)(x).Some? ==> Firer(limit, script)(x) == Firer(mid, script)(x)
  {
    forall x | Firer(mid, script)(x).Some?
      ensures Firer(limit, script)(x) == Firer(mid, script)(x)
    {
      EarliestWidens(x.timers, mid, limit);
    }
  }

  lemma RunInTwo(s: State, half: State, mid: int, limit: int, script: nat -> seq<Action>, n: nat, m: nat)
    requires mid <= limit && half == Run(s, mid, script, n)
    requires Earliest(half.timers, mid) == -1 && Halts(half, limit, script, m)
    ensures Run(s, limit, script, n + m) == Run(half, limit, script, m)
  {
    FirersAgree(mid, limit, script);
    RunRepeats(s, mid, script, n);
    RunRepeats(half, limit, script, m);
    RunRepeats(s, limit, script, n + m);
    RepeatedInTwo(s, half, Firer(mid, script), Firer(limit, script), n, m);
  }

  lemma TargetIs(s: State, ms: nat, limit: int)
    requires limit == s.now + ms
    ensures Target(s, ms) == limit
  {}

  lemma TwoHalves(s: State, half: State, g: State, limit: int, script: nat -> seq<Action>, n: nat, m: nat)
    requires g == half.(now := g.now) && half.now <= g.now <= limit
    requires Halts(s, g.now, script, n) && half == Run(s, g.now, script, n) && Halts(g, limit, script, m)
    ensures Run(g, limit, script, m).(now := limit) == Run(s, limit, script, n + m).(now := limit)
  {
    NowCatchesUp(half, g.now, limit, script, m);
    HaltingIgnoresNow(half, g.now, limit, script, m);
    RunInTwo(s, half, g.now, limit, script, n, m);
  }

  /** Advancing by `a` and then by `b` is advancing by `a + b`: same firings, same times seen, same end. */
  lemma AdvanceInTwo(s: State, a: nat, b: nat, script: nat -> seq<Action>, n: nat, m: nat)
    requires Accounted(s) && Halts(s, Target(s, a), script, n)
    requires Halts(Advanced(s, a, script, n), Target(s, a + b), script, m)
    ensures Advanced(Advanced(s, a, script, n), b, script, m) == Advanced(s, a + b, script, n + m)
  {
    var half := Run(s, Target(s, a), script, n);
    var g := Advanced(s, a, script, n);
    TargetIs(s, a, s.now + a);
    TargetIs(g, b, s.now + a + b);
    TargetIs(s, a + b, s.now + a + b);
    FiresInOrder(s, Target(s, a), script, n);
    TwoHalves(s, half, g, Target(s, a + b), script, n, m);
  }
}
