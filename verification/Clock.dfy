/**
 The virtual clock: timers kept in a list, fired only by `advance`, in due order.

 What a timer's callback does is a script: a list of timers to schedule and timers to cancel, looked up
 by the timer's number. Every timer fires at most once, so one script describes any run of callbacks that
 only schedule and cancel.
 */
module Clock {

  datatype Timer = Timer(at: int, id: nat)

  datatype Action = Schedule(delay: int) | Cancel(id: nat)

  /** A callback that ran, and the time it saw. */
  datatype Firing = Firing(timer: Timer, seen: int)

  /** `fired` and `cancelled` are history; the program does not keep them. */
  datatype State = State(now: int, nextId: nat, timers: seq<Timer>, fired: seq<Firing>, cancelled: multiset<nat>)

  function Max(a: int, b: int): int {
    if a > b then a else b
  }

  predicate Before(a: Timer, b: Timer) {
    a.at < b.at || (a.at == b.at && a.id < b.id)
  }

  function Without(ts: seq<Timer>, i: nat): seq<Timer>
    requires i < |ts|
  {
    ts[..i] + ts[i + 1..]
  }

  function IndexOf(ts: seq<Timer>, id: nat): (i: int)
    ensures -1 <= i < |ts|
  {
    if ts == [] then -1
    else if IndexOf(ts[..|ts| - 1], id) != -1 then IndexOf(ts[..|ts| - 1], id)
    else if ts[|ts| - 1].id == id then |ts| - 1
    else -1
  }

  /** Where the earliest timer due by `limit` stands, or -1. */
  function Earliest(ts: seq<Timer>, limit: int): (i: int)
    ensures -1 <= i < |ts|
  {
    if ts == [] then -1
    else
      var last := |ts| - 1;
      var best := Earliest(ts[..last], limit);
      if ts[last].at > limit then best
      else if best == -1 || Before(ts[last], ts[best]) then last
      else best
  }

  function Scheduled(s: State, delay: int): State {
    s.(timers := s.timers + [Timer(s.now + Max(0, delay), s.nextId)], nextId := s.nextId + 1)
  }

  function Cancelled(s: State, id: nat): State {
    var i := IndexOf(s.timers, id);
    if i == -1 then s else s.(timers := Without(s.timers, i), cancelled := s.cancelled + multiset{id})
  }

  function Acted(s: State, a: Action): State {
    match a
    case Schedule(delay) => Scheduled(s, delay)
    case Cancel(id) => Cancelled(s, id)
  }

  function ActedAll(s: State, acts: seq<Action>): State {
    if acts == [] then s else Acted(ActedAll(s, acts[..|acts| - 1]), acts[|acts| - 1])
  }

  lemma ActedOneMore(s: State, acts: seq<Action>, k: nat)
    requires k < |acts|
    ensures ActedAll(s, acts[..k + 1]) == Acted(ActedAll(s, acts[..k]), acts[k])
  {
    assert acts[..k + 1][..k] == acts[..k];
  }

  /** The timer leaves the list and `now` moves up to its deadline, before its callback runs. */
  function Popped(s: State, i: nat): State
    requires i < |s.timers|
  {
    var t := s.timers[i];
    s.(timers := Without(s.timers, i), now := Max(s.now, t.at), fired := s.fired + [Firing(t, Max(s.now, t.at))])
  }

  function Fired(s: State, i: nat, script: nat -> seq<Action>): State
    requires i < |s.timers|
  {
    ActedAll(Popped(s, i), script(s.timers[i].id))
  }

  /** At most `n` firings of what is due by `limit`. */
  function Run(s: State, limit: int, script: nat -> seq<Action>, n: nat): State
    decreases n
  {
    if n == 0 || Earliest(s.timers, limit) == -1 then s
    else Run(Fired(s, Earliest(s.timers, limit), script), limit, script, n - 1)
  }

  /** `n` firings are enough: nothing is due after them. */
  predicate Halts(s: State, limit: int, script: nat -> seq<Action>, n: nat) {
    Earliest(Run(s, limit, script, n).timers, limit) == -1
  }

  function Target(s: State, ms: int): int {
    s.now + Max(0, ms)
  }

  /** One more firing. */
  lemma RunUnrolls(s: State, limit: int, script: nat -> seq<Action>, n: nat)
    requires Halts(s, limit, script, n) && Earliest(s.timers, limit) != -1
    ensures n > 0
    ensures Run(s, limit, script, n) == Run(Fired(s, Earliest(s.timers, limit), script), limit, script, n - 1)
  {}

  function Advanced(s: State, ms: int, script: nat -> seq<Action>, n: nat): State {
    Run(s, Target(s, ms), script, n).(now := Target(s, ms))
  }

  // ---- the clock itself ----

  class FakeClock {
    var now: int
    var nextId: nat
    var timers: seq<Timer>
    ghost var fired: seq<Firing>
    ghost var cancelled: multiset<nat>

    constructor (start: int)
      ensures View() == State(start, 0, [], [], multiset{})
    {
      now, nextId, timers := start, 0, [];
      fired, cancelled := [], multiset{};
    }

    ghost function View(): State
      reads this
    {
      State(now, nextId, timers, fired, cancelled)
    }

    method SetTimer(delay: int) returns (handle: nat)
      modifies this
      ensures View() == Scheduled(old(View()), delay) && handle == old(nextId)
    {
      handle := nextId;
      timers := timers + [Timer(now + Max(0, delay), nextId)];
      nextId := nextId + 1;
    }

    method CancelTimer(handle: nat)
      modifies this
      ensures View() == Cancelled(old(View()), handle)
    {
      var i := 0;
      assert timers[..|timers|] == timers;
      while i < |timers|
        invariant i <= |timers| && timers == old(timers) && View() == old(View())
        invariant IndexOf(timers[..i], handle) == -1
      {
        assert timers[..i + 1][..i] == timers[..i];
        if timers[i].id == handle {
          FoundAt(timers, i, handle);
          timers := timers[..i] + timers[i + 1..];
          cancelled := cancelled + multiset{handle};
          return;
        }
        i := i + 1;
      }
    }

    method DueIndex(limit: int) returns (best: int)
      ensures best == Earliest(timers, limit)
    {
      best := -1;
      var i := 0;
      while i < |timers|
        invariant i <= |timers|
        invariant best == Earliest(timers[..i], limit)
      {
        assert timers[..i + 1][..i] == timers[..i];
        var t := timers[i];
        if t.at <= limit
           && (best == -1 || t.at < timers[best].at || (t.at == timers[best].at && t.id < timers[best].id)) {
          best := i;
        }
        i := i + 1;
      }
      assert timers[..i] == timers;
    }

    /** One callback. */
    method Act(acts: seq<Action>)
      modifies this
      ensures View() == ActedAll(old(View()), acts)
    {
      var k := 0;
      while k < |acts|
        invariant k <= |acts|
        invariant View() == ActedAll(old(View()), acts[..k])
      {
        ActedOneMore(old(View()), acts, k);
        match acts[k] {
          case Schedule(delay) => var _ := SetTimer(delay);
          case Cancel(id) => CancelTimer(id);
        }
        k := k + 1;
      }
      assert acts[..k] == acts;
    }

    method Pop(i: nat) returns (entry: Timer)
      requires i < |timers|
      modifies this
      ensures entry == old(timers)[i] && View() == Popped(old(View()), i)
    {
      entry := timers[i];
      timers := timers[..i] + timers[i + 1..];
      if entry.at > now {
        now := entry.at;
      }
      fired := fired + [Firing(entry, now)];
    }

    /** One turn of the loop: the timer leaves the list, then its callback runs. */
    method Fire(i: nat, script: nat -> seq<Action>)
      requires i < |timers|
      modifies this
      ensures View() == Fired(old(View()), i, script)
    {
      var entry := Pop(i);
      Act(script(entry.id));
    }

    /** The loop ends only if the callbacks let it; `n` is a number of firings that is enough. */
    method Advance(ms: int, script: nat -> seq<Action>, ghost n: nat)
      requires Halts(View(), Target(View(), ms), script, n)
      modifies this
      ensures View() == Advanced(old(View()), ms, script, n)
    {
      var target := now + Max(0, ms);
      ghost var whole := Run(View(), target, script, n);
      FireAllDue(target, script, n, whole);
      now := target;
    }

    method FireAllDue(target: int, script: nat -> seq<Action>, ghost n: nat, ghost whole: State)
      requires whole == Run(View(), target, script, n) && Earliest(whole.timers, target) == -1
      modifies this
      ensures View() == whole
    {
      ghost var left := n;
      var i := DueIndex(target);
      while i != -1
        invariant i == Earliest(timers, target)
        invariant whole == Run(View(), target, script, left)
        decreases left
      {
        RunUnrolls(View(), target, script, left);
        Fire(i, script);
        left := left - 1;
        i := DueIndex(target);
      }
    }

    /** Re-bases the clock and fires nothing. */
    method Set(epoch: int)
      modifies this
      ensures View() == old(View()).(now := epoch)
    {
      now := epoch;
    }
  }

  lemma {:induction false} FoundAt(ts: seq<Timer>, i: nat, id: nat)
    requires i < |ts| && ts[i].id == id && IndexOf(ts[..i], id) == -1
    ensures IndexOf(ts, id) == i
    decreases |ts|
  {
    if i < |ts| - 1 {
      assert ts[..|ts| - 1][..i] == ts[..i];
      FoundAt(ts[..|ts| - 1], i, id);
    }
  }
}
