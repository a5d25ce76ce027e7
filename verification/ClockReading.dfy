/**
 What callbacks do to the clock, read off their scripts: which timers they leave pending, with which deadlines.
 */
module ClockReading {
  import opened Clock
  import opened ClockLaws

  function Schedules(acts: seq<Action>): nat {
    if acts == [] then 0 else Schedules(acts[..|acts| - 1]) + if acts[|acts| - 1].Schedule? then 1 else 0
  }

  predicate NotCancelledFrom(acts: seq<Action>, k: nat, id: nat) {
    forall m :: k <= m < |acts| ==> acts[m] != Cancel(id)
  }

  /** Action `k` of a callback that runs at `now` makes this timer; negative delays count as none. */
  predicate MakesAt(now: int, nextId: nat, acts: seq<Action>, k: int, t: Timer) {
    && 0 <= k < |acts| && acts[k].Schedule?
    && t.at == (if acts[k].delay > 0 then now + acts[k].delay else now)
    && t.id == nextId + Schedules(acts[..k])
  }

  predicate LeavesNew(now: int, nextId: nat, acts: seq<Action>, t: Timer) {
    exists k :: 0 <= k < |acts| && MakesAt(now, nextId, acts, k, t) && NotCancelledFrom(acts, k + 1, t.id)
  }

  /** What is pending after a callback: what was and was not cancelled, and what it made and did not cancel again. */
  ghost predicate IsLeft(s: State, acts: seq<Action>, t: Timer) {
    (t in s.timers && NotCancelledFrom(acts, 0, t.id)) || LeavesNew(s.now, s.nextId, acts, t)
  }

  lemma MadeOneOn(now: int, nextId: nat, acts: seq<Action>, k: int, t: Timer)
    requires acts != [] && k < |acts| - 1
    ensures MakesAt(now, nextId, acts, k, t) <==> MakesAt(now, nextId, acts[..|acts| - 1], k, t)
  {
    if k >= 0 {
      assert acts[..|acts| - 1][..k] == acts[..k];
    }
  }

  lemma KeptOneOn(acts: seq<Action>, k: nat, id: nat)
    requires acts != [] && k < |acts|
    ensures NotCancelledFrom(acts, k, id) <==>
            NotCancelledFrom(acts[..|acts| - 1], k, id) && acts[|acts| - 1] != Cancel(id)
  {
    var front := acts[..|acts| - 1];
    assert forall m :: k <= m < |front| ==> front[m] == acts[m];
  }

  lemma LeftOneOn(s: State, acts: seq<Action>, t: Timer)
    requires acts != []
    ensures var front, last := acts[..|acts| - 1], acts[|acts| - 1];
            IsLeft(s, acts, t) <==>
            (IsLeft(s, front, t) && last != Cancel(t.id)) || MakesAt(s.now, s.nextId, acts, |acts| - 1, t)
  {
    var front, last := acts[..|acts| - 1], acts[|acts| - 1];
    KeptOneOn(acts, 0, t.id);
    if LeavesNew(s.now, s.nextId, acts, t) {
      var k :| 0 <= k < |acts| && MakesAt(s.now, s.nextId, acts, k, t) && NotCancelledFrom(acts, k + 1, t.id);
      if k < |front| {
        MadeOneOn(s.now, s.nextId, acts, k, t);
        KeptOneOn(acts, k + 1, t.id);
      }
    }
    if LeavesNew(s.now, s.nextId, front, t) && last != Cancel(t.id) {
      var k :| 0 <= k < |front| && MakesAt(s.now, s.nextId, front, k, t) && NotCancelledFrom(front, k + 1, t.id);
      MadeOneOn(s.now, s.nextId, acts, k, t);
      KeptOneOn(acts, k + 1, t.id);
    }
    if MakesAt(s.now, s.nextId, acts, |acts| - 1, t) {
      assert NotCancelledFrom(acts, |acts|, t.id);
    }
  }

  lemma CancelledIsGone(s: State, id: nat, t: Timer)
    requires Accounted(s)
    ensures t in Cancelled(s, id).timers <==> t in s.timers && t.id != id
  {
    var i, r := IndexOf(s.timers, id), Cancelled(s, id);
    IndexOfFinds(s.timers, id);
    if i != -1 {
      if t in s.timers && t.id != id {
        var j :| 0 <= j < |s.timers| && s.timers[j] == t;
        assert r.timers[if j < i then j else j - 1] == t;
      }
      if t in r.timers {
        var k :| 0 <= k < |r.timers| && r.timers[k] == t;
        var j := if k < i then k else k + 1;
        assert s.timers[j] == t;
        PendingIsFresh(s, if j < i then i else j);
      }
    }
  }

  /** The actions of a callback, one after the other, leave exactly that. */
  lemma {:induction false} ActsAreRead(s: State, acts: seq<Action>, t: Timer)
    requires Accounted(s)
    ensures var r := ActedAll(s, acts);
            && r.now == s.now && r.fired == s.fired && r.nextId == s.nextId + Schedules(acts)
            && (t in r.timers <==> IsLeft(s, acts, t))
    decreases |acts|
  {
    if acts != [] {
      var front, last := acts[..|acts| - 1], acts[|acts| - 1];
      var g := ActedAll(s, front);
      ActsAreRead(s, front, t);
      ActsAccount(s, front);
      LeftOneOn(s, acts, t);
      match last
      case Schedule(delay) => assert acts[..|acts| - 1] == front;
      case Cancel(id) => CancelledIsGone(g, id, t);
    }
  }

  /**
   Main result: one firing. The timer is gone, the clock stands at its deadline unless it was later already, and what
   is pending is what its callback leaves of the others and what it has made, counted from that moment.
   */
  lemma FiringIsRead(s: State, i: nat, script: nat -> seq<Action>, t: Timer)
    requires Accounted(s) && i < |s.timers|
    ensures var due, acts, r := s.timers[i], script(s.timers[i].id), Fired(s, i, script);
            && r.now == (if due.at > s.now then due.at else s.now)
            && r.fired == s.fired + [Firing(due, r.now)]
            && r.nextId == s.nextId + Schedules(acts)
            && (t in r.timers <==>
                (t in s.timers && t != due && NotCancelledFrom(acts, 0, t.id))
                || LeavesNew(r.now, s.nextId, acts, t))
  {
    var p := Popped(s, i);
    PopAccounts(s, i);
    ActsAreRead(p, script(s.timers[i].id), t);
    PoppedIsGone(s, i, t);
  }

  lemma PoppedIsGone(s: State, i: nat, t: Timer)
    requires Accounted(s) && i < |s.timers|
    ensures t in Popped(s, i).timers <==> t in s.timers && t != s.timers[i]
  {
    var r := Without(s.timers, i);
    if t in s.timers && t != s.timers[i] {
      var j :| 0 <= j < |s.timers| && s.timers[j] == t;
      assert r[if j < i then j else j - 1] == t;
    }
    if t in r {
      var k :| 0 <= k < |r| && r[k] == t;
      var j := if k < i then k else k + 1;
      assert s.timers[j] == t;
      PendingIsFresh(s, if j < i then i else j);
    }
  }

  /** How many timers the callbacks of these firings make. */
  function MadeBy(fs: seq<Firing>, script: nat -> seq<Action>): nat {
    if fs == [] then 0 else Schedules(script(fs[0].timer.id)) + MadeBy(fs[1..], script)
  }

  /** One firing and the run after it make together what the scripts of both make. */
  lemma ScriptsJoin(s: State, next: State, r: State, f: Firing, script: nat -> seq<Action>)
    requires next.fired == s.fired + [f] && next.fired <= r.fired
    requires next.nextId == s.nextId + Schedules(script(f.timer.id))
    requires r.nextId == next.nextId + MadeBy(r.fired[|next.fired|..], script)
    ensures s.fired <= r.fired && r.nextId == s.nextId + MadeBy(r.fired[|s.fired|..], script)
  {
    var since := r.fired[|s.fired|..];
    assert since[0] == r.fired[..|next.fired|][|s.fired|] == f;
    assert since[1..] == r.fired[|next.fired|..];
  }

  /** Over a whole advance every callback runs its script: the timers made are those of all the scripts. */
  lemma {:induction false} EveryScriptIsRun(s: State, limit: int, script: nat -> seq<Action>, n: nat)
    requires Accounted(s)
    ensures var r := Run(s, limit, script, n);
            s.fired <= r.fired && r.nextId == s.nextId + MadeBy(r.fired[|s.fired|..], script)
    decreases n
  {
    var i := Earliest(s.timers, limit);
    if n > 0 && i != -1 {
      var next := Fired(s, i, script);
      FiringIsRead(s, i, script, s.timers[i]);
      FiringAccounts(s, i, script);
      EveryScriptIsRun(next, limit, script, n - 1);
      ScriptsJoin(s, next, Run(s, limit, script, n), next.fired[|s.fired|], script);
    } else {
      assert s.fired[|s.fired|..] == [];
    }
  }
}
