/**
 The gate is bounded, work-conserving and fair, and no agent is probed twice at a time, over every run.
 */
module ProbeGateLaws {
  import opened ProbeGate

  function UpTo(n: nat): (r: seq<nat>)
    ensures |r| == n && forall k :: 0 <= k < n ==> r[k] == k
  {
    if n == 0 then [] else UpTo(n - 1) + [n - 1]
  }

  function Min(a: int, b: int): int {
    if a < b then a else b
  }

  /**
   Tickets are granted in the order they were drawn, the rest wait in that order; the permits out are the
   granted tickets not yet released; and nobody waits while a permit is free.
   */
  ghost predicate Fair(g: Gate, limit: nat) {
    && g.granted + g.waiting == UpTo(g.tickets)
    && (forall t :: t in g.released ==> t in g.granted)
    && g.inFlight == |g.granted| - |g.released|
    && 0 <= g.inFlight <= limit
    && (g.waiting != [] ==> g.inFlight == limit)
  }

  lemma AcquiringIsFair(g: Gate, limit: nat)
    requires Fair(g, limit)
    ensures Fair(Acquired(g, limit), limit)
  {
    var r := Acquired(g, limit);
    if g.inFlight < limit {
      assert g.waiting == [];
      assert r.granted + r.waiting == (g.granted + g.waiting) + [g.tickets];
    } else {
      assert r.granted + r.waiting == (g.granted + g.waiting) + [g.tickets];
    }
  }

  lemma {:induction false} DistinctHoldAtMost(granted: seq<nat>, released: set<nat>)
    requires forall i, j :: 0 <= i < j < |granted| ==> granted[i] != granted[j]
    requires forall t :: t in released ==> t in granted
    ensures |released| <= |granted|
    ensures (exists t :: t in granted && t !in released) ==> |released| < |granted|
    decreases |granted|
  {
    if granted == [] {
      assert released == {};
    } else {
      var most, last := granted[..|granted| - 1], granted[|granted| - 1];
      assert granted == most + [last];
      DistinctHoldAtMost(most, released - {last});
      if last in released {
        assert released == (released - {last}) + {last};
      } else {
        assert released - {last} == released;
      }
      if t :| t in granted && t !in released && t != last {
        assert t in most && t !in released - {last};
      }
    }
  }

  lemma GrantedOnce(g: Gate, limit: nat)
    requires Fair(g, limit)
    ensures forall i, j :: 0 <= i < j < |g.granted| ==> g.granted[i] != g.granted[j]
    ensures forall i :: 0 <= i < |g.granted| ==> g.granted[i] == i
  {
    forall i | 0 <= i < |g.granted|
      ensures g.granted[i] == i
    {
      assert (g.granted + g.waiting)[i] == UpTo(g.tickets)[i];
    }
  }

  lemma ReleasingIsFair(g: Gate, ticket: nat, limit: nat)
    requires Fair(g, limit) && ticket in g.granted
    ensures Fair(Released(g, ticket), limit)
    ensures ticket !in g.released ==> g.inFlight > 0
  {
    if ticket !in g.released {
      GrantedOnce(g, limit);
      DistinctHoldAtMost(g.granted, g.released);
      var r := Released(g, ticket);
      if g.waiting != [] {
        assert g.waiting == [g.waiting[0]] + g.waiting[1..];
        assert r.granted + r.waiting == g.granted + g.waiting;
      }
    }
  }

  // ---- runs of the gate ----

  datatype GateStep = Draw | Release(ticket: nat)

  /** A release function exists only once its ticket was granted. */
  predicate IsGateRun(g: Gate, ts: seq<GateStep>, limit: nat)
    decreases |ts|
  {
    ts == [] || ((ts[0].Release? ==> ts[0].ticket in g.granted) && IsGateRun(GateNext(g, ts[0], limit), ts[1..], limit))
  }

  function GateNext(g: Gate, t: GateStep, limit: nat): Gate {
    match t
    case Draw => Acquired(g, limit)
    case Release(ticket) => Released(g, ticket)
  }

  function GateAfter(g: Gate, ts: seq<GateStep>, limit: nat): Gate
    decreases |ts|
  {
    if ts == [] then g else GateAfter(GateNext(g, ts[0], limit), ts[1..], limit)
  }

  lemma {:induction false} GateStaysFair(g: Gate, ts: seq<GateStep>, limit: nat)
    requires Fair(g, limit) && IsGateRun(g, ts, limit)
    ensures Fair(GateAfter(g, ts, limit), limit)
    decreases |ts|
  {
    if ts != [] {
      match ts[0] {
        case Draw => AcquiringIsFair(g, limit);
        case Release(ticket) => ReleasingIsFair(g, ticket, limit);
      }
      GateStaysFair(GateNext(g, ts[0], limit), ts[1..], limit);
    }
  }

  lemma OpenIsFair(limit: nat)
    ensures Fair(Open, limit)
  {
  }

  /** Exactly who has been served: the first so many callers, as many as permits and releases allow. */
  lemma ServedInOrder(ts: seq<GateStep>, limit: nat, ticket: nat)
    requires IsGateRun(Open, ts, limit)
    ensures var g := GateAfter(Open, ts, limit);
            && (ticket in g.granted <==> ticket < Min(g.tickets, limit + |g.released|))
            && (ticket in g.waiting <==> limit + |g.released| <= ticket < g.tickets)
            && 0 <= g.inFlight <= limit
  {
    OpenIsFair(limit);
    GateStaysFair(Open, ts, limit);
    var g := GateAfter(Open, ts, limit);
    GrantedOnce(g, limit);
    forall i | 0 <= i < |g.waiting|
      ensures g.waiting[i] == |g.granted| + i
    {
      assert (g.granted + g.waiting)[|g.granted| + i] == UpTo(g.tickets)[|g.granted| + i];
    }
    assert |g.granted| + |g.waiting| == |g.granted + g.waiting| == g.tickets;
    if ticket < |g.granted| {
      assert g.granted[ticket] == ticket;
    } else if ticket < g.tickets {
      assert g.waiting[ticket - |g.granted|] == ticket;
    }
  }

  // ---- the gate read off the calls ----

  function Draws(ts: seq<GateStep>): nat {
    if ts == [] then 0 else (if ts[0] == Draw then 1 else 0) + Draws(ts[1..])
  }

  function Releases(ts: seq<GateStep>): set<nat> {
    if ts == [] then {} else (if ts[0].Release? then {ts[0].ticket} else {}) + Releases(ts[1..])
  }

  /** Every call of `acquire` takes a ticket, and every ticket whose release was called counts as released, once. */
  lemma {:induction false} GateIsRead(g: Gate, ts: seq<GateStep>, limit: nat)
    ensures var r := GateAfter(g, ts, limit);
            r.tickets == g.tickets + Draws(ts) && r.released == g.released + Releases(ts)
    decreases |ts|
  {
    if ts != [] {
      GateIsRead(GateNext(g, ts[0], limit), ts[1..], limit);
    }
  }

  /** Who has been served after any calls, read off the calls alone. */
  lemma ServedIsRead(ts: seq<GateStep>, limit: nat, ticket: nat)
    requires IsGateRun(Open, ts, limit)
    ensures var g := GateAfter(Open, ts, limit);
            && (ticket in g.granted <==> ticket < Draws(ts) && ticket < limit + |Releases(ts)|)
            && (ticket in g.waiting <==> limit + |Releases(ts)| <= ticket < Draws(ts))
  {
    ServedInOrder(ts, limit, ticket);
    GateIsRead(Open, ts, limit);
    assert {} + Releases(ts) == Releases(ts);
  }

  lemma {:induction false} StaysReleased(g: Gate, ticket: nat, ts: seq<GateStep>, limit: nat)
    requires ticket in g.released
    ensures ticket in GateAfter(g, ts, limit).released
    decreases |ts|
  {
    if ts != [] {
      StaysReleased(GateNext(g, ts[0], limit), ticket, ts[1..], limit);
    }
  }

  /** Releasing twice frees one permit, whatever happens between the two calls. */
  lemma SecondReleaseDoesNothing(g: Gate, ticket: nat, ts: seq<GateStep>, limit: nat)
    ensures var r := GateAfter(Released(g, ticket), ts, limit); Released(r, ticket) == r
  {
    StaysReleased(Released(g, ticket), ticket, ts, limit);
  }

  // ---- one probe per agent ----

  /** A probe is unfinished until its release is called. */
  predicate IsUnfinished(s: Service, ticket: nat) {
    ticket < s.gate.tickets && ticket !in s.gate.released
  }

  /** Every unfinished probe is the one its agent's entry names, and every entry names an unfinished probe. */
  ghost predicate SingleFlight(s: Service) {
    && (forall t :: t in s.ownerOf <==> 0 <= t < s.gate.tickets)
    && (forall t :: t in s.gate.released ==> t < s.gate.tickets)
    && (forall t: nat :: t in s.ownerOf && t !in s.gate.released ==>
          s.ownerOf[t] in s.inFlight && s.inFlight[s.ownerOf[t]] == t)
    && (forall a :: a in s.inFlight ==>
          s.inFlight[a] in s.ownerOf && s.ownerOf[s.inFlight[a]] == a && s.inFlight[a] !in s.gate.released)
  }

  datatype ServiceStep = Probe(agent: string) | Finish(agent: string)

  predicate IsServiceRun(s: Service, ts: seq<ServiceStep>, limit: nat)
    decreases |ts|
  {
    || ts == []
    || ((ts[0].Finish? ==> MayFinish(s, ts[0].agent)) && IsServiceRun(ServiceNext(s, ts[0], limit), ts[1..], limit))
  }

  function ServiceNext(s: Service, t: ServiceStep, limit: nat): Service {
    match t
    case Probe(agent) => Probed(s, agent, limit)
    case Finish(agent) => if MayFinish(s, agent) then Finished(s, agent) else s
  }

  function ServiceAfter(s: Service, ts: seq<ServiceStep>, limit: nat): Service
    decreases |ts|
  {
    if ts == [] then s else ServiceAfter(ServiceNext(s, ts[0], limit), ts[1..], limit)
  }

  lemma StepKeepsSingleFlight(s: Service, t: ServiceStep, limit: nat)
    requires SingleFlight(s) && Fair(s.gate, limit) && (t.Finish? ==> MayFinish(s, t.agent))
    ensures SingleFlight(ServiceNext(s, t, limit)) && Fair(ServiceNext(s, t, limit).gate, limit)
  {
    AcquiringIsFair(s.gate, limit);
    if t.Finish? {
      ReleasingIsFair(s.gate, s.inFlight[t.agent], limit);
    }
  }

  lemma {:induction false} FlightsStaySingle(s: Service, ts: seq<ServiceStep>, limit: nat)
    requires SingleFlight(s) && Fair(s.gate, limit) && IsServiceRun(s, ts, limit)
    ensures SingleFlight(ServiceAfter(s, ts, limit)) && Fair(ServiceAfter(s, ts, limit).gate, limit)
    decreases |ts|
  {
    if ts != [] {
      StepKeepsSingleFlight(s, ts[0], limit);
      FlightsStaySingle(ServiceNext(s, ts[0], limit), ts[1..], limit);
    }
  }

  /** On every run: two unfinished probes are of different agents, and never more than `limit` hold a permit. */
  lemma NoAgentIsProbedTwice(ts: seq<ServiceStep>, limit: nat, t: nat, u: nat)
    requires IsServiceRun(Idle, ts, limit)
    requires IsUnfinished(ServiceAfter(Idle, ts, limit), t) && IsUnfinished(ServiceAfter(Idle, ts, limit), u) && t != u
    ensures var s := ServiceAfter(Idle, ts, limit);
            && t in s.ownerOf && u in s.ownerOf && s.ownerOf[t] != s.ownerOf[u]
            && s.gate.inFlight <= limit
  {
    OpenIsFair(limit);
    FlightsStaySingle(Idle, ts, limit);
  }

  // ---- the service read off the calls ----

  /** The agents being probed: asked for, and not finished since. */
  function Flying(was: set<string>, ts: seq<ServiceStep>): set<string>
    decreases |ts|
  {
    if ts == [] then was
    else Flying(if ts[0].Probe? then was + {ts[0].agent} else was - {ts[0].agent}, ts[1..])
  }

  /** How many calls started a probe of their own instead of joining one. */
  function Starts(was: set<string>, ts: seq<ServiceStep>): nat
    decreases |ts|
  {
    if ts == [] then 0
    else if ts[0].Probe? then
      (if ts[0].agent in was then 0 else 1) + Starts(was + {ts[0].agent}, ts[1..])
    else Starts(was - {ts[0].agent}, ts[1..])
  }

  function Finishes(ts: seq<ServiceStep>): nat {
    if ts == [] then 0 else (if ts[0].Finish? then 1 else 0) + Finishes(ts[1..])
  }

  lemma StepIsRead(s: Service, t: ServiceStep, limit: nat)
    requires SingleFlight(s) && (t.Finish? ==> MayFinish(s, t.agent))
    ensures var r := ServiceNext(s, t, limit);
            && r.inFlight.Keys == (if t.Probe? then s.inFlight.Keys + {t.agent} else s.inFlight.Keys - {t.agent})
            && r.gate.tickets == s.gate.tickets + (if t.Probe? && t.agent !in s.inFlight then 1 else 0)
            && |r.gate.released| == |s.gate.released| + (if t.Finish? then 1 else 0)
  {
    if t.Finish? {
      assert s.inFlight[t.agent] !in s.gate.released;
    }
  }

  /**
   Over every run: an agent is being probed exactly when it was asked for and not finished since; every call that did
   not join one in flight has drawn a ticket; and every probe that finished has released its permit.
   */
  lemma {:induction false} ServiceIsRead(s: Service, ts: seq<ServiceStep>, limit: nat)
    requires SingleFlight(s) && Fair(s.gate, limit) && IsServiceRun(s, ts, limit)
    ensures var r := ServiceAfter(s, ts, limit);
            && r.inFlight.Keys == Flying(s.inFlight.Keys, ts)
            && r.gate.tickets == s.gate.tickets + Starts(s.inFlight.Keys, ts)
            && |r.gate.released| == |s.gate.released| + Finishes(ts)
    decreases |ts|
  {
    if ts != [] {
      StepIsRead(s, ts[0], limit);
      StepKeepsSingleFlight(s, ts[0], limit);
      ServiceIsRead(ServiceNext(s, ts[0], limit), ts[1..], limit);
    }
  }

  /** From the start: how many probes hold a permit and how many wait, read off the calls. */
  lemma ProbesUnderWay(ts: seq<ServiceStep>, limit: nat)
    requires IsServiceRun(Idle, ts, limit)
    ensures var s, unfinished := ServiceAfter(Idle, ts, limit), Starts({}, ts) - Finishes(ts);
            && s.inFlight.Keys == Flying({}, ts)
            && s.gate.inFlight == Min(unfinished, limit) && |s.gate.waiting| == unfinished - s.gate.inFlight
  {
    OpenIsFair(limit);
    ServiceIsRead(Idle, ts, limit);
    FlightsStaySingle(Idle, ts, limit);
    var g := ServiceAfter(Idle, ts, limit).gate;
    assert Idle.inFlight.Keys == {};
    assert |g.granted| + |g.waiting| == |g.granted + g.waiting| == g.tickets;
  }
}
