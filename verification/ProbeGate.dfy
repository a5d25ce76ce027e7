/**
 The gate that bounds concurrent probes, and the probe service's single flight per agent.

 A call of `acquire` is known by a ticket, numbered in the order of the calls. A ticket holds a permit from the
 moment it is granted until its release function is first called.
 */
module ProbeGate {

  /** `granted` lists the tickets in the order they were granted; `released` those whose release has been called. */
  datatype Gate = Gate(inFlight: int, waiting: seq<nat>, granted: seq<nat>, released: set<nat>, tickets: nat)

  const Open: Gate := Gate(0, [], [], {}, 0)

  function Acquired(g: Gate, limit: nat): Gate {
    if g.inFlight < limit
    then g.(inFlight := g.inFlight + 1, granted := g.granted + [g.tickets], tickets := g.tickets + 1)
    else g.(waiting := g.waiting + [g.tickets], tickets := g.tickets + 1)
  }

  /** The permit goes straight to the ticket that has waited longest. */
  function Freed(g: Gate): Gate {
    if g.waiting == [] then g.(inFlight := g.inFlight - 1)
    else g.(waiting := g.waiting[1..], granted := g.granted + [g.waiting[0]])
  }

  function Released(g: Gate, ticket: nat): Gate {
    if ticket in g.released then g else Freed(g.(released := g.released + {ticket}))
  }

  // ---- the service: one probe per agent ----

  /** `ownerOf` remembers which agent each ticket was taken for. */
  datatype Service = Service(gate: Gate, inFlight: map<string, nat>, ownerOf: map<nat, string>)

  const Idle: Service := Service(Open, map[], map[])

  /** A second caller for an agent joins the probe that is running. */
  function Probed(s: Service, agent: string, limit: nat): Service {
    if agent in s.inFlight then s
    else Service(Acquired(s.gate, limit), s.inFlight[agent := s.gate.tickets], s.ownerOf[s.gate.tickets := agent])
  }

  /** A probe can end only once its ticket was granted. */
  predicate MayFinish(s: Service, agent: string) {
    agent in s.inFlight && s.inFlight[agent] in s.gate.granted
  }

  function Finished(s: Service, agent: string): Service
    requires MayFinish(s, agent)
  {
    s.(gate := Released(s.gate, s.inFlight[agent]), inFlight := s.inFlight - {agent})
  }

  // ---- the program's fields ----

  class Semaphore {
    const limit: nat
    var inFlight: int
    var waiting: seq<nat>
    var released: set<nat>
    var tickets: nat
    ghost var granted: seq<nat>

    constructor (limit: nat)
      ensures this.limit == limit && View() == Open
    {
      this.limit := limit;
      inFlight, waiting, released, tickets, granted := 0, [], {}, 0, [];
    }

    ghost function View(): Gate
      reads this
    {
      Gate(inFlight, waiting, granted, released, tickets)
    }

    /** `now` says whether the permit was given at once. */
    method Acquire() returns (ticket: nat, now: bool)
      modifies this
      ensures View() == Acquired(old(View()), limit)
      ensures ticket == old(tickets) && now == (old(inFlight) < limit)
    {
      ticket := tickets;
      tickets := tickets + 1;
      now := inFlight < limit;
      if now {
        inFlight := inFlight + 1;
        granted := granted + [ticket];
      } else {
        waiting := waiting + [ticket];
      }
    }

    method Release(ticket: nat)
      modifies this
      ensures View() == Released(old(View()), ticket)
    {
      if ticket in released {
        return;
      }
      released := released + {ticket};
      inFlight := inFlight - 1;
      if waiting != [] {
        var next := waiting[0];
        waiting := waiting[1..];
        inFlight := inFlight + 1;
        granted := granted + [next];
      }
    }
  }

  class ProbeService {
    const gate: Semaphore
    var inFlight: map<string, nat>
    ghost var ownerOf: map<nat, string>

    constructor (maxConcurrent: nat)
      ensures fresh(gate) && gate.limit == maxConcurrent && View() == Idle
    {
      gate := new Semaphore(maxConcurrent);
      inFlight, ownerOf := map[], map[];
    }

    ghost function View(): Service
      reads this, gate
    {
      Service(gate.View(), inFlight, ownerOf)
    }

    method RunProbe(agent: string) returns (ticket: nat)
      modifies this, gate
      ensures View() == Probed(old(View()), agent, gate.limit)
      ensures agent in inFlight && ticket == inFlight[agent]
    {
      if agent in inFlight {
        return inFlight[agent];
      }
      var now;
      ticket, now := gate.Acquire();
      inFlight := inFlight[agent := ticket];
      ownerOf := ownerOf[ticket := agent];
    }

    /** The probe's clean-up, whether it succeeded or threw. */
    method FinishProbe(agent: string)
      requires MayFinish(View(), agent)
      modifies this, gate
      ensures View() == Finished(old(View()), agent)
    {
      gate.Release(inFlight[agent]);
      inFlight := inFlight - {agent};
    }
  }
}
