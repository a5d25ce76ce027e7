/**
 The worker registry's accounting: who holds a `maxWorkers` slot, daemon-wide and per token.

 `State` and its functions are the specification; class `Registry` holds the fields the program
 updates. Steps are the stretches of code between two awaits, so a sequence of steps is one
 interleaving of everything the daemon is doing.
 */
module Slots {
  import opened Wrappers
  import opened Envelopes

  datatype Held = Held(owner: string, live: bool, state: WorkerState)

  /** How far a `wake()` call has got: it has its slot, or the worker has begun to start. */
  datatype WakePhase = Reserved | StartSeen

  datatype State = State(
    liveTotal: int,
    perToken: map<string, int>,
    entries: map<string, Held>,
    // calls in progress: reservations of creations that have no entry yet, and pending wakes
    creating: map<nat, string>,
    lost: set<nat>,
    waking: map<string, WakePhase>)

  const Empty: State := State(0, map[], map[], map[], {}, map[])

  predicate Occupies(s: WorkerState) {
    s == Starting || s == Ready || s == Running || s == RequiresAction
  }

  function CountOf(perToken: map<string, int>, token: string): int {
    if token in perToken then perToken[token] else 0
  }

  // ---- the four slot operations ----

  predicate MayReserve(s: State, token: string, tokenMax: int, max: int) {
    s.liveTotal < max && CountOf(s.perToken, token) < tokenMax
  }

  /** One more charged to the token. */
  function Bumped(perToken: map<string, int>, token: string): map<string, int> {
    perToken[token := CountOf(perToken, token) + 1]
  }

  /** One less; a count that would reach zero is not stored. */
  function Dropped(perToken: map<string, int>, token: string): map<string, int> {
    if CountOf(perToken, token) <= 1 then perToken - {token} else perToken[token := CountOf(perToken, token) - 1]
  }

  function TookSlot(s: State, token: string): State {
    s.(liveTotal := s.liveTotal + 1, perToken := Bumped(s.perToken, token))
  }

  function GaveSlot(s: State, token: string): State {
    s.(liveTotal := if s.liveTotal - 1 > 0 then s.liveTotal - 1 else 0, perToken := Dropped(s.perToken, token))
  }

  function WithLive(s: State, w: string, live: bool): State
    requires w in s.entries
  {
    s.(entries := s.entries[w := s.entries[w].(live := live)])
  }

  /** `release`: a second release of the same entry does nothing. */
  function Released(s: State, w: string): State
    requires w in s.entries
  {
    if !s.entries[w].live then s else GaveSlot(WithLive(s, w, false), s.entries[w].owner)
  }

  /** `reacquire`: no limit is checked. */
  function Reacquired(s: State, w: string): State
    requires w in s.entries
  {
    if s.entries[w].live then s else TookSlot(WithLive(s, w, true), s.entries[w].owner)
  }

  /** The owner's quota is checked only when the owner asks. */
  predicate MayWake(s: State, w: string, caller: string, callerMax: int, max: int)
    requires w in s.entries
  {
    || s.entries[w].live
    || (s.liveTotal < max && (caller == s.entries[w].owner ==> CountOf(s.perToken, caller) < callerMax))
  }

  function ReservedForWake(s: State, w: string, caller: string, callerMax: int, max: int): State
    requires w in s.entries
  {
    if MayWake(s, w, caller, callerMax, max) then Reacquired(s, w) else s
  }

  // ---- steps ----

  datatype Step =
    | CreateBegins(call: nat, token: string, tokenMax: int)
    | CreateThrows(call: nat)
    | CreateFails(call: nat)
    | CreateSucceeds(call: nat, worker: string, state: WorkerState)
    | Rehydrates(worker: string, owner: string, state: WorkerState)
    | Moves(worker: string, to: WorkerState)
    | CloseSettles(worker: string)
    | WakeBegins(worker: string, caller: string, callerMax: int)
    | WakeReturns(worker: string, failed: bool)

  /** Which step can come next. A call is known by a number of its own; a worker id is used once. */
  predicate Enabled(s: State, t: Step) {
    match t
    case CreateBegins(c, _, _) => c !in s.creating
    case CreateThrows(c) => c in s.creating && c !in s.lost
    case CreateFails(c) => c in s.creating && c !in s.lost
    case CreateSucceeds(c, w, _) => c in s.creating && c !in s.lost && w !in s.entries
    case Rehydrates(w, _, _) => w !in s.entries
    case Moves(w, to) => w in s.entries
    case CloseSettles(w) => w in s.entries
    case WakeBegins(w, _, _) => w in s.entries && s.entries[w].state == Hibernated
    case WakeReturns(w, _) => w in s.entries
  }

  function Next(s: State, t: Step, max: int): State
    requires Enabled(s, t)
  {
    match t
    case CreateBegins(c, token, tokenMax) =>
      if MayReserve(s, token, tokenMax, max) then TookSlot(s, token).(creating := s.creating[c := token]) else s
    case CreateThrows(c) => s.(lost := s.lost + {c})
    case CreateFails(c) => GaveSlot(s, s.creating[c]).(creating := s.creating - {c})
    case CreateSucceeds(c, w, state) =>
      s.(entries := s.entries[w := Held(s.creating[c], true, state)], creating := s.creating - {c})
    case Rehydrates(w, owner, state) =>
      var g := s.(entries := s.entries[w := Held(owner, false, state)]);
      if Occupies(state) then Reacquired(g, w) else g
    case Moves(w, to) =>
      var g := s.(entries := s.entries[w := s.entries[w].(state := to)],
                  waking := if w in s.waking && Occupies(to) then s.waking[w := StartSeen] else s.waking);
      if to == Hibernated then Released(g, w)
      else if Occupies(to) then Reacquired(g, w)
      else g
    case CloseSettles(w) => Released(s, w)
    case WakeBegins(w, caller, callerMax) =>
      var g := ReservedForWake(s, w, caller, callerMax, max);
      if MayWake(s, w, caller, callerMax, max) then g.(waking := g.waking[w := Reserved]) else g
    case WakeReturns(w, failed) =>
      var g := if failed && s.entries[w].state == Hibernated then Released(s, w) else s;
      g.(waking := g.waking - {w})
  }

  /** The steps can be taken one after the other. */
  predicate IsRun(s: State, ts: seq<Step>, max: int)
    decreases |ts|
  {
    ts == [] || (Enabled(s, ts[0]) && IsRun(Next(s, ts[0], max), ts[1..], max))
  }

  function After(s: State, ts: seq<Step>, max: int): State
    requires IsRun(s, ts, max)
    decreases |ts|
  {
    if ts == [] then s else After(Next(s, ts[0], max), ts[1..], max)
  }

  // ---- the fields the program updates ----

  class Entry {
    const id: string
    const ownerTokenId: string
    var live: bool
    var state: WorkerState

    constructor (id: string, owner: string, live: bool, state: WorkerState)
      ensures this.id == id && ownerTokenId == owner && this.live == live && this.state == state
    {
      this.id, ownerTokenId, this.live, this.state := id, owner, live, state;
    }

    function View(): Held
      reads this
    {
      Held(ownerTokenId, live, state)
    }
  }

  class Registry {
    const maxWorkers: int
    var entries: map<string, Entry>
    var perToken: map<string, int>
    var liveTotal: int

    constructor (maxWorkers: int)
      ensures Valid() && this.maxWorkers == maxWorkers && entries == map[] && perToken == map[] && liveTotal == 0
    {
      this.maxWorkers := maxWorkers;
      entries, perToken, liveTotal := map[], map[], 0;
    }

    /** Every entry is filed under its own id, so no two of them are the same object. */
    predicate Valid()
      reads this, entries.Values
    {
      forall w :: w in entries ==> entries[w].id == w
    }

    function EntriesView(): map<string, Held>
      reads this, entries.Values
    {
      map w | w in entries :: entries[w].View()
    }

    /** The accounting as a value; calls in progress live in their own frames and are the caller's to name. */
    function View(creating: map<nat, string>, lost: set<nat>, waking: map<string, WakePhase>): State
      reads this, entries.Values
    {
      State(liveTotal, perToken, EntriesView(), creating, lost, waking)
    }

    method Reserve(token: string, tokenMax: int) returns (ok: bool)
      requires Valid()
      modifies this`liveTotal, this`perToken
      ensures Valid()
      ensures forall c, l, k :: ok <==> MayReserve(old(View(c, l, k)), token, tokenMax, maxWorkers)
      ensures forall c, l, k :: View(c, l, k) == if ok then TookSlot(old(View(c, l, k)), token) else old(View(c, l, k))
    {
      if liveTotal >= maxWorkers {
        return false;
      }
      var mine := if token in perToken then perToken[token] else 0;
      if mine >= tokenMax {
        return false;
      }
      liveTotal := liveTotal + 1;
      perToken := perToken[token := mine + 1];
      ok := true;
    }

    /** `release(tokenId, null)`: the reservation of a creation that failed. */
    method ReleaseReservation(token: string)
      requires Valid()
      modifies this`liveTotal, this`perToken
      ensures Valid()
      ensures forall c, l, k :: View(c, l, k) == GaveSlot(old(View(c, l, k)), token)
    {
      liveTotal := if liveTotal - 1 > 0 then liveTotal - 1 else 0;
      var mine := if token in perToken then perToken[token] else 0;
      if mine <= 1 {
        perToken := perToken - {token};
      } else {
        perToken := perToken[token := mine - 1];
      }
    }

    /** `release(tokenId, entry)`. */
    method Release(entry: Entry)
      requires Valid() && entry.id in entries && entries[entry.id] == entry
      modifies this`liveTotal, this`perToken, entry`live
      ensures Valid()
      ensures forall c, l, k :: View(c, l, k) == Released(old(View(c, l, k)), entry.id)
    {
      if !entry.live {
        return;
      }
      entry.live := false;
      ReleaseReservation(entry.ownerTokenId);
      assert EntriesView() == old(EntriesView())[entry.id := old(entry.View()).(live := false)];
    }

    /** The entry becomes live and its owner is charged. */
    method TakeSlot(entry: Entry)
      requires Valid() && entry.id in entries && entries[entry.id] == entry && !entry.live
      modifies this`liveTotal, this`perToken, entry`live
      ensures Valid()
      ensures forall c, l, k :: View(c, l, k) == Reacquired(old(View(c, l, k)), entry.id)
    {
      entry.live := true;
      liveTotal := liveTotal + 1;
      var mine := if entry.ownerTokenId in perToken then perToken[entry.ownerTokenId] else 0;
      perToken := perToken[entry.ownerTokenId := mine + 1];
      assert EntriesView() == old(EntriesView())[entry.id := old(entry.View()).(live := true)];
    }

    method Reacquire(entry: Entry)
      requires Valid() && entry.id in entries && entries[entry.id] == entry
      modifies this`liveTotal, this`perToken, entry`live
      ensures Valid()
      ensures forall c, l, k :: View(c, l, k) == Reacquired(old(View(c, l, k)), entry.id)
    {
      if entry.live {
        return;
      }
      TakeSlot(entry);
    }

    method ReserveForWake(entry: Entry, caller: string, callerMax: int) returns (ok: bool)
      requires Valid() && entry.id in entries && entries[entry.id] == entry
      modifies this`liveTotal, this`perToken, entry`live
      ensures Valid()
      ensures forall c, l, k :: ok <==> MayWake(old(View(c, l, k)), entry.id, caller, callerMax, maxWorkers)
      ensures forall c, l, k ::
        View(c, l, k) == ReservedForWake(old(View(c, l, k)), entry.id, caller, callerMax, maxWorkers)
    {
      if entry.live {
        return true;
      }
      if liveTotal >= maxWorkers {
        return false;
      }
      var mine := if entry.ownerTokenId in perToken then perToken[entry.ownerTokenId] else 0;
      if caller == entry.ownerTokenId && mine >= callerMax {
        return false;
      }
      TakeSlot(entry);
      ok := true;
    }

    /** The state listener that every entry gets. */
    method OnStateChange(entry: Entry, to: WorkerState,
                         ghost c: map<nat, string>, ghost l: set<nat>, ghost k: map<string, WakePhase>)
      requires Valid() && entry.id in entries && entries[entry.id] == entry
      modifies this`liveTotal, this`perToken, entry
      ensures Valid()
      ensures var s := Next(old(View(c, l, k)), Moves(entry.id, to), maxWorkers); View(c, l, s.waking) == s
    {
      entry.state := to;
      assert EntriesView() == old(EntriesView())[entry.id := old(entry.View()).(state := to)];
      if to == Hibernated {
        Release(entry);
      } else if Occupies(to) {
        Reacquire(entry);
      }
    }

    /** The end of a successful `create`: the reservation becomes a live entry. */
    method AddCreated(id: string, token: string, state: WorkerState) returns (entry: Entry)
      requires Valid() && id !in entries
      modifies this`entries
      ensures Valid() && fresh(entry) && entries == old(entries)[id := entry]
      ensures EntriesView() == old(EntriesView())[id := Held(token, true, state)]
    {
      entry := new Entry(id, token, true, state);
      entries := entries[id := entry];
      assert EntriesView() == old(EntriesView())[id := Held(token, true, state)];
    }

    method Rehydrate(id: string, owner: string, state: WorkerState) returns (entry: Entry)
      requires Valid() && id !in entries
      modifies this`entries, this`liveTotal, this`perToken
      ensures Valid() && fresh(entry) && entries == old(entries)[id := entry]
      ensures forall c, l, k :: View(c, l, k) == Next(old(View(c, l, k)), Rehydrates(id, owner, state), maxWorkers)
    {
      entry := new Entry(id, owner, false, state);
      entries := entries[id := entry];
      assert EntriesView() == old(EntriesView())[id := Held(owner, false, state)];
      if Occupies(state) {
        Reacquire(entry);
      }
    }
  }
}
