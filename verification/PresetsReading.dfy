/**
 The records and the answers of MCP management, read off the operations of a run.
 */
module PresetsReading {
  import opened Wrappers
  import opened Presets
  import opened PresetsLaws

  function Look(records: map<string, Record>, name: string): Option<Record> {
    if name in records then Some(records[name]) else None
  }

  lemma {:induction false} AfterLast(s: State, ts: seq<Step>)
    requires ts != []
    ensures After(s, ts) == Next(After(s, ts[..|ts| - 1]), ts[|ts| - 1])
    decreases |ts|
  {
    if |ts| == 1 {
      assert ts[..0] == [] && ts[1..] == [];
    } else {
      AfterLast(Next(s, ts[0]), ts[1..]);
      assert ts[1..][..|ts| - 2] == ts[..|ts| - 1][1..];
    }
  }

  // ---- who is answered what ----

  predicate MayMutate(s: State, allowed: bool) {
    !s.stopped && allowed
  }

  /** The name is in use or was: static entries, records and tombstones all count. */
  predicate IsTaken(s: State, name: string) {
    name in s.staticServers || name in s.presets
  }

  predicate PassesRegistration(s: State, allowed: bool, name: string, server: Option<string>) {
    MayMutate(s, allowed) && !IsTaken(s, name) && |s.presets| < s.maxPresets && server.Some?
  }

  predicate PassesRemoval(s: State, allowed: bool, name: string) {
    && MayMutate(s, allowed) && name !in s.staticServers
    && name in s.presets && !s.presets[name].deleted
  }

  /** Every answer to a registration, exactly when: by role, by name, by quota, by server, by disk, in that order. */
  lemma RegistrationAnswers(s: State, allowed: bool, name: string, server: Option<string>, persist: Persist)
    ensures var a := Answered(RegisterCheck(s, allowed, name, server), persist);
            && (a == Forbidden <==> !MayMutate(s, allowed))
            && (a == Conflict <==> MayMutate(s, allowed) && IsTaken(s, name))
            && (a == QuotaReached <==> MayMutate(s, allowed) && !IsTaken(s, name) && |s.presets| >= s.maxPresets)
            && (a == BadRequest <==>
                MayMutate(s, allowed) && !IsTaken(s, name) && |s.presets| < s.maxPresets && server.None?)
            && (a == StoreFailed <==> PassesRegistration(s, allowed, name, server) && persist != Stored)
            && (a == Done <==> PassesRegistration(s, allowed, name, server) && persist == Stored)
            && a != NotFound
  {
  }

  /** And to a removal. */
  lemma RemovalAnswers(s: State, allowed: bool, name: string, persist: Persist)
    ensures var a := Answered(RemoveCheck(s, allowed, name), persist);
            && (a == Forbidden <==> !MayMutate(s, allowed))
            && (a == Conflict <==> MayMutate(s, allowed) && name in s.staticServers)
            && (a == NotFound <==> MayMutate(s, allowed) && name !in s.staticServers
                                   && (name !in s.presets || s.presets[name].deleted))
            && (a == StoreFailed <==> PassesRemoval(s, allowed, name) && persist != Stored)
            && (a == Done <==> PassesRemoval(s, allowed, name) && persist == Stored)
            && a != QuotaReached && a != BadRequest
  {
  }

  // ---- what is recorded ----

  /** The daemon comes up: no record collides with a static entry, and the records are within the quota. */
  predicate ComesUp(s: State) {
    (forall name :: name in s.disk ==> name !in s.staticServers) && |s.disk| <= s.maxPresets
  }

  /** What the step makes the record of this name, in memory or on disk, if anything. */
  function RecordMade(s: State, t: Step, name: string): Option<Record> {
    match t
    case Register(allowed, n, server, createdAt, _) =>
      if n == name && PassesRegistration(s, allowed, n, server)
      then Some(Record(server := server.value, createdAt := createdAt, deleted := false)) else None
    case Remove(allowed, n, _) =>
      if n == name && PassesRemoval(s, allowed, n)
      then Some(Record(server := s.presets[n].server, createdAt := s.presets[n].createdAt, deleted := true)) else None
    case _ => None
  }

  function PersistOf(t: Step): Persist {
    match t
    case Register(_, _, _, _, persist) => persist
    case Remove(_, _, persist) => persist
    case _ => NotStored
  }

  /** The last record that reached the disk. */
  function LastWritten(s: State, ts: seq<Step>, name: string): Option<Record> {
    if ts == [] then Look(s.disk, name)
    else
      var front, t := ts[..|ts| - 1], ts[|ts| - 1];
      var made := RecordMade(After(s, front), t, name);
      if made.Some? && PersistOf(t) in {Stored, StoredThenThrew} then made else LastWritten(s, front, name)
  }

  /** The last record that a mutation answered as done, or what a restart found on disk. */
  function LastKept(s: State, ts: seq<Step>, name: string): Option<Record> {
    if ts == [] then Look(s.presets, name)
    else
      var front, t := ts[..|ts| - 1], ts[|ts| - 1];
      var made := RecordMade(After(s, front), t, name);
      if made.Some? && PersistOf(t) == Stored then made
      else if t == Restart && ComesUp(After(s, front)) then LastWritten(s, front, name)
      else LastKept(s, front, name)
  }

  /** Whether it is up: since its last stop, or since a restart that failed, it is not. */
  predicate IsDown(s: State, ts: seq<Step>) {
    if ts == [] then s.stopped
    else
      var front, t := ts[..|ts| - 1], ts[|ts| - 1];
      if t == Stop then true else if t == Restart then !ComesUp(After(s, front)) else IsDown(s, front)
  }

  /** What one step leaves of a name's record on disk, of the one in memory, and whether the daemon is down then. */
  ghost predicate IsStepRead(s: State, t: Step, name: string, r: State) {
    var made := RecordMade(s, t, name);
    && Look(r.disk, name) ==
       (if made.Some? && PersistOf(t) in {Stored, StoredThenThrew} then made else Look(s.disk, name))
    && Look(r.presets, name) ==
       (if made.Some? && PersistOf(t) == Stored then made
        else if t == Restart && ComesUp(s) then Look(s.disk, name) else Look(s.presets, name))
    && r.stopped == (if t == Stop then true else if t == Restart then !ComesUp(s) else s.stopped)
    && r.staticServers == s.staticServers && r.maxPresets == s.maxPresets
  }

  lemma RegisterIsRead(s: State, t: Step, name: string)
    requires t.Register?
    ensures IsStepRead(s, t, name, Next(s, t))
  {
    RegistrationAnswers(s, t.allowed, t.name, t.server, t.persist);
  }

  lemma RemoveIsRead(s: State, t: Step, name: string)
    requires t.Remove?
    ensures IsStepRead(s, t, name, Next(s, t))
  {
    RemovalAnswers(s, t.allowed, t.name, t.persist);
  }

  lemma StepIsRead(s: State, t: Step, name: string)
    ensures IsStepRead(s, t, name, Next(s, t))
  {
    match t
    case Register(_, _, _, _, _) => RegisterIsRead(s, t, name);
    case Remove(_, _, _) => RemoveIsRead(s, t, name);
    case _ =>
  }

  /**
   Main result: over every run, failed writes and restarts included, each record on disk and in memory is the last
   one that got there, and the daemon is down exactly when it was stopped or could not load.
   */
  lemma {:induction false} RecordsAreRead(s: State, ts: seq<Step>, name: string)
    ensures var r := After(s, ts);
            && Look(r.disk, name) == LastWritten(s, ts, name)
            && Look(r.presets, name) == LastKept(s, ts, name)
            && r.stopped == IsDown(s, ts)
            && r.staticServers == s.staticServers && r.maxPresets == s.maxPresets
    decreases |ts|
  {
    if ts != [] {
      RecordsAreRead(s, ts[..|ts| - 1], name);
      AfterLast(s, ts);
      StepIsRead(After(s, ts[..|ts| - 1]), ts[|ts| - 1], name);
    }
  }

  /** What a client is offered under a name, after any run: its static entry, or its last kept record if not deleted. */
  lemma OffersAreRead(s: State, ts: seq<Step>, name: string)
    requires Served(s)
    ensures var config, kept := After(s, ts).config, LastKept(s, ts, name);
            if name in s.staticServers then name in config && config[name] == s.staticServers[name]
            else if kept.Some? && !kept.value.deleted then name in config && config[name] == kept.value.server
            else name !in config
  {
    RecordsAreRead(s, ts, name);
    ConfigurationIsExact(s, ts, name);
  }
}
