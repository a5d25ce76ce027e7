/**
 Managed MCP presets: registered once, removed to a tombstone, kept on disk and mirrored in the configuration.

 Mutations go through one serial queue, so each is a single step. The disk is a map written by renames.
 */
module Presets {
  import opened Wrappers

  datatype Record = Record(server: string, createdAt: string, deleted: bool)

  /** How writing a record can end: written, not written, or written and then an error while cleaning up. */
  datatype Persist = Stored | NotStored | StoredThenThrew

  datatype Answer = Done | Forbidden | Conflict | QuotaReached | BadRequest | NotFound | StoreFailed

  datatype State = State(
    staticServers: map<string, string>, maxPresets: nat,
    presets: map<string, Record>, config: map<string, string>, disk: map<string, Record>, stopped: bool)

  // ---- the operations ----

  /** What is answered before anything is written. `server` is None when validating it throws. */
  function RegisterCheck(s: State, allowed: bool, name: string, server: Option<string>): Answer {
    if s.stopped || !allowed then Forbidden
    else if name in s.staticServers || name in s.presets then Conflict
    else if |s.presets| >= s.maxPresets then QuotaReached
    else if server.None? then BadRequest
    else Done
  }

  function Written(s: State, name: string, record: Record, persist: Persist): State {
    if persist == NotStored then s else s.(disk := s.disk[name := record])
  }

  function Registered(s: State, allowed: bool, name: string, server: Option<string>,
                      createdAt: string, persist: Persist): State {
    if RegisterCheck(s, allowed, name, server) != Done then s
    else
      var record := Record(server.GetOr(""), createdAt, false);
      var w := Written(s, name, record, persist);
      if persist == Stored
      then w.(presets := w.presets[name := record], config := w.config[name := record.server])
      else w
  }

  function RemoveCheck(s: State, allowed: bool, name: string): Answer {
    if s.stopped || !allowed then Forbidden
    else if name in s.staticServers then Conflict
    else if name !in s.presets || s.presets[name].deleted then NotFound
    else Done
  }

  function Removed(s: State, allowed: bool, name: string, persist: Persist): State {
    if RemoveCheck(s, allowed, name) != Done || name !in s.presets then s
    else
      var tombstone := s.presets[name].(deleted := true);
      var w := Written(s, name, tombstone, persist);
      if persist == Stored
      then w.(presets := w.presets[name := tombstone], config := w.config - {name})
      else w
  }

  predicate Offers(staticServers: map<string, string>, records: map<string, Record>, name: string) {
    name in staticServers || (name in records && !records[name].deleted)
  }

  /** The configuration that static entries and undeleted records make together. */
  function Merged(staticServers: map<string, string>, records: map<string, Record>): map<string, string> {
    map name | name in staticServers.Keys + records.Keys && Offers(staticServers, records, name) ::
      if name in records && !records[name].deleted then records[name].server
      else if name in staticServers then staticServers[name] else ""
  }

  /** What a starting daemon refuses. */
  predicate MayLoad(s: State) {
    (forall name :: name in s.disk ==> name !in s.staticServers) && |s.disk| <= s.maxPresets
  }

  function Loaded(s: State): State {
    s.(presets := s.disk, config := Merged(s.staticServers, s.disk), stopped := false)
  }

  function Answered(check: Answer, persist: Persist): Answer {
    if check == Done && persist != Stored then StoreFailed else check
  }

  // ---- runs ----

  datatype Step =
    | Register(allowed: bool, name: string, server: Option<string>, createdAt: string, persist: Persist)
    | Remove(allowed: bool, name: string, persist: Persist)
    | Stop
    | Restart

  /** A daemon that refuses to start stays down. */
  function Next(s: State, t: Step): State {
    match t
    case Register(allowed, name, server, createdAt, persist) => Registered(s, allowed, name, server, createdAt, persist)
    case Remove(allowed, name, persist) => Removed(s, allowed, name, persist)
    case Stop => s.(stopped := true)
    case Restart => if MayLoad(s) then Loaded(s) else s.(stopped := true)
  }

  function After(s: State, ts: seq<Step>): State
    decreases |ts|
  {
    if ts == [] then s else After(Next(s, ts[0]), ts[1..])
  }

  // ---- the program's fields ----

  class McpManagement {
    const staticServers: map<string, string>
    const maxPresets: nat
    var presets: map<string, Record>
    var config: map<string, string>
    var disk: map<string, Record>
    var stopped: bool

    constructor (staticServers: map<string, string>, maxPresets: nat)
      ensures View() == State(staticServers, maxPresets, map[], staticServers, map[], false)
    {
      this.staticServers, this.maxPresets := staticServers, maxPresets;
      presets, config, disk, stopped := map[], staticServers, map[], false;
    }

    function View(): State
      reads this
    {
      State(staticServers, maxPresets, presets, config, disk, stopped)
    }

    /** A temporary file renamed into place, then cleaned up; `ok` is false when any of it threw. */
    method PersistPreset(name: string, record: Record, persist: Persist) returns (ok: bool)
      modifies this`disk
      ensures View() == Written(old(View()), name, record, persist) && ok == (persist == Stored)
    {
      if persist != NotStored {
        disk := disk[name := record];
      }
      ok := persist == Stored;
    }

    method RegisterPreset(allowed: bool, name: string, server: Option<string>, createdAt: string, persist: Persist)
      returns (answer: Answer)
      modifies this
      ensures View() == Next(old(View()), Register(allowed, name, server, createdAt, persist))
      ensures answer == Answered(RegisterCheck(old(View()), allowed, name, server), persist)
    {
      if stopped || !allowed {
        return Forbidden;
      }
      if name in staticServers || name in presets {
        return Conflict;
      }
      if |presets| >= maxPresets {
        return QuotaReached;
      }
      if server.None? {
        return BadRequest;
      }
      var record := Record(server.value, createdAt, false);
      var ok := PersistPreset(name, record, persist);
      if !ok {
        return StoreFailed;
      }
      presets := presets[name := record];
      config := config[name := server.value];
      return Done;
    }

    method RemovePreset(allowed: bool, name: string, persist: Persist) returns (answer: Answer)
      modifies this
      ensures View() == Next(old(View()), Remove(allowed, name, persist))
      ensures answer == Answered(RemoveCheck(old(View()), allowed, name), persist)
    {
      if stopped || !allowed {
        return Forbidden;
      }
      if name in staticServers {
        return Conflict;
      }
      if name !in presets || presets[name].deleted {
        return NotFound;
      }
      var tombstone := presets[name].(deleted := true);
      var ok := PersistPreset(name, tombstone, persist);
      if !ok {
        return StoreFailed;
      }
      presets := presets[name := tombstone];
      config := config - {name};
      return Done;
    }

    method LoadOne(name: string)
      requires name in disk && name !in staticServers && name !in presets
      requires config == Merged(staticServers, presets)
      modifies this`presets, this`config
      ensures presets == old(presets)[name := disk[name]] && config == Merged(staticServers, presets)
    {
      MergedPuts(staticServers, presets, name, disk[name]);
      presets := presets[name := disk[name]];
      if !disk[name].deleted {
        config := config[name := disk[name].server];
      }
    }

    /** Start-up: reads every record, in the order the directory lists them, into empty maps. */
    method Load(files: seq<string>) returns (ok: bool)
      requires Lists(files, disk.Keys)
      modifies this`presets, this`config, this`stopped
      ensures ok == MayLoad(old(View()))
      ensures ok ==> View() == Next(old(View()), Restart)
    {
      presets, config, stopped := map[], staticServers, true;
      MergedNothing(staticServers);
      var i := 0;
      while i < |files|
        invariant i <= |files|
        invariant Apart(files[..i], staticServers)
        invariant presets == LoadedSome(disk, files[..i])
        invariant config == Merged(staticServers, presets)
      {
        ListedOnce(files, disk.Keys, i);
        if files[i] in staticServers {
          assert files[i] in disk;
          return false;
        }
        OneMoreLoaded(disk, files, i);
        ApartGrows(files, i, staticServers);
        LoadOne(files[i]);
        i := i + 1;
      }
      AllLoaded(disk, files, staticServers);
      assert presets == disk;
      ok := |presets| <= maxPresets;
      stopped := !ok;
    }
  }

  // ---- loading, part of the way ----

  /** Every name, once. */
  ghost predicate Lists(files: seq<string>, names: set<string>) {
    && (forall name :: name in files <==> name in names)
    && (forall i, j :: 0 <= i < j < |files| ==> files[i] != files[j])
  }

  ghost predicate Apart(files: seq<string>, staticServers: map<string, string>) {
    forall name :: name in files ==> name !in staticServers
  }

  lemma ListedOnce(files: seq<string>, names: set<string>, i: nat)
    requires Lists(files, names) && i < |files|
    ensures files[i] in names && files[i] !in files[..i]
  {
  }

  lemma ApartGrows(files: seq<string>, i: nat, staticServers: map<string, string>)
    requires i < |files| && Apart(files[..i], staticServers) && files[i] !in staticServers
    ensures Apart(files[..i + 1], staticServers)
  {
    assert files[..i + 1] == files[..i] + [files[i]];
  }

  lemma AllLoaded(disk: map<string, Record>, files: seq<string>, staticServers: map<string, string>)
    requires Lists(files, disk.Keys) && Apart(files[..|files|], staticServers)
    ensures LoadedSome(disk, files[..|files|]) == disk
    ensures forall name :: name in disk ==> name !in staticServers
  {
    assert files[..|files|] == files;
  }

  lemma MergedNothing(staticServers: map<string, string>)
    ensures Merged(staticServers, map[]) == staticServers
  {
  }

  function LoadedSome(disk: map<string, Record>, done: seq<string>): map<string, Record> {
    map name | name in disk && name in done :: disk[name]
  }

  lemma OneMoreLoaded(disk: map<string, Record>, files: seq<string>, i: nat)
    requires i < |files| && files[i] in disk
    ensures LoadedSome(disk, files[..i + 1]) == LoadedSome(disk, files[..i])[files[i] := disk[files[i]]]
  {
    assert files[..i + 1] == files[..i] + [files[i]];
  }

  /** A new name adds its server, or nothing when it is a tombstone. */
  lemma MergedPuts(staticServers: map<string, string>, records: map<string, Record>, name: string, record: Record)
    requires name !in staticServers && name !in records
    ensures Merged(staticServers, records[name := record]) ==
            (if record.deleted then Merged(staticServers, records)
             else Merged(staticServers, records)[name := record.server])
  {
    var before, after := Merged(staticServers, records), Merged(staticServers, records[name := record]);
    assert after.Keys == before.Keys + if record.deleted then {} else {name};
  }
}
