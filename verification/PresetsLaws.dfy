/**
 What the daemon serves keeps its meaning on every run: a recorded name its server, the configuration its exact
 contents, the quota its bound. Memory and disk stay in step exactly as long as writing a record never fails after
 the record is in place; a record on disk changes its meaning exactly when such a leftover is registered again.
 */
module PresetsLaws {
  import opened Wrappers
  import opened Presets

  /** Memory, configuration and disk tell the same; static names are apart; the quota counts tombstones too. */
  ghost predicate InStep(s: State) {
    && s.presets == s.disk
    && s.config == Merged(s.staticServers, s.presets)
    && (forall name :: name in s.disk ==> name !in s.staticServers)
    && |s.presets| <= s.maxPresets
  }

  /** A mutation that passes its checks, writes its record, and is then told that writing failed. */
  predicate Diverges(s: State, t: Step) {
    match t
    case Register(allowed, name, server, _, persist) =>
      persist == StoredThenThrew && RegisterCheck(s, allowed, name, server) == Done
    case Remove(allowed, name, persist) =>
      persist == StoredThenThrew && RemoveCheck(s, allowed, name) == Done
    case _ => false
  }

  lemma OneMoreName(records: map<string, Record>, name: string, record: Record)
    requires name !in records
    ensures |records[name := record]| == |records| + 1
  {
    assert records[name := record].Keys == records.Keys + {name};
  }

  lemma PuttingKeepsStep(s: State, name: string, record: Record)
    requires InStep(s) && name !in s.staticServers && name !in s.presets
    requires |s.presets| < s.maxPresets && !record.deleted
    ensures InStep(s.(disk := s.disk[name := record], presets := s.presets[name := record],
                      config := s.config[name := record.server]))
  {
    MergedPuts(s.staticServers, s.presets, name, record);
    OneMoreName(s.presets, name, record);
  }

  lemma RegisterKeepsStep(s: State, allowed: bool, name: string, server: Option<string>,
                          createdAt: string, persist: Persist)
    requires InStep(s) && persist != StoredThenThrew
    ensures InStep(Registered(s, allowed, name, server, createdAt, persist))
  {
    if RegisterCheck(s, allowed, name, server) == Done && persist == Stored {
      PuttingKeepsStep(s, name, Record(server.GetOr(""), createdAt, false));
    }
  }

  lemma MergedDrops(staticServers: map<string, string>, records: map<string, Record>, name: string)
    requires name in records && name !in staticServers
    ensures Merged(staticServers, records[name := records[name].(deleted := true)]) ==
            Merged(staticServers, records) - {name}
  {
  }

  lemma SameNames(records: map<string, Record>, name: string, record: Record)
    requires name in records
    ensures |records[name := record]| == |records|
  {
    assert records[name := record].Keys == records.Keys;
  }

  lemma DroppingKeepsStep(s: State, name: string)
    requires InStep(s) && name !in s.staticServers && name in s.presets
    ensures var tombstone := s.presets[name].(deleted := true);
            InStep(s.(disk := s.disk[name := tombstone], presets := s.presets[name := tombstone],
                      config := s.config - {name}))
  {
    MergedDrops(s.staticServers, s.presets, name);
    SameNames(s.presets, name, s.presets[name].(deleted := true));
  }

  lemma RemoveKeepsStep(s: State, allowed: bool, name: string, persist: Persist)
    requires InStep(s) && persist != StoredThenThrew
    ensures InStep(Removed(s, allowed, name, persist))
  {
    if RemoveCheck(s, allowed, name) == Done && persist == Stored {
      DroppingKeepsStep(s, name);
    }
  }

  lemma DivergingParts(s: State, t: Step)
    requires s.presets == s.disk && Diverges(s, t)
    ensures Next(s, t).presets != Next(s, t).disk
  {
    var r := Next(s, t);
    if t.Register? {
      assert t.name in r.disk && t.name !in r.presets;
    } else {
      assert r.disk[t.name] != r.presets[t.name];
    }
  }

  lemma DivergingBreaksStep(s: State, t: Step)
    requires InStep(s) && Diverges(s, t)
    ensures !InStep(Next(s, t))
  {
    DivergingParts(s, t);
  }

  lemma RestKeepsStep(s: State, t: Step)
    requires InStep(s) && (t.Stop? || t.Restart?)
    ensures InStep(Next(s, t))
  {
    if t.Restart? {
      ReloadChangesNothing(s);
    }
  }

  lemma RefusedChangesNothing(s: State, t: Step)
    requires t.Register? || t.Remove?
    requires t.persist == StoredThenThrew && !Diverges(s, t)
    ensures Next(s, t) == s
  {
  }

  /** One step keeps everything in step if and only if it is not such a failure. */
  lemma StepKeepsStepExactlyWhen(s: State, t: Step)
    requires InStep(s)
    ensures InStep(Next(s, t)) <==> !Diverges(s, t)
  {
    if Diverges(s, t) {
      DivergingBreaksStep(s, t);
    } else {
      match t
      case Register(allowed, name, server, createdAt, persist) =>
        if persist == StoredThenThrew {
          RefusedChangesNothing(s, t);
        } else {
          RegisterKeepsStep(s, allowed, name, server, createdAt, persist);
        }
      case Remove(allowed, name, persist) =>
        if persist == StoredThenThrew {
          RefusedChangesNothing(s, t);
        } else {
          RemoveKeepsStep(s, allowed, name, persist);
        }
      case _ => RestKeepsStep(s, t);
    }
  }

  ghost predicate AlwaysInStep(s: State, ts: seq<Step>)
    decreases |ts|
  {
    InStep(s) && (ts == [] || AlwaysInStep(Next(s, ts[0]), ts[1..]))
  }

  predicate NeverDiverges(s: State, ts: seq<Step>)
    decreases |ts|
  {
    ts == [] || (!Diverges(s, ts[0]) && NeverDiverges(Next(s, ts[0]), ts[1..]))
  }

  /** Over registrations, removals, stops and restarts: in step at every moment if and only if no step diverges. */
  lemma {:induction false} InStepExactlyWhen(s: State, ts: seq<Step>)
    requires InStep(s)
    ensures AlwaysInStep(s, ts) <==> NeverDiverges(s, ts)
    decreases |ts|
  {
    if ts != [] {
      StepKeepsStepExactlyWhen(s, ts[0]);
      if InStep(Next(s, ts[0])) {
        InStepExactlyWhen(Next(s, ts[0]), ts[1..]);
      }
    }
  }

  /** Reloading from disk is always accepted and gives back what was in memory. */
  lemma ReloadChangesNothing(s: State)
    requires InStep(s)
    ensures MayLoad(s) && Loaded(s) == s.(stopped := false)
  {
  }

  /** A recorded name is never reused: same server, same birth, and deleted only ever becomes true. */
  ghost predicate KeepsMeaning(before: map<string, Record>, after: map<string, Record>) {
    forall name :: name in before ==> name in after && KeepsRecord(before[name], after[name])
  }

  predicate KeepsRecord(before: Record, after: Record) {
    after.server == before.server && after.createdAt == before.createdAt && (before.deleted ==> after.deleted)
  }

  lemma MeaningIsKeptOn(a: map<string, Record>, b: map<string, Record>, c: map<string, Record>)
    requires KeepsMeaning(a, b) && KeepsMeaning(b, c)
    ensures KeepsMeaning(a, c)
  {
  }

  // ---- what holds on every run, failed writes included ----

  /**
   The configuration is what static entries and records make together, no name on disk is static, the quota
   counts tombstones too, and everything in memory is backed by a record on disk that says no less.
   */
  ghost predicate Served(s: State) {
    && s.config == Merged(s.staticServers, s.presets)
    && (forall name :: name in s.disk ==> name !in s.staticServers)
    && |s.presets| <= s.maxPresets
    && KeepsMeaning(s.presets, s.disk)
  }

  lemma InStepIsServed(s: State)
    requires InStep(s)
    ensures Served(s)
  {
  }

  lemma BackedTogether(a: map<string, Record>, b: map<string, Record>, name: string, record: Record)
    requires KeepsMeaning(a, b)
    ensures KeepsMeaning(a[name := record], b[name := record])
  {
  }

  lemma BackedBeside(a: map<string, Record>, b: map<string, Record>, name: string, record: Record)
    requires KeepsMeaning(a, b) && (name in a ==> KeepsRecord(a[name], record))
    ensures KeepsMeaning(a, b[name := record])
  {
  }

  /** A record that reached the disk and not the memory leaves what is served alone. */
  lemma LeftoverIsServed(s: State, name: string, record: Record)
    requires Served(s) && name !in s.staticServers
    requires name in s.presets ==> KeepsRecord(s.presets[name], record)
    ensures Served(s.(disk := s.disk[name := record]))
  {
    BackedBeside(s.presets, s.disk, name, record);
  }

  lemma PuttingIsServed(s: State, name: string, record: Record)
    requires Served(s) && name !in s.staticServers && name !in s.presets
    requires |s.presets| < s.maxPresets && !record.deleted
    ensures Served(s.(disk := s.disk[name := record], presets := s.presets[name := record],
                      config := s.config[name := record.server]))
  {
    MergedPuts(s.staticServers, s.presets, name, record);
    OneMoreName(s.presets, name, record);
    BackedTogether(s.presets, s.disk, name, record);
    ServedBy(s.(disk := s.disk[name := record], presets := s.presets[name := record],
                config := s.config[name := record.server]));
  }

  lemma ServedBy(s: State)
    requires s.config == Merged(s.staticServers, s.presets) && KeepsMeaning(s.presets, s.disk)
    requires (forall name :: name in s.disk ==> name !in s.staticServers) && |s.presets| <= s.maxPresets
    ensures Served(s)
  {
  }

  lemma DroppingIsServed(s: State, name: string)
    requires Served(s) && name !in s.staticServers && name in s.presets
    ensures var tombstone := s.presets[name].(deleted := true);
            Served(s.(disk := s.disk[name := tombstone], presets := s.presets[name := tombstone],
                      config := s.config - {name}))
  {
    var tombstone := s.presets[name].(deleted := true);
    MergedDrops(s.staticServers, s.presets, name);
    SameNames(s.presets, name, tombstone);
    BackedTogether(s.presets, s.disk, name, tombstone);
    ServedBy(s.(disk := s.disk[name := tombstone], presets := s.presets[name := tombstone],
                config := s.config - {name}));
  }

  lemma RegisterIsServed(s: State, allowed: bool, name: string, server: Option<string>,
                         createdAt: string, persist: Persist)
    requires Served(s)
    ensures Served(Registered(s, allowed, name, server, createdAt, persist))
  {
    var record := Record(server.GetOr(""), createdAt, false);
    if RegisterCheck(s, allowed, name, server) == Done {
      if persist == Stored {
        PuttingIsServed(s, name, record);
      } else if persist == StoredThenThrew {
        LeftoverIsServed(s, name, record);
      }
    }
  }

  lemma RemoveIsServed(s: State, allowed: bool, name: string, persist: Persist)
    requires Served(s)
    ensures Served(Removed(s, allowed, name, persist))
  {
    if RemoveCheck(s, allowed, name) == Done {
      if persist == Stored {
        DroppingIsServed(s, name);
      } else if persist == StoredThenThrew {
        LeftoverIsServed(s, name, s.presets[name].(deleted := true));
      }
    }
  }

  /** Every step keeps it, whatever becomes of the write. */
  lemma StepIsServed(s: State, t: Step)
    requires Served(s)
    ensures Served(Next(s, t))
  {
    match t
    case Register(allowed, name, server, createdAt, persist) =>
      RegisterIsServed(s, allowed, name, server, createdAt, persist);
    case Remove(allowed, name, persist) => RemoveIsServed(s, allowed, name, persist);
    case Stop => ServedBy(Next(s, t));
    case Restart => RestartIsServed(s);
  }

  lemma RestartIsServed(s: State)
    requires Served(s)
    ensures Served(Next(s, Restart))
  {
    if MayLoad(s) {
      ServedBy(Loaded(s));
    } else {
      ServedBy(s.(stopped := true));
    }
  }

  lemma OneStepKeepsMeaning(s: State, t: Step)
    requires KeepsMeaning(s.presets, s.disk)
    ensures KeepsMeaning(s.presets, Next(s, t).presets)
  {
    match t
    case Register(_, _, _, _, _) =>
    case Remove(_, _, _) =>
    case _ =>
  }

  /**
   Main result: over registrations, removals, stops and restarts, however their writes end, a recorded name is
   never given another server and never comes back once deleted.
   */
  lemma {:induction false} NamesKeepTheirMeaning(s: State, ts: seq<Step>)
    requires Served(s)
    ensures KeepsMeaning(s.presets, After(s, ts).presets)
    ensures Served(After(s, ts))
    decreases |ts|
  {
    if ts != [] {
      var next := Next(s, ts[0]);
      StepIsServed(s, ts[0]);
      OneStepKeepsMeaning(s, ts[0]);
      NamesKeepTheirMeaning(next, ts[1..]);
      MeaningIsKeptOn(s.presets, next.presets, After(next, ts[1..]).presets);
    }
  }

  /** What the configuration offers a client: the static entries and the undeleted records, nothing else. */
  lemma ConfigurationIsExact(s: State, ts: seq<Step>, name: string)
    requires Served(s)
    ensures var r := After(s, ts);
            && (name in r.config <==> name in r.staticServers || (name in r.presets && !r.presets[name].deleted))
            && (name in r.staticServers ==> r.config[name] == r.staticServers[name])
            && (name in r.presets && !r.presets[name].deleted ==> r.config[name] == r.presets[name].server)
            && |r.presets| <= r.maxPresets
  {
    NamesKeepTheirMeaning(s, ts);
  }

  // ---- records on disk ----

  /** A registration that reaches the disk over a leftover: a record there that memory does not know. */
  predicate Rewrites(s: State, t: Step) {
    match t
    case Register(allowed, name, server, createdAt, persist) =>
      && RegisterCheck(s, allowed, name, server) == Done && persist != NotStored
      && name in s.disk && !KeepsRecord(s.disk[name], Record(server.GetOr(""), createdAt, false))
    case _ => false
  }

  /** One step keeps the meaning of every record on disk if and only if it does not rewrite a leftover. */
  lemma DiskKeepsMeaningExactlyWhen(s: State, t: Step)
    requires KeepsMeaning(s.presets, s.disk)
    ensures KeepsMeaning(s.disk, Next(s, t).disk) <==> !Rewrites(s, t)
  {
    match t
    case Register(allowed, name, server, createdAt, persist) =>
      if RegisterCheck(s, allowed, name, server) == Done && persist != NotStored {
        OneRecordDecides(s.disk, name, Record(server.GetOr(""), createdAt, false));
      }
    case Remove(allowed, name, persist) =>
      if RemoveCheck(s, allowed, name) == Done && persist != NotStored {
        OneRecordDecides(s.disk, name, s.presets[name].(deleted := true));
      }
    case _ =>
  }

  lemma OneRecordDecides(disk: map<string, Record>, name: string, record: Record)
    ensures KeepsMeaning(disk, disk[name := record]) <==> (name in disk ==> KeepsRecord(disk[name], record))
  {
    if name in disk && !KeepsRecord(disk[name], record) {
      assert !KeepsRecord(disk[name], disk[name := record][name]);
    }
  }

  /** Every step of the run keeps the meaning of what is on disk when it is taken. */
  ghost predicate DiskAlwaysKeeps(s: State, ts: seq<Step>)
    decreases |ts|
  {
    ts == [] || (KeepsMeaning(s.disk, Next(s, ts[0]).disk) && DiskAlwaysKeeps(Next(s, ts[0]), ts[1..]))
  }

  predicate NeverRewrites(s: State, ts: seq<Step>)
    decreases |ts|
  {
    ts == [] || (!Rewrites(s, ts[0]) && NeverRewrites(Next(s, ts[0]), ts[1..]))
  }

  /** Over a whole run, records on disk keep their meaning if and only if no leftover is rewritten. */
  lemma {:induction false} DiskAlwaysKeepsExactlyWhen(s: State, ts: seq<Step>)
    requires Served(s)
    ensures DiskAlwaysKeeps(s, ts) <==> NeverRewrites(s, ts)
    decreases |ts|
  {
    if ts != [] {
      StepIsServed(s, ts[0]);
      DiskKeepsMeaningExactlyWhen(s, ts[0]);
      DiskAlwaysKeepsExactlyWhen(Next(s, ts[0]), ts[1..]);
    }
  }

  /** A restart is refused only for too many records on disk, leftovers counted. */
  lemma RestartAcceptedExactlyWhen(s: State, ts: seq<Step>)
    requires Served(s)
    ensures MayLoad(After(s, ts)) <==> |After(s, ts).disk| <= After(s, ts).maxPresets
  {
    NamesKeepTheirMeaning(s, ts);
  }

  /** A daemon that starts with an empty store. */
  function EmptyStore(staticServers: map<string, string>, maxPresets: nat): State {
    State(staticServers, maxPresets, map[], staticServers, map[], false)
  }

  lemma EmptyStoreIsInStep(staticServers: map<string, string>, maxPresets: nat)
    ensures InStep(EmptyStore(staticServers, maxPresets))
  {
    MergedNothing(staticServers);
  }

  /** From there on, what was recorded at any moment keeps its meaning at every later one. */
  lemma MeaningIsKeptFromAnEmptyStore(staticServers: map<string, string>, maxPresets: nat,
                                      before: seq<Step>, later: seq<Step>)
    ensures var s := After(EmptyStore(staticServers, maxPresets), before);
            Served(s) && KeepsMeaning(s.presets, After(s, later).presets)
  {
    var start := EmptyStore(staticServers, maxPresets);
    EmptyStoreIsInStep(staticServers, maxPresets);
    InStepIsServed(start);
    NamesKeepTheirMeaning(start, before);
    NamesKeepTheirMeaning(After(start, before), later);
  }

  // ---- where it fails ----

  const Fresh: State := EmptyStore(map[], 1)

  /** The rename happened and the clean-up threw: the name can be registered again with another server. */
  lemma NameReusedAfterLateFailure()
    ensures InStep(Fresh)
    ensures var one := Next(Fresh, Register(true, "a", Some("x"), "", StoredThenThrew));
            var two := Next(one, Register(true, "a", Some("y"), "", Stored));
            one.disk == map["a" := Record("x", "", false)] && two.disk == map["a" := Record("y", "", false)]
  {
    EmptyStoreIsInStep(map[], 1);
  }

  /** And a quota counted in memory can be passed on disk, after which the daemon refuses to start. */
  lemma RestartRefusedAfterLateFailure()
    ensures InStep(Fresh)
    ensures var one := Next(Fresh, Register(true, "a", Some("x"), "", StoredThenThrew));
            var two := Next(one, Register(true, "b", Some("y"), "", Stored));
            two.disk.Keys == {"a", "b"} && !MayLoad(two)
  {
    EmptyStoreIsInStep(map[], 1);
    var one := Next(Fresh, Register(true, "a", Some("x"), "", StoredThenThrew));
    var two := Next(one, Register(true, "b", Some("y"), "", Stored));
    assert one == Fresh.(disk := map["a" := Record("x", "", false)]);
    assert two.disk.Keys == {"a", "b"};
    assert |two.disk.Keys| == 2;
  }
}
