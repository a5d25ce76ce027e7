/**
 Boot adoption: what a starting daemon does with the workers a previous boot left in a live state.
 */
module Adoption {
  import opened Wrappers
  import opened Envelopes

  predicate IsLive(s: WorkerState) {
    s == Starting || s == Ready || s == Running || s == RequiresAction
  }

  datatype Process = Process(pid: int, groupId: int, startedAt: string, fingerprint: Option<string>)

  datatype Orphan = Orphan(process: Process, reaped: bool, reapSkipped: Option<string>)

  datatype Lease = Lease(holder: Option<string>, epoch: int, expiresAt: Option<string>,
                         acquiredAt: Option<string>, pinned: bool)

  /** `leaderExited` and `treeGone` are the same answer here: whether the reap was proven. */
  datatype CloseResult = CloseResult(reason: CloseReason, leaderExited: bool, treeGone: bool, sessionClosed: bool)

  datatype CloseReason = Orphaned | OtherReason(name: string)

  datatype Row = Row(
    bootId: string, state: WorkerState, sessionId: Option<string>, resumeMethod: Option<string>,
    process: Option<Process>, currentTurnId: Option<string>, crashed: bool, closeReason: Option<CloseReason>,
    hibernatedAt: Option<string>, updatedAt: string, lease: Lease, orphan: Option<Orphan>, headSeq: nat,
    closeResult: Option<CloseResult>, closedAtMs: Option<int>)

  datatype Event =
    | ErrorEvent(turnId: Option<string>, previous: WorkerState, now: WorkerState)
    | StateEvent(state: WorkerState, previous: WorkerState, resumable: bool,
                 orphan: Option<Orphan>, proven: Option<bool>)
    | LeaseEvent(lease: Lease, holderBefore: Option<string>)
    | OtherEvent(text: string)

  datatype Stamped = Stamped(seqNo: nat, event: Event)

  /** A worker's log: `append` gives the next number after the head. */
  datatype Log = Log(head: nat, kept: seq<Stamped>)

  const NewLog: Log := Log(0, [])

  function Appended(log: Log, e: Event): Log {
    Log(log.head + 1, log.kept + [Stamped(log.head + 1, e)])
  }

  datatype State = State(rows: map<string, Row>, logs: map<string, Log>)

  /** What a boot brings: its id, its policy, the supervisor's answers (None when it threw), its clock. */
  datatype Boot = Boot(id: string, neverReap: bool, reap: Orphan -> Option<Orphan>,
                       nowMs: string -> int, iso: string -> string)

  datatype Tally = Tally(found: nat, reaped: nat, skipped: nat, hibernated: nat, closed: nat, orphans: seq<Orphan>)

  // ---- one row ----

  /** What is known of a process before anybody tries to reap it. */
  function Unreaped(process: Process): Orphan {
    Orphan(process, false, None)
  }

  /** The operator forbids reaping, or the supervisor threw. */
  predicate Unanswered(row: Row, boot: Boot)
    requires row.process.Some?
  {
    boot.neverReap || boot.reap(Unreaped(row.process.value)).None?
  }

  function Reaped(row: Row, boot: Boot): Option<Orphan> {
    if row.process.None? then None
    else
      var record := Unreaped(row.process.value);
      if boot.neverReap then Some(record.(reapSkipped := Some("policy")))
      else
        match boot.reap(record)
        case Some(answer) => Some(answer)
        case None => Some(record.(reapSkipped := Some("policy")))
  }

  predicate IsResumable(row: Row) {
    row.sessionId.Some? && row.resumeMethod.Some?
  }

  predicate IsProven(orphan: Option<Orphan>) {
    orphan.Some? && orphan.value.reaped
  }

  function TransferredLease(lease: Lease): Lease {
    Lease(None, lease.epoch + 1, None, None, false)
  }

  function Converged(row: Row): WorkerState {
    if IsResumable(row) then Hibernated else Closed
  }

  function LogOf(s: State, id: string): Log {
    if id in s.logs then s.logs[id] else NewLog
  }

  function AdoptedLog(log: Log, row: Row, orphan: Option<Orphan>): Log {
    var told := Appended(log, ErrorEvent(row.currentTurnId, row.state, Converged(row)));
    var moved := Appended(told, StateEvent(Converged(row), row.state, IsResumable(row), orphan,
                                           if IsResumable(row) then None else Some(IsProven(orphan))));
    Appended(moved, LeaseEvent(TransferredLease(row.lease), row.lease.holder))
  }

  function AdoptedRow(row: Row, orphan: Option<Orphan>, head: nat, bootId: string, nowMs: int, iso: string): Row {
    var closed := !IsResumable(row);
    row.(bootId := bootId, state := Converged(row), updatedAt := iso, process := None, currentTurnId := None,
         crashed := true, closeReason := if closed then Some(Orphaned) else row.closeReason,
         hibernatedAt := if closed then row.hibernatedAt else Some(iso),
         lease := TransferredLease(row.lease), orphan := orphan, headSeq := head,
         closeResult := if closed then Some(CloseResult(Orphaned, IsProven(orphan), IsProven(orphan), false)) else None,
         closedAtMs := if closed then Some(nowMs) else row.closedAtMs)
  }

  function Adopted(s: State, id: string, boot: Boot): State
    requires id in s.rows
  {
    var row := s.rows[id];
    var orphan := Reaped(row, boot);
    var log := AdoptedLog(LogOf(s, id), row, orphan);
    State(s.rows[id := AdoptedRow(row, orphan, log.head, boot.id, boot.nowMs(id), boot.iso(id))], s.logs[id := log])
  }

  function Counted(t: Tally, row: Row, orphan: Option<Orphan>): Tally {
    Tally(t.found + 1,
          if IsProven(orphan) then t.reaped + 1 else t.reaped,
          if orphan.Some? && !orphan.value.reaped then t.skipped + 1 else t.skipped,
          if IsResumable(row) then t.hibernated + 1 else t.hibernated,
          if IsResumable(row) then t.closed else t.closed + 1,
          if orphan.Some? then t.orphans + [orphan.value] else t.orphans)
  }

  // ---- one pass ----

  predicate IsAbandoned(s: State, id: string, bootId: string) {
    id in s.rows && s.rows[id].bootId != bootId && IsLive(s.rows[id].state)
  }

  /** The abandoned rows, in the order the store lists its rows in. */
  function AbandonedIn(s: State, order: seq<string>, bootId: string): seq<string> {
    if order == [] then []
    else
      var last := order[|order| - 1];
      AbandonedIn(s, order[..|order| - 1], bootId) + if IsAbandoned(s, last, bootId) then [last] else []
  }

  /** Every row is listed, once. */
  ghost predicate Lists(order: seq<string>, s: State) {
    && (forall i, j :: 0 <= i < j < |order| ==> order[i] != order[j])
    && (forall id :: id in order <==> id in s.rows)
  }

  function AdoptedAll(s: State, ids: seq<string>, boot: Boot): (r: State)
    requires forall id :: id in ids ==> id in s.rows
    ensures r.rows.Keys == s.rows.Keys
  {
    if ids == [] then s
    else
      assert forall id :: id in ids[..|ids| - 1] ==> id in s.rows;
      Adopted(AdoptedAll(s, ids[..|ids| - 1], boot), ids[|ids| - 1], boot)
  }

  function Tallied(s: State, ids: seq<string>, boot: Boot): Tally
    requires forall id :: id in ids ==> id in s.rows
  {
    if ids == [] then Tally(0, 0, 0, 0, 0, [])
    else
      var row := s.rows[ids[|ids| - 1]];
      assert forall id :: id in ids[..|ids| - 1] ==> id in s.rows;
      Counted(Tallied(s, ids[..|ids| - 1], boot), row, Reaped(row, boot))
  }

  lemma {:induction false} AbandonedAre(s: State, order: seq<string>, bootId: string)
    requires forall i, j :: 0 <= i < j < |order| ==> order[i] != order[j]
    ensures var ids := AbandonedIn(s, order, bootId);
            && (forall id :: id in ids <==> id in order && IsAbandoned(s, id, bootId))
            && (forall i, j :: 0 <= i < j < |ids| ==> ids[i] != ids[j])
    decreases |order|
  {
    if order != [] {
      var most := order[..|order| - 1];
      assert order == most + [order[|order| - 1]];
      AbandonedAre(s, most, bootId);
    }
  }

  lemma {:induction false} OthersUntouched(s: State, ids: seq<string>, boot: Boot, id: string)
    requires id !in ids && forall i :: i in ids ==> i in s.rows
    ensures var r := AdoptedAll(s, ids, boot);
            && (id in s.rows ==> id in r.rows && r.rows[id] == s.rows[id])
            && LogOf(r, id) == LogOf(s, id)
    decreases |ids|
  {
    if ids != [] {
      OthersUntouched(s, ids[..|ids| - 1], boot, id);
    }
  }

  lemma OneMoreAdopted(s: State, ids: seq<string>, k: nat, boot: Boot)
    requires forall id :: id in ids ==> id in s.rows
    requires forall i, j :: 0 <= i < j < |ids| ==> ids[i] != ids[j]
    requires k < |ids|
    ensures var before := AdoptedAll(s, ids[..k], boot);
            && before.rows.Keys == s.rows.Keys && ids[k] in before.rows && before.rows[ids[k]] == s.rows[ids[k]]
            && AdoptedAll(s, ids[..k + 1], boot) == Adopted(before, ids[k], boot)
    ensures Tallied(s, ids[..k + 1], boot) ==
            Counted(Tallied(s, ids[..k], boot), s.rows[ids[k]], Reaped(s.rows[ids[k]], boot))
  {
    assert ids[..k + 1][..k] == ids[..k];
    OthersUntouched(s, ids[..k], boot, ids[k]);
  }

  // ---- the daemon's disk and the pass itself ----

  class Recovery {
    var rows: map<string, Row>
    var logs: map<string, Log>

    function View(): State
      reads this
    {
      State(rows, logs)
    }

    /** Every process is reported, and only a supervisor that was asked and said so makes it reaped. */
    method ReapIfProven(row: Row, boot: Boot) returns (orphan: Option<Orphan>)
      ensures orphan == Reaped(row, boot)
      ensures orphan.None? <==> row.process.None?
      ensures IsProven(orphan) ==> !boot.neverReap && boot.reap(Unreaped(row.process.value)) == orphan
      ensures orphan.Some? && Unanswered(row, boot) ==>
                orphan.value == Unreaped(row.process.value).(reapSkipped := Some("policy"))
      ensures orphan.Some? && !Unanswered(row, boot) ==> boot.reap(Unreaped(row.process.value)) == orphan
    {
      if row.process.None? {
        return None;
      }
      var record := Unreaped(row.process.value);
      if boot.neverReap {
        return Some(record.(reapSkipped := Some("policy")));
      }
      var answer := boot.reap(record);
      orphan := if answer.Some? then answer else Some(record.(reapSkipped := Some("policy")));
    }

    method AdoptRow(id: string, orphan: Option<Orphan>, boot: Boot) returns (state: WorkerState)
      requires id in rows && orphan == Reaped(rows[id], boot)
      modifies this
      ensures View() == Adopted(old(View()), id, boot) && state == Converged(old(rows)[id])
    {
      var row := rows[id];
      var resumable := row.sessionId.Some? && row.resumeMethod.Some?;
      state := if resumable then Hibernated else Closed;
      var proven := orphan.Some? && orphan.value.reaped;
      var log := if id in logs then logs[id] else NewLog;
      log := Appended(log, ErrorEvent(row.currentTurnId, row.state, state));
      log := Appended(log, StateEvent(state, row.state, resumable, orphan, if resumable then None else Some(proven)));
      var lease := Lease(None, row.lease.epoch + 1, None, None, false);
      log := Appended(log, LeaseEvent(lease, row.lease.holder));
      logs := logs[id := log];
      rows := rows[id := AdoptedRow(row, orphan, log.head, boot.id, boot.nowMs(id), boot.iso(id))];
    }

    method Abandoned(order: seq<string>, bootId: string) returns (ids: seq<string>)
      ensures ids == AbandonedIn(View(), order, bootId)
    {
      ids := [];
      var i := 0;
      while i < |order|
        invariant i <= |order|
        invariant ids == AbandonedIn(View(), order[..i], bootId)
      {
        assert order[..i + 1][..i] == order[..i];
        if order[i] in rows && rows[order[i]].bootId != bootId && IsLive(rows[order[i]].state) {
          ids := ids + [order[i]];
        }
        i := i + 1;
      }
      assert order[..i] == order;
    }

    method Recover(order: seq<string>, boot: Boot) returns (tally: Tally)
      requires Lists(order, View())
      modifies this
      ensures var ids := AbandonedIn(old(View()), order, boot.id);
              && (forall id :: id in ids ==> id in old(View()).rows)
              && View() == AdoptedAll(old(View()), ids, boot)
              && tally == Tallied(old(View()), ids, boot)
    {
      var ids := Abandoned(order, boot.id);
      AbandonedAre(View(), order, boot.id);
      tally := AdoptEach(ids, boot);
    }

    method AdoptEach(ids: seq<string>, boot: Boot) returns (tally: Tally)
      requires forall id :: id in ids ==> id in rows
      requires forall i, j :: 0 <= i < j < |ids| ==> ids[i] != ids[j]
      modifies this
      ensures View() == AdoptedAll(old(View()), ids, boot) && tally == Tallied(old(View()), ids, boot)
    {
      ghost var was := View();
      tally := Tally(0, 0, 0, 0, 0, []);
      var k := 0;
      while k < |ids|
        invariant k <= |ids|
        invariant View() == AdoptedAll(was, ids[..k], boot)
        invariant tally == Tallied(was, ids[..k], boot)
      {
        OneMoreAdopted(was, ids, k, boot);
        tally := AdoptNext(ids[k], boot, tally);
        k := k + 1;
      }
      assert ids[..k] == ids;
    }

    method AdoptNext(id: string, boot: Boot, tally: Tally) returns (after: Tally)
      requires id in rows
      modifies this
      ensures View() == Adopted(old(View()), id, boot)
      ensures after == Counted(tally, old(rows)[id], Reaped(old(rows)[id], boot))
    {
      after := tally.(found := tally.found + 1);
      var orphan := ReapIfProven(rows[id], boot);
      if orphan.Some? {
        after := after.(orphans := after.orphans + [orphan.value]);
        if orphan.value.reaped {
          after := after.(reaped := after.reaped + 1);
        } else {
          after := after.(skipped := after.skipped + 1);
        }
      }
      var state := AdoptRow(id, orphan, boot);
      if state == Hibernated {
        after := after.(hibernated := after.hibernated + 1);
      } else {
        after := after.(closed := after.closed + 1);
      }
    }
  }
}
