/**
 Boot adoption converges, counts honestly, touches nothing else, and is idempotent.
 */
module AdoptionLaws {
  import opened Wrappers
  import opened Envelopes
  import opened Adoption

  /** The state a pass leaves. */
  ghost function Passed(s: State, order: seq<string>, boot: Boot): State
    requires Lists(order, s)
  {
    AbandonedAre(s, order, boot.id);
    AdoptedAll(s, AbandonedIn(s, order, boot.id), boot)
  }

  // ---- what becomes of one row ----

  /** There is a session to wake and a way to ask for it. */
  predicate CanWake(row: Row) {
    row.sessionId != None && row.resumeMethod != None
  }

  /** The supervisor was allowed to reap the row's process, and answered that it did. */
  predicate WasReaped(row: Row, boot: Boot) {
    match row.process
    case None => false
    case Some(p) =>
      var answer := boot.reap(Orphan(p, false, None));
      !boot.neverReap && answer.Some? && answer.value.reaped
  }

  /** What is reported of the row's process: the supervisor's answer, or that policy left it alone. */
  function Report(row: Row, boot: Boot): Option<Orphan> {
    match row.process
    case None => None
    case Some(p) =>
      var answer := boot.reap(Orphan(p, false, None));
      if boot.neverReap || answer == None then Some(Orphan(p, false, Some("policy"))) else answer
  }

  /** The three envelopes, at the next three numbers: what broke, what became of the worker, who lost the lease. */
  function Told(before: Row, from: nat, boot: Boot): seq<Stamped> {
    var now := if CanWake(before) then Hibernated else Closed;
    [Stamped(from + 1, ErrorEvent(turnId := before.currentTurnId, previous := before.state, now := now)),
     Stamped(from + 2, StateEvent(state := now, previous := before.state, resumable := CanWake(before),
                                  orphan := Report(before, boot),
                                  proven := if CanWake(before) then None else Some(WasReaped(before, boot)))),
     Stamped(from + 3, LeaseEvent(lease := Lease(None, before.lease.epoch + 1, None, None, false),
                                  holderBefore := before.lease.holder))]
  }

  /** The row as it is left: no process, no turn, a lease nobody holds, and either asleep or closed for good. */
  function LeftAs(before: Row, head: nat, boot: Boot, id: string): Row {
    var gone := WasReaped(before, boot);
    Row(
      bootId := boot.id, state := if CanWake(before) then Hibernated else Closed,
      sessionId := before.sessionId, resumeMethod := before.resumeMethod,
      process := None, currentTurnId := None, crashed := true,
      closeReason := if CanWake(before) then before.closeReason else Some(Orphaned),
      hibernatedAt := if CanWake(before) then Some(boot.iso(id)) else before.hibernatedAt,
      updatedAt := boot.iso(id), lease := Lease(None, before.lease.epoch + 1, None, None, false),
      orphan := Report(before, boot), headSeq := head + 3,
      closeResult := if CanWake(before) then None
                     else Some(CloseResult(reason := Orphaned, leaderExited := gone, treeGone := gone,
                                           sessionClosed := false)),
      closedAtMs := if CanWake(before) then before.closedAtMs else Some(boot.nowMs(id)))
  }

  ghost predicate AdoptedRightly(id: string, before: Row, log: Log, after: Row, grown: Log, boot: Boot) {
    grown == Log(log.head + 3, log.kept + Told(before, log.head, boot)) && after == LeftAs(before, log.head, boot, id)
  }

  lemma ReportsAreRead(row: Row, boot: Boot)
    ensures Reaped(row, boot) == Report(row, boot) && IsProven(Reaped(row, boot)) == WasReaped(row, boot)
  {
  }

  lemma AdoptingIsRight(s: State, id: string, boot: Boot)
    requires id in s.rows
    ensures var r := Adopted(s, id, boot); AdoptedRightly(id, s.rows[id], LogOf(s, id), r.rows[id], LogOf(r, id), boot)
  {
    var row, log := s.rows[id], LogOf(s, id);
    ReportsAreRead(row, boot);
    assert LogOf(Adopted(s, id, boot), id).kept == log.kept + Told(row, log.head, boot);
  }

  lemma {:induction false} EachIsAdopted(s: State, ids: seq<string>, boot: Boot, id: string)
    requires forall i :: i in ids ==> i in s.rows
    requires forall i, j :: 0 <= i < j < |ids| ==> ids[i] != ids[j]
    requires id in ids
    ensures var r := AdoptedAll(s, ids, boot);
            AdoptedRightly(id, s.rows[id], LogOf(s, id), r.rows[id], LogOf(r, id), boot)
    decreases |ids|
  {
    var most, last := ids[..|ids| - 1], ids[|ids| - 1];
    assert ids == most + [last];
    assert forall i :: i in most ==> i in s.rows;
    var r := AdoptedAll(s, most, boot);
    if id == last {
      OthersUntouched(s, most, boot, id);
      AdoptingIsRight(r, id, boot);
    } else {
      EachIsAdopted(s, most, boot, id);
      assert LogOf(Adopted(r, last, boot), id) == LogOf(r, id);
    }
  }

  /**
   One pass: every abandoned row is adopted rightly, every other row and log is as it was, and no row of
   another boot is in a live state any more.
   */
  lemma PassConverges(s: State, order: seq<string>, boot: Boot, id: string)
    requires Lists(order, s)
    ensures var r := Passed(s, order, boot);
            && (if IsAbandoned(s, id, boot.id)
                then id in r.rows && AdoptedRightly(id, s.rows[id], LogOf(s, id), r.rows[id], LogOf(r, id), boot)
                else (id in r.rows <==> id in s.rows) && LogOf(r, id) == LogOf(s, id)
                     && (id in s.rows ==> r.rows[id] == s.rows[id]))
            && !IsAbandoned(r, id, boot.id)
            && Lists(order, r)
  {
    AbandonedAre(s, order, boot.id);
    var ids := AbandonedIn(s, order, boot.id);
    if IsAbandoned(s, id, boot.id) {
      EachIsAdopted(s, ids, boot, id);
    } else {
      OthersUntouched(s, ids, boot, id);
    }
  }

  // ---- orphans ----

  /**
   What becomes of a row's process: it is reported exactly when there was one, and reaped exactly when reaping is
   allowed and the supervisor answers so; a refusal to ask and a supervisor that threw are both `policy`.
   */
  lemma ReapsOnlyOnProof(row: Row, boot: Boot)
    ensures Reaped(row, boot).None? <==> row.process.None?
    ensures IsProven(Reaped(row, boot)) <==>
            row.process.Some? && !boot.neverReap && IsProven(boot.reap(Unreaped(row.process.value)))
    ensures row.process.Some? && Unanswered(row, boot) ==>
              Reaped(row, boot) == Some(Orphan(row.process.value, false, Some("policy")))
  {
  }

  /**
   A passed row carries that report: one exactly when there was a process, proven exactly when reaping is allowed and
   the supervisor answers so; and a closed one says its tree is gone exactly when the reap was proven.
   */
  lemma AdoptedRowTellsTheReap(s: State, order: seq<string>, boot: Boot, id: string)
    requires Lists(order, s) && IsAbandoned(s, id, boot.id)
    ensures var was, row := s.rows[id], Passed(s, order, boot).rows[id];
            && row.orphan == Reaped(was, boot)
            && (row.orphan.Some? <==> was.process.Some?)
            && (IsProven(row.orphan) <==>
                was.process.Some? && !boot.neverReap && IsProven(boot.reap(Unreaped(was.process.value))))
            && (row.closeResult.Some? ==>
                  row.closeResult.value.treeGone == row.closeResult.value.leaderExited == IsProven(row.orphan)
                  && !row.closeResult.value.sessionClosed)
  {
    AbandonedAre(s, order, boot.id);
    ReportIsKept(s, AbandonedIn(s, order, boot.id), boot, id);
    ReapsOnlyOnProof(s.rows[id], boot);
  }

  lemma {:induction false} ReportIsKept(s: State, ids: seq<string>, boot: Boot, id: string)
    requires forall i :: i in ids ==> i in s.rows
    requires forall i, j :: 0 <= i < j < |ids| ==> ids[i] != ids[j]
    requires id in ids
    ensures var row := AdoptedAll(s, ids, boot).rows[id];
            && row.orphan == Reaped(s.rows[id], boot)
            && (row.closeResult.Some? ==>
                  row.closeResult.value.treeGone == row.closeResult.value.leaderExited == IsProven(row.orphan)
                  && !row.closeResult.value.sessionClosed)
    decreases |ids|
  {
    var most, last := ids[..|ids| - 1], ids[|ids| - 1];
    assert ids == most + [last];
    assert forall i :: i in most ==> i in s.rows;
    if id == last {
      OthersUntouched(s, most, boot, id);
    } else {
      ReportIsKept(s, most, boot, id);
    }
  }

  // ---- the tally ----

  /** How many of the listed rows are such. */
  function CountRows(s: State, ids: seq<string>, such: Row -> bool): nat {
    if ids == [] then 0
    else
      var last := ids[|ids| - 1];
      CountRows(s, ids[..|ids| - 1], such) + if last in s.rows && such(s.rows[last]) then 1 else 0
  }

  predicate HadProcess(row: Row) {
    row.process != None
  }

  function ReapedBy(boot: Boot): Row -> bool {
    row => WasReaped(row, boot)
  }

  function LeftRunning(boot: Boot): Row -> bool {
    row => HadProcess(row) && !WasReaped(row, boot)
  }

  /** The reports of the listed rows that are such, in order. */
  function Reports(s: State, ids: seq<string>, such: Row -> bool, boot: Boot): seq<Orphan> {
    if ids == [] then []
    else
      var last, before := ids[|ids| - 1], Reports(s, ids[..|ids| - 1], such, boot);
      if last in s.rows && such(s.rows[last]) && Report(s.rows[last], boot).Some?
      then before + [Report(s.rows[last], boot).value] else before
  }

  lemma {:induction false} CountedApart(s: State, ids: seq<string>, boot: Boot)
    ensures CountRows(s, ids, ReapedBy(boot)) + CountRows(s, ids, LeftRunning(boot)) ==
            CountRows(s, ids, HadProcess) == |Reports(s, ids, HadProcess, boot)|
    ensures boot.neverReap ==> CountRows(s, ids, ReapedBy(boot)) == 0
    decreases |ids|
  {
    if ids != [] {
      CountedApart(s, ids[..|ids| - 1], boot);
    }
  }

  /**
   Every row found ends up hibernated or closed, by whether it can be woken; every process found is counted as reaped
   or as skipped, by what the supervisor was allowed and answered; and the reports are those of the rows, in order.
   */
  lemma {:induction false} TallyIsHonest(s: State, ids: seq<string>, boot: Boot)
    requires forall id :: id in ids ==> id in s.rows
    ensures var t := Tallied(s, ids, boot);
            && t.found == |ids| == t.hibernated + t.closed
            && t.hibernated == CountRows(s, ids, CanWake)
            && t.reaped == CountRows(s, ids, ReapedBy(boot)) && t.skipped == CountRows(s, ids, LeftRunning(boot))
            && t.orphans == Reports(s, ids, HadProcess, boot)
            && t.reaped + t.skipped == CountRows(s, ids, HadProcess) == |t.orphans|
            && (boot.neverReap ==> t.reaped == 0)
    decreases |ids|
  {
    CountedApart(s, ids, boot);
    if ids != [] {
      var most := ids[..|ids| - 1];
      assert forall id :: id in most ==> id in s.rows;
      TallyIsHonest(s, most, boot);
      ReportsAreRead(s.rows[ids[|ids| - 1]], boot);
    }
  }

  // ---- what the pass as a whole answers ----

  /** A row of an earlier boot, still in one of the four states of a worker that owns a process. */
  function LeftBehind(bootId: string): Row -> bool {
    (row: Row) => row.bootId != bootId && row.state in {Starting, Ready, Running, RequiresAction}
  }

  function Both(p: Row -> bool, q: Row -> bool): Row -> bool {
    row => p(row) && q(row)
  }

  lemma {:induction false} CountedInOrder(s: State, order: seq<string>, bootId: string, such: Row -> bool)
    ensures CountRows(s, AbandonedIn(s, order, bootId), such) == CountRows(s, order, Both(LeftBehind(bootId), such))
    decreases |order|
  {
    if order != [] {
      var most, last := order[..|order| - 1], order[|order| - 1];
      CountedInOrder(s, most, bootId, such);
      OneMoreListed(AbandonedIn(s, most, bootId), last);
    }
  }

  lemma OneMoreListed(ids: seq<string>, last: string)
    ensures ids + [] == ids && (ids + [last])[..|ids + [last]| - 1] == ids
  {
  }

  lemma {:induction false} ReportedInOrder(s: State, order: seq<string>, boot: Boot)
    ensures Reports(s, AbandonedIn(s, order, boot.id), HadProcess, boot) ==
            Reports(s, order, Both(LeftBehind(boot.id), HadProcess), boot)
    decreases |order|
  {
    if order != [] {
      var most, last := order[..|order| - 1], order[|order| - 1];
      ReportedInOrder(s, most, boot);
      OneMoreListed(AbandonedIn(s, most, boot.id), last);
    }
  }

  lemma {:induction false} AbandonedAreCounted(s: State, order: seq<string>, bootId: string)
    ensures |AbandonedIn(s, order, bootId)| == CountRows(s, order, LeftBehind(bootId))
    decreases |order|
  {
    if order != [] {
      AbandonedAreCounted(s, order[..|order| - 1], bootId);
    }
  }

  /** Main result on the answer of a pass: each number is a number of rows of the store, as it was. */
  lemma PassAnswersTheRows(s: State, order: seq<string>, boot: Boot)
    requires Lists(order, s)
    ensures forall id :: id in AbandonedIn(s, order, boot.id) ==> id in s.rows
    ensures var t, left := Tallied(s, AbandonedIn(s, order, boot.id), boot), LeftBehind(boot.id);
            && t.found == CountRows(s, order, left)
            && t.hibernated == CountRows(s, order, Both(left, CanWake))
            && t.reaped == CountRows(s, order, Both(left, ReapedBy(boot)))
            && t.skipped == CountRows(s, order, Both(left, LeftRunning(boot)))
            && t.closed == t.found - t.hibernated
            && t.orphans == Reports(s, order, Both(left, HadProcess), boot)
  {
    AbandonedAre(s, order, boot.id);
    TallyIsHonest(s, AbandonedIn(s, order, boot.id), boot);
    AbandonedAreCounted(s, order, boot.id);
    CountedInOrder(s, order, boot.id, CanWake);
    CountedInOrder(s, order, boot.id, ReapedBy(boot));
    CountedInOrder(s, order, boot.id, LeftRunning(boot));
    ReportedInOrder(s, order, boot);
  }

  // ---- idempotence ----

  lemma {:induction false} NothingAbandoned(s: State, order: seq<string>, bootId: string)
    requires forall id :: !IsAbandoned(s, id, bootId)
    ensures AbandonedIn(s, order, bootId) == []
  {
    if order != [] {
      NothingAbandoned(s, order[..|order| - 1], bootId);
    }
  }

  /** A second run finds nothing and changes nothing. */
  lemma SecondRunIsANoOp(s: State, order: seq<string>, boot: Boot, again: Boot)
    requires Lists(order, s) && again.id == boot.id
    ensures var r := Passed(s, order, boot);
            && Lists(order, r)
            && AbandonedIn(r, order, again.id) == []
            && Passed(r, order, again) == r
  {
    var r := Passed(s, order, boot);
    forall id
      ensures !IsAbandoned(r, id, boot.id)
    {
      PassConverges(s, order, boot, id);
    }
    PassConverges(s, order, boot, "");
    NothingAbandoned(r, order, again.id);
  }

  /** Boot after boot, with nothing happening in between. */
  ghost function Boots(s: State, order: seq<string>, boots: seq<Boot>): State
    requires Lists(order, s)
    decreases |boots|
  {
    if boots == [] then s
    else
      PassConverges(s, order, boots[0], "");
      Boots(Passed(s, order, boots[0]), order, boots[1..])
  }

  lemma {:induction false} QuietBoots(s: State, order: seq<string>, boots: seq<Boot>)
    requires Lists(order, s) && forall id :: id in s.rows ==> !IsLive(s.rows[id].state)
    ensures Boots(s, order, boots) == s
    decreases |boots|
  {
    if boots != [] {
      NothingAbandoned(s, order, boots[0].id);
      QuietBoots(s, order, boots[1..]);
    }
  }

  /** A boot whose id is new settles everything at once: however many boots follow, they change nothing. */
  lemma FirstBootSettlesEverything(s: State, order: seq<string>, boot: Boot, later: seq<Boot>)
    requires Lists(order, s) && forall id :: id in s.rows ==> s.rows[id].bootId != boot.id
    ensures Boots(s, order, [boot] + later) == Passed(s, order, boot)
    ensures forall id :: id in s.rows ==> Passed(s, order, boot).rows[id].state in {Hibernated, Closed}
  {
    var r := Passed(s, order, boot);
    PassConverges(s, order, boot, "");
    forall id | id in r.rows
      ensures !IsLive(r.rows[id].state)
    {
      PassConverges(s, order, boot, id);
    }
    assert ([boot] + later)[1..] == later;
    QuietBoots(r, order, later);
  }

  /** Epochs only go up, so a client that cached an old epoch is fenced out after a restart. */
  lemma EpochsNeverFall(s: State, order: seq<string>, boot: Boot, id: string)
    requires Lists(order, s) && id in s.rows
    ensures Passed(s, order, boot).rows[id].lease.epoch ==
            s.rows[id].lease.epoch + if IsAbandoned(s, id, boot.id) then 1 else 0
  {
    PassConverges(s, order, boot, id);
  }
}
