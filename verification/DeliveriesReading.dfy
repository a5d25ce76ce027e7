/**
 A delivery read off the calls: which rows are stored, and every field of a row, from the call that put it in and the
 calls that took effect on it since.
 */
module DeliveriesReading {
  import opened Wrappers
  import opened Paging
  import opened Deliveries
  import opened DeliveriesLaws

  // ---- which rows are stored ----

  /** Call `k` put the delivery in; it was not put in again, and no sweep since reached back to it. */
  predicate IsStoredSince(calls: seq<Call>, k: int, id: string) {
    && 0 <= k < |calls| && calls[k].Enqueue? && calls[k].id == id
    && (forall m :: k < m < |calls| && calls[m].Enqueue? ==> calls[m].id != id)
    && (forall m :: k < m < |calls| && calls[m].Sweep? ==> calls[m].olderThanMs <= calls[k].nowMs)
  }

  lemma StoredOneOn(calls: seq<Call>, k: int, id: string)
    requires calls != []
    ensures var before, last := calls[..|calls| - 1], calls[|calls| - 1];
            IsStoredSince(calls, k, id) <==>
            if last.Enqueue? && last.id == id then k == |calls| - 1
            else IsStoredSince(before, k, id) && (last.Sweep? ==> last.olderThanMs <= calls[k].nowMs)
  {
    var before, last := calls[..|calls| - 1], calls[|calls| - 1];
    assert calls == before + [last];
    if IsStoredSince(calls, k, id) && k < |before| {
      assert forall m :: k < m < |before| ==> before[m] == calls[m];
      assert IsStoredSince(before, k, id);
    }
    if IsStoredSince(before, k, id) {
      assert forall m :: k < m < |calls| && m < |before| ==> before[m] == calls[m];
    }
  }

  /** A delivery is stored if and only if some enqueue put it in and no later sweep took it out. */
  lemma {:induction false} StoredExactlyWhen(calls: seq<Call>, iso: int -> string, id: string)
    ensures id in After(calls, iso).rows <==> exists k :: IsStoredSince(calls, k, id)
    ensures forall k :: IsStoredSince(calls, k, id) ==> After(calls, iso).rows[id].createdAtMs == calls[k].nowMs
    decreases |calls|
  {
    if calls != [] {
      var before, last := calls[..|calls| - 1], calls[|calls| - 1];
      StoredExactlyWhen(before, iso, id);
      assert After(calls, iso) == Did(After(before, iso), last, iso);
      forall k
        ensures IsStoredSince(calls, k, id) <==>
                if last.Enqueue? && last.id == id then k == |calls| - 1
                else IsStoredSince(before, k, id) && (last.Sweep? ==> last.olderThanMs <= calls[k].nowMs)
      {
        StoredOneOn(calls, k, id);
      }
      if last.Enqueue? && last.id == id {
        assert IsStoredSince(calls, |calls| - 1, id);
      } else if k :| IsStoredSince(before, k, id) {
        assert before[k] == calls[k];
        assert IsStoredSince(calls, k, id) <==> (last.Sweep? ==> last.olderThanMs <= calls[k].nowMs);
      }
    }
  }

  // ---- the calls that took effect ----

  /** The call changes this delivery, given what is stored when it is made. */
  predicate TakesEffect(s: State, c: Call, id: string) {
    match c
    case Enqueue(i, _, _, _, _) => i == id
    case Claim(i, _, _) => i == id && id in s.rows && s.rows[id].state == Pending
    case Settle(i, _, _) => i == id && id in s.rows
    case RequeueStale(boot, _) => id in s.rows && s.rows[id].state == Delivering && s.rows[id].leaseBoot != Some(boot)
    case Redeliver(i, _, token) =>
      i == id && id in s.rows && (token.None? || token == Some(s.rows[id].tokenId))
    case Sweep(_) => false
  }

  /** The last call that took effect on the delivery. */
  function LastEffect(calls: seq<Call>, iso: int -> string, id: string): Option<Call> {
    if calls == [] then None
    else
      var before, last := calls[..|calls| - 1], calls[|calls| - 1];
      if TakesEffect(After(before, iso), last, id) then Some(last) else LastEffect(before, iso, id)
  }

  /** The last one that said when to try next: claims do not. */
  function LastTiming(calls: seq<Call>, iso: int -> string, id: string): Option<Call> {
    if calls == [] then None
    else
      var before, last := calls[..|calls| - 1], calls[|calls| - 1];
      if !last.Claim? && TakesEffect(After(before, iso), last, id) then Some(last) else LastTiming(before, iso, id)
  }

  function StateAfter(c: Call): DeliveryState {
    match c
    case Claim(_, _, _) => Delivering
    case Settle(_, verdict, _) => verdict.state
    case _ => Pending
  }

  function HolderAfter(c: Call): Option<string> {
    if c.Claim? then Some(c.boot) else None
  }

  function NextTry(c: Call): Option<int> {
    match c
    case Enqueue(_, _, _, _, nowMs) => Some(nowMs)
    case Settle(_, verdict, _) => verdict.nextAttemptMs
    case RequeueStale(_, nowMs) => Some(nowMs)
    case Redeliver(_, nowMs, _) => Some(nowMs)
    case _ => None
  }

  function CalledAt(c: Call): int {
    match c
    case Enqueue(_, _, _, _, nowMs) => nowMs
    case Claim(_, _, nowMs) => nowMs
    case Settle(_, _, nowMs) => nowMs
    case RequeueStale(_, nowMs) => nowMs
    case Redeliver(_, nowMs, _) => nowMs
    case Sweep(olderThanMs) => olderThanMs
  }

  /** The whole row: what put it in, the last effect on it, the last word on its next try, and its last verdict. */
  function RowRead(id: string, put: Call, effect: Call, timing: Call, verdict: Option<Verdict>, attempt: nat,
                   iso: int -> string): Row
    requires put.Enqueue?
  {
    var next := NextTry(timing);
    Row(
      id := id, runId := put.runId, tokenId := put.tokenId, content := put.content,
      state := StateAfter(effect), attempt := attempt,
      nextAttemptMs := next, nextAttemptAt := if next.Some? then Some(iso(next.value)) else None,
      leaseBoot := HolderAfter(effect),
      lastStatus := if verdict.Some? then verdict.value.status else None,
      lastError := if verdict.Some? then verdict.value.error else None,
      responseMs := if verdict.Some? then Some(verdict.value.responseMs) else None,
      createdAtMs := put.nowMs, createdAt := iso(put.nowMs), updatedAt := iso(CalledAt(effect)))
  }

  ghost predicate IsRead(calls: seq<Call>, iso: int -> string, id: string, row: Row) {
    var put, effect, timing := EnqueuedBy(calls, id), LastEffect(calls, iso, id), LastTiming(calls, iso, id);
    && put.Some? && put.value.Enqueue? && effect.Some? && timing.Some?
    && row == RowRead(id, put.value, effect.value, timing.value, LastVerdict(calls, id), SettlesSince(calls, id), iso)
  }

  lemma ReadOneOn(calls: seq<Call>, iso: int -> string, id: string)
    requires calls != [] && id in After(calls, iso).rows
    requires var before := calls[..|calls| - 1];
             id in After(before, iso).rows ==>
               IsRead(before, iso, id, After(before, iso).rows[id])
               && Some(After(before, iso).rows[id].tokenId) == OwnerOf(before, id)
    ensures IsRead(calls, iso, id, After(calls, iso).rows[id])
  {
    match calls[|calls| - 1]
    case Enqueue(_, _, _, _, _) =>
    case Claim(_, _, _) =>
    case Settle(_, _, _) =>
    case RequeueStale(_, _) =>
    case Redeliver(_, _, _) =>
    case Sweep(_) =>
  }

  /** Main result: after any calls, every stored row is exactly what the calls say. */
  lemma {:induction false} RowsAreRead(calls: seq<Call>, iso: int -> string, id: string)
    requires id in After(calls, iso).rows
    ensures IsRead(calls, iso, id, After(calls, iso).rows[id])
    decreases |calls|
  {
    var before := calls[..|calls| - 1];
    if id in After(before, iso).rows {
      RowsAreRead(before, iso, id);
      AttemptCountsSettles(before, iso, id);
    }
    ReadOneOn(calls, iso, id);
  }

  // ---- the order of the store ----

  /** Of two stored deliveries the one that came in first is listed first; a second enqueue keeps the place. */
  function StoredFrom(calls: seq<Call>, iso: int -> string, id: string): nat {
    if calls == [] then 0
    else
      var before := calls[..|calls| - 1];
      if id in After(before, iso).rows then StoredFrom(before, iso, id) else |calls|
  }

  ghost predicate OldestFirst(calls: seq<Call>, iso: int -> string, keys: seq<string>) {
    forall i, j :: 0 <= i < j < |keys| ==> StoredFrom(calls, iso, keys[i]) < StoredFrom(calls, iso, keys[j])
  }

  lemma {:induction false} StoredInThePast(calls: seq<Call>, iso: int -> string, id: string)
    ensures StoredFrom(calls, iso, id) <= |calls|
  {
    if calls != [] {
      StoredInThePast(calls[..|calls| - 1], iso, id);
    }
  }

  lemma LastIsYoungest(calls: seq<Call>, iso: int -> string, keys: seq<string>, id: string)
    requires keys != [] && OldestFirst(calls, iso, keys) && id in keys[..|keys| - 1]
    ensures StoredFrom(calls, iso, id) < StoredFrom(calls, iso, keys[|keys| - 1])
  {
    var i :| 0 <= i < |keys| - 1 && keys[..|keys| - 1][i] == id;
    assert keys[i] == id;
  }

  lemma {:induction false} SweepingKeepsOrder(s: State, calls: seq<Call>, iso: int -> string, keys: seq<string>,
                                              olderThanMs: int)
    requires OldestFirst(calls, iso, keys)
    ensures var left := Remaining(s, keys, olderThanMs);
            OldestFirst(calls, iso, left) && forall id :: id in left ==> id in keys
    decreases |keys|
  {
    if keys != [] {
      var most, last := keys[..|keys| - 1], keys[|keys| - 1];
      assert keys == most + [last];
      SweepingKeepsOrder(s, calls, iso, most, olderThanMs);
      var left := Remaining(s, most, olderThanMs);
      forall i | 0 <= i < |left|
        ensures StoredFrom(calls, iso, left[i]) < StoredFrom(calls, iso, last)
      {
        assert left[i] in most;
        LastIsYoungest(calls, iso, keys, left[i]);
      }
    }
  }

  lemma SameAge(calls: seq<Call>, iso: int -> string, keys: seq<string>)
    requires calls != [] && OldestFirst(calls[..|calls| - 1], iso, keys)
    requires forall id :: id in keys ==> id in After(calls[..|calls| - 1], iso).rows
    ensures OldestFirst(calls, iso, keys)
  {
    forall i | 0 <= i < |keys|
      ensures StoredFrom(calls, iso, keys[i]) == StoredFrom(calls[..|calls| - 1], iso, keys[i])
    {
      assert keys[i] in keys;
    }
  }

  lemma NewestIsLast(calls: seq<Call>, iso: int -> string, id: string)
    requires calls != []
    requires var s := After(calls[..|calls| - 1], iso); WellKeyed(s) && id !in s.rows && OldestFirst(calls, iso, s.keys)
    ensures OldestFirst(calls, iso, After(calls[..|calls| - 1], iso).keys + [id])
  {
    var before := calls[..|calls| - 1];
    var keys := After(before, iso).keys;
    forall i | 0 <= i < |keys|
      ensures StoredFrom(calls, iso, keys[i]) < StoredFrom(calls, iso, id)
    {
      assert keys[i] in keys;
      StoredInThePast(before, iso, keys[i]);
    }
  }

  lemma {:induction false} KeysAreByAge(calls: seq<Call>, iso: int -> string)
    ensures OldestFirst(calls, iso, After(calls, iso).keys)
    decreases |calls|
  {
    if calls != [] {
      var before, last := calls[..|calls| - 1], calls[|calls| - 1];
      var s := After(before, iso);
      KeysAreByAge(before, iso);
      StoreAlwaysHolds(before, iso);
      SameAge(calls, iso, s.keys);
      match last
      case Enqueue(id, _, _, _, _) =>
        if id !in s.rows {
          NewestIsLast(calls, iso, id);
        }
      case Sweep(olderThanMs) => SweepingKeepsOrder(s, calls, iso, s.keys, olderThanMs);
      case _ =>
    }
  }

  // ---- what requeueing counts ----

  ghost function StaleIds(keys: seq<string>, rows: map<string, Row>, boot: string): set<string> {
    set id | id in keys && id in rows && rows[id].state == Delivering && rows[id].leaseBoot != Some(boot)
  }

  lemma CountOneOn(most: seq<string>, rows: map<string, Row>, last: string, boot: string)
    ensures StaleCount(ValuesOf(most + [last], rows), boot) ==
            StaleCount(ValuesOf(most, rows), boot) + if last in rows && IsStale(rows[last], boot) then 1 else 0
  {
    var values := ValuesOf(most, rows);
    assert (most + [last])[..|most|] == most;
    if last in rows {
      assert (values + [rows[last]])[..|values|] == values;
    } else {
      assert values + [] == values;
    }
  }

  lemma StaleOneOn(most: seq<string>, rows: map<string, Row>, last: string, boot: string)
    requires last !in most
    ensures |StaleIds(most + [last], rows, boot)| ==
            |StaleIds(most, rows, boot)| + if last in rows && IsStale(rows[last], boot) then 1 else 0
  {
    assert last !in StaleIds(most, rows, boot);
    assert StaleIds(most + [last], rows, boot) ==
           StaleIds(most, rows, boot) + if last in rows && IsStale(rows[last], boot) then {last} else {};
  }

  lemma {:induction false} StaleAreCounted(keys: seq<string>, rows: map<string, Row>, boot: string)
    requires forall i, j :: 0 <= i < j < |keys| ==> keys[i] != keys[j]
    ensures StaleCount(ValuesOf(keys, rows), boot) == |StaleIds(keys, rows, boot)|
    decreases |keys|
  {
    if keys == [] {
      assert StaleIds(keys, rows, boot) == {};
    } else {
      var most, last := keys[..|keys| - 1], keys[|keys| - 1];
      assert keys == most + [last];
      StaleAreCounted(most, rows, boot);
      CountOneOn(most, rows, last, boot);
      StaleOneOn(most, rows, last, boot);
    }
  }

  /** What `requeueStale` answers, after any calls: how many deliveries some other boot holds. */
  lemma RequeueCountsTheOthers(calls: seq<Call>, iso: int -> string, boot: string)
    ensures var s := After(calls, iso);
            StaleCount(ValuesOf(s.keys, s.rows), boot) ==
            |set id | id in s.rows && s.rows[id].state == Delivering && s.rows[id].leaseBoot != Some(boot)|
  {
    var s := After(calls, iso);
    StoreAlwaysHolds(calls, iso);
    StaleAreCounted(s.keys, s.rows, boot);
    assert StaleIds(s.keys, s.rows, boot) ==
           set id | id in s.rows && s.rows[id].state == Delivering && s.rows[id].leaseBoot != Some(boot);
  }
}
