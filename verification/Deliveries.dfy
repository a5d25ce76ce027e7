/**
 The in-memory webhook delivery store: rows move between states in place, kept in insertion order.
 */
module Deliveries {
  import opened Wrappers
  import opened Paging

  datatype DeliveryState = Pending | Delivering | Delivered | Failed

  /** What an attempt can end in. */
  type SettledState = s: DeliveryState | s != Delivering witness Delivered

  /** `content` stands for the event, the address and the payload, which the store only carries. */
  datatype Row = Row(
    id: string, runId: string, tokenId: string, content: string,
    state: DeliveryState, attempt: nat,
    nextAttemptMs: Option<int>, nextAttemptAt: Option<string>,
    leaseBoot: Option<string>,
    lastStatus: Option<int>, lastError: Option<string>, responseMs: Option<int>,
    createdAtMs: int, createdAt: string, updatedAt: string)

  /** A map with its keys in insertion order. `iso` is the time format, given. */
  datatype State = State(keys: seq<string>, rows: map<string, Row>)

  const Empty: State := State([], map[])

  function ValuesOf(keys: seq<string>, rows: map<string, Row>): seq<Row> {
    if keys == [] then []
    else
      var last := keys[|keys| - 1];
      ValuesOf(keys[..|keys| - 1], rows) + if last in rows then [rows[last]] else []
  }

  function IsoOf(iso: int -> string, ms: Option<int>): Option<string> {
    if ms.None? then None else Some(iso(ms.value))
  }

  function FreshRow(id: string, runId: string, tokenId: string, content: string, nowMs: int, iso: int -> string): Row {
    Row(id, runId, tokenId, content, Pending, 0, Some(nowMs), Some(iso(nowMs)), None, None, None, None,
        nowMs, iso(nowMs), iso(nowMs))
  }

  function ClaimedRow(row: Row, boot: string, nowMs: int, iso: int -> string): Row {
    row.(state := Delivering, leaseBoot := Some(boot), updatedAt := iso(nowMs))
  }

  datatype Verdict = Verdict(state: SettledState, status: Option<int>, error: Option<string>,
                             responseMs: int, nextAttemptMs: Option<int>)

  function SettledRow(row: Row, v: Verdict, nowMs: int, iso: int -> string): Row {
    row.(state := v.state, attempt := row.attempt + 1, nextAttemptMs := v.nextAttemptMs,
         nextAttemptAt := IsoOf(iso, v.nextAttemptMs), leaseBoot := None, lastStatus := v.status,
         lastError := v.error, responseMs := Some(v.responseMs), updatedAt := iso(nowMs))
  }

  predicate IsStale(row: Row, boot: string) {
    row.state == Delivering && row.leaseBoot != Some(boot)
  }

  function RequeuedRow(row: Row, boot: string, nowMs: int, iso: int -> string): Row {
    if IsStale(row, boot)
    then row.(state := Pending, leaseBoot := None, nextAttemptMs := Some(nowMs), nextAttemptAt := Some(iso(nowMs)),
              updatedAt := iso(nowMs))
    else row
  }

  function RedeliveredRow(row: Row, nowMs: int, iso: int -> string): Row {
    row.(state := Pending, attempt := 0, nextAttemptMs := Some(nowMs), nextAttemptAt := Some(iso(nowMs)),
         leaseBoot := None, lastStatus := None, lastError := None, responseMs := None, updatedAt := iso(nowMs))
  }

  // ---- the calls ----

  function Enqueued(s: State, row: Row): State {
    State(if row.id in s.rows then s.keys else s.keys + [row.id], s.rows[row.id := row])
  }

  predicate MayClaim(s: State, id: string) {
    id in s.rows && s.rows[id].state == Pending
  }

  function Claimed(s: State, id: string, boot: string, nowMs: int, iso: int -> string): State {
    if MayClaim(s, id) then s.(rows := s.rows[id := ClaimedRow(s.rows[id], boot, nowMs, iso)]) else s
  }

  function Settled(s: State, id: string, v: Verdict, nowMs: int, iso: int -> string): State {
    if id in s.rows then s.(rows := s.rows[id := SettledRow(s.rows[id], v, nowMs, iso)]) else s
  }

  function Requeued(s: State, boot: string, nowMs: int, iso: int -> string): State {
    s.(rows := map id | id in s.rows :: RequeuedRow(s.rows[id], boot, nowMs, iso))
  }

  function StaleCount(rows: seq<Row>, boot: string): nat {
    if rows == [] then 0
    else StaleCount(rows[..|rows| - 1], boot) + if IsStale(rows[|rows| - 1], boot) then 1 else 0
  }

  /** "No such delivery" and "not yours" are one answer. */
  predicate MayRedeliver(s: State, id: string, token: Option<string>) {
    id in s.rows && (token.None? || s.rows[id].tokenId == token.value)
  }

  function Redelivered(s: State, id: string, nowMs: int, token: Option<string>, iso: int -> string): State {
    if MayRedeliver(s, id, token) then s.(rows := s.rows[id := RedeliveredRow(s.rows[id], nowMs, iso)]) else s
  }

  predicate IsOld(s: State, id: string, olderThanMs: int) {
    id in s.rows && s.rows[id].createdAtMs < olderThanMs
  }

  function Remaining(s: State, keys: seq<string>, olderThanMs: int): seq<string> {
    if keys == [] then []
    else if IsOld(s, keys[|keys| - 1], olderThanMs) then Remaining(s, keys[..|keys| - 1], olderThanMs)
    else Remaining(s, keys[..|keys| - 1], olderThanMs) + [keys[|keys| - 1]]
  }

  function Swept(s: State, olderThanMs: int): State {
    State(Remaining(s, s.keys, olderThanMs), map id | id in s.rows && !IsOld(s, id, olderThanMs) :: s.rows[id])
  }

  /** The keys are those of the map, each once. */
  ghost predicate WellKeyed(s: State) {
    && (forall i, j :: 0 <= i < j < |s.keys| ==> s.keys[i] != s.keys[j])
    && (forall id :: id in s.keys <==> id in s.rows)
  }

  // ---- queries ----

  predicate IsDue(row: Row, nowMs: int) {
    row.state == Pending && row.nextAttemptMs.Some? && row.nextAttemptMs.value <= nowMs
  }

  predicate Sooner(a: Row, b: Row) {
    a.nextAttemptMs.GetOr(0) < b.nextAttemptMs.GetOr(0)
  }

  function Due(s: State, nowMs: int, limit: nat): seq<Row> {
    FirstOf(SortedBy(Filtered(ValuesOf(s.keys, s.rows), (r: Row) => IsDue(r, nowMs)), Sooner), limit)
  }

  datatype Query = Query(runId: Option<string>, state: Option<DeliveryState>, tokenId: Option<string>)

  predicate Matches(row: Row, q: Query) {
    && (q.runId.None? || row.runId == q.runId.value)
    && (q.state.None? || row.state == q.state.value)
    && (q.tokenId.None? || row.tokenId == q.tokenId.value)
  }

  function RankOf(row: Row): Rank {
    Rank(row.createdAtMs, row.id)
  }

  function ListedRows(s: State, q: Query, idBefore: (string, string) -> bool): seq<Row> {
    DeliveryListing(ValuesOf(s.keys, s.rows), (r: Row) => Matches(r, q), NewestFirst(RankOf, idBefore))
  }

  // ---- any sequence of calls ----

  datatype Call =
    | Enqueue(id: string, runId: string, tokenId: string, content: string, nowMs: int)
    | Claim(id: string, boot: string, nowMs: int)
    | Settle(id: string, verdict: Verdict, nowMs: int)
    | RequeueStale(boot: string, nowMs: int)
    | Redeliver(id: string, nowMs: int, token: Option<string>)
    | Sweep(olderThanMs: int)

  function Did(s: State, c: Call, iso: int -> string): State {
    match c
    case Enqueue(id, runId, tokenId, content, nowMs) => Enqueued(s, FreshRow(id, runId, tokenId, content, nowMs, iso))
    case Claim(id, boot, nowMs) => Claimed(s, id, boot, nowMs, iso)
    case Settle(id, verdict, nowMs) => Settled(s, id, verdict, nowMs, iso)
    case RequeueStale(boot, nowMs) => Requeued(s, boot, nowMs, iso)
    case Redeliver(id, nowMs, token) => Redelivered(s, id, nowMs, token, iso)
    case Sweep(olderThanMs) => Swept(s, olderThanMs)
  }

  function After(calls: seq<Call>, iso: int -> string): State {
    if calls == [] then Empty else Did(After(calls[..|calls| - 1], iso), calls[|calls| - 1], iso)
  }

  // ---- loops over the rows, part of the way ----

  function RequeuedSome(rows: map<string, Row>, done: seq<string>,
                        boot: string, nowMs: int, iso: int -> string): map<string, Row> {
    map id | id in rows :: if id in done then RequeuedRow(rows[id], boot, nowMs, iso) else rows[id]
  }

  lemma OneMoreRequeued(s: State, i: nat, boot: string, nowMs: int, iso: int -> string)
    requires WellKeyed(s) && i < |s.keys|
    ensures var id := s.keys[i];
            var some := RequeuedSome(s.rows, s.keys[..i], boot, nowMs, iso);
            && id in some && some[id] == s.rows[id]
            && RequeuedSome(s.rows, s.keys[..i + 1], boot, nowMs, iso)
               == (if IsStale(some[id], boot) then some[id := RequeuedRow(some[id], boot, nowMs, iso)] else some)
  {
    assert s.keys[i] in s.keys;
    assert s.keys[..i + 1] == s.keys[..i] + [s.keys[i]];
  }

  lemma AllRequeued(s: State, boot: string, nowMs: int, iso: int -> string)
    requires WellKeyed(s)
    ensures s.(rows := RequeuedSome(s.rows, s.keys[..|s.keys|], boot, nowMs, iso)) == Requeued(s, boot, nowMs, iso)
  {
    assert s.keys[..|s.keys|] == s.keys;
    assert RequeuedSome(s.rows, s.keys, boot, nowMs, iso) == Requeued(s, boot, nowMs, iso).rows;
  }

  lemma OneMoreValue(keys: seq<string>, rows: map<string, Row>, i: nat, boot: string)
    requires i < |keys| && keys[i] in rows
    ensures ValuesOf(keys[..i + 1], rows) == ValuesOf(keys[..i], rows) + [rows[keys[i]]]
    ensures StaleCount(ValuesOf(keys[..i + 1], rows), boot) ==
            StaleCount(ValuesOf(keys[..i], rows), boot) + if IsStale(rows[keys[i]], boot) then 1 else 0
  {
    assert keys[..i + 1][..i] == keys[..i];
    var before := ValuesOf(keys[..i], rows);
    assert (before + [rows[keys[i]]])[..|before|] == before;
  }

  /** What a sweep has left after looking at the first keys. */
  function SweptSome(s: State, done: seq<string>, olderThanMs: int): map<string, Row> {
    map id | id in s.rows && !(id in done && IsOld(s, id, olderThanMs)) :: s.rows[id]
  }

  lemma OneMoreSwept(s: State, i: nat, olderThanMs: int)
    requires WellKeyed(s) && i < |s.keys|
    ensures var id := s.keys[i];
            var some := SweptSome(s, s.keys[..i], olderThanMs);
            && id in some && some[id] == s.rows[id]
            && SweptSome(s, s.keys[..i + 1], olderThanMs) == (if IsOld(s, id, olderThanMs) then some - {id} else some)
  {
    assert s.keys[i] in s.keys;
    assert s.keys[..i + 1] == s.keys[..i] + [s.keys[i]];
  }

  lemma OneMoreRemaining(s: State, i: nat, olderThanMs: int)
    requires i < |s.keys|
    ensures Remaining(s, s.keys[..i + 1], olderThanMs) ==
            Remaining(s, s.keys[..i], olderThanMs) + if IsOld(s, s.keys[i], olderThanMs) then [] else [s.keys[i]]
  {
    assert s.keys[..i + 1][..i] == s.keys[..i];
  }

  lemma AllSwept(s: State, olderThanMs: int)
    requires WellKeyed(s)
    ensures SweptSome(s, s.keys[..|s.keys|], olderThanMs) == Swept(s, olderThanMs).rows
    ensures Remaining(s, s.keys[..|s.keys|], olderThanMs) == Swept(s, olderThanMs).keys
  {
    assert s.keys[..|s.keys|] == s.keys;
  }

  // ---- the store itself ----

  class MemoryDeliveryStore {
    const iso: int -> string
    var keys: seq<string>
    var rows: map<string, Row>

    constructor (iso: int -> string)
      ensures this.iso == iso && View() == Empty
    {
      this.iso := iso;
      keys, rows := [], map[];
    }

    function View(): State
      reads this
    {
      State(keys, rows)
    }

    method EnqueueRow(id: string, runId: string, tokenId: string, content: string, nowMs: int)
      modifies this
      ensures View() == Did(old(View()), Enqueue(id, runId, tokenId, content, nowMs), iso)
    {
      if id !in rows {
        keys := keys + [id];
      }
      rows := rows[id := FreshRow(id, runId, tokenId, content, nowMs, iso)];
    }

    method DueRows(nowMs: int, limit: nat) returns (due: seq<Row>)
      ensures due == Due(View(), nowMs, limit)
    {
      var sorted := SortedBy(Filtered(ValuesOf(keys, rows), (r: Row) => IsDue(r, nowMs)), Sooner);
      due := if limit < |sorted| then sorted[..limit] else sorted;
    }

    method ClaimRow(id: string, boot: string, nowMs: int) returns (ok: bool)
      modifies this
      ensures View() == Did(old(View()), Claim(id, boot, nowMs), iso)
      ensures ok == MayClaim(old(View()), id)
    {
      if id !in rows || rows[id].state != Pending {
        return false;
      }
      rows := rows[id := ClaimedRow(rows[id], boot, nowMs, iso)];
      return true;
    }

    method SettleRow(id: string, v: Verdict, nowMs: int)
      modifies this
      ensures View() == Did(old(View()), Settle(id, v, nowMs), iso)
    {
      if id !in rows {
        return;
      }
      rows := rows[id := SettledRow(rows[id], v, nowMs, iso)];
    }

    method RequeueRow(id: string, boot: string, nowMs: int) returns (moved: nat)
      requires id in rows
      modifies this`rows
      ensures moved == if IsStale(old(rows)[id], boot) then 1 else 0
      ensures rows == if moved == 1 then old(rows)[id := RequeuedRow(old(rows)[id], boot, nowMs, iso)] else old(rows)
    {
      var row := rows[id];
      if row.state != Delivering || row.leaseBoot == Some(boot) {
        return 0;
      }
      rows := rows[id := row.(state := Pending, leaseBoot := None, nextAttemptMs := Some(nowMs),
                              nextAttemptAt := Some(iso(nowMs)), updatedAt := iso(nowMs))];
      return 1;
    }

    method RequeueStaleRows(boot: string, nowMs: int) returns (moved: nat)
      requires WellKeyed(View())
      modifies this`rows
      ensures View() == Did(old(View()), RequeueStale(boot, nowMs), iso)
      ensures moved == StaleCount(ValuesOf(old(keys), old(rows)), boot)
    {
      ghost var was := View();
      moved := 0;
      var i := 0;
      while i < |keys|
        invariant i <= |keys|
        invariant rows == RequeuedSome(was.rows, was.keys[..i], boot, nowMs, iso)
        invariant moved == StaleCount(ValuesOf(was.keys[..i], was.rows), boot)
      {
        OneMoreRequeued(was, i, boot, nowMs, iso);
        OneMoreValue(was.keys, was.rows, i, boot);
        var one := RequeueRow(keys[i], boot, nowMs);
        moved := moved + one;
        i := i + 1;
      }
      assert was.keys[..i] == was.keys;
      AllRequeued(was, boot, nowMs, iso);
    }

    method RedeliverRow(id: string, nowMs: int, token: Option<string>) returns (row: Option<Row>)
      modifies this
      ensures View() == Did(old(View()), Redeliver(id, nowMs, token), iso)
      ensures if MayRedeliver(old(View()), id, token) then id in rows && row == Some(rows[id]) else row == None
    {
      if id !in rows || (token.Some? && rows[id].tokenId != token.value) {
        return None;
      }
      rows := rows[id := RedeliveredRow(rows[id], nowMs, iso)];
      return Some(rows[id]);
    }

    method DropIfOld(id: string, olderThanMs: int) returns (dropped: bool)
      requires id in rows
      modifies this`rows
      ensures dropped == (old(rows)[id].createdAtMs < olderThanMs)
      ensures rows == if dropped then old(rows) - {id} else old(rows)
    {
      dropped := rows[id].createdAtMs < olderThanMs;
      if dropped {
        rows := rows - {id};
      }
    }

    method SweepRows(olderThanMs: int) returns (dropped: nat)
      requires WellKeyed(View())
      modifies this
      ensures View() == Did(old(View()), Sweep(olderThanMs), iso)
      ensures dropped == |old(keys)| - |keys|
    {
      ghost var was := View();
      var all := keys;
      var kept: seq<string> := [];
      dropped := 0;
      var i := 0;
      while i < |all|
        invariant i <= |all| && all == was.keys && keys == all
        invariant kept == Remaining(was, was.keys[..i], olderThanMs) && dropped == i - |kept|
        invariant rows == SweptSome(was, was.keys[..i], olderThanMs)
      {
        OneMoreSwept(was, i, olderThanMs);
        OneMoreRemaining(was, i, olderThanMs);
        var gone := DropIfOld(all[i], olderThanMs);
        if gone {
          dropped := dropped + 1;
        } else {
          kept := kept + [all[i]];
        }
        i := i + 1;
      }
      AllSwept(was, olderThanMs);
      keys := kept;
    }

    method ListRows(q: Query, limit: nat, cursor: Option<string>, idBefore: (string, string) -> bool)
      returns (page: Page<Row>)
      ensures page == Listed(ListedRows(View(), q, idBefore), RankOf, limit, cursor)
    {
      var all := ListedRows(View(), q, idBefore);
      var from := if cursor.None? then 0 else FindIndex(all, RankOf, cursor.value) + 1;
      var more := from + limit < |all|;
      var slice := all[from..if more then from + limit else |all|];
      page := Page(slice, if more && slice != [] then Some(slice[|slice| - 1].id) else None);
    }
  }
}
