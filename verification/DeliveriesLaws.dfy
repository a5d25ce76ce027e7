/**
 The life of a delivery, over every sequence of calls.
 */
module DeliveriesLaws {
  import opened Wrappers
  import opened Paging
  import opened Deliveries

  // ---- what every row always satisfies ----

  /** A row is `delivering` exactly when a boot holds it, and the two forms of the next attempt agree. */
  predicate RowHolds(id: string, row: Row, iso: int -> string) {
    && row.id == id
    && (row.state == Delivering <==> row.leaseBoot.Some?)
    && row.nextAttemptAt == IsoOf(iso, row.nextAttemptMs)
  }

  ghost predicate StoreHolds(s: State, iso: int -> string) {
    WellKeyed(s) && forall id :: id in s.rows ==> RowHolds(id, s.rows[id], iso)
  }

  lemma {:induction false} RemainingKeys(s: State, keys: seq<string>, olderThanMs: int)
    requires forall i, j :: 0 <= i < j < |keys| ==> keys[i] != keys[j]
    ensures var left := Remaining(s, keys, olderThanMs);
            && (forall id :: id in left <==> id in keys && !IsOld(s, id, olderThanMs))
            && (forall i, j :: 0 <= i < j < |left| ==> left[i] != left[j])
    decreases |keys|
  {
    if keys != [] {
      var most := keys[..|keys| - 1];
      assert keys == most + [keys[|keys| - 1]];
      RemainingKeys(s, most, olderThanMs);
    }
  }

  lemma KeysStay(s: State, c: Call, iso: int -> string)
    requires WellKeyed(s)
    ensures WellKeyed(Did(s, c, iso))
  {
    match c
    case Sweep(olderThanMs) => RemainingKeys(s, s.keys, olderThanMs);
    case _ =>
  }

  lemma RowsStay(s: State, c: Call, iso: int -> string, id: string)
    requires StoreHolds(s, iso) && id in Did(s, c, iso).rows
    ensures RowHolds(id, Did(s, c, iso).rows[id], iso)
  {
    assert id in s.rows ==> RowHolds(id, s.rows[id], iso);
    match c
    case Enqueue(_, _, _, _, _) =>
    case Claim(_, _, _) =>
    case Settle(_, _, _) =>
    case RequeueStale(_, _) =>
    case Redeliver(_, _, _) =>
    case Sweep(_) =>
  }

  /** Whatever is called, in whatever order, every row satisfies the two. */
  lemma {:induction false} StoreAlwaysHolds(calls: seq<Call>, iso: int -> string)
    ensures StoreHolds(After(calls, iso), iso)
    decreases |calls|
  {
    if calls != [] {
      var s := After(calls[..|calls| - 1], iso);
      var c := calls[|calls| - 1];
      StoreAlwaysHolds(calls[..|calls| - 1], iso);
      KeysStay(s, c, iso);
      forall id | id in Did(s, c, iso).rows
        ensures RowHolds(id, Did(s, c, iso).rows[id], iso)
      {
        RowsStay(s, c, iso, id);
      }
    }
  }

  // ---- the attempt counter, read off the calls ----

  /** The token that enqueued the delivery last. */
  function OwnerOf(calls: seq<Call>, id: string): Option<string> {
    if calls == [] then None
    else
      match calls[|calls| - 1]
      case Enqueue(i, _, token, _, _) => if i == id then Some(token) else OwnerOf(calls[..|calls| - 1], id)
      case _ => OwnerOf(calls[..|calls| - 1], id)
  }

  /** How often the delivery was settled since it was last enqueued, or redelivered by somebody it belongs to. */
  function SettlesSince(calls: seq<Call>, id: string): nat {
    if calls == [] then 0
    else
      var before := calls[..|calls| - 1];
      match calls[|calls| - 1]
      case Enqueue(i, _, _, _, _) => if i == id then 0 else SettlesSince(before, id)
      case Settle(i, _, _) => if i == id then SettlesSince(before, id) + 1 else SettlesSince(before, id)
      case Redeliver(i, _, token) =>
        if i == id && (token.None? || OwnerOf(before, id) == token) then 0 else SettlesSince(before, id)
      case _ => SettlesSince(before, id)
  }

  /** `attempt` counts the settles since the last enqueue or redelivery; claims and requeues leave it alone. */
  lemma {:induction false} AttemptCountsSettles(calls: seq<Call>, iso: int -> string, id: string)
    requires id in After(calls, iso).rows
    ensures After(calls, iso).rows[id].attempt == SettlesSince(calls, id)
    ensures Some(After(calls, iso).rows[id].tokenId) == OwnerOf(calls, id)
    decreases |calls|
  {
    if calls != [] {
      var before := calls[..|calls| - 1];
      var s := After(before, iso);
      if id in s.rows {
        AttemptCountsSettles(before, iso, id);
      }
      match calls[|calls| - 1]
      case Enqueue(_, _, _, _, _) =>
      case Claim(_, _, _) =>
      case Settle(_, _, _) =>
      case RequeueStale(_, _) =>
      case Redeliver(_, _, _) =>
      case Sweep(_) =>
    }
  }

  // ---- what a row tells of the past, read off the calls ----

  /** The call that put the delivery in. */
  function EnqueuedBy(calls: seq<Call>, id: string): Option<Call> {
    if calls == [] then None
    else
      var last := calls[|calls| - 1];
      if last.Enqueue? && last.id == id then Some(last) else EnqueuedBy(calls[..|calls| - 1], id)
  }

  /** The last verdict since the delivery was enqueued or redelivered. */
  function LastVerdict(calls: seq<Call>, id: string): Option<Verdict> {
    if calls == [] then None
    else
      var before := calls[..|calls| - 1];
      match calls[|calls| - 1]
      case Enqueue(i, _, _, _, _) => if i == id then None else LastVerdict(before, id)
      case Settle(i, verdict, _) => if i == id then Some(verdict) else LastVerdict(before, id)
      case Redeliver(i, _, token) =>
        if i == id && (token.None? || OwnerOf(before, id) == token) then None else LastVerdict(before, id)
      case _ => LastVerdict(before, id)
  }

  /** What the row says it is for, and what the last attempt came to. */
  predicate TellsThePast(row: Row, enqueued: Option<Call>, verdict: Option<Verdict>) {
    && enqueued.Some? && enqueued.value.Enqueue?
    && row.runId == enqueued.value.runId && row.content == enqueued.value.content
    && row.createdAtMs == enqueued.value.nowMs
    && row.lastStatus == (if verdict.Some? then verdict.value.status else None)
    && row.lastError == (if verdict.Some? then verdict.value.error else None)
    && row.responseMs == (if verdict.Some? then Some(verdict.value.responseMs) else None)
  }

  /** A row keeps what it was enqueued with and shows its last verdict, through claims, requeues and sweeps. */
  lemma {:induction false} RowsTellThePast(calls: seq<Call>, iso: int -> string, id: string)
    requires id in After(calls, iso).rows
    ensures TellsThePast(After(calls, iso).rows[id], EnqueuedBy(calls, id), LastVerdict(calls, id))
    decreases |calls|
  {
    if calls != [] {
      var before := calls[..|calls| - 1];
      if id in After(before, iso).rows {
        RowsTellThePast(before, iso, id);
        AttemptCountsSettles(before, iso, id);
      }
      match calls[|calls| - 1]
      case Enqueue(_, _, _, _, _) =>
      case Claim(_, _, _) =>
      case Settle(_, _, _) =>
      case RequeueStale(_, _) =>
      case Redeliver(_, _, _) =>
      case Sweep(_) =>
    }
  }

  // ---- claimed at most once per stay in `pending` ----

  predicate WonClaim(calls: seq<Call>, k: nat, id: string, iso: int -> string)
    requires k < |calls|
  {
    calls[k].Claim? && calls[k].id == id && MayClaim(After(calls[..k], iso), id)
  }

  /** The call found the delivery not pending and left it pending. */
  predicate PutsBack(calls: seq<Call>, m: nat, id: string, iso: int -> string)
    requires m < |calls|
  {
    !MayClaim(After(calls[..m], iso), id) && MayClaim(After(calls[..m + 1], iso), id)
  }

  lemma AfterOneMore(calls: seq<Call>, m: nat, iso: int -> string)
    requires m < |calls|
    ensures After(calls[..m + 1], iso) == Did(After(calls[..m], iso), calls[m], iso)
  {
    assert calls[..m + 1][..m] == calls[..m];
  }

  /** Pending at `k` and not pending at `j` means that some call between put it back. */
  lemma {:induction false} SomebodyPutItBack(calls: seq<Call>, j: nat, k: nat, id: string, iso: int -> string)
    returns (m: nat)
    requires j <= k <= |calls| && !MayClaim(After(calls[..j], iso), id) && MayClaim(After(calls[..k], iso), id)
    ensures j <= m < k && PutsBack(calls, m, id, iso)
    decreases k - j
  {
    if MayClaim(After(calls[..j + 1], iso), id) {
      m := j;
    } else {
      m := SomebodyPutItBack(calls, j + 1, k, id, iso);
    }
  }

  /** Between two claims that both succeed, some call put the delivery back: never two winners for one stay. */
  lemma ClaimedOncePerStay(calls: seq<Call>, j: nat, k: nat, id: string, iso: int -> string)
    requires j < k < |calls| && WonClaim(calls, j, id, iso) && WonClaim(calls, k, id, iso)
    ensures exists m :: j < m < k && PutsBack(calls, m, id, iso)
  {
    AfterOneMore(calls, j, iso);
    var m := SomebodyPutItBack(calls, j + 1, k, id, iso);
  }

  /** What put it back: an enqueue, a settle for another try, another boot's requeue, or a redelivery by its owner. */
  lemma OnlyThesePutBack(calls: seq<Call>, m: nat, id: string, iso: int -> string)
    requires m < |calls| && PutsBack(calls, m, id, iso)
    ensures var s := After(calls[..m], iso);
            match calls[m]
            case Enqueue(i, _, _, _, _) => i == id
            case Settle(i, verdict, _) => i == id && verdict.state == Pending
            case RequeueStale(boot, _) =>
              id in s.rows && s.rows[id].state == Delivering && s.rows[id].leaseBoot != Some(boot)
            case Redeliver(i, _, token) => i == id && MayRedeliver(s, id, token)
            case _ => false
  {
    AfterOneMore(calls, m, iso);
  }

  // ---- requeueing after a restart ----

  /** Every delivery still in flight belongs to this boot; the others are pending again, attempts unchanged. */
  lemma RequeueLeavesOnlyOurs(s: State, boot: string, nowMs: int, iso: int -> string, id: string)
    requires StoreHolds(s, iso) && id in s.rows
    ensures var r := Requeued(s, boot, nowMs, iso);
            && r.keys == s.keys && r.rows.Keys == s.rows.Keys
            && (r.rows[id].state == Delivering ==> r.rows[id].leaseBoot == Some(boot))
            && r.rows[id].attempt == s.rows[id].attempt
            && (r.rows[id] == s.rows[id] <==> !(s.rows[id].state == Delivering && s.rows[id].leaseBoot != Some(boot)))
            && (r.rows[id] != s.rows[id] ==> IsDue(r.rows[id], nowMs))
            && Requeued(r, boot, nowMs, iso) == r
  {
    assert RowHolds(id, s.rows[id], iso);
    var r := Requeued(s, boot, nowMs, iso);
    forall other | other in r.rows
      ensures !IsStale(r.rows[other], boot)
    {
    }
    assert Requeued(r, boot, nowMs, iso).rows == r.rows;
  }

  // ---- what is due ----

  lemma {:induction false} ValuesHold(keys: seq<string>, rows: map<string, Row>, row: Row)
    ensures row in ValuesOf(keys, rows) <==> exists id :: id in keys && id in rows && rows[id] == row
    decreases |keys|
  {
    if keys != [] {
      var most := keys[..|keys| - 1];
      assert keys == most + [keys[|keys| - 1]];
      ValuesHold(most, rows, row);
    }
  }

  lemma SoonerIsAnOrder()
    ensures WeakOrder(Sooner)
  {
  }

  /** Every stored row, in the order of the store's keys. */
  lemma {:induction false} ValuesInKeyOrder(keys: seq<string>, rows: map<string, Row>)
    requires forall id :: id in keys ==> id in rows
    ensures |ValuesOf(keys, rows)| == |keys|
    ensures forall i :: 0 <= i < |keys| ==> keys[i] in rows && ValuesOf(keys, rows)[i] == rows[keys[i]]
    decreases |keys|
  {
    if keys != [] {
      var most := keys[..|keys| - 1];
      assert keys == most + [keys[|keys| - 1]];
      ValuesInKeyOrder(most, rows);
    }
  }

  /** Pending, and its time has come. */
  function Eligible(nowMs: int): Row -> bool {
    (row: Row) => row.state == Pending && row.nextAttemptMs != None && row.nextAttemptMs.value <= nowMs
  }

  lemma {:induction false} EligibleAreDue(rows: seq<Row>, nowMs: int)
    ensures Filtered(rows, (r: Row) => IsDue(r, nowMs)) == Filtered(rows, Eligible(nowMs))
    ensures forall row :: row in Filtered(rows, Eligible(nowMs)) ==> row in rows && row.nextAttemptMs != None
    decreases |rows|
  {
    if rows != [] {
      EligibleAreDue(rows[..|rows| - 1], nowMs);
    }
  }

  function TryAt(row: Row): int {
    match row.nextAttemptMs
    case None => 0
    case Some(ms) => ms
  }

  /**
   `due` gives the earliest eligible deliveries: as many as there are up to the limit, every one eligible,
   soonest first, and none left out that comes before one given.
   */
  lemma DueGivesTheEarliest(s: State, nowMs: int, limit: nat, given: Row, other: Row)
    ensures var eligible := Filtered(ValuesOf(s.keys, s.rows), Eligible(nowMs));
            var due := Due(s, nowMs, limit);
            && |due| == (if limit < |eligible| then limit else |eligible|)
            && (forall i, j :: 0 <= i < j < |due| ==> TryAt(due[i]) <= TryAt(due[j]))
            && multiset(due)[other] <= multiset(eligible)[other]
            && (given in due && multiset(eligible)[other] > multiset(due)[other] ==> TryAt(given) <= TryAt(other))
  {
    var eligible := Filtered(ValuesOf(s.keys, s.rows), (r: Row) => IsDue(r, nowMs));
    EligibleAreDue(ValuesOf(s.keys, s.rows), nowMs);
    SoonerIsAnOrder();
    CutKeepsTheEarliest(eligible, Sooner, limit, given, other);
  }

  /** Deliveries due at one time come in the order in which the store holds them. */
  lemma DueKeepsStoreOrder(s: State, nowMs: int, other: Row)
    ensures var eligible := Filtered(ValuesOf(s.keys, s.rows), Eligible(nowMs));
            Filtered(Due(s, nowMs, |eligible|), Beside(Sooner, other)) == Filtered(eligible, Beside(Sooner, other))
    ensures forall row :: Beside(Sooner, other)(row) <==> TryAt(row) == TryAt(other)
  {
    var eligible := Filtered(ValuesOf(s.keys, s.rows), (r: Row) => IsDue(r, nowMs));
    EligibleAreDue(ValuesOf(s.keys, s.rows), nowMs);
    SoonerIsAnOrder();
    SortingPermutes(eligible, Sooner);
    SortingIsStable(eligible, Sooner, other);
    assert |SortedBy(eligible, Sooner)| == |multiset(SortedBy(eligible, Sooner))| == |eligible|;
  }

  /** Eligible means pending with its time come; nothing else is ever given out. */
  lemma DueIsEligible(s: State, nowMs: int, limit: nat, row: Row)
    requires row in Due(s, nowMs, limit)
    ensures row.state == Pending && row.nextAttemptMs != None && row.nextAttemptMs.value <= nowMs
    ensures exists id :: id in s.keys && id in s.rows && s.rows[id] == row
  {
    var keep := (r: Row) => IsDue(r, nowMs);
    var values := ValuesOf(s.keys, s.rows);
    SortingPermutes(Filtered(values, keep), Sooner);
    FilteredHolds(values, keep, row);
    assert row in multiset(SortedBy(Filtered(values, keep), Sooner));
    assert row in multiset(values);
    ValuesHold(s.keys, s.rows, row);
  }

  // ---- paging through the deliveries ----

  lemma {:induction false} ValuesAreDistinct(keys: seq<string>, rows: map<string, Row>)
    requires forall i, j :: 0 <= i < j < |keys| ==> keys[i] != keys[j]
    requires forall id :: id in rows ==> rows[id].id == id
    ensures DistinctIds(ValuesOf(keys, rows), RankOf)
    ensures forall row :: row in ValuesOf(keys, rows) ==> row.id in keys
    decreases |keys|
  {
    if keys != [] {
      var most := keys[..|keys| - 1];
      assert keys == most + [keys[|keys| - 1]];
      ValuesAreDistinct(most, rows);
      var before := ValuesOf(most, rows);
      forall i | 0 <= i < |before|
        ensures before[i].id in most
      {
        assert before[i] in before;
      }
    }
  }

  /** Of the run, the state and the token that the query names, where it names one. */
  predicate IsAskedFor(row: Row, q: Query) {
    q.runId in {None, Some(row.runId)} && q.state in {None, Some(row.state)} && q.tokenId in {None, Some(row.tokenId)}
  }

  lemma AskedForMatches(row: Row, q: Query)
    ensures Matches(row, q) <==> IsAskedFor(row, q)
  {
  }

  lemma {:induction false} AskedForAreListed(rows: seq<Row>, q: Query)
    ensures Filtered(rows, (r: Row) => Matches(r, q)) == Filtered(rows, (r: Row) => IsAskedFor(r, q))
    decreases |rows|
  {
    if rows != [] {
      AskedForAreListed(rows[..|rows| - 1], q);
      AskedForMatches(rows[|rows| - 1], q);
    }
  }

  lemma StoredAreDistinct(calls: seq<Call>, iso: int -> string)
    ensures var s := After(calls, iso); DistinctIds(ValuesOf(s.keys, s.rows), RankOf)
  {
    var s := After(calls, iso);
    StoreAlwaysHolds(calls, iso);
    forall id | id in s.rows
      ensures s.rows[id].id == id
    {
      assert RowHolds(id, s.rows[id], iso);
    }
    ValuesAreDistinct(s.keys, s.rows);
  }

  /** After any calls, following the cursor to null lists every matching delivery once, newest first. */
  lemma DeliveriesPageCompletely(calls: seq<Call>, iso: int -> string, q: Query,
                                 idBefore: (string, string) -> bool, limit: nat)
    requires TotalOrder(idBefore) && limit >= 1
    ensures var s := After(calls, iso);
            var all := ListedRows(s, q, idBefore);
            && Followed(all, RankOf, limit, None, |all| + 1) == Some(all)
            && NewestComeFirst(all, RankOf, idBefore)
            && forall x :: multiset(all)[x] == if IsAskedFor(x, q) then multiset(ValuesOf(s.keys, s.rows))[x] else 0
  {
    var values := ValuesOf(After(calls, iso).keys, After(calls, iso).rows);
    StoredAreDistinct(calls, iso);
    AskedForAreListed(values, q);
    PagingIsComplete(values, (r: Row) => IsAskedFor(r, q), RankOf, idBefore, limit);
  }
}
