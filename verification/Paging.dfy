/**
 Cursor paging over a listing, newest row first, as both memory stores do it, and the stable sort they
 and the due-delivery query share.
 */
module Paging {
  import opened Wrappers

  // ---- a stable sort: of two rows that neither precedes the other, the one listed first stays first ----

  function Placed<T>(x: T, sorted: seq<T>, before: (T, T) -> bool): seq<T> {
    if sorted == [] then [x]
    else if before(sorted[0], x) then [sorted[0]] + Placed(x, sorted[1..], before)
    else [x] + sorted
  }

  function SortedBy<T>(xs: seq<T>, before: (T, T) -> bool): seq<T> {
    if xs == [] then [] else Placed(xs[0], SortedBy(xs[1..], before), before)
  }

  /** A strict order in which "neither comes first" is an equivalence, as a sort comparator must give. */
  ghost predicate WeakOrder<T(!new)>(before: (T, T) -> bool) {
    && (forall a, b :: before(a, b) ==> !before(b, a))
    && (forall a, b, c :: before(a, b) && before(b, c) ==> before(a, c))
    && (forall a, b, c :: !before(a, b) && !before(b, c) ==> !before(a, c))
  }

  ghost predicate InOrder<T>(xs: seq<T>, before: (T, T) -> bool) {
    forall i, j :: 0 <= i < j < |xs| ==> !before(xs[j], xs[i])
  }

  lemma {:induction false} PlacedKeepsOrder<T(!new)>(x: T, sorted: seq<T>, before: (T, T) -> bool)
    requires WeakOrder(before) && InOrder(sorted, before)
    ensures InOrder(Placed(x, sorted, before), before)
    ensures multiset(Placed(x, sorted, before)) == multiset{x} + multiset(sorted)
  {
    if sorted != [] {
      assert sorted == [sorted[0]] + sorted[1..];
      if before(sorted[0], x) {
        var rest := Placed(x, sorted[1..], before);
        PlacedKeepsOrder(x, sorted[1..], before);
        forall j | 0 <= j < |rest|
          ensures !before(rest[j], sorted[0])
        {
          assert rest[j] in multiset(rest);
        }
      }
    }
  }

  lemma {:induction false} SortingPermutes<T(!new)>(xs: seq<T>, before: (T, T) -> bool)
    requires WeakOrder(before)
    ensures InOrder(SortedBy(xs, before), before)
    ensures multiset(SortedBy(xs, before)) == multiset(xs)
  {
    if xs != [] {
      assert xs == [xs[0]] + xs[1..];
      SortingPermutes(xs[1..], before);
      PlacedKeepsOrder(xs[0], SortedBy(xs[1..], before), before);
    }
  }

  function FirstOf<T>(xs: seq<T>, limit: nat): seq<T> {
    if limit < |xs| then xs[..limit] else xs
  }

  /** Cutting a sorted list keeps the earliest: nothing left out comes before anything kept. */
  lemma CutKeepsTheEarliest<T(!new)>(xs: seq<T>, before: (T, T) -> bool, limit: nat, a: T, b: T)
    requires WeakOrder(before)
    ensures var kept := FirstOf(SortedBy(xs, before), limit);
            && |kept| == (if limit < |xs| then limit else |xs|)
            && InOrder(kept, before)
            && multiset(kept)[b] <= multiset(xs)[b]
            && (a in kept && multiset(xs)[b] > multiset(kept)[b] ==> !before(b, a))
  {
    var all := SortedBy(xs, before);
    SortingPermutes(xs, before);
    assert |all| == |multiset(all)| == |multiset(xs)| == |xs|;
    if limit < |all| {
      assert all == all[..limit] + all[limit..];
      if multiset(xs)[b] > multiset(all[..limit])[b] {
        assert b in multiset(all[limit..]);
        assert b in all[limit..];
      }
    }
  }

  // ---- pages ----

  /** What a listing is sorted and cut by. */
  datatype Rank = Rank(createdAtMs: int, id: string)

  /** `idBefore` is the locale's order on ids. */
  function NewestFirst<T>(rank: T -> Rank, idBefore: (string, string) -> bool): (T, T) -> bool {
    (a, b) => Newer(rank(a), rank(b), idBefore)
  }

  predicate Newer(x: Rank, y: Rank, idBefore: (string, string) -> bool) {
    if x.createdAtMs == y.createdAtMs then idBefore(y.id, x.id) else y.createdAtMs < x.createdAtMs
  }

  datatype Page<T> = Page(rows: seq<T>, cursor: Option<string>)

  function FindIndex<T>(all: seq<T>, rank: T -> Rank, id: string): (i: int)
    ensures -1 <= i < |all|
  {
    if all == [] then -1
    else if rank(all[0]).id == id then 0
    else
      var i := FindIndex(all[1..], rank, id);
      if i == -1 then -1 else i + 1
  }

  /** An unknown cursor is found at -1, so the listing starts over. */
  function From<T>(all: seq<T>, rank: T -> Rank, cursor: Option<string>): (from: nat)
    ensures from <= |all|
  {
    if cursor.None? then 0 else FindIndex(all, rank, cursor.value) + 1
  }

  function Listed<T>(all: seq<T>, rank: T -> Rank, limit: nat, cursor: Option<string>): Page<T> {
    var from := From(all, rank, cursor);
    var to := if from + limit < |all| then from + limit else |all|;
    var page := all[from..to];
    Page(page, if from + limit < |all| && page != [] then Some(rank(page[|page| - 1]).id) else None)
  }

  /** No two rows share an id: they are the values of a map keyed by it. */
  ghost predicate DistinctIds<T>(all: seq<T>, rank: T -> Rank) {
    forall i, j :: 0 <= i < j < |all| ==> rank(all[i]).id != rank(all[j]).id
  }

  lemma {:induction false} FindsIt<T>(all: seq<T>, rank: T -> Rank, k: nat)
    requires k < |all| && DistinctIds(all, rank)
    ensures FindIndex(all, rank, rank(all[k]).id) == k
    decreases |all|
  {
    if k > 0 {
      FindsIt(all[1..], rank, k - 1);
    }
  }

  /** Asking for page after page until the cursor is null, at most `n` times. */
  function Followed<T>(all: seq<T>, rank: T -> Rank, limit: nat, cursor: Option<string>, n: nat): Option<seq<T>>
    decreases n
  {
    if n == 0 then None
    else
      var page := Listed(all, rank, limit, cursor);
      if page.cursor.None? then Some(page.rows)
      else
        match Followed(all, rank, limit, page.cursor, n - 1)
        case None => None
        case Some(rest) => Some(page.rows + rest)
  }

  lemma NextPageStartsWhereThisEnds<T>(all: seq<T>, rank: T -> Rank, limit: nat, cursor: Option<string>)
    requires DistinctIds(all, rank) && limit >= 1
    ensures var page := Listed(all, rank, limit, cursor);
            var from := From(all, rank, cursor);
            if page.cursor.None? then page.rows == all[from..]
            else From(all, rank, page.cursor) == from + limit && page.rows == all[from..from + limit]
  {
    var from := From(all, rank, cursor);
    if from + limit < |all| {
      assert all[from..from + limit][limit - 1] == all[from + limit - 1];
      FindsIt(all, rank, from + limit - 1);
    } else {
      assert all[from..|all|] == all[from..];
    }
  }

  lemma TakenAndRest<T>(all: seq<T>, from: nat, to: nat)
    requires from <= to <= |all|
    ensures all[from..to] + all[to..] == all[from..]
  {
  }

  /** From any place in the listing the pages still to come hold exactly the rows still to come. */
  lemma {:induction false} FollowingVisitsTheRest<T>(all: seq<T>, rank: T -> Rank, limit: nat,
                                                     cursor: Option<string>, n: nat)
    requires DistinctIds(all, rank) && limit >= 1
    requires n > |all| - From(all, rank, cursor)
    ensures Followed(all, rank, limit, cursor, n) == Some(all[From(all, rank, cursor)..])
    decreases n
  {
    var from := From(all, rank, cursor);
    var page := Listed(all, rank, limit, cursor);
    NextPageStartsWhereThisEnds(all, rank, limit, cursor);
    if page.cursor.Some? {
      FollowingVisitsTheRest(all, rank, limit, page.cursor, n - 1);
      TakenAndRest(all, from, from + limit);
    }
  }

  /** With a limit of at least one, following the cursor from the start ends and visits every row once, in order. */
  lemma PagesVisitEveryRowOnce<T>(all: seq<T>, rank: T -> Rank, limit: nat)
    requires DistinctIds(all, rank) && limit >= 1
    ensures Followed(all, rank, limit, None, |all| + 1) == Some(all)
  {
    FollowingVisitsTheRest(all, rank, limit, None, |all| + 1);
    assert all[0..] == all;
  }

  /** A limit of zero never gets anywhere: one empty page and no cursor. */
  lemma ZeroLimitStops<T>(all: seq<T>, rank: T -> Rank, cursor: Option<string>)
    ensures Listed(all, rank, 0, cursor) == Page([], None)
  {
  }

  /** Following from the start gives the whole listing exactly when the limit lets it move, or nothing is there. */
  lemma FollowingGivesAllExactlyWhen<T>(all: seq<T>, rank: T -> Rank, limit: nat)
    requires DistinctIds(all, rank)
    ensures Followed(all, rank, limit, None, |all| + 1) == Some(all) <==> limit >= 1 || all == []
  {
    if limit >= 1 {
      PagesVisitEveryRowOnce(all, rank, limit);
    } else {
      ZeroLimitStops(all, rank, None);
    }
  }

  // ---- the order of a listing does not depend on the order of insertion ----

  ghost predicate TotalOrder(idBefore: (string, string) -> bool) {
    && (forall a, b :: idBefore(a, b) ==> !idBefore(b, a))
    && (forall a, b, c :: idBefore(a, b) && idBefore(b, c) ==> idBefore(a, c))
    && (forall a, b :: a != b ==> idBefore(a, b) || idBefore(b, a))
  }

  lemma NewerIsAnOrder(x: Rank, y: Rank, z: Rank, idBefore: (string, string) -> bool)
    requires TotalOrder(idBefore)
    ensures Newer(x, y, idBefore) ==> !Newer(y, x, idBefore)
    ensures Newer(x, y, idBefore) && Newer(y, z, idBefore) ==> Newer(x, z, idBefore)
    ensures !Newer(x, y, idBefore) && !Newer(y, z, idBefore) ==> !Newer(x, z, idBefore)
    ensures x != y ==> Newer(x, y, idBefore) || Newer(y, x, idBefore)
  {
    assert x.id == y.id || idBefore(x.id, y.id) || idBefore(y.id, x.id);
    assert y.id == z.id || idBefore(y.id, z.id) || idBefore(z.id, y.id);
  }

  lemma NewestFirstIsAnOrder<T(!new)>(rank: T -> Rank, idBefore: (string, string) -> bool)
    requires TotalOrder(idBefore)
    ensures WeakOrder(NewestFirst(rank, idBefore))
  {
    forall a: T, b: T, c: T
      ensures var before := NewestFirst(rank, idBefore);
              && (before(a, b) ==> !before(b, a))
              && (before(a, b) && before(b, c) ==> before(a, c))
              && (!before(a, b) && !before(b, c) ==> !before(a, c))
    {
      NewerIsAnOrder(rank(a), rank(b), rank(c), idBefore);
    }
  }

  lemma SortedHeads<T(!new)>(xs: seq<T>, ys: seq<T>, before: (T, T) -> bool)
    requires xs != [] && ys != [] && ys[0] in xs && xs[0] in ys && InOrder(xs, before) && InOrder(ys, before)
    requires xs[0] != ys[0] ==> before(xs[0], ys[0]) || before(ys[0], xs[0])
    ensures xs[0] == ys[0]
  {
    var i :| 0 <= i < |xs| && xs[i] == ys[0];
    var j :| 0 <= j < |ys| && ys[j] == xs[0];
  }

  lemma TailsShareRows<T(!new)>(xs: seq<T>, ys: seq<T>)
    requires multiset(xs) == multiset(ys) && xs != [] && ys != [] && xs[0] == ys[0]
    ensures multiset(xs[1..]) == multiset(ys[1..])
  {
    assert xs == [xs[0]] + xs[1..] && ys == [ys[0]] + ys[1..];
    assert multiset(xs[1..]) == multiset(xs) - multiset{xs[0]};
    assert multiset(ys[1..]) == multiset(ys) - multiset{xs[0]};
  }

  lemma HeadsAreShared<T(!new)>(xs: seq<T>, ys: seq<T>)
    requires multiset(xs) == multiset(ys) && xs != []
    ensures ys != [] && xs[0] in ys && ys[0] in xs
  {
    assert xs[0] in multiset(ys);
    assert ys[0] in multiset(xs);
  }

  ghost predicate TellsApart<T(!new)>(xs: seq<T>, before: (T, T) -> bool) {
    forall a, b :: a in xs && b in xs && a != b ==> before(a, b) || before(b, a)
  }

  /** Among rows that the order tells apart, only one arrangement is sorted. */
  lemma {:induction false} OneSortedOrder<T(!new)>(xs: seq<T>, ys: seq<T>, before: (T, T) -> bool)
    requires multiset(xs) == multiset(ys) && InOrder(xs, before) && InOrder(ys, before) && TellsApart(xs, before)
    ensures xs == ys
    decreases |xs|
  {
    if xs == [] {
      assert |multiset(ys)| == 0;
    } else {
      HeadsAreShared(xs, ys);
      assert xs[0] in xs;
      SortedHeads(xs, ys, before);
      TailsShareRows(xs, ys);
      assert forall a :: a in xs[1..] ==> a in xs;
      OneSortedOrder(xs[1..], ys[1..], before);
      assert xs == [xs[0]] + xs[1..] && ys == [ys[0]] + ys[1..];
    }
  }

  /** Whatever order the rows were put in, they are listed the same. */
  lemma ListingIgnoresInsertionOrder<T(!new)>(rows: seq<T>, others: seq<T>,
                                              rank: T -> Rank, idBefore: (string, string) -> bool)
    requires multiset(rows) == multiset(others) && DistinctIds(rows, rank) && TotalOrder(idBefore)
    ensures SortedBy(rows, NewestFirst(rank, idBefore)) == SortedBy(others, NewestFirst(rank, idBefore))
  {
    var before := NewestFirst(rank, idBefore);
    NewestFirstIsAnOrder(rank, idBefore);
    SortingPermutes(rows, before);
    SortingPermutes(others, before);
    var xs := SortedBy(rows, before);
    forall a, b | a in xs && b in xs && a != b
      ensures before(a, b) || before(b, a)
    {
      assert a in multiset(rows) && b in multiset(rows);
      NewerIsAnOrder(rank(a), rank(b), rank(b), idBefore);
    }
    OneSortedOrder(xs, SortedBy(others, before), before);
  }

  // ---- the two listings ----

  function Filtered<T>(xs: seq<T>, keep: T -> bool): seq<T> {
    if xs == [] then []
    else if keep(xs[|xs| - 1]) then Filtered(xs[..|xs| - 1], keep) + [xs[|xs| - 1]]
    else Filtered(xs[..|xs| - 1], keep)
  }

  /** The run store sorts and then filters. */
  function RunListing<T>(rows: seq<T>, keep: T -> bool, before: (T, T) -> bool): seq<T> {
    Filtered(SortedBy(rows, before), keep)
  }

  /** The delivery store filters and then sorts. */
  function DeliveryListing<T>(rows: seq<T>, keep: T -> bool, before: (T, T) -> bool): seq<T> {
    SortedBy(Filtered(rows, keep), before)
  }

  lemma {:induction false} FilteredHolds<T(!new)>(xs: seq<T>, keep: T -> bool, x: T)
    ensures multiset(Filtered(xs, keep))[x] == if keep(x) then multiset(xs)[x] else 0
    decreases |xs|
  {
    if xs != [] {
      assert xs == xs[..|xs| - 1] + [xs[|xs| - 1]];
      FilteredHolds(xs[..|xs| - 1], keep, x);
    }
  }

  lemma {:induction false} FilteringKeepsOrder<T(!new)>(xs: seq<T>, keep: T -> bool, before: (T, T) -> bool)
    requires InOrder(xs, before)
    ensures InOrder(Filtered(xs, keep), before)
    decreases |xs|
  {
    if xs != [] {
      var most := xs[..|xs| - 1];
      FilteringKeepsOrder(most, keep, before);
      forall i | 0 <= i < |Filtered(most, keep)|
        ensures Filtered(most, keep)[i] in most
      {
        FilteredHolds(most, keep, Filtered(most, keep)[i]);
        assert Filtered(most, keep)[i] in multiset(Filtered(most, keep));
      }
    }
  }

  lemma {:induction false} SeenTwice<T(!new)>(xs: seq<T>, i: nat, j: nat)
    requires i < j < |xs| && xs[i] == xs[j]
    ensures multiset(xs)[xs[i]] >= 2
  {
    assert xs == xs[..j] + xs[j..];
    assert xs[i] in xs[..j] && xs[j] in xs[j..];
  }

  lemma {:induction false} DistinctMeansOnce<T(!new)>(xs: seq<T>, rank: T -> Rank, x: T)
    requires DistinctIds(xs, rank)
    ensures multiset(xs)[x] <= 1
    decreases |xs|
  {
    if xs != [] {
      assert xs == [xs[0]] + xs[1..];
      DistinctMeansOnce(xs[1..], rank, x);
      assert xs[0] !in xs[1..];
    }
  }

  lemma DistinctCarriesOver<T(!new)>(xs: seq<T>, ys: seq<T>, rank: T -> Rank)
    requires DistinctIds(xs, rank) && forall x :: multiset(ys)[x] <= multiset(xs)[x]
    ensures DistinctIds(ys, rank)
  {
    forall i, j | 0 <= i < j < |ys|
      ensures rank(ys[i]).id != rank(ys[j]).id
    {
      DistinctMeansOnce(xs, rank, ys[i]);
      assert ys[i] in multiset(ys) && ys[j] in multiset(ys);
      assert ys[i] in xs && ys[j] in xs;
      if ys[i] == ys[j] {
        SeenTwice(ys, i, j);
      }
    }
  }

  /** Sorting first or filtering first, the two stores list the same rows in the same order. */
  lemma BothStoresListAlike<T(!new)>(rows: seq<T>, keep: T -> bool, rank: T -> Rank, idBefore: (string, string) -> bool)
    requires DistinctIds(rows, rank) && TotalOrder(idBefore)
    ensures var before := NewestFirst(rank, idBefore);
            RunListing(rows, keep, before) == DeliveryListing(rows, keep, before)
  {
    var before := NewestFirst(rank, idBefore);
    NewestFirstIsAnOrder(rank, idBefore);
    SortingPermutes(rows, before);
    SortingPermutes(Filtered(rows, keep), before);
    FilteringKeepsOrder(SortedBy(rows, before), keep, before);
    var xs, ys := RunListing(rows, keep, before), DeliveryListing(rows, keep, before);
    forall x
      ensures multiset(xs)[x] == multiset(ys)[x] == if keep(x) then multiset(rows)[x] else 0
    {
      FilteredHolds(rows, keep, x);
      FilteredHolds(SortedBy(rows, before), keep, x);
    }
    assert multiset(xs) == multiset(ys);
    forall a, b | a in xs && b in xs && a != b
      ensures before(a, b) || before(b, a)
    {
      assert a in multiset(xs) && b in multiset(xs);
      assert a in multiset(rows) && b in multiset(rows);
      NewerIsAnOrder(rank(a), rank(b), rank(b), idBefore);
    }
    OneSortedOrder(xs, ys, before);
  }

  // ---- equals keep their order ----

  /** Neither precedes nor follows `y`. */
  function Beside<T>(before: (T, T) -> bool, y: T): T -> bool {
    x => !before(x, y) && !before(y, x)
  }

  lemma {:induction false} FilteredCons<T>(x: T, rest: seq<T>, keep: T -> bool)
    ensures Filtered([x] + rest, keep) == (if keep(x) then [x] else []) + Filtered(rest, keep)
    decreases |rest|
  {
    var first := if keep(x) then [x] else [];
    if rest == [] {
      assert [x] + rest == [x] && [x][..0] == [];
    } else {
      var front, last := rest[..|rest| - 1], rest[|rest| - 1];
      assert ([x] + rest)[..|rest|] == [x] + front;
      FilteredCons(x, front, keep);
      if keep(last) {
        Reassociated(first, Filtered(front, keep), [last]);
      }
    }
  }

  lemma {:induction false} PlacedAmongEquals<T(!new)>(x: T, sorted: seq<T>, before: (T, T) -> bool, y: T)
    requires WeakOrder(before)
    ensures var same := Beside(before, y);
            Filtered(Placed(x, sorted, before), same) == (if same(x) then [x] else []) + Filtered(sorted, same)
    decreases |sorted|
  {
    var same := Beside(before, y);
    if sorted != [] && before(sorted[0], x) {
      assert sorted == [sorted[0]] + sorted[1..];
      PlacedAmongEquals(x, sorted[1..], before, y);
      FilteredCons(sorted[0], Placed(x, sorted[1..], before), same);
      FilteredCons(sorted[0], sorted[1..], same);
      assert !(same(sorted[0]) && same(x));
    } else {
      FilteredCons(x, sorted, same);
    }
  }

  /** The sort is stable: rows that neither precede nor follow `y` stay in the order they had. */
  lemma {:induction false} SortingIsStable<T(!new)>(xs: seq<T>, before: (T, T) -> bool, y: T)
    requires WeakOrder(before)
    ensures var same := Beside(before, y);
            Filtered(SortedBy(xs, before), same) == Filtered(xs, same)
    decreases |xs|
  {
    var same := Beside(before, y);
    if xs != [] {
      assert xs == [xs[0]] + xs[1..];
      SortingIsStable(xs[1..], before, y);
      PlacedAmongEquals(xs[0], SortedBy(xs[1..], before), before, y);
      FilteredCons(xs[0], xs[1..], same);
    }
  }

  /** A cursor that names no listed row, one swept away meanwhile for instance, starts the listing over. */
  lemma {:induction false} UnknownCursorStartsOver<T>(all: seq<T>, rank: T -> Rank, limit: nat, id: string)
    requires forall i :: 0 <= i < |all| ==> rank(all[i]).id != id
    ensures Listed(all, rank, limit, Some(id)) == Listed(all, rank, limit, None)
  {
    NotFound(all, rank, id);
  }

  lemma {:induction false} NotFound<T>(all: seq<T>, rank: T -> Rank, id: string)
    requires forall i :: 0 <= i < |all| ==> rank(all[i]).id != id
    ensures FindIndex(all, rank, id) == -1
  {
    if all != [] {
      NotFound(all[1..], rank, id);
    }
  }

  /** By time of creation, the newest first, and by id, the last first, among rows of one time. */
  ghost predicate NewestComeFirst<T>(xs: seq<T>, rank: T -> Rank, idBefore: (string, string) -> bool) {
    forall i, j :: 0 <= i < j < |xs| ==>
      || rank(xs[i]).createdAtMs > rank(xs[j]).createdAtMs
      || (rank(xs[i]).createdAtMs == rank(xs[j]).createdAtMs && idBefore(rank(xs[j]).id, rank(xs[i]).id))
  }

  lemma OrderedComeNewestFirst<T(!new)>(xs: seq<T>, rank: T -> Rank, idBefore: (string, string) -> bool)
    requires InOrder(xs, NewestFirst(rank, idBefore)) && DistinctIds(xs, rank) && TotalOrder(idBefore)
    ensures NewestComeFirst(xs, rank, idBefore)
  {
    forall i, j | 0 <= i < j < |xs|
      ensures rank(xs[i]).createdAtMs >= rank(xs[j]).createdAtMs
      ensures rank(xs[i]).createdAtMs == rank(xs[j]).createdAtMs ==> idBefore(rank(xs[j]).id, rank(xs[i]).id)
    {
      assert !Newer(rank(xs[j]), rank(xs[i]), idBefore);
    }
  }

  /**
   On an unchanged store, following the cursor to null gives exactly the rows that pass the filter, newest
   first, each as often as it is stored (once), whichever order they were put in.
   */
  lemma PagingIsComplete<T(!new)>(rows: seq<T>, keep: T -> bool, rank: T -> Rank,
                                  idBefore: (string, string) -> bool, limit: nat)
    requires DistinctIds(rows, rank) && TotalOrder(idBefore) && limit >= 1
    ensures var before := NewestFirst(rank, idBefore);
            var all := DeliveryListing(rows, keep, before);
            && Followed(all, rank, limit, None, |all| + 1) == Some(all)
            && InOrder(all, before) && NewestComeFirst(all, rank, idBefore)
            && forall x :: multiset(all)[x] == if keep(x) then multiset(rows)[x] else 0
  {
    var before := NewestFirst(rank, idBefore);
    var all := DeliveryListing(rows, keep, before);
    NewestFirstIsAnOrder(rank, idBefore);
    SortingPermutes(Filtered(rows, keep), before);
    forall x
      ensures multiset(all)[x] == if keep(x) then multiset(rows)[x] else 0
    {
      FilteredHolds(rows, keep, x);
    }
    DistinctCarriesOver(rows, all, rank);
    OrderedComeNewestFirst(all, rank, idBefore);
    PagesVisitEveryRowOnce(all, rank, limit);
  }
}
