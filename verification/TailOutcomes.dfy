/**
 Why and where a stream ends, read off its schedule, and that it goes on to the log's head when nothing ends it.
 */
module TailOutcomes {
  import opened Wrappers
  import opened Envelopes
  import opened Tail

  function StartOf(since: int): int {
    if since > 0 then since else 0
  }

  /** The last seq seen before attempt `k`. */
  function CursorAt(since: int, schedule: seq<Attempt>, k: nat): int
    requires k <= |schedule|
  {
    if k == 0 then StartOf(since)
    else if schedule[k - 1].Opened? then CursorAfter(CursorAt(since, schedule, k - 1), schedule[k - 1].messages)
    else CursorAt(since, schedule, k - 1)
  }

  function YieldedAt(since: int, schedule: seq<Attempt>, k: nat): seq<Envelope>
    requires k <= |schedule|
  {
    if k == 0 then []
    else if schedule[k - 1].Opened? then
      YieldedAt(since, schedule, k - 1) + Fresh(CursorAt(since, schedule, k - 1), schedule[k - 1].messages)
    else YieldedAt(since, schedule, k - 1)
  }

  function OpenedIn(schedule: seq<Attempt>, j: nat, k: nat): nat
    requires j <= k <= |schedule|
  {
    if j == k then 0 else OpenedIn(schedule, j, k - 1) + if schedule[k - 1].Opened? then 1 else 0
  }

  // ---- what one attempt ends ----

  /** The first message that makes the reader leave is this one. */
  predicate IsLeftAt(ms: seq<Message>, p: int) {
    && 0 <= p < |ms| && ms[p] in {Control(StreamEnd), Control(Overflow)}
    && forall i :: 0 <= i < p ==> ms[i] !in {Control(StreamEnd), Control(Overflow)}
  }

  predicate IsNeverLeft(ms: seq<Message>) {
    Control(StreamEnd) !in ms && Control(Overflow) !in ms
  }

  predicate SaysEnd(ms: seq<Message>) {
    exists p :: 0 <= p < |ms| && IsLeftAt(ms, p) && ms[p] == Control(StreamEnd)
  }

  /** From `j` to `k` so many connections were opened, and none of them moved the cursor. */
  predicate IsQuietFrom(since: int, schedule: seq<Attempt>, j: int, k: nat, n: nat)
    requires k <= |schedule|
  {
    0 <= j <= k && OpenedIn(schedule, j, k) == n && CursorAt(since, schedule, j) == CursorAt(since, schedule, k)
  }

  /** The last so many connections before attempt `k` brought nothing new. */
  predicate IsQuietFor(since: int, schedule: seq<Attempt>, k: nat, n: nat)
    requires k <= |schedule|
  {
    exists j :: 0 <= j <= k && IsQuietFrom(since, schedule, j, k, n)
  }

  /** How attempt `k`, once it is made, ends the stream, if it does. */
  function EndsAt(since: int, schedule: seq<Attempt>, k: nat): Outcome
    requires k < |schedule|
  {
    match schedule[k]
    case OpenAborted => Returned
    case OpenFailed(fatal) =>
      if fatal then ThrewFatal
      else if FailsInARow(schedule, k - 20, 21) then ThrewUnreachable
      else Waiting
    case Opened(ms, ending) =>
      if SaysEnd(ms) then Returned
      else if IsNeverLeft(ms) && ending == Dropped(true) then ThrewFatal
      else if ending == Aborted then Returned
      else if IsQuietFor(since, schedule, k + 1, 21) then ThrewSilent
      else Waiting
  }

  // ---- the reader's counters, read off the schedule ----

  function FailedRun(schedule: seq<Attempt>, k: nat): nat
    requires k <= |schedule|
  {
    if k > 0 && schedule[k - 1].OpenFailed? then FailedRun(schedule, k - 1) + 1 else 0
  }

  function SilentRun(since: int, schedule: seq<Attempt>, k: nat): nat
    requires k <= |schedule|
  {
    if k == 0 then 0
    else if !schedule[k - 1].Opened? then SilentRun(since, schedule, k - 1)
    else if CursorAt(since, schedule, k - 1) == CursorAt(since, schedule, k) then SilentRun(since, schedule, k - 1) + 1
    else 0
  }

  lemma {:induction false} LeftByTells(ms: seq<Message>)
    ensures LeftBy(ms).None? <==> IsNeverLeft(ms)
    ensures LeftBy(ms) == Some(StreamEnd) <==> SaysEnd(ms)
  {
    if ms != [] {
      LeftByTells(ms[1..]);
      assert ms == [ms[0]] + ms[1..];
      if Leaves(ms[0]) {
        assert IsLeftAt(ms, 0);
      } else {
        LeftOneOn(ms);
      }
    }
  }

  lemma LeftOneOn(ms: seq<Message>)
    requires ms != [] && !Leaves(ms[0])
    ensures SaysEnd(ms) <==> SaysEnd(ms[1..])
  {
    if SaysEnd(ms) {
      var p :| 0 <= p < |ms| && IsLeftAt(ms, p) && ms[p] == Control(StreamEnd);
      assert Leaves(ms[p]);
      assert forall i :: 0 <= i < p ==> ms[1..][i] == ms[i + 1];
      assert IsLeftAt(ms[1..], p - 1);
    }
    if SaysEnd(ms[1..]) {
      var p :| 0 <= p < |ms[1..]| && IsLeftAt(ms[1..], p) && ms[1..][p] == Control(StreamEnd);
      assert forall i :: 0 < i <= p ==> ms[i] == ms[1..][i - 1];
      assert IsLeftAt(ms, p + 1);
    }
  }

  lemma {:induction false} FailedRunCounts(schedule: seq<Attempt>, k: nat, n: nat)
    requires k <= |schedule| && n > 0
    requires forall j :: 0 <= j < k ==> schedule[j] != OpenFailed(true)
    ensures FailedRun(schedule, k) >= n <==> FailsInARow(schedule, k - n, n)
    decreases k
  {
    if n == 1 {
      assert FailsInARow(schedule, k - 1, 1) <==> k >= 1 && schedule[k - 1] == OpenFailed(false);
    } else if k > 0 {
      FailedRunCounts(schedule, k - 1, n - 1);
    }
  }

  lemma {:induction false} CursorOnlyRises(since: int, schedule: seq<Attempt>, j: nat, k: nat)
    requires j <= k <= |schedule|
    ensures CursorAt(since, schedule, j) <= CursorAt(since, schedule, k)
    decreases k
  {
    if j < k {
      CursorOnlyRises(since, schedule, j, k - 1);
      if schedule[k - 1].Opened? {
        FreshClimbs(CursorAt(since, schedule, k - 1), schedule[k - 1].messages);
      }
    }
  }

  lemma {:induction false} SilentRunCounts(since: int, schedule: seq<Attempt>, k: nat, n: nat)
    requires k <= |schedule|
    ensures SilentRun(since, schedule, k) >= n <==> IsQuietFor(since, schedule, k, n)
    decreases k
  {
    if n == 0 {
      assert IsQuietFrom(since, schedule, k, k, 0);
    } else if k > 0 {
      QuietOneOn(since, schedule, k, n);
      SilentRunCounts(since, schedule, k - 1, n);
      SilentRunCounts(since, schedule, k - 1, n - 1);
    }
  }

  lemma QuietOneOn(since: int, schedule: seq<Attempt>, k: nat, n: nat)
    requires 0 < k <= |schedule| && n > 0
    ensures IsQuietFor(since, schedule, k, n) <==>
            if schedule[k - 1].Opened? then
              CursorAt(since, schedule, k - 1) == CursorAt(since, schedule, k)
              && IsQuietFor(since, schedule, k - 1, n - 1)
            else IsQuietFor(since, schedule, k - 1, n)
  {
    var m := if schedule[k - 1].Opened? then n - 1 else n;
    if IsQuietFor(since, schedule, k, n) {
      var j :| 0 <= j <= k && IsQuietFrom(since, schedule, j, k, n);
      CursorOnlyRises(since, schedule, j, k - 1);
      CursorOnlyRises(since, schedule, k - 1, k);
      assert IsQuietFrom(since, schedule, j, k - 1, m);
    }
    if CursorAt(since, schedule, k - 1) == CursorAt(since, schedule, k) && IsQuietFor(since, schedule, k - 1, m) {
      var j :| 0 <= j <= k - 1 && IsQuietFrom(since, schedule, j, k - 1, m);
      assert IsQuietFrom(since, schedule, j, k, n);
    }
  }

  // ---- where the stream ends ----

  lemma SlicedOneOn(schedule: seq<Attempt>, k: nat)
    requires k < |schedule|
    ensures schedule[k..] != [] && schedule[k..][0] == schedule[k] && schedule[k..][1..] == schedule[k + 1..]
  {
  }

  lemma FailedOneMore(schedule: seq<Attempt>, k: nat)
    requires k < |schedule| && schedule[k] == OpenFailed(false)
    requires forall j :: 0 <= j < k ==> schedule[j] != OpenFailed(true)
    ensures FailsInARow(schedule, k - 20, 21) <==> FailedRun(schedule, k) + 1 >= 21
  {
    FailedRunCounts(schedule, k + 1, 21);
  }

  /** What the reader does with one attempt. */
  lemma OneAttempt(since: int, schedule: seq<Attempt>, k: nat, attempt: int, empty: int)
    requires k < |schedule| && forall j :: 0 <= j < k ==> schedule[j] != OpenFailed(true)
    requires attempt == FailedRun(schedule, k) && empty == SilentRun(since, schedule, k)
    ensures var cursor, rest := CursorAt(since, schedule, k), schedule[k..];
            var got := if schedule[k].Opened? then Fresh(cursor, schedule[k].messages) else [];
            TailFrom(cursor, attempt, empty, rest) ==
            if EndsAt(since, schedule, k) != Waiting
            then Result(got, CursorAt(since, schedule, k + 1), EndsAt(since, schedule, k))
            else After(got, TailFrom(CursorAt(since, schedule, k + 1), FailedRun(schedule, k + 1),
                                     SilentRun(since, schedule, k + 1), schedule[k + 1..]))
  {
    SlicedOneOn(schedule, k);
    match schedule[k]
    case OpenAborted =>
    case OpenFailed(fatal) =>
      if !fatal {
        FailedOneMore(schedule, k);
        var r := TailFrom(CursorAt(since, schedule, k + 1), FailedRun(schedule, k + 1),
                          SilentRun(since, schedule, k + 1), schedule[k + 1..]);
        assert [] + r.yielded == r.yielded;
      }
    case Opened(ms, ending) =>
      LeftByTells(ms);
      FreshClimbs(CursorAt(since, schedule, k), ms);
      SilentRunCounts(since, schedule, k + 1, 21);
  }

  /** As long as no attempt before `k` ended it, the stream is what it has yielded and what is still to come. */
  lemma {:induction false} StillGoing(since: int, schedule: seq<Attempt>, k: nat)
    requires k <= |schedule| && forall j :: 0 <= j < k ==> EndsAt(since, schedule, j) == Waiting
    ensures forall j :: 0 <= j < k ==> schedule[j] != OpenFailed(true)
    ensures Stream(since, schedule) ==
            After(YieldedAt(since, schedule, k),
                  TailFrom(CursorAt(since, schedule, k), FailedRun(schedule, k), SilentRun(since, schedule, k),
                           schedule[k..]))
    decreases k
  {
    if k == 0 {
      assert schedule[0..] == schedule;
      assert [] + Stream(since, schedule).yielded == Stream(since, schedule).yielded;
    } else {
      StillGoing(since, schedule, k - 1);
      assert EndsAt(since, schedule, k - 1) == Waiting;
      OneAttempt(since, schedule, k - 1, FailedRun(schedule, k - 1), SilentRun(since, schedule, k - 1));
      var cursor := CursorAt(since, schedule, k - 1);
      var got := if schedule[k - 1].Opened? then Fresh(cursor, schedule[k - 1].messages) else [];
      Reassociated(YieldedAt(since, schedule, k - 1), got,
                   TailFrom(CursorAt(since, schedule, k), FailedRun(schedule, k), SilentRun(since, schedule, k),
                            schedule[k..]).yielded);
      assert YieldedAt(since, schedule, k) == YieldedAt(since, schedule, k - 1) + got;
    }
  }

  /** Main result: the stream ends at the first attempt that ends one, in the way that attempt says. */
  lemma EndsWhereFirstEnded(since: int, schedule: seq<Attempt>, k: nat)
    requires k < |schedule| && forall j :: 0 <= j < k ==> EndsAt(since, schedule, j) == Waiting
    requires EndsAt(since, schedule, k) != Waiting
    ensures Stream(since, schedule) ==
            Result(YieldedAt(since, schedule, k + 1), CursorAt(since, schedule, k + 1), EndsAt(since, schedule, k))
  {
    StillGoing(since, schedule, k);
    OneAttempt(since, schedule, k, FailedRun(schedule, k), SilentRun(since, schedule, k));
    assert YieldedAt(since, schedule, k) + [] == YieldedAt(since, schedule, k);
  }

  /** And it uses the whole schedule, and is still waiting, when no attempt ends it. */
  lemma WaitsWhenNothingEnds(since: int, schedule: seq<Attempt>)
    requires forall j :: 0 <= j < |schedule| ==> EndsAt(since, schedule, j) == Waiting
    ensures Stream(since, schedule) ==
            Result(YieldedAt(since, schedule, |schedule|), CursorAt(since, schedule, |schedule|), Waiting)
  {
    StillGoing(since, schedule, |schedule|);
    assert schedule[|schedule|..] == [];
    assert YieldedAt(since, schedule, |schedule|) + [] == YieldedAt(since, schedule, |schedule|);
  }

  predicate IsFirstEnd(since: int, schedule: seq<Attempt>, k: int) {
    && 0 <= k < |schedule| && EndsAt(since, schedule, k) != Waiting
    && forall j :: 0 <= j < k ==> EndsAt(since, schedule, j) == Waiting
  }

  lemma {:induction false} SomeFirstEnd(since: int, schedule: seq<Attempt>, n: nat) returns (k: nat)
    requires n < |schedule| && EndsAt(since, schedule, n) != Waiting
    ensures IsFirstEnd(since, schedule, k)
    decreases n
  {
    if j :| 0 <= j < n && EndsAt(since, schedule, j) != Waiting {
      k := SomeFirstEnd(since, schedule, j);
    } else {
      k := n;
    }
  }

  /** Each outcome, exactly when: the first attempt that ends a stream ends it so, and `Waiting` when there is none. */
  lemma OutcomeExactlyWhen(since: int, schedule: seq<Attempt>, outcome: Outcome)
    ensures Stream(since, schedule).outcome == outcome <==>
            if outcome == Waiting then forall k :: 0 <= k < |schedule| ==> EndsAt(since, schedule, k) == Waiting
            else exists k :: IsFirstEnd(since, schedule, k) && EndsAt(since, schedule, k) == outcome
  {
    if n :| 0 <= n < |schedule| && EndsAt(since, schedule, n) != Waiting {
      var k := SomeFirstEnd(since, schedule, n);
      EndsWhereFirstEnded(since, schedule, k);
      forall m | IsFirstEnd(since, schedule, m)
        ensures m == k
      {
      }
    } else {
      WaitsWhenNothingEnds(since, schedule);
    }
  }

  // ---- one connection is read up to the signal that ends it ----

  lemma {:induction false} NothingIsReadAfterLeaving(cursor: int, ms: seq<Message>, p: nat)
    requires IsLeftAt(ms, p)
    ensures Fresh(cursor, ms) == Fresh(cursor, ms[..p]) && CursorAfter(cursor, ms) == CursorAfter(cursor, ms[..p])
    ensures LeftBy(ms) == Some(ms[p].signal)
    decreases p
  {
    if p > 0 {
      assert ms[..p][0] == ms[0] && ms[..p][1..] == ms[1..][..p - 1];
      assert !Leaves(ms[0]) && IsLeftAt(ms[1..], p - 1);
      var next := if ms[0].Event? && ms[0].e.seqNo > cursor then ms[0].e.seqNo else cursor;
      NothingIsReadAfterLeaving(next, ms[1..], p - 1);
    }
  }

  /** No signal before it makes the reader leave. */
  predicate IsStillRead(ms: seq<Message>, p: int)
    requires p < |ms|
  {
    forall i :: 0 <= i < p ==> ms[i] !in {Control(StreamEnd), Control(Overflow)}
  }

  lemma {:induction false} EverythingIsReadBeforeLeaving(cursor: int, ms: seq<Message>, p: nat)
    requires p < |ms| && ms[p].Event? && IsStillRead(ms, p)
    ensures CursorAfter(cursor, ms) >= ms[p].e.seqNo
    decreases p
  {
    var next := if ms[0].Event? && ms[0].e.seqNo > cursor then ms[0].e.seqNo else cursor;
    assert !Leaves(ms[0]);
    if p > 0 {
      assert ms[1..][p - 1] == ms[p];
      EverythingIsReadBeforeLeaving(next, ms[1..], p - 1);
    } else {
      FreshClimbs(next, ms[1..]);
    }
  }

  lemma {:induction false} TailCursorRises(cursor: int, attempt: int, empty: int, schedule: seq<Attempt>)
    ensures TailFrom(cursor, attempt, empty, schedule).cursor >= cursor
    decreases |schedule|
  {
    if schedule != [] {
      match schedule[0]
      case OpenAborted =>
      case OpenFailed(_) => TailCursorRises(cursor, attempt + 1, empty, schedule[1..]);
      case Opened(ms, _) =>
        FreshClimbs(cursor, ms);
        TailCursorRises(CursorAfter(cursor, ms), 0, if Fresh(cursor, ms) != [] then 0 else empty + 1, schedule[1..]);
    }
  }

  /** The connection delivers the log's last envelope, and the reader has not left before it. */
  predicate DeliversHead(log: seq<Envelope>, ms: seq<Message>) {
    log != [] && exists p :: 0 <= p < |ms| && ms[p] == Event(log[|log| - 1]) && IsStillRead(ms, p)
  }

  lemma HeadIsReached(log: seq<Envelope>, cursor: int, ms: seq<Message>)
    requires IsNumbered(log) && DeliversHead(log, ms)
    ensures CursorAfter(cursor, ms) >= |log|
  {
    var p :| 0 <= p < |ms| && ms[p] == Event(log[|log| - 1]) && IsStillRead(ms, p);
    EverythingIsReadBeforeLeaving(cursor, ms, p);
  }

  /** A stream that makes attempt `k` keeps what that attempt saw. */
  lemma GetsThisFar(since: int, schedule: seq<Attempt>, k: nat)
    requires k < |schedule| && forall j :: 0 <= j < k ==> EndsAt(since, schedule, j) == Waiting
    ensures Stream(since, schedule).cursor >= CursorAt(since, schedule, k + 1)
  {
    StillGoing(since, schedule, k);
    OneAttempt(since, schedule, k, FailedRun(schedule, k), SilentRun(since, schedule, k));
    TailCursorRises(CursorAt(since, schedule, k + 1), FailedRun(schedule, k + 1),
                    SilentRun(since, schedule, k + 1), schedule[k + 1..]);
  }

  /**
   Catching up: a stream that gets as far as a connection which delivers the log's head has yielded the whole rest
   of the log, however many attempts before it failed or dropped.
   */
  lemma {:induction false} CatchesUp(log: seq<Envelope>, since: int, schedule: seq<Attempt>, k: nat)
    requires IsNumbered(log) && since <= |log| && Honest(log, StartOf(since), schedule)
    requires k < |schedule| && forall j :: 0 <= j < k ==> EndsAt(since, schedule, j) == Waiting
    requires schedule[k].Opened? && DeliversHead(log, schedule[k].messages)
    ensures var r := Stream(since, schedule);
            r.cursor == |log| && r.yielded == log[StartOf(since)..]
  {
    HeadIsReached(log, CursorAt(since, schedule, k), schedule[k].messages);
    GetsThisFar(since, schedule, k);
    TailIsExact(log, StartOf(since), 0, 0, schedule);
  }
}
