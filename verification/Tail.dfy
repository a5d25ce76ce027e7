/**
 The resumable envelope tail: one logical stream over many connections, each opened with the last
 seq seen. The environment is a schedule that says how every attempt to connect goes.
 */
module Tail {
  import opened Wrappers
  import opened Envelopes

  const MAX_EMPTY_RECONNECTS := 20

  /** The three out-of-band frames: `omni.stream_end`, `omni.stream_overflow`, `omni.stream_truncated`. */
  datatype Signal = StreamEnd | Overflow | Truncated

  datatype Message = Event(e: Envelope) | Control(signal: Signal)

  /** How a connection that was opened goes down, if the reader does not leave it first. */
  datatype Ending = Drained | Dropped(fatal: bool) | Aborted

  datatype Attempt = OpenFailed(fatal: bool) | OpenAborted | Opened(messages: seq<Message>, ending: Ending)

  datatype Outcome = Waiting | Returned | ThrewFatal | ThrewUnreachable | ThrewSilent

  datatype Result = Result(yielded: seq<Envelope>, cursor: int, outcome: Outcome)

  // ---- one connection ----

  predicate Leaves(m: Message) {
    m.Control? && m.signal != Truncated
  }

  /** What the reader yields from one connection: everything above the cursor, up to the point it leaves. */
  function Fresh(cursor: int, ms: seq<Message>): seq<Envelope>
    decreases |ms|
  {
    if ms == [] || Leaves(ms[0]) then []
    else if ms[0].Event? && ms[0].e.seqNo > cursor then [ms[0].e] + Fresh(ms[0].e.seqNo, ms[1..])
    else Fresh(cursor, ms[1..])
  }

  function CursorAfter(cursor: int, ms: seq<Message>): int
    decreases |ms|
  {
    if ms == [] || Leaves(ms[0]) then cursor
    else if ms[0].Event? && ms[0].e.seqNo > cursor then CursorAfter(ms[0].e.seqNo, ms[1..])
    else CursorAfter(cursor, ms[1..])
  }

  /** The first control message that makes the reader leave, if there is one. */
  function LeftBy(ms: seq<Message>): Option<Signal> {
    if ms == [] then None else if Leaves(ms[0]) then Some(ms[0].signal) else LeftBy(ms[1..])
  }

  // ---- the whole stream ----

  function After(got: seq<Envelope>, r: Result): Result {
    r.(yielded := got + r.yielded)
  }

  function TailFrom(cursor: int, attempt: int, empty: int, schedule: seq<Attempt>): Result
    decreases |schedule|
  {
    if schedule == [] then Result([], cursor, Waiting)
    else
      match schedule[0]
      case OpenAborted => Result([], cursor, Returned)
      case OpenFailed(fatal) =>
        if fatal then Result([], cursor, ThrewFatal)
        else if attempt + 1 > MAX_EMPTY_RECONNECTS then Result([], cursor, ThrewUnreachable)
        else TailFrom(cursor, attempt + 1, empty, schedule[1..])
      case Opened(ms, ending) =>
        var got, next := Fresh(cursor, ms), CursorAfter(cursor, ms);
        var silent := if got != [] then 0 else empty + 1;
        if LeftBy(ms) == Some(StreamEnd) then Result(got, next, Returned)
        else if LeftBy(ms).None? && ending == Dropped(true) then Result(got, next, ThrewFatal)
        else if ending == Aborted then Result(got, next, Returned)
        else if silent > MAX_EMPTY_RECONNECTS then Result(got, next, ThrewSilent)
        else After(got, TailFrom(next, 0, silent, schedule[1..]))
  }

  function Stream(since: int, schedule: seq<Attempt>): Result {
    TailFrom(if since > 0 then since else 0, 0, 0, schedule)
  }

  // ---- the log behind it ----

  /** 1-based and without gaps. */
  predicate IsNumbered(log: seq<Envelope>) {
    forall i :: 0 <= i < |log| ==> log[i].seqNo == i + 1
  }

  function EventsIn(ms: seq<Message>): seq<Envelope> {
    if ms == [] then [] else (if ms[0].Event? then [ms[0].e] else []) + EventsIn(ms[1..])
  }

  /** A connection opened with `?since=cursor` delivers a contiguous run starting at or below cursor + 1. */
  ghost predicate Delivers(log: seq<Envelope>, cursor: int, ms: seq<Message>) {
    exists a, b :: 0 <= a <= b <= |log| && a <= cursor && EventsIn(ms) == log[a..b]
  }

  ghost predicate Honest(log: seq<Envelope>, cursor: int, schedule: seq<Attempt>)
    decreases |schedule|
  {
    schedule == [] ||
    if schedule[0].Opened? then
      Delivers(log, cursor, schedule[0].messages) &&
      Honest(log, CursorAfter(cursor, schedule[0].messages), schedule[1..])
    else Honest(log, cursor, schedule[1..])
  }

  /** The log strictly after `from` and up to `to`. */
  function Segment(log: seq<Envelope>, from: int, to: int): seq<Envelope> {
    if 0 <= from < to <= |log| then log[from..to] else []
  }

  lemma {:induction false} FreshIsSegment(log: seq<Envelope>, cursor: int, ms: seq<Message>, a: int, b: int)
    requires IsNumbered(log) && 0 <= a <= b <= |log| && a <= cursor && EventsIn(ms) == log[a..b]
    ensures CursorAfter(cursor, ms) == cursor || cursor < CursorAfter(cursor, ms) <= |log|
    ensures Fresh(cursor, ms) == Segment(log, cursor, CursorAfter(cursor, ms))
    decreases |ms|
  {
    if ms != [] && !Leaves(ms[0]) {
      if ms[0].Event? {
        assert EventsIn(ms) == [ms[0].e] + EventsIn(ms[1..]);
        assert log[a..b][0] == log[a] == ms[0].e;
        assert EventsIn(ms[1..]) == log[a..b][1..] == log[a + 1..b];
        var next := if ms[0].e.seqNo > cursor then ms[0].e.seqNo else cursor;
        FreshIsSegment(log, next, ms[1..], a + 1, b);
        if ms[0].e.seqNo > cursor {
          assert next == a + 1 == cursor + 1;
          var to := CursorAfter(next, ms[1..]);
          assert [log[cursor]] + Segment(log, next, to) == log[cursor..to];
        }
      } else {
        assert EventsIn(ms) == EventsIn(ms[1..]);
        FreshIsSegment(log, cursor, ms[1..], a, b);
      }
    }
  }

  lemma ConnectionIsSegment(log: seq<Envelope>, cursor: int, ms: seq<Message>)
    requires IsNumbered(log) && Delivers(log, cursor, ms)
    ensures CursorAfter(cursor, ms) == cursor || cursor < CursorAfter(cursor, ms) <= |log|
    ensures Fresh(cursor, ms) == Segment(log, cursor, CursorAfter(cursor, ms))
  {
    var a, b :| 0 <= a <= b <= |log| && a <= cursor && EventsIn(ms) == log[a..b];
    FreshIsSegment(log, cursor, ms, a, b);
  }

  lemma SegmentsJoin(log: seq<Envelope>, from: int, mid: int, to: int)
    requires 0 <= from && (mid == from || from < mid <= |log|) && (to == mid || mid < to <= |log|)
    ensures Segment(log, from, mid) + Segment(log, mid, to) == Segment(log, from, to)
  {
  }

  /** Main result: over any schedule the yielded envelopes are exactly the log after `cursor`, up to the new cursor. */
  lemma {:induction false} TailIsExact(log: seq<Envelope>, cursor: int,
                                       attempt: int, empty: int, schedule: seq<Attempt>)
    requires IsNumbered(log) && 0 <= cursor && Honest(log, cursor, schedule)
    ensures var r := TailFrom(cursor, attempt, empty, schedule);
      (r.cursor == cursor || cursor < r.cursor <= |log|) && r.yielded == Segment(log, cursor, r.cursor)
    decreases |schedule|
  {
    if schedule != [] {
      match schedule[0]
      case OpenAborted =>
      case OpenFailed(fatal) => TailIsExact(log, cursor, attempt + 1, empty, schedule[1..]);
      case Opened(ms, ending) =>
        var got, next := Fresh(cursor, ms), CursorAfter(cursor, ms);
        ConnectionIsSegment(log, cursor, ms);
        assert got == Segment(log, cursor, next);
        var silent := if got != [] then 0 else empty + 1;
        TailIsExact(log, next, 0, silent, schedule[1..]);
        SegmentsJoin(log, cursor, next, TailFrom(next, 0, silent, schedule[1..]).cursor);
    }
  }

  // ---- without any promise from the other side ----

  predicate Climbs(es: seq<Envelope>, above: int) {
    && (forall i :: 0 <= i < |es| ==> es[i].seqNo > above)
    && (forall i, j :: 0 <= i < j < |es| ==> es[i].seqNo < es[j].seqNo)
  }

  lemma {:induction false} FreshClimbs(cursor: int, ms: seq<Message>)
    ensures Climbs(Fresh(cursor, ms), cursor)
    ensures CursorAfter(cursor, ms) >= cursor
    ensures Fresh(cursor, ms) == [] <==> CursorAfter(cursor, ms) == cursor
    ensures forall i :: 0 <= i < |Fresh(cursor, ms)| ==> Fresh(cursor, ms)[i].seqNo <= CursorAfter(cursor, ms)
    decreases |ms|
  {
    if ms != [] && !Leaves(ms[0]) {
      var next := if ms[0].Event? && ms[0].e.seqNo > cursor then ms[0].e.seqNo else cursor;
      FreshClimbs(next, ms[1..]);
    }
  }

  /** Whatever the connections deliver, nothing is yielded twice, out of order, or at or below `since`. */
  lemma {:induction false} NeverTwice(cursor: int, attempt: int, empty: int, schedule: seq<Attempt>)
    ensures Climbs(TailFrom(cursor, attempt, empty, schedule).yielded, cursor)
    decreases |schedule|
  {
    if schedule != [] {
      match schedule[0]
      case OpenAborted =>
      case OpenFailed(fatal) => NeverTwice(cursor, attempt + 1, empty, schedule[1..]);
      case Opened(ms, ending) =>
        FreshClimbs(cursor, ms);
        var got, next := Fresh(cursor, ms), CursorAfter(cursor, ms);
        NeverTwice(next, 0, if got != [] then 0 else empty + 1, schedule[1..]);
    }
  }

  // ---- it halts ----

  /** Remaining log, then empty reconnects left, then failed opens left. */
  function Budget(remaining: int, attempt: int, empty: int): int {
    (if remaining > 0 then remaining else 0) * (MAX_EMPTY_RECONNECTS + 1) * (MAX_EMPTY_RECONNECTS + 1)
      + (MAX_EMPTY_RECONNECTS - empty) * (MAX_EMPTY_RECONNECTS + 1) + (MAX_EMPTY_RECONNECTS - attempt)
  }

  /** No connection delivers anything past the end of the log. */
  predicate Within(head: int, schedule: seq<Attempt>) {
    forall k :: 0 <= k < |schedule| && schedule[k].Opened? ==> AllWithin(head, schedule[k].messages)
  }

  predicate AllWithin(head: int, ms: seq<Message>) {
    forall j :: 0 <= j < |ms| && ms[j].Event? ==> ms[j].e.seqNo <= head
  }

  lemma {:induction false} CursorStaysWithin(head: int, cursor: int, ms: seq<Message>)
    requires AllWithin(head, ms)
    ensures CursorAfter(cursor, ms) == cursor || CursorAfter(cursor, ms) <= head
    decreases |ms|
  {
    if ms != [] && !Leaves(ms[0]) {
      var next := if ms[0].Event? && ms[0].e.seqNo > cursor then ms[0].e.seqNo else cursor;
      CursorStaysWithin(head, next, ms[1..]);
    }
  }

  /** Main result: on a log that ends, no schedule longer than the budget leaves the stream open. */
  lemma {:induction false} TailHalts(head: int, cursor: int, attempt: int, empty: int, schedule: seq<Attempt>)
    requires 0 <= attempt <= MAX_EMPTY_RECONNECTS && 0 <= empty <= MAX_EMPTY_RECONNECTS
    requires Within(head, schedule)
    requires |schedule| > Budget(head - cursor, attempt, empty)
    ensures TailFrom(cursor, attempt, empty, schedule).outcome != Waiting
    decreases |schedule|
  {
    if schedule != [] {
      var rest := schedule[1..];
      assert Within(head, rest) by {
        assert forall k :: 0 <= k < |rest| ==> rest[k] == schedule[k + 1];
      }
      match schedule[0]
      case OpenAborted =>
      case OpenFailed(fatal) =>
        if !fatal && attempt + 1 <= MAX_EMPTY_RECONNECTS {
          TailHalts(head, cursor, attempt + 1, empty, rest);
        }
      case Opened(ms, ending) =>
        var got, next := Fresh(cursor, ms), CursorAfter(cursor, ms);
        var silent := if got != [] then 0 else empty + 1;
        CursorStaysWithin(head, cursor, ms);
        FreshClimbs(cursor, ms);
        if silent <= MAX_EMPTY_RECONNECTS {
          BudgetFalls(head, cursor, next, attempt, empty, silent);
          TailHalts(head, next, 0, silent, rest);
        }
    }
  }

  lemma BudgetFalls(head: int, cursor: int, next: int, attempt: int, empty: int, silent: int)
    requires 0 <= attempt <= MAX_EMPTY_RECONNECTS && 0 <= empty <= MAX_EMPTY_RECONNECTS
    requires (next == cursor && silent == empty + 1) || (cursor < next <= head && silent == 0)
    ensures Budget(head - next, 0, silent) < Budget(head - cursor, attempt, empty)
  {
  }

  // ---- when it gives up ----

  const LIMIT := MAX_EMPTY_RECONNECTS + 1

  /** `n` failed opens in a row, starting at attempt `k` of the schedule. */
  predicate FailsInARow(schedule: seq<Attempt>, k: int, n: int) {
    0 <= k && 0 <= n && k + n <= |schedule| && forall j :: k <= j < k + n ==> schedule[j] == OpenFailed(false)
  }

  /** The stream is declared unreachable only after 21 failed opens in a row. */
  lemma UnreachableMeansFailuresInARow(since: int, schedule: seq<Attempt>)
    requires Stream(since, schedule).outcome == ThrewUnreachable
    ensures exists k :: FailsInARow(schedule, k, LIMIT)
  {
    var start := if since > 0 then since else 0;
    FailuresInARow(start, 0, 0, schedule);
  }

  lemma {:induction false} FailuresInARow(cursor: int, attempt: int, empty: int, schedule: seq<Attempt>)
    requires 0 <= attempt <= MAX_EMPTY_RECONNECTS
    requires TailFrom(cursor, attempt, empty, schedule).outcome == ThrewUnreachable
    ensures FailsInARow(schedule, 0, LIMIT - attempt)
      || exists k :: FailsInARow(schedule, k, LIMIT)
    decreases |schedule|
  {
    if schedule != [] {
      var rest := schedule[1..];
      if schedule[0].OpenFailed? && attempt < MAX_EMPTY_RECONNECTS {
        FailuresInARow(cursor, attempt + 1, empty, rest);
        if FailsInARow(rest, 0, MAX_EMPTY_RECONNECTS - attempt) {
          assert forall j :: 1 <= j < LIMIT - attempt ==> schedule[j] == rest[j - 1];
        } else {
          var k :| FailsInARow(rest, k, LIMIT);
          RowShifts(schedule, k, LIMIT);
        }
      } else if schedule[0].Opened? {
        var ms := schedule[0].messages;
        var silent := if Fresh(cursor, ms) != [] then 0 else empty + 1;
        FailuresInARow(CursorAfter(cursor, ms), 0, silent, rest);
        var k :| FailsInARow(rest, k, LIMIT);
        RowShifts(schedule, k, LIMIT);
      }
    }
  }

  lemma RowShifts(schedule: seq<Attempt>, k: int, n: int)
    requires schedule != [] && FailsInARow(schedule[1..], k, n)
    ensures FailsInARow(schedule, k + 1, n)
  {
    assert forall j :: k + 1 <= j < k + 1 + n ==> schedule[j] == schedule[1..][j - 1];
  }
}
