/**
 The client's worker handle: several envelope streams feed one emitter, and a turn's result is
 collected from one of them.
 */
module Handle {
  import opened Wrappers
  import opened Envelopes
  import opened Tail
  import opened Turn
  import opened TurnEvents
  import opened TurnAgreement
  import opened TurnFold

  // ---- the emitter ----

  /** What the listeners have been given after a run of envelopes, from what they had and the high-water mark. */
  function Emitted(had: seq<Envelope>, mark: int, es: seq<Envelope>): seq<Envelope> {
    if es == [] then had
    else
      var last, front := es[|es| - 1], es[..|es| - 1];
      if last.seqNo > MarkAfter(mark, front) then Emitted(had, mark, front) + [last] else Emitted(had, mark, front)
  }

  function MarkAfter(mark: int, es: seq<Envelope>): int {
    if es == [] then mark
    else
      var m := MarkAfter(mark, es[..|es| - 1]);
      if es[|es| - 1].seqNo > m then es[|es| - 1].seqNo else m
  }

  /** The state that the last state change among the envelopes tells. */
  function StateTold(at: WorkerState, es: seq<Envelope>): WorkerState {
    if es == [] then at
    else
      var last := es[|es| - 1];
      if last.body.WorkerStateChange? then last.body.state else StateTold(at, es[..|es| - 1])
  }

  lemma StateOneOn(at: WorkerState, es: seq<Envelope>, e: Envelope)
    ensures StateTold(at, es + [e]) == if e.body.WorkerStateChange? then e.body.state else StateTold(at, es)
  {
    assert (es + [e])[..|es|] == es;
  }

  predicate ShowsClose(es: seq<Envelope>) {
    exists e :: e in es && IsClose(e)
  }

  lemma CloseOneOn(es: seq<Envelope>, e: Envelope)
    ensures ShowsClose(es + [e]) <==> ShowsClose(es) || IsClose(e)
  {
    assert e in es + [e];
    if x :| x in es && IsClose(x) {
      assert x in es + [e];
    }
  }

  class WorkerHandle {
    ghost const stateAtFirst: WorkerState
    ghost const headAtFirst: int
    var emittedThrough: int
    var headSeq: int
    var state: WorkerState
    var closedSettled: bool
    /** Everything the `event` listeners were called with. */
    var emitted: seq<Envelope>
    /** How often the `closed` listeners were called. */
    var closedCalls: nat
    /** Whether `close()` of this handle has been answered. */
    ghost var closeAnswered: bool

    /**
     The snapshot is what was emitted last: the head its number, and the state, unless `close()` was answered, what the
     last state change told. `closed` is announced at most once.
     */
    ghost predicate Valid()
      reads this
    {
      && (emitted != [] ==> headSeq == emittedThrough == emitted[|emitted| - 1].seqNo)
      && (emitted == [] ==> headSeq == headAtFirst)
      && (!closeAnswered ==> state == StateTold(stateAtFirst, emitted))
      && closedCalls == (if closedSettled then 1 else 0)
      && (closedSettled <==> closeAnswered || ShowsClose(emitted))
    }

    constructor (head: int, s: WorkerState)
      ensures Valid() && emittedThrough == 0 && emitted == []
      ensures headSeq == headAtFirst == head && state == stateAtFirst == s && !closeAnswered
    {
      stateAtFirst, headAtFirst := s, head;
      emittedThrough, headSeq, state, closedSettled, emitted, closedCalls := 0, head, s, false, [], 0;
      closeAnswered := false;
    }

    /** Settles `closed` and calls its listeners, the first time only. */
    method MarkClosed()
      modifies this`closedSettled, this`closedCalls
      ensures closedSettled
      ensures closedCalls == if old(closedSettled) then old(closedCalls) else old(closedCalls) + 1
    {
      if closedSettled {
        return;
      }
      closedSettled := true;
      closedCalls := closedCalls + 1;
    }

    /** What `close()` does once the daemon has answered: the closing envelope may come before it, after it or never. */
    method CloseAnswered()
      requires Valid()
      modifies this`state, this`closedSettled, this`closedCalls, this`closeAnswered
      ensures Valid() && state == Closed && closedSettled && closedCalls == 1
    {
      state := Closed;
      closeAnswered := true;
      MarkClosed();
    }

    method Ingest(e: Envelope)
      requires Valid()
      modifies this
      ensures Valid()
      ensures emittedThrough == if e.seqNo > old(emittedThrough) then e.seqNo else old(emittedThrough)
      ensures emitted == if e.seqNo > old(emittedThrough) then old(emitted) + [e] else old(emitted)
      ensures headSeq == if e.seqNo > old(emittedThrough) then e.seqNo else old(headSeq)
      ensures state == if e.seqNo > old(emittedThrough) && e.body.WorkerStateChange? then e.body.state else old(state)
      ensures closeAnswered == old(closeAnswered)
    {
      if e.seqNo <= emittedThrough {
        return;
      }
      StateOneOn(stateAtFirst, emitted, e);
      CloseOneOn(emitted, e);
      Emit(e);
      FollowState(e);
    }

    /** A state change is followed, and a close announced, the first time. */
    method FollowState(e: Envelope)
      modifies this`state, this`closedSettled, this`closedCalls
      ensures state == if e.body.WorkerStateChange? then e.body.state else old(state)
      ensures closedSettled == (old(closedSettled) || IsClose(e))
      ensures closedCalls == if IsClose(e) && !old(closedSettled) then old(closedCalls) + 1 else old(closedCalls)
    {
      if e.body.WorkerStateChange? {
        state := e.body.state;
        if state == Closed {
          MarkClosed();
        }
      }
    }

    method Emit(e: Envelope)
      modifies this`emittedThrough, this`headSeq, this`emitted
      ensures emittedThrough == headSeq == e.seqNo && emitted == old(emitted) + [e]
    {
      emittedThrough := e.seqNo;
      headSeq := e.seqNo;
      emitted := emitted + [e];
    }

    /** The reader's loop over one connection's messages. */
    method ReadConnection(start: int, ms: seq<Message>) returns (cursor: int, got: seq<Envelope>, left: Option<Signal>)
      requires Valid()
      modifies this
      ensures Valid()
      ensures cursor == CursorAfter(start, ms) && got == Fresh(start, ms) && left == LeftBy(ms)
      ensures emittedThrough == MarkAfter(old(emittedThrough), got)
      ensures emitted == Emitted(old(emitted), old(emittedThrough), got)
    {
      cursor, got, left := start, [], None;
      ReadStarts(start, ms);
      var i := 0;
      while i < |ms| && left.None?
        invariant 0 <= i <= |ms| && Valid() && ReadSoFar(start, ms, i, cursor, got, left)
        invariant emittedThrough == MarkAfter(old(emittedThrough), got)
        invariant emitted == Emitted(old(emitted), old(emittedThrough), got)
      {
        var m := ms[i];
        ReadOn(start, ms, i, cursor, got);
        if m.Control? {
          if m.signal != Truncated {
            left := Some(m.signal);
          }
        } else if m.e.seqNo > cursor {
          cursor := m.e.seqNo;
          assert (got + [m.e])[..|got|] == got;
          got := got + [m.e];
          Ingest(m.e);
        }
        i := i + 1;
      }
      ReadEnds(start, ms, i, cursor, got, left);
    }

    /** The resumable tail of this worker, with everything it yields also fed to the emitter. */
    method Envelopes(since: int, schedule: seq<Attempt>) returns (r: Result)
      requires Valid()
      modifies this
      ensures Valid()
      ensures r == Stream(since, schedule)
      ensures emittedThrough == MarkAfter(old(emittedThrough), r.yielded)
      ensures emitted == Emitted(old(emitted), old(emittedThrough), r.yielded)
    {
      var cursor := if since > 0 then since else 0;
      var attempt, empty := 0, 0;
      var yielded: seq<Envelope> := [];
      for k := 0 to |schedule|
        invariant Valid()
        invariant StreamSoFar(Stream(since, schedule), yielded, cursor, attempt, empty, schedule[k..])
        invariant emittedThrough == MarkAfter(old(emittedThrough), yielded)
        invariant emitted == Emitted(old(emitted), old(emittedThrough), yielded)
      {
        assert schedule[k..][0] == schedule[k] && schedule[k..][1..] == schedule[k + 1..];
        assert yielded + [] == yielded;
        match schedule[k]
        case OpenAborted => return Result(yielded, cursor, Returned);
        case OpenFailed(fatal) =>
          if fatal {
            return Result(yielded, cursor, ThrewFatal);
          }
          attempt := attempt + 1;
          if attempt > MAX_EMPTY_RECONNECTS {
            return Result(yielded, cursor, ThrewUnreachable);
          }
        case Opened(ms, ending) =>
          OpenedOne(Stream(since, schedule), yielded, cursor, attempt, empty, schedule[k..]);
          attempt := 0;
          var got, left;
          cursor, got, left := ReadConnection(cursor, ms);
          EmittedAppend(old(emitted), old(emittedThrough), yielded, got);
          yielded := yielded + got;
          if left == Some(StreamEnd) {
            return Result(yielded, cursor, Returned);
          }
          if left.None? && ending == Dropped(true) {
            return Result(yielded, cursor, ThrewFatal);
          }
          if ending == Aborted {
            return Result(yielded, cursor, Returned);
          }
          empty := if got != [] then 0 else empty + 1;
          if empty > MAX_EMPTY_RECONNECTS {
            return Result(yielded, cursor, ThrewSilent);
          }
      }
      assert schedule[|schedule|..] == [];
      assert yielded + [] == yielded;
      return Result(yielded, cursor, Waiting);
    }
  }

  predicate StreamSoFar(all: Result, yielded: seq<Envelope>, cursor: int,
                        attempt: int, empty: int, rest: seq<Attempt>) {
    all == After(yielded, TailFrom(cursor, attempt, empty, rest))
  }

  /** How a connection that was opened changes what is still to come. */
  lemma OpenedOne(all: Result, was: seq<Envelope>, start: int, attempt: int, empty: int, rest: seq<Attempt>)
    requires rest != [] && rest[0].Opened? && StreamSoFar(all, was, start, attempt, empty, rest)
    ensures var ms, ending := rest[0].messages, rest[0].ending;
            var got, cursor := Fresh(start, ms), CursorAfter(start, ms);
            var silent := if got != [] then 0 else empty + 1;
            if LeftBy(ms) == Some(StreamEnd) then all == Result(was + got, cursor, Returned)
            else if LeftBy(ms).None? && ending == Dropped(true) then all == Result(was + got, cursor, ThrewFatal)
            else if ending == Aborted then all == Result(was + got, cursor, Returned)
            else if silent > MAX_EMPTY_RECONNECTS then all == Result(was + got, cursor, ThrewSilent)
            else StreamSoFar(all, was + got, cursor, 0, silent, rest[1..])
  {
    var got, cursor := Fresh(start, rest[0].messages), CursorAfter(start, rest[0].messages);
    AfterTwice(was, got, TailFrom(cursor, 0, if got != [] then 0 else empty + 1, rest[1..]));
  }

  lemma AfterTwice(a: seq<Envelope>, b: seq<Envelope>, r: Result)
    ensures After(a, After(b, r)) == After(a + b, r)
  {
    assert a + (b + r.yielded) == (a + b) + r.yielded;
  }

  lemma {:induction false} EmittedAppend(had: seq<Envelope>, mark: int, a: seq<Envelope>, b: seq<Envelope>)
    ensures MarkAfter(mark, a + b) == MarkAfter(MarkAfter(mark, a), b)
    ensures Emitted(had, mark, a + b) == Emitted(Emitted(had, mark, a), MarkAfter(mark, a), b)
    decreases |b|
  {
    if b == [] {
      assert a + b == a;
    } else {
      assert (a + b)[..|a + b| - 1] == a + b[..|b| - 1];
      EmittedAppend(had, mark, a, b[..|b| - 1]);
    }
  }

  // ---- reading one connection, part of the way ----

  /** What has been read of a connection before message `i`, or by the time the reader left it. */
  ghost predicate ReadSoFar(start: int, ms: seq<Message>, i: nat, cursor: int, got: seq<Envelope>, left: Option<Signal>)
    requires i <= |ms|
  {
    if left.Some? then cursor == CursorAfter(start, ms) && got == Fresh(start, ms) && left == LeftBy(ms)
    else
      && CursorAfter(start, ms) == CursorAfter(cursor, ms[i..])
      && LeftBy(ms) == LeftBy(ms[i..])
      && Fresh(start, ms) == got + Fresh(cursor, ms[i..])
  }

  lemma ReadStarts(start: int, ms: seq<Message>)
    ensures ReadSoFar(start, ms, 0, start, [], None)
  {
    assert ms[0..] == ms;
  }

  lemma ReadOn(start: int, ms: seq<Message>, i: nat, cursor: int, got: seq<Envelope>)
    requires i < |ms| && ReadSoFar(start, ms, i, cursor, got, None)
    ensures var m := ms[i];
            if Leaves(m) then ReadSoFar(start, ms, i + 1, cursor, got, Some(m.signal))
            else if m.Event? && m.e.seqNo > cursor then ReadSoFar(start, ms, i + 1, m.e.seqNo, got + [m.e], None)
            else ReadSoFar(start, ms, i + 1, cursor, got, None)
  {
    var m := ms[i];
    assert ms[i..][0] == m && ms[i..][1..] == ms[i + 1..];
    if Leaves(m) {
      assert got + [] == got;
    } else if m.Event? && m.e.seqNo > cursor {
      assert got + ([m.e] + Fresh(m.e.seqNo, ms[i + 1..])) == got + [m.e] + Fresh(m.e.seqNo, ms[i + 1..]);
    }
  }

  lemma ReadEnds(start: int, ms: seq<Message>, i: nat, cursor: int, got: seq<Envelope>, left: Option<Signal>)
    requires i <= |ms| && ReadSoFar(start, ms, i, cursor, got, left) && (i == |ms| || left.Some?)
    ensures cursor == CursorAfter(start, ms) && got == Fresh(start, ms) && left == LeftBy(ms)
  {
    if left.None? {
      assert ms[i..] == [];
      assert got + [] == got;
    }
  }

  /** The inner loop of the second copy. */
  method ReadRunConnection(start: int, ms: seq<Message>)
    returns (cursor: int, got: seq<Envelope>, left: Option<Signal>, progressed: bool)
    ensures cursor == CursorAfter(start, ms) && got == Fresh(start, ms) && left == LeftBy(ms)
    ensures progressed <==> got != []
  {
    cursor, got, left, progressed := start, [], None, false;
    ReadStarts(start, ms);
    var i := 0;
    while i < |ms| && left.None?
      invariant 0 <= i <= |ms| && ReadSoFar(start, ms, i, cursor, got, left)
      invariant progressed <==> got != []
    {
      var m := ms[i];
      ReadOn(start, ms, i, cursor, got);
      if m.Control? {
        if m.signal != Truncated {
          left := Some(m.signal);
        }
      } else if m.e.seqNo > cursor {
        cursor := m.e.seqNo;
        progressed := true;
        got := got + [m.e];
      }
      i := i + 1;
    }
    ReadEnds(start, ms, i, cursor, got, left);
  }

  /** The second copy of the loop, behind a run's events: same stream, no emitter. */
  method RunEvents(since: int, schedule: seq<Attempt>) returns (r: Result)
    ensures r == Stream(since, schedule)
  {
    var cursor, attempt, empty := if since > 0 then since else 0, 0, 0;
    var yielded: seq<Envelope> := [];
    for k := 0 to |schedule|
      invariant StreamSoFar(Stream(since, schedule), yielded, cursor, attempt, empty, schedule[k..])
    {
      assert schedule[k..][0] == schedule[k] && schedule[k..][1..] == schedule[k + 1..];
      assert yielded + [] == yielded;
      match schedule[k]
      case OpenAborted => return Result(yielded, cursor, Returned);
      case OpenFailed(fatal) =>
        if fatal {
          return Result(yielded, cursor, ThrewFatal);
        }
        attempt := attempt + 1;
        if attempt > MAX_EMPTY_RECONNECTS {
          return Result(yielded, cursor, ThrewUnreachable);
        }
      case Opened(ms, ending) =>
        OpenedOne(Stream(since, schedule), yielded, cursor, attempt, empty, schedule[k..]);
        attempt := 0;
        var got, left, progressed;
        cursor, got, left, progressed := ReadRunConnection(cursor, ms);
        yielded := yielded + got;
        if left == Some(StreamEnd) {
          return Result(yielded, cursor, Returned);
        }
        if left.None? && ending == Dropped(true) {
          return Result(yielded, cursor, ThrewFatal);
        }
        if ending == Aborted {
          return Result(yielded, cursor, Returned);
        }
        empty := if progressed then 0 else empty + 1;
        if empty > MAX_EMPTY_RECONNECTS {
          return Result(yielded, cursor, ThrewSilent);
        }
    }
    assert schedule[|schedule|..] == [];
    assert yielded + [] == yielded;
    return Result(yielded, cursor, Waiting);
  }
}
