/**
 What the handle guarantees: an ordered emitter whose gaps are explained, and a prompt whose answer
 is the daemon's own, over any schedule of connections.
 */
module HandleLaws {
  import opened Wrappers
  import opened Envelopes
  import opened Tail
  import opened Handle
  import opened Turn
  import opened TurnEvents
  import opened TurnAgreement
  import opened TurnFold

  // ---- several streams, one emitter ----

  /** One envelope yielded by one of the streams, in the order in which the emitter sees them. */
  datatype Yield = Yield(stream: nat, e: Envelope)

  function EnvelopesOf(ys: seq<Yield>): seq<Envelope> {
    if ys == [] then [] else EnvelopesOf(ys[..|ys| - 1]) + [ys[|ys| - 1].e]
  }

  /** The seq this stream yielded last. */
  function LastOf(ys: seq<Yield>, stream: nat): Option<int> {
    if ys == [] then None
    else if ys[|ys| - 1].stream == stream then Some(ys[|ys| - 1].e.seqNo)
    else LastOf(ys[..|ys| - 1], stream)
  }

  predicate IsFirst(ys: seq<Yield>, k: nat)
    requires k < |ys|
  {
    LastOf(ys[..k], ys[k].stream).None?
  }

  /** Each stream yields consecutive seqs; where it starts is its own affair. */
  predicate EachStreamIsContiguous(ys: seq<Yield>) {
    forall k :: 0 <= k < |ys| && !IsFirst(ys, k) ==> ys[k].e.seqNo == LastOf(ys[..k], ys[k].stream).value + 1
  }

  function Mark(ys: seq<Yield>): int { MarkAfter(0, EnvelopesOf(ys)) }

  predicate IsEmitted(ys: seq<Yield>, k: nat)
    requires k < |ys|
  {
    ys[k].e.seqNo > Mark(ys[..k])
  }

  lemma {:induction false} LastOfIsBelowMark(ys: seq<Yield>, stream: nat)
    ensures LastOf(ys, stream).Some? ==> LastOf(ys, stream).value <= Mark(ys)
  {
    if ys != [] {
      var front := ys[..|ys| - 1];
      LastOfIsBelowMark(front, stream);
      assert EnvelopesOf(ys)[..|EnvelopesOf(ys)| - 1] == EnvelopesOf(front);
    }
  }

  /** Main result: an emission follows the one before it directly, unless it is the first of its own stream. */
  lemma GapsOnlyAtAFirstYield(ys: seq<Yield>, k: nat)
    requires EachStreamIsContiguous(ys) && k < |ys| && IsEmitted(ys, k) && !IsFirst(ys, k)
    ensures ys[k].e.seqNo == Mark(ys[..k]) + 1
  {
    LastOfIsBelowMark(ys[..k], ys[k].stream);
  }

  /** Main result: nothing is emitted twice or out of order, and the mark is the last emission. */
  lemma {:induction false} EmitterClimbs(es: seq<Envelope>)
    ensures Climbs(Emitted([], 0, es), 0)
    ensures var out := Emitted([], 0, es);
            MarkAfter(0, es) == if out == [] then 0 else out[|out| - 1].seqNo
  {
    if es != [] {
      EmitterClimbs(es[..|es| - 1]);
    }
  }

  /** No emission jumps over a seq. */
  predicate NeverJumps(ys: seq<Yield>) {
    forall k :: 0 <= k < |ys| && IsEmitted(ys, k) && IsFirst(ys, k) ==> ys[k].e.seqNo == Mark(ys[..k]) + 1
  }

  /** Listeners get every envelope, from the first on, exactly when no stream overtakes at its first yield. */
  lemma {:induction false} CompleteExactlyWhen(ys: seq<Yield>)
    requires EachStreamIsContiguous(ys)
    ensures IsNumbered(Emitted([], 0, EnvelopesOf(ys))) <==> NeverJumps(ys)
    decreases |ys|
  {
    if ys != [] {
      var front, last := ys[..|ys| - 1], ys[|ys| - 1];
      PrefixIsContiguous(ys);
      CompleteExactlyWhen(front);
      EmitterClimbs(EnvelopesOf(front));
      var es, had := EnvelopesOf(ys), Emitted([], 0, EnvelopesOf(front));
      assert es[..|es| - 1] == EnvelopesOf(front) && es[|es| - 1] == last.e;
      if IsEmitted(ys, |front|) {
        assert Emitted([], 0, es) == had + [last.e];
        if !IsFirst(ys, |front|) {
          GapsOnlyAtAFirstYield(ys, |front|);
        }
        NumberedOnward(had, last.e, Mark(front));
      } else {
        assert Emitted([], 0, es) == had;
      }
      NeverJumpsSplits(ys);
    }
  }

  lemma NumberedOnward(had: seq<Envelope>, e: Envelope, mark: int)
    requires mark == if had == [] then 0 else had[|had| - 1].seqNo
    ensures IsNumbered(had + [e]) <==> IsNumbered(had) && e.seqNo == mark + 1
  {
    var all := had + [e];
    assert forall i :: 0 <= i < |had| ==> all[i] == had[i];
    assert all[|had|] == e;
    if IsNumbered(had) {
      assert mark == |had|;
    } else {
      var i :| 0 <= i < |had| && had[i].seqNo != i + 1;
      assert all[i].seqNo != i + 1;
    }
  }

  lemma PrefixIsContiguous(ys: seq<Yield>)
    requires ys != [] && EachStreamIsContiguous(ys)
    ensures EachStreamIsContiguous(ys[..|ys| - 1])
  {
    var front := ys[..|ys| - 1];
    forall k | 0 <= k < |front| && !IsFirst(front, k)
      ensures front[k].e.seqNo == LastOf(front[..k], front[k].stream).value + 1
    {
      assert front[..k] == ys[..k];
      assert !IsFirst(ys, k);
    }
  }

  lemma NeverJumpsSplits(ys: seq<Yield>)
    requires ys != []
    ensures var k := |ys| - 1; NeverJumps(ys) <==>
      NeverJumps(ys[..k]) && (IsEmitted(ys, k) && IsFirst(ys, k) ==> ys[k].e.seqNo == Mark(ys[..k]) + 1)
  {
    var front := ys[..|ys| - 1];
    forall k | 0 <= k < |front|
      ensures front[..k] == ys[..k] && front[k] == ys[k]
      ensures IsEmitted(front, k) <==> IsEmitted(ys, k)
      ensures IsFirst(front, k) <==> IsFirst(ys, k)
    {
      assert front[..k] == ys[..k];
    }
  }

  /** One stream over an honest schedule yields consecutive seqs, so it is contiguous by itself. */
  lemma TailIsContiguous(log: seq<Envelope>, since: int, schedule: seq<Attempt>)
    requires IsNumbered(log) && Honest(log, if since > 0 then since else 0, schedule)
    ensures var es := Stream(since, schedule).yielded;
      AreConsecutive(es)
  {
    TailIsExact(log, if since > 0 then since else 0, 0, 0, schedule);
  }

  // ---- real streams, interleaved ----

  /** What one of the streams yielded, in order. */
  function YieldedBy(ys: seq<Yield>, stream: nat): seq<Envelope> {
    if ys == [] then []
    else
      var last := ys[|ys| - 1];
      YieldedBy(ys[..|ys| - 1], stream) + if last.stream == stream then [last.e] else []
  }

  predicate AreConsecutive(es: seq<Envelope>) {
    forall i :: 0 < i < |es| ==> es[i].seqNo == es[i - 1].seqNo + 1
  }

  lemma {:induction false} LastOfIsLastYield(ys: seq<Yield>, stream: nat)
    ensures var es := YieldedBy(ys, stream);
            LastOf(ys, stream) == if es == [] then None else Some(es[|es| - 1].seqNo)
  {
    if ys != [] {
      LastOfIsLastYield(ys[..|ys| - 1], stream);
    }
  }

  lemma {:induction false} EarlierYields(ys: seq<Yield>, k: nat, stream: nat)
    requires k <= |ys|
    ensures YieldedBy(ys[..k], stream) <= YieldedBy(ys, stream)
    decreases |ys|
  {
    if k == |ys| {
      assert ys[..k] == ys;
    } else {
      EarlierYields(ys[..|ys| - 1], k, stream);
      assert ys[..|ys| - 1][..k] == ys[..k];
    }
  }

  lemma YieldIsNext(ys: seq<Yield>, k: nat)
    requires k < |ys|
    ensures var before := YieldedBy(ys[..k], ys[k].stream);
            before + [ys[k].e] <= YieldedBy(ys, ys[k].stream)
  {
    EarlierYields(ys, k + 1, ys[k].stream);
    assert ys[..k + 1][..k] == ys[..k] && ys[..k + 1][k] == ys[k];
  }

  /** Streams that are consecutive one by one are so in any interleaving. */
  lemma ConsecutiveStreamsAreContiguous(ys: seq<Yield>)
    requires forall stream :: AreConsecutive(YieldedBy(ys, stream))
    ensures EachStreamIsContiguous(ys)
  {
    forall k | 0 <= k < |ys| && !IsFirst(ys, k)
      ensures ys[k].e.seqNo == LastOf(ys[..k], ys[k].stream).value + 1
    {
      var before, es := YieldedBy(ys[..k], ys[k].stream), YieldedBy(ys, ys[k].stream);
      LastOfIsLastYield(ys[..k], ys[k].stream);
      YieldIsNext(ys, k);
      assert AreConsecutive(es);
      assert es[|before|] == ys[k].e && es[|before| - 1] == before[|before| - 1];
    }
  }

  /** A reader of the log: where it starts and how its connections go. */
  datatype Reader = Reader(since: int, schedule: seq<Attempt>)

  function StartOf(r: Reader): nat {
    if r.since > 0 then r.since else 0
  }

  /**
   The interleaving is of real streams over one log: each has yielded a first part of what `envelopes` yields
   over connections that deliver contiguous runs of that log.
   */
  ghost predicate AreStreamsOf(log: seq<Envelope>, readers: nat -> Reader, ys: seq<Yield>) {
    && IsNumbered(log)
    && forall stream ::
         && Honest(log, StartOf(readers(stream)), readers(stream).schedule)
         && YieldedBy(ys, stream) <= Stream(readers(stream).since, readers(stream).schedule).yielded
  }

  lemma RealStreamsAreContiguous(log: seq<Envelope>, readers: nat -> Reader, ys: seq<Yield>)
    requires AreStreamsOf(log, readers, ys)
    ensures EachStreamIsContiguous(ys)
  {
    forall stream
      ensures AreConsecutive(YieldedBy(ys, stream))
    {
      TailIsContiguous(log, readers(stream).since, readers(stream).schedule);
    }
    ConsecutiveStreamsAreContiguous(ys);
  }

  /** Every yield is an envelope of the log, found under its own seq. */
  lemma RealStreamsYieldTheLog(log: seq<Envelope>, readers: nat -> Reader, ys: seq<Yield>, k: nat)
    requires AreStreamsOf(log, readers, ys) && k < |ys|
    ensures 1 <= ys[k].e.seqNo <= |log| && ys[k].e == log[ys[k].e.seqNo - 1]
  {
    var r := readers(ys[k].stream);
    TailIsExact(log, StartOf(r), 0, 0, r.schedule);
    YieldIsNext(ys, k);
    var got := Stream(r.since, r.schedule);
    var at := |YieldedBy(ys[..k], ys[k].stream)|;
    assert got.yielded[at] == ys[k].e;
  }

  lemma {:induction false} EmittedAreYields(es: seq<Envelope>, e: Envelope)
    ensures e in Emitted([], 0, es) ==> e in es
  {
    if es != [] {
      EmittedAreYields(es[..|es| - 1], e);
    }
  }

  lemma {:induction false} EnvelopesAreOfYields(ys: seq<Yield>, e: Envelope)
    ensures e in EnvelopesOf(ys) ==> exists k :: 0 <= k < |ys| && ys[k].e == e
  {
    if ys != [] {
      var front := ys[..|ys| - 1];
      EnvelopesAreOfYields(front, e);
      if e in EnvelopesOf(front) {
        var k :| 0 <= k < |front| && front[k].e == e;
        assert ys[k].e == e;
      }
    }
  }

  lemma NumberedFromLogIsPrefix(log: seq<Envelope>, es: seq<Envelope>)
    requires IsNumbered(log)
    requires forall e :: e in es ==> IsOfLog(log, e)
    ensures IsNumbered(es) <==> es <= log
  {
    if IsNumbered(es) {
      if es != [] {
        assert IsOfLog(log, es[|es| - 1]);
      }
      forall i | 0 <= i < |es|
        ensures i < |log| && es[i] == log[i]
      {
        assert IsOfLog(log, es[i]);
      }
    }
  }

  /** Main result: with any number of streams over one log, an emission jumps only where a stream begins. */
  lemma StreamsJumpOnlyWhereTheyBegin(log: seq<Envelope>, readers: nat -> Reader, ys: seq<Yield>, k: nat)
    requires AreStreamsOf(log, readers, ys) && k < |ys| && IsEmitted(ys, k) && !IsFirst(ys, k)
    ensures 0 <= Mark(ys[..k]) < |log| && ys[k].e == log[Mark(ys[..k])]
  {
    RealStreamsAreContiguous(log, readers, ys);
    RealStreamsYieldTheLog(log, readers, ys, k);
    GapsOnlyAtAFirstYield(ys, k);
  }

  predicate IsOfLog(log: seq<Envelope>, e: Envelope) {
    1 <= e.seqNo <= |log| && e == log[e.seqNo - 1]
  }

  lemma EmissionsAreOfTheLog(log: seq<Envelope>, readers: nat -> Reader, ys: seq<Yield>, e: Envelope)
    requires AreStreamsOf(log, readers, ys) && e in Emitted([], 0, EnvelopesOf(ys))
    ensures IsOfLog(log, e)
  {
    EmittedAreYields(EnvelopesOf(ys), e);
    EnvelopesAreOfYields(ys, e);
    var k :| 0 <= k < |ys| && ys[k].e == e;
    RealStreamsYieldTheLog(log, readers, ys, k);
  }

  /** Main result: listeners are given the log from its first envelope on, exactly when no stream begins ahead. */
  lemma ListenersGetTheLogExactlyWhen(log: seq<Envelope>, readers: nat -> Reader, ys: seq<Yield>)
    requires AreStreamsOf(log, readers, ys)
    ensures Emitted([], 0, EnvelopesOf(ys)) <= log <==> NeverJumps(ys)
  {
    var es := Emitted([], 0, EnvelopesOf(ys));
    RealStreamsAreContiguous(log, readers, ys);
    CompleteExactlyWhen(ys);
    forall e | e in es
      ensures IsOfLog(log, e)
    {
      EmissionsAreOfTheLog(log, readers, ys, e);
    }
    NumberedFromLogIsPrefix(log, es);
  }

  function At(n: int): Envelope {
    Envelope("w", n, "", None, false, Unfolded("omni.run"))
  }

  /** A connection that delivers these envelopes and drops. */
  function Delivering(es: seq<Envelope>): Attempt {
    Opened(seq(|es|, i requires 0 <= i < |es| => Event(es[i])), Dropped(false))
  }

  /** The background tail, whose connection drops between two envelopes, and a prompt's stream from the third on. */
  function Overtaking(stream: nat): Reader {
    if stream == 0 then Reader(0, [Delivering([At(1)]), Delivering([At(2)])])
    else if stream == 1 then Reader(2, [Delivering([At(3)])])
    else Reader(0, [])
  }

  const THREE: seq<Envelope> := [At(1), At(2), At(3)]

  lemma ReadsOne(e: Envelope)
    ensures var ms := [Event(e)];
            && EventsIn(ms) == [e] && LeftBy(ms) == None
            && Fresh(e.seqNo - 1, ms) == [e] && CursorAfter(e.seqNo - 1, ms) == e.seqNo
  {
    var ms := [Event(e)];
    assert ms[1..] == [];
    assert [e] + [] == [e];
  }

  lemma DeliversOne(n: nat)
    requires 1 <= n <= 3
    ensures Delivering([At(n)]).messages == [Event(At(n))] && Delivers(THREE, n - 1, [Event(At(n))])
  {
    ReadsOne(At(n));
    assert THREE[n - 1..n] == [At(n)];
  }

  lemma PromptDelivers()
    ensures Honest(THREE, 2, Overtaking(1).schedule) && Stream(2, Overtaking(1).schedule).yielded == [At(3)]
  {
    DeliversOne(3);
    ReadsOne(At(3));
    var schedule := Overtaking(1).schedule;
    assert schedule[1..] == [];
    assert TailFrom(2, 0, 0, schedule) == After([At(3)], TailFrom(3, 0, 0, []));
  }

  lemma TailDelivers()
    ensures Honest(THREE, 0, Overtaking(0).schedule) && Stream(0, Overtaking(0).schedule).yielded == [At(1), At(2)]
  {
    DeliversOne(1);
    DeliversOne(2);
    ReadsOne(At(1));
    ReadsOne(At(2));
    var schedule := Overtaking(0).schedule;
    assert schedule[1..] == [Delivering([At(2)])] && schedule[1..][1..] == [];
    assert Honest(THREE, 1, schedule[1..]);
    assert TailFrom(1, 0, 0, schedule[1..]) == After([At(2)], TailFrom(2, 0, 0, []));
    assert TailFrom(0, 0, 0, schedule) == After([At(1)], TailFrom(1, 0, 0, schedule[1..]));
  }

  /** The prompt's envelope comes between the two of the tail. */
  const OVERTAKEN: seq<Yield> := [Yield(0, At(1)), Yield(1, At(3)), Yield(0, At(2))]

  lemma OvertakenYields(stream: nat)
    ensures YieldedBy(OVERTAKEN, stream) == if stream == 0 then [At(1), At(2)] else if stream == 1 then [At(3)] else []
  {
    var ys := OVERTAKEN;
    assert ys[..2][..1] == [ys[0]] && ys[..2] == [ys[0], ys[1]] && [ys[0]][..0] == [];
    assert YieldedBy([ys[0]], stream) == if stream == 0 then [At(1)] else [];
    assert YieldedBy(ys[..2], stream) == if stream == 0 then [At(1)] else if stream == 1 then [At(3)] else [];
  }

  /** A prompt's stream that starts ahead of the background tail makes listeners miss what lies between. */
  lemma OvertakingLosesEnvelopes()
    ensures AreStreamsOf(THREE, Overtaking, OVERTAKEN)
    ensures EachStreamIsContiguous(OVERTAKEN) && Emitted([], 0, EnvelopesOf(OVERTAKEN)) == [At(1), At(3)]
    ensures !NeverJumps(OVERTAKEN)
  {
    forall stream
      ensures Honest(THREE, StartOf(Overtaking(stream)), Overtaking(stream).schedule)
      ensures YieldedBy(OVERTAKEN, stream) <= Stream(Overtaking(stream).since, Overtaking(stream).schedule).yielded
    {
      OvertakenYields(stream);
      TailDelivers();
      PromptDelivers();
    }
    RealStreamsAreContiguous(THREE, Overtaking, OVERTAKEN);
    EnvelopesOfThree(OVERTAKEN[0], OVERTAKEN[1], OVERTAKEN[2]);
    EmitThree(1, 3, 2);
    assert [At(1), At(3)][1] != THREE[1];
    ListenersGetTheLogExactlyWhen(THREE, Overtaking, OVERTAKEN);
  }

  lemma EnvelopesOfThree(a: Yield, b: Yield, c: Yield)
    ensures EnvelopesOf([a, b, c]) == [a.e, b.e, c.e]
  {
    assert [a, b, c][..2] == [a, b] && [a, b][..1] == [a] && [a][..0] == [];
    assert EnvelopesOf([a]) == [a.e];
    assert EnvelopesOf([a, b]) == [a.e, b.e];
  }

  lemma EmitThree(x: int, y: int, z: int)
    requires 0 < x < y && z <= y
    ensures Emitted([], 0, [At(x), At(y), At(z)]) == [At(x), At(y)]
  {
    var es := [At(x), At(y), At(z)];
    assert es[..2] == [At(x), At(y)] && es[..2][..1] == [At(x)] && [At(x)][..0] == [];
    assert Emitted([], 0, [At(x)]) == [At(x)] && MarkAfter(0, [At(x)]) == x;
    assert MarkAfter(0, es[..2]) == y;
  }

  // ---- a prompt ----

  /** What has been buffered before envelope `i` of the stream, or by the time the loop stopped. */
  ghost predicate BufferedSoFar(turn: string, stream: seq<Envelope>, i: nat, buffer: seq<Envelope>, stop: bool)
    requires i <= |stream|
  {
    ThroughTerminal(turn, stream) == if stop then buffer else buffer + ThroughTerminal(turn, stream[i..])
  }

  lemma BufferOne(turn: string, stream: seq<Envelope>, i: nat, buffer: seq<Envelope>)
    requires i < |stream| && BufferedSoFar(turn, stream, i, buffer, false)
    ensures BufferedSoFar(turn, stream, i + 1, buffer + [stream[i]], IsTurnTerminal(turn, stream[i]))
  {
    var e := stream[i];
    assert stream[i..][0] == e && stream[i..][1..] == stream[i + 1..];
    if !IsTurnTerminal(turn, e) {
      Reassociated(buffer, [e], ThroughTerminal(turn, stream[i + 1..]));
    }
  }

  /** The buffering loop of a prompt: it stops at the first envelope it takes for the end of the turn. */
  method Collect(turn: string, stream: seq<Envelope>) returns (r: TurnResult)
    ensures r == Reduced(turn, ThroughTerminal(turn, stream))
  {
    var buffer: seq<Envelope> := [];
    var i, stop := 0, false;
    assert stream[0..] == stream && [] + ThroughTerminal(turn, stream) == ThroughTerminal(turn, stream);
    while i < |stream| && !stop
      invariant 0 <= i <= |stream| && BufferedSoFar(turn, stream, i, buffer, stop)
    {
      BufferOne(turn, stream, i, buffer);
      buffer := buffer + [stream[i]];
      stop := IsTurnTerminal(turn, stream[i]);
      i := i + 1;
    }
    assert stream[|stream|..] == [];
    assert buffer + [] == buffer;
    assert buffer == ThroughTerminal(turn, stream);
    r := ReduceTurn(turn, buffer);
  }

  lemma {:induction false} FromOfNumbered(log: seq<Envelope>, at: int, offset: int)
    requires forall i :: 0 <= i < |log| ==> log[i].seqNo == offset + i + 1
    ensures From(log, at) ==
            if at <= offset + 1 then log else if at - 1 - offset <= |log| then log[at - 1 - offset..] else []
  {
    if log != [] {
      assert forall i :: 0 <= i < |log[1..]| ==> log[1..][i] == log[i + 1];
      FromOfNumbered(log[1..], at, offset + 1);
    }
  }

  predicate HasEnd(turn: string, es: seq<Envelope>) {
    exists i :: 0 <= i < |es| && IsTurnTerminal(turn, es[i])
  }

  lemma {:induction false} CutOfPrefix(turn: string, a: seq<Envelope>, b: seq<Envelope>)
    requires HasEnd(turn, a)
    ensures ThroughTerminal(turn, a + b) == ThroughTerminal(turn, a)
  {
    assert (a + b)[0] == a[0] && (a + b)[1..] == a[1..] + b;
    if !IsTurnTerminal(turn, a[0]) {
      var i :| 0 <= i < |a| && IsTurnTerminal(turn, a[i]);
      assert a[1..][i - 1] == a[i];
      CutOfPrefix(turn, a[1..], b);
    }
  }

  lemma SegmentAndRest(log: seq<Envelope>, at: int, cursor: int)
    requires IsNumbered(log) && 1 <= at <= |log| && (cursor == at - 1 || at <= cursor <= |log|)
    ensures From(log, at) == Segment(log, at - 1, cursor) + log[cursor..]
  {
    FromOfNumbered(log, at, 0);
    assert log[0..] == log;
  }

  lemma CutOfStream(turn: string, log: seq<Envelope>, at: int, cursor: int)
    requires IsNumbered(log) && 1 <= at <= |log| && (cursor == at - 1 || at <= cursor <= |log|)
    requires HasEnd(turn, Segment(log, at - 1, cursor)) || cursor == |log|
    ensures ThroughTerminal(turn, Segment(log, at - 1, cursor)) == ClientBuffer(turn, log, at)
  {
    var got := Segment(log, at - 1, cursor);
    SegmentAndRest(log, at, cursor);
    if HasEnd(turn, got) {
      CutOfPrefix(turn, got, log[cursor..]);
    } else {
      assert got + log[cursor..] == got;
    }
  }

  /**
   Main result, end to end: whatever the connections do, a prompt that saw the end of its turn, or
   that has read as far as the log goes, reports what the daemon reports from its whole log.
   */
  lemma PromptIsTheDaemonsAnswer(turn: string, worker: string, log: seq<Envelope>, at: int, schedule: seq<Attempt>)
    requires IsNumbered(log) && IsLog(log, worker) && at >= 1
    requires AcceptedAt(turn, log, at) && NoReplayedEnd(turn, log, at)
    requires Honest(log, at - 1, schedule)
    requires var r := Stream(at - 1, schedule); HasEnd(turn, r.yielded) || r.cursor == |log|
    ensures Reduced(turn, ThroughTerminal(turn, Stream(at - 1, schedule).yielded)) == Reduced(turn, log)
  {
    TailIsExact(log, at - 1, 0, 0, schedule);
    var opening :| opening in log && opening.seqNo == at && Opens(turn, opening);
    assert at <= |log|;
    CutOfStream(turn, log, at, Stream(at - 1, schedule).cursor);
    ClientAndDaemonAgree(turn, worker, log, at);
  }
}
