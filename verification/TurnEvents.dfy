/**
 The fold depends only on the set of events. Order of arrival, re-delivery, replayed history and
 other workers' envelopes make no difference to a turn's result.
 */
module TurnEvents {
  import opened Wrappers
  import opened Envelopes
  import opened Turn

  /** What a worker's log says, as a set: its envelopes that are not replayed history. */
  ghost function OwnEvents(es: seq<Envelope>, worker: string): set<Envelope> {
    set e | e in es && !e.replay && e.workerId == worker
  }

  /** A seq names one envelope of the worker, however often it was delivered. */
  ghost predicate SeqIsIdentity(es: seq<Envelope>, worker: string) {
    forall a, b :: a in OwnEvents(es, worker) && b in OwnEvents(es, worker) && a.seqNo == b.seqNo ==> a == b
  }

  /** Every envelope of the turn is in this worker's log. */
  predicate TurnOf(turn: string, es: seq<Envelope>, worker: string) {
    forall e :: e in es && !e.replay && e.turnId == Some(turn) ==> e.workerId == worker
  }

  function Only(es: seq<Envelope>, worker: string): seq<Envelope> {
    if es == [] then []
    else (if es[0].workerId == worker then [es[0]] else []) + Only(es[1..], worker)
  }

  predicate StrictlyBySeq(es: seq<Envelope>) {
    forall i, j :: 0 <= i < j < |es| ==> es[i].seqNo < es[j].seqNo
  }

  /** The worker's events in the order the fold takes them. */
  function Ordered(es: seq<Envelope>, worker: string): seq<Envelope> {
    Only(Sorted(Unique(es)), worker)
  }

  predicate Distinct(es: seq<Envelope>) {
    forall i, j :: 0 <= i < j < |es| ==> !SameIdentity(es[i], es[j])
  }

  // ---- de-duplication and sorting ----

  lemma {:induction false} UniqueMembers(es: seq<Envelope>)
    ensures Distinct(Unique(es))
    ensures forall e :: e in Unique(es) ==> e in es && !e.replay
    ensures forall e :: e in es && !e.replay ==> Known(Unique(es), e)
  {
    if es != [] {
      var before, last := Unique(es[..|es| - 1]), es[|es| - 1];
      UniqueMembers(es[..|es| - 1]);
      assert es == es[..|es| - 1] + [last];
      forall e | e in es && !e.replay
        ensures Known(Unique(es), e)
      {
        if e in es[..|es| - 1] {
          var i :| 0 <= i < |before| && SameIdentity(before[i], e);
          assert SameIdentity(Unique(es)[i], e);
        } else if Unique(es) != before {
          assert SameIdentity(Unique(es)[|before|], e);
        }
      }
    }
  }

  lemma {:induction false} InsertedAre(es: seq<Envelope>, e: Envelope)
    ensures forall x :: x in Inserted(es, e) <==> x in es || x == e
  {
    if es != [] && e.seqNo < es[|es| - 1].seqNo {
      assert es == es[..|es| - 1] + [es[|es| - 1]];
      InsertedAre(es[..|es| - 1], e);
    }
  }

  /** A last element that is above all others and none of them. */
  lemma OneMoreInOrder(es: seq<Envelope>, last: Envelope)
    requires InSeqOrder(es) && Distinct(es)
    requires forall x :: x in es ==> x.seqNo <= last.seqNo && !SameIdentity(x, last)
    ensures InSeqOrder(es + [last]) && Distinct(es + [last])
  {
    forall i | 0 <= i < |es|
      ensures es[i].seqNo <= last.seqNo && !SameIdentity(es[i], last)
    {
      assert es[i] in es;
    }
  }

  lemma {:induction false} InsertedMembers(es: seq<Envelope>, e: Envelope)
    requires InSeqOrder(es) && Distinct(es) && !Known(es, e)
    ensures InSeqOrder(Inserted(es, e)) && Distinct(Inserted(es, e))
    ensures forall x :: x in Inserted(es, e) <==> x in es || x == e
  {
    InsertedAre(es, e);
    if es != [] && e.seqNo < es[|es| - 1].seqNo {
      var front, last := es[..|es| - 1], es[|es| - 1];
      InsertedMembers(front, e);
      InsertedAre(front, e);
      assert !SameIdentity(last, e);
      forall x | x in Inserted(front, e)
        ensures x.seqNo <= last.seqNo && !SameIdentity(x, last)
      {
        if x in front {
          var k :| 0 <= k < |front| && front[k] == x;
          assert es[k] == x;
        }
      }
      OneMoreInOrder(Inserted(front, e), last);
    }
  }

  lemma {:induction false} SortedMembers(es: seq<Envelope>)
    requires Distinct(es)
    ensures InSeqOrder(Sorted(es)) && Distinct(Sorted(es))
    ensures forall e :: e in Sorted(es) <==> e in es
  {
    if es != [] {
      var front, last := es[..|es| - 1], es[|es| - 1];
      assert es == front + [last];
      SortedMembers(front);
      forall i | 0 <= i < |Sorted(front)|
        ensures !SameIdentity(Sorted(front)[i], last)
      {
        assert Sorted(front)[i] in front;
        var k :| 0 <= k < |front| && front[k] == Sorted(front)[i];
        assert !SameIdentity(es[k], es[|es| - 1]);
      }
      InsertedMembers(Sorted(front), last);
    }
  }

  lemma {:induction false} OnlyMembers(es: seq<Envelope>, worker: string)
    requires InSeqOrder(es) && Distinct(es)
    ensures StrictlyBySeq(Only(es, worker))
    ensures forall e :: e in Only(es, worker) <==> e in es && e.workerId == worker
  {
    if es != [] {
      var rest := Only(es[1..], worker);
      OnlyMembers(es[1..], worker);
      assert es == [es[0]] + es[1..];
      if es[0].workerId == worker {
        forall e | e in rest
          ensures es[0].seqNo < e.seqNo
        {
          FirstIsNoOther(es, e);
        }
        OneMoreInFront(es[0], rest);
      }
    }
  }

  lemma OrderedMembers(es: seq<Envelope>, worker: string)
    requires SeqIsIdentity(es, worker)
    ensures StrictlyBySeq(Ordered(es, worker))
    ensures forall e :: e in Ordered(es, worker) <==> e in OwnEvents(es, worker)
  {
    UniqueMembers(es);
    SortedMembers(Unique(es));
    OnlyMembers(Sorted(Unique(es)), worker);
    forall e | e in OwnEvents(es, worker)
      ensures e in Unique(es)
    {
      var i :| 0 <= i < |Unique(es)| && SameIdentity(Unique(es)[i], e);
      assert Unique(es)[i] in Unique(es);
      assert Unique(es)[i] in OwnEvents(es, worker);
    }
  }

  lemma HasMember(es: seq<Envelope>)
    ensures es == [] || exists e :: e in es
  {
    if es != [] {
      assert es[0] in es;
    }
  }

  /** Two strictly ordered sequences with the same members are the same sequence. */
  lemma {:induction false} SameOrder(a: seq<Envelope>, b: seq<Envelope>)
    requires StrictlyBySeq(a) && StrictlyBySeq(b)
    requires forall e :: e in a <==> e in b
    ensures a == b
  {
    if a == [] {
      HasMember(b);
    } else {
      assert a[0] in b;
      assert b[0] in a;
      var k :| 0 <= k < |b| && b[k] == a[0];
      var m :| 0 <= m < |a| && a[m] == b[0];
      assert k == 0;
      forall e | e in a[1..]
        ensures e in b[1..]
      {
        var i :| 0 <= i < |a[1..]| && a[1..][i] == e;
        assert a[i + 1] == e && a[0].seqNo < e.seqNo;
        assert e in b;
        var j :| 0 <= j < |b| && b[j] == e;
        assert b[1..][j - 1] == e;
      }
      forall e | e in b[1..]
        ensures e in a[1..]
      {
        var i :| 0 <= i < |b[1..]| && b[1..][i] == e;
        assert b[i + 1] == e && b[0].seqNo < e.seqNo;
        assert e in a;
        var j :| 0 <= j < |a| && a[j] == e;
        assert a[1..][j - 1] == e;
      }
      SameOrder(a[1..], b[1..]);
    }
  }

  // ---- other workers ----

  /** A turn has a worker from the moment it has a start. */
  predicate Placed(f: FoldState, worker: string) {
    (f.startSeq.Some? <==> f.workerId.Some?) && (f.workerId.Some? ==> f.workerId.value == worker)
  }

  lemma StepKeepsPlace(turn: string, f: FoldState, e: Envelope, worker: string)
    requires Placed(f, worker)
    requires e.turnId == Some(turn) ==> e.workerId == worker
    ensures Placed(Step(turn, f, e), worker)
    ensures e.workerId != worker ==> Step(turn, f, e) == f
  {
  }

  lemma {:induction false} RunIgnoresOthers(turn: string, f: FoldState, es: seq<Envelope>, worker: string)
    requires Placed(f, worker)
    requires forall e :: e in es && e.turnId == Some(turn) ==> e.workerId == worker
    ensures Run(turn, f, es) == Run(turn, f, Only(es, worker))
    decreases |es|
  {
    if es != [] && f.terminal == NotTerminal {
      var e := es[0];
      StepKeepsPlace(turn, f, e, worker);
      RunIgnoresOthers(turn, Step(turn, f, e), es[1..], worker);
      if e.workerId == worker {
        assert Only(es, worker)[1..] == Only(es[1..], worker);
      } else {
        assert Only(es, worker) == Only(es[1..], worker);
      }
    }
  }

  /** The fold runs over the worker's own events, in order, and over nothing else. */
  lemma FoldIsOverOwnEvents(turn: string, es: seq<Envelope>, worker: string)
    requires TurnOf(turn, es, worker)
    ensures FoldOf(turn, es) == Run(turn, Initial, Ordered(es, worker))
  {
    UniqueMembers(es);
    SortedMembers(Unique(es));
    RunIgnoresOthers(turn, Initial, Sorted(Unique(es)), worker);
  }

  /** Main result: equal sets of own events give equal results and equal statuses. */
  lemma FoldDependsOnlyOnEvents(turn: string, worker: string, a: seq<Envelope>, b: seq<Envelope>)
    requires TurnOf(turn, a, worker) && TurnOf(turn, b, worker)
    requires SeqIsIdentity(a, worker)
    requires OwnEvents(a, worker) == OwnEvents(b, worker)
    ensures FoldOf(turn, a) == FoldOf(turn, b)
    ensures Reduced(turn, a) == Reduced(turn, b)
    ensures StatusOf(turn, a) == StatusOf(turn, b)
  {
    FoldIsOverOwnEvents(turn, a, worker);
    FoldIsOverOwnEvents(turn, b, worker);
    OrderedMembers(a, worker);
    OrderedMembers(b, worker);
    SameOrder(Ordered(a, worker), Ordered(b, worker));
  }

  /** Any reordering, and any re-delivery of envelopes already held. */
  lemma PermutationAndRedelivery(turn: string, worker: string, log: seq<Envelope>,
                                 shuffled: seq<Envelope>, again: seq<Envelope>)
    requires TurnOf(turn, log, worker) && SeqIsIdentity(log, worker)
    requires multiset(shuffled) == multiset(log)
    requires forall e :: e in again ==> e in log
    ensures Reduced(turn, shuffled + again) == Reduced(turn, log)
    ensures StatusOf(turn, shuffled + again) == StatusOf(turn, log)
  {
    forall e
      ensures e in shuffled <==> e in log
    {
      assert e in shuffled <==> e in multiset(shuffled);
      assert e in log <==> e in multiset(log);
    }
    assert OwnEvents(shuffled + again, worker) == OwnEvents(log, worker);
    FoldDependsOnlyOnEvents(turn, worker, log, shuffled + again);
  }

  /** Replayed history and other workers' logs, wherever they are spliced in. */
  lemma ForeignEnvelopesAreInert(turn: string, worker: string, front: seq<Envelope>,
                                 foreign: seq<Envelope>, back: seq<Envelope>)
    requires TurnOf(turn, front + back, worker) && SeqIsIdentity(front + back, worker)
    requires forall e :: e in foreign ==> e.replay || (e.workerId != worker && e.turnId != Some(turn))
    ensures Reduced(turn, front + foreign + back) == Reduced(turn, front + back)
    ensures StatusOf(turn, front + foreign + back) == StatusOf(turn, front + back)
  {
    assert OwnEvents(front + foreign + back, worker) == OwnEvents(front + back, worker);
    FoldDependsOnlyOnEvents(turn, worker, front + back, front + foreign + back);
  }

  /** Of the live envelopes with one identity, the first that was handed in is the one kept. */
  predicate IsFirstOfItsKind(es: seq<Envelope>, i: int) {
    && 0 <= i < |es| && !es[i].replay
    && forall j :: 0 <= j < i ==> es[j].replay || !SameIdentity(es[j], es[i])
  }

  lemma {:induction false} FirstOneIsKept(es: seq<Envelope>, e: Envelope)
    ensures e in Unique(es) <==> exists i :: IsFirstOfItsKind(es, i) && es[i] == e
    decreases |es|
  {
    if es != [] {
      var front, last := es[..|es| - 1], es[|es| - 1];
      assert es == front + [last];
      FirstOneIsKept(front, e);
      UniqueMembers(front);
      assert forall i :: 0 <= i < |front| ==> front[i] == es[i];
      forall i | i < |front|
        ensures IsFirstOfItsKind(es, i) <==> IsFirstOfItsKind(front, i)
      {
      }
      LastIsFirstOfItsKind(es);
    }
  }

  lemma LastIsFirstOfItsKind(es: seq<Envelope>)
    requires es != []
    ensures var front, last := es[..|es| - 1], es[|es| - 1];
            IsFirstOfItsKind(es, |es| - 1) <==> !last.replay && !Known(Unique(front), last)
  {
    var front, last := es[..|es| - 1], es[|es| - 1];
    UniqueMembers(front);
    if k :| 0 <= k < |Unique(front)| && SameIdentity(Unique(front)[k], last) {
      assert Unique(front)[k] in Unique(front);
      var j :| 0 <= j < |front| && front[j] == Unique(front)[k];
      assert es[j] == front[j];
    }
    if j :| 0 <= j < |front| && !front[j].replay && SameIdentity(front[j], last) {
      assert front[j] in front;
      var k :| 0 <= k < |Unique(front)| && SameIdentity(Unique(front)[k], front[j]);
      assert SameIdentity(Unique(front)[k], last);
    } else {
      assert forall j :: 0 <= j < |front| ==> es[j] == front[j];
    }
  }

  // ---- turns spread over several logs ----

  /** An envelope the fold of this turn looks at. */
  predicate Matters(turn: string, e: Envelope) {
    e.turnId == Some(turn) || IsRestart(e) || IsClose(e)
  }

  ghost function MatteringEvents(turn: string, es: seq<Envelope>): set<Envelope> {
    set e | e in es && !e.replay && Matters(turn, e)
  }

  /**
   No two different envelopes that matter bear the same seq, whichever workers they are of, and no other envelope
   passes for one of them.
   */
  ghost predicate NoTies(turn: string, es: seq<Envelope>) {
    && (forall a, b :: a in MatteringEvents(turn, es) && b in MatteringEvents(turn, es) && a.seqNo == b.seqNo ==>
          a == b)
    && (forall a, b :: a in es && !a.replay && b in MatteringEvents(turn, es) && SameIdentity(a, b) ==> a == b)
  }

  function Mattering(turn: string, es: seq<Envelope>): seq<Envelope> {
    if es == [] then []
    else (if Matters(turn, es[0]) then [es[0]] else []) + Mattering(turn, es[1..])
  }

  lemma StepIgnoresTheRest(turn: string, f: FoldState, e: Envelope)
    requires !Matters(turn, e)
    ensures Step(turn, f, e) == f
  {
  }

  lemma {:induction false} RunIgnoresTheRest(turn: string, f: FoldState, es: seq<Envelope>)
    ensures Run(turn, f, es) == Run(turn, f, Mattering(turn, es))
    decreases |es|
  {
    if es != [] && f.terminal == NotTerminal {
      if Matters(turn, es[0]) {
        RunIgnoresTheRest(turn, Step(turn, f, es[0]), es[1..]);
        assert Mattering(turn, es)[1..] == Mattering(turn, es[1..]);
      } else {
        StepIgnoresTheRest(turn, f, es[0]);
        RunIgnoresTheRest(turn, f, es[1..]);
        assert Mattering(turn, es) == Mattering(turn, es[1..]);
      }
    }
  }

  lemma {:induction false} MatteringMembers(turn: string, es: seq<Envelope>)
    ensures forall e :: e in Mattering(turn, es) <==> e in es && Matters(turn, e)
  {
    if es != [] {
      assert es == [es[0]] + es[1..];
      MatteringMembers(turn, es[1..]);
    }
  }

  lemma FirstIsNoOther(es: seq<Envelope>, e: Envelope)
    requires es != [] && InSeqOrder(es) && Distinct(es) && e in es[1..]
    ensures es[0].seqNo <= e.seqNo && !SameIdentity(es[0], e)
  {
    var k :| 0 <= k < |es[1..]| && es[1..][k] == e;
    assert es[k + 1] == e;
  }

  lemma OneMoreInFront(first: Envelope, rest: seq<Envelope>)
    requires StrictlyBySeq(rest) && forall e :: e in rest ==> first.seqNo < e.seqNo
    ensures StrictlyBySeq([first] + rest)
  {
    assert forall i :: 0 <= i < |rest| ==> rest[i] in rest;
  }

  predicate TellsApart(own: seq<Envelope>) {
    forall a, b :: a in own && b in own && a.seqNo == b.seqNo ==> a == b
  }

  lemma {:induction false} MatteringInOrder(turn: string, es: seq<Envelope>)
    requires InSeqOrder(es) && Distinct(es) && TellsApart(Mattering(turn, es))
    ensures StrictlyBySeq(Mattering(turn, es))
  {
    if es != [] {
      var rest := Mattering(turn, es[1..]);
      assert forall e :: e in rest ==> e in Mattering(turn, es);
      MatteringInOrder(turn, es[1..]);
      MatteringMembers(turn, es[1..]);
      if Matters(turn, es[0]) {
        assert es[0] in Mattering(turn, es);
        forall e | e in rest
          ensures es[0].seqNo < e.seqNo
        {
          FirstIsNoOther(es, e);
        }
        OneMoreInFront(es[0], rest);
      }
    }
  }

  lemma WithoutTies(turn: string, es: seq<Envelope>)
    requires NoTies(turn, es)
    ensures var own := Mattering(turn, Sorted(Unique(es)));
            && FoldOf(turn, es) == Run(turn, Initial, own) && StrictlyBySeq(own)
            && forall e :: e in own <==> e in MatteringEvents(turn, es)
  {
    var sorted := Sorted(Unique(es));
    UniqueMembers(es);
    SortedMembers(Unique(es));
    MatteringMembers(turn, sorted);
    forall e | e in MatteringEvents(turn, es)
      ensures e in Unique(es)
    {
      var i :| 0 <= i < |Unique(es)| && SameIdentity(Unique(es)[i], e);
      assert Unique(es)[i] in Unique(es);
    }
    forall a, b | a in Mattering(turn, sorted) && b in Mattering(turn, sorted) && a.seqNo == b.seqNo
      ensures a == b
    {
      assert a in MatteringEvents(turn, es) && b in MatteringEvents(turn, es);
    }
    MatteringInOrder(turn, sorted);
    RunIgnoresTheRest(turn, Initial, sorted);
  }

  /**
   Main result: however many workers a turn is spread over, order of arrival can show only through a tie. Piles with
   the same mattering envelopes and no tie give the same result and the same status.
   */
  lemma OrderShowsOnlyThroughTies(turn: string, a: seq<Envelope>, b: seq<Envelope>)
    requires NoTies(turn, a) && NoTies(turn, b) && MatteringEvents(turn, a) == MatteringEvents(turn, b)
    ensures FoldOf(turn, a) == FoldOf(turn, b)
    ensures Reduced(turn, a) == Reduced(turn, b)
    ensures StatusOf(turn, a) == StatusOf(turn, b)
  {
    WithoutTies(turn, a);
    WithoutTies(turn, b);
    SameOrder(Mattering(turn, Sorted(Unique(a))), Mattering(turn, Sorted(Unique(b))));
  }

  // ---- why the turn must live in one log ----

  function Chunk(worker: string, text: string): Envelope {
    Envelope(worker, 1, "", Some("t"), false, SessionUpdate(MessageChunk(Some(text))))
  }

  /** With one turn id in two logs, the order of arrival shows: equal seqs are not reordered. */
  lemma TwoLogsMakeOrderVisible()
    ensures var a, b := Chunk("v", "a"), Chunk("w", "b");
      Reduced("t", [a, b]).text == "ab" && Reduced("t", [b, a]).text == "ba"
  {
    TwoChunks("v", "a", "w", "b");
    TwoChunks("w", "b", "v", "a");
  }

  lemma TwoChunks(v: string, a: string, w: string, b: string)
    requires v != w
    ensures Reduced("t", [Chunk(v, a), Chunk(w, b)]).text == a + b
  {
    var x, y := Chunk(v, a), Chunk(w, b);
    assert [x, y][..1] == [x] && [x][..0] == [];
    assert Unique([x]) == [x];
    assert Unique([x, y]) == [x, y];
    assert Sorted([x]) == [x];
    assert Sorted([x, y]) == [x, y];
    assert [x, y][1..] == [y];
    assert [y][1..] == [];
    var f := Step("t", Initial, x);
    assert Run("t", f, [y]) == Run("t", Step("t", f, y), []);
  }
}
