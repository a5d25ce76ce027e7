/**
 Ids climb as strings under any clock, exactly as long as the random field does not overflow within
 a tick; and a worker's address takes apart into what it was made of.
 */
module IdsLaws {
  import opened Wrappers
  import opened Ids

  /** The generator after a run of calls. */
  function Ran(calls: seq<Call>): Gen {
    if calls == [] then Fresh else Advanced(Ran(calls[..|calls| - 1]), calls[|calls| - 1])
  }

  predicate WellDrawn(calls: seq<Call>) {
    forall k :: 0 <= k < |calls| ==> |calls[k].draws| == RANDOM_LEN
  }

  /** 2^50 milliseconds: what ten base-32 digits can hold. */
  predicate InTime(calls: seq<Call>) {
    forall k :: 0 <= k < |calls| ==> Tick(calls[k].now) < Pow32(TIME_LEN)
  }

  lemma {:induction false} RanIsGen(calls: seq<Call>)
    requires WellDrawn(calls)
    ensures calls != [] ==> IsGen(Ran(calls))
    ensures calls != [] && InTime(calls) ==> Ran(calls).lastTime < Pow32(TIME_LEN)
  {
    if calls != [] {
      RanIsGen(calls[..|calls| - 1]);
    }
  }

  /** The id minted by call `k`, counted from 1. */
  function IdAt(calls: seq<Call>, k: nat): string
    requires WellDrawn(calls) && 1 <= k <= |calls|
  {
    RanIsGen(calls[..k]);
    Body(Ran(calls[..k]))
  }

  /** A call within the last tick finds the random field full. */
  predicate Overflows(g: Gen, c: Call) {
    Stalls(g, c) && AllHighest(g.lastRandom)
  }

  // ---- one step ----

  function Key(g: Gen): nat
    requires IsGen(g)
  {
    Value(Digits(g))
  }

  /** What ten base-32 digits keep of a time. */
  function KeptTime(t: nat): nat {
    PowersArePositive(TIME_LEN);
    t % Pow32(TIME_LEN)
  }

  lemma KeyIs(g: Gen)
    requires IsGen(g)
    ensures Key(g) == KeptTime(g.lastTime) * Pow32(RANDOM_LEN) + Value(g.lastRandom)
    ensures Value(g.lastRandom) < Pow32(RANDOM_LEN)
    ensures Value(g.lastRandom) == Pow32(RANDOM_LEN) - 1 <==> AllHighest(g.lastRandom)
  {
    ValueAppend(LowDigits(g.lastTime, TIME_LEN), g.lastRandom);
    ValueOfLowDigits(g.lastTime, TIME_LEN);
    ValueIsBounded(g.lastRandom);
  }

  /** Numbers made of a high and a low part compare by the high part first. */
  lemma HighPartDecides(s: nat, t: nat, p: nat, low: nat, other: nat)
    requires low < p && other < p
    ensures s * p + low < t * p + other <==> s < t || (s == t && low < other)
  {
    if s < t {
      MultiplesApart(s, t, p);
    } else if t < s {
      MultiplesApart(t, s, p);
    }
  }

  lemma LessIsByKey(g: Gen, h: Gen)
    requires IsGen(g) && IsGen(h)
    ensures Less(Body(g), Body(h)) <==> Key(g) < Key(h)
  {
    EncodedOrder(Digits(g), Digits(h));
    ValueOrder(Digits(g), Digits(h));
  }

  /**
   What lets the next id be higher: within a tick, room in the random field; on a new tick, a higher kept time,
   or the same kept time and a higher draw.
   */
  predicate Rises(g: Gen, c: Call)
    requires IsGen(g) && |c.draws| == RANDOM_LEN
  {
    if Stalls(g, c) then !AllHighest(g.lastRandom)
    else
      || KeptTime(g.lastTime) < KeptTime(Tick(c.now))
      || (KeptTime(g.lastTime) == KeptTime(Tick(c.now)) && Value(g.lastRandom) < Value(Drawn(c.draws)))
  }

  /** Whatever the clock reads, the next id is a higher number exactly when it rises. */
  lemma NextIsHigherExactlyWhen(g: Gen, c: Call)
    requires IsGen(g) && |c.draws| == RANDOM_LEN
    ensures IsGen(Advanced(g, c)) && (Key(g) < Key(Advanced(g, c)) <==> Rises(g, c))
  {
    var h := Advanced(g, c);
    KeyIs(g);
    KeyIs(h);
    HighPartDecides(KeptTime(g.lastTime), KeptTime(h.lastTime), Pow32(RANDOM_LEN),
                    Value(g.lastRandom), Value(h.lastRandom));
    if Stalls(g, c) {
      IncrementIsPlusOne(g.lastRandom);
      ValueIsBounded(g.lastRandom);
    }
  }

  /** Below 2^50 milliseconds only an overflow within a tick can keep it from rising. */
  lemma NextIsHigher(g: Gen, c: Call)
    requires IsGen(g) && g.lastTime < Pow32(TIME_LEN)
    requires |c.draws| == RANDOM_LEN && Tick(c.now) < Pow32(TIME_LEN)
    ensures Key(g) < Key(Advanced(g, c)) <==> !Overflows(g, c)
  {
    NextIsHigherExactlyWhen(g, c);
    RisesInTime(g, c);
  }

  lemma RisesInTime(g: Gen, c: Call)
    requires IsGen(g) && g.lastTime < Pow32(TIME_LEN)
    requires |c.draws| == RANDOM_LEN && Tick(c.now) < Pow32(TIME_LEN)
    ensures Rises(g, c) <==> !Overflows(g, c)
  {
    KeptBelowLimit(g.lastTime);
    KeptBelowLimit(Tick(c.now));
  }

  lemma KeptBelowLimit(t: nat)
    requires t < Pow32(TIME_LEN)
    ensures KeptTime(t) == t
  {
  }

  // ---- whole runs ----

  predicate NeverOverflows(calls: seq<Call>) {
    forall k :: 1 <= k < |calls| ==> !Overflows(Ran(calls[..k]), calls[k])
  }

  predicate RisesAt(calls: seq<Call>, k: nat)
    requires WellDrawn(calls) && 1 <= k < |calls|
  {
    RanIsGen(calls[..k]);
    Rises(Ran(calls[..k]), calls[k])
  }

  predicate AlwaysRises(calls: seq<Call>)
    requires WellDrawn(calls)
  {
    forall k :: 1 <= k < |calls| ==> RisesAt(calls, k)
  }

  ghost predicate Climb(calls: seq<Call>)
    requires WellDrawn(calls)
  {
    forall i, j :: 1 <= i < j <= |calls| ==> Less(IdAt(calls, i), IdAt(calls, j))
  }

  lemma StepAt(calls: seq<Call>, k: nat)
    requires WellDrawn(calls) && 1 <= k < |calls|
    ensures IsGen(Ran(calls[..k])) && IsGen(Ran(calls[..k + 1]))
    ensures Key(Ran(calls[..k])) < Key(Ran(calls[..k + 1])) <==> RisesAt(calls, k)
  {
    RanIsGen(calls[..k]);
    RanIsGen(calls[..k + 1]);
    assert calls[..k + 1][..k] == calls[..k] && calls[..k + 1][k] == calls[k];
    NextIsHigherExactlyWhen(Ran(calls[..k]), calls[k]);
  }

  ghost predicate Below(g: Gen, h: Gen) {
    IsGen(g) && IsGen(h) && Key(g) < Key(h)
  }

  lemma BelowTwice(g: Gen, h: Gen, i: Gen)
    requires Below(g, h) && Below(h, i)
    ensures Below(g, i)
  {
  }

  lemma {:induction false} KeysClimb(calls: seq<Call>, i: nat, j: nat)
    requires WellDrawn(calls) && AlwaysRises(calls) && 1 <= i < j <= |calls|
    ensures Below(Ran(calls[..i]), Ran(calls[..j]))
    decreases j - i
  {
    StepAt(calls, j - 1);
    assert Below(Ran(calls[..j - 1]), Ran(calls[..j]));
    if i < j - 1 {
      KeysClimb(calls, i, j - 1);
      BelowTwice(Ran(calls[..i]), Ran(calls[..j - 1]), Ran(calls[..j]));
    }
  }

  /** Main result: whatever the clock does and however far it runs, the ids climb exactly when every call rises. */
  lemma IdsClimbExactlyWhen(calls: seq<Call>)
    requires WellDrawn(calls)
    ensures Climb(calls) <==> AlwaysRises(calls)
  {
    if AlwaysRises(calls) {
      forall i, j | 1 <= i < j <= |calls|
        ensures Less(IdAt(calls, i), IdAt(calls, j))
      {
        KeysClimb(calls, i, j);
        LessIsByKey(Ran(calls[..i]), Ran(calls[..j]));
      }
    } else {
      var k :| 1 <= k < |calls| && !RisesAt(calls, k);
      StepAt(calls, k);
      LessIsByKey(Ran(calls[..k]), Ran(calls[..k + 1]));
      assert !Less(IdAt(calls, k), IdAt(calls, k + 1));
    }
  }

  /** For times below the limit: the ids of a run climb exactly when no tick overflows. */
  lemma IdsClimbInTime(calls: seq<Call>)
    requires WellDrawn(calls) && InTime(calls)
    ensures Climb(calls) <==> NeverOverflows(calls)
  {
    IdsClimbExactlyWhen(calls);
    forall k | 1 <= k < |calls|
      ensures RisesAt(calls, k) <==> !Overflows(Ran(calls[..k]), calls[k])
    {
      RanIsGen(calls[..k]);
      RisesInTime(Ran(calls[..k]), calls[k]);
    }
  }

  /** Every draw leaves room for the whole run. */
  predicate LeavesRoom(calls: seq<Call>) {
    forall k :: 0 <= k < |calls| ==> Value(Drawn(calls[k].draws)) + |calls| < Pow32(RANDOM_LEN)
  }

  lemma {:induction false} RoomLeft(calls: seq<Call>, n: nat)
    requires WellDrawn(calls) && InTime(calls) && LeavesRoom(calls) && 1 <= n <= |calls|
    ensures IsGen(Ran(calls[..n])) && Value(Ran(calls[..n]).lastRandom) + (|calls| - n) < Pow32(RANDOM_LEN) - 1
    ensures !AllHighest(Ran(calls[..n]).lastRandom)
  {
    var front := calls[..n - 1];
    RanIsGen(calls[..n]);
    assert calls[..n][..n - 1] == front && calls[..n][n - 1] == calls[n - 1];
    if n > 1 {
      RoomLeft(calls, n - 1);
      IncrementIsPlusOne(Ran(front).lastRandom);
    }
    assert Value(Drawn(calls[n - 1].draws)) + |calls| < Pow32(RANDOM_LEN);
    ValueIsBounded(Ran(calls[..n]).lastRandom);
  }

  /** So a run shorter than the room its draws leave climbs, whatever the clock does. */
  lemma ShortRunsClimb(calls: seq<Call>)
    requires WellDrawn(calls) && InTime(calls) && LeavesRoom(calls)
    ensures Climb(calls)
  {
    forall k | 1 <= k < |calls|
      ensures !Overflows(Ran(calls[..k]), calls[k])
    {
      RoomLeft(calls, k);
    }
    IdsClimbInTime(calls);
  }

  /** At 2^50 milliseconds the time field starts again from zero: the next id comes before the last one. */
  lemma TimeLimitIsSharp(g: Gen, c: Call)
    requires IsGen(g) && 0 < g.lastTime < Pow32(TIME_LEN)
    requires |c.draws| == RANDOM_LEN && Tick(c.now) == Pow32(TIME_LEN)
    ensures Less(Body(Advanced(g, c)), Body(g)) && !Less(Body(g), Body(Advanced(g, c)))
  {
    var h := Advanced(g, c);
    ZeroAtLimit();
    KeptBelowLimit(g.lastTime);
    KeyIs(g);
    KeyIs(h);
    HighPartDecides(0, g.lastTime, Pow32(RANDOM_LEN), Value(h.lastRandom), Value(g.lastRandom));
    LessIsByKey(h, g);
    LessIsByKey(g, h);
  }

  lemma ZeroAtLimit()
    ensures KeptTime(Pow32(TIME_LEN)) == 0
  {
    PowersArePositive(TIME_LEN);
    RemainderIs(Pow32(TIME_LEN), 1, Pow32(TIME_LEN), 0);
  }

  // ---- shape ----

  /** The character class of a ULID body. */
  predicate IsBodyChar(c: char) {
    || '0' <= c <= '9' || 'A' <= c <= 'H' || c == 'J' || c == 'K' || c == 'M' || c == 'N'
    || 'P' <= c <= 'T' || 'V' <= c <= 'Z'
  }

  predicate IsBody(s: string) {
    |s| == 26 && forall i :: 0 <= i < |s| ==> IsBodyChar(s[i])
  }

  lemma SymbolIsBodyChar(d: nat)
    requires d < 32
    ensures IsBodyChar(CROCKFORD[d])
  {
  }

  lemma EveryBodyIsWellFormed(g: Gen)
    requires IsGen(g)
    ensures IsBody(Body(g))
  {
    forall i | 0 <= i < |Body(g)|
      ensures IsBodyChar(Body(g)[i])
    {
      SymbolIsBodyChar(Digits(g)[i]);
    }
  }

  /** One prefix per kind of id, the body behind it: ids of a kind are ordered as their bodies. */
  lemma PrefixSlice(prefix: string, a: string, k: nat)
    requires k < |a|
    ensures (prefix + a)[..|prefix| + k] == prefix + a[..k] && (prefix + a)[|prefix| + k] == a[k]
  {
  }

  lemma SamePrefixDecides(prefix: string, a: string, b: string, k: nat)
    requires k < |a| == |b|
    ensures (prefix + a)[..|prefix| + k] == (prefix + b)[..|prefix| + k] <==> a[..k] == b[..k]
  {
    PrefixSlice(prefix, a, k);
    PrefixSlice(prefix, b, k);
    assert (prefix + a[..k])[|prefix|..] == a[..k] && (prefix + b[..k])[|prefix|..] == b[..k];
  }

  /** Ids of one kind share their prefix, so they compare as their bodies do. */
  lemma PrefixKeepsOrder(prefix: string, a: string, b: string)
    requires |a| == |b|
    ensures Less(prefix + a, prefix + b) <==> Less(a, b)
  {
    var n := |prefix|;
    if Less(a, b) {
      var k :| 0 <= k < |a| && a[..k] == b[..k] && a[k] < b[k];
      SamePrefixDecides(prefix, a, b, k);
      PrefixSlice(prefix, a, k);
      PrefixSlice(prefix, b, k);
    }
    if Less(prefix + a, prefix + b) {
      var k :| 0 <= k < n + |a| && (prefix + a)[..k] == (prefix + b)[..k] && (prefix + a)[k] < (prefix + b)[k];
      assert k >= n;
      SamePrefixDecides(prefix, a, b, k - n);
      PrefixSlice(prefix, a, k - n);
      PrefixSlice(prefix, b, k - n);
    }
  }

  // ---- addresses ----

  predicate IsDaemonId(s: string) { |s| == 28 && s[..2] == "d_" && IsBody(s[2..]) }

  predicate IsWorkerId(s: string) { |s| == 28 && s[..2] == "w_" && IsBody(s[2..]) }

  function WorkerRef(daemon: string, worker: string): string {
    daemon + ":" + worker
  }

  function ColonAt(s: string): (at: int)
    ensures at == -1 || (0 <= at < |s| && s[at] == ':')
    ensures forall i :: 0 <= i < (if at == -1 then |s| else at) ==> s[i] != ':'
  {
    if s == "" then -1 else if s[0] == ':' then 0
    else
      var r := ColonAt(s[1..]);
      if r == -1 then -1 else r + 1
  }

  function ParseWorkerRef(ref: string): Option<(string, string)> {
    var at := ColonAt(ref);
    var daemon := if at == -1 then "" else ref[..at];
    var worker := if at == -1 then "" else ref[at + 1..];
    if IsDaemonId(daemon) && IsWorkerId(worker) then Some((daemon, worker)) else None
  }

  lemma NoColonInId(s: string)
    requires IsDaemonId(s)
    ensures forall i :: 0 <= i < |s| ==> s[i] != ':'
  {
    forall i | 0 <= i < |s|
      ensures s[i] != ':'
    {
      if i < 2 {
        assert s[..2][i] == s[i];
      } else {
        assert IsBodyChar(s[2..][i - 2]);
      }
    }
  }

  /** Parsing succeeds exactly on what `WorkerRef` makes of two well-formed ids, and gives them back. */
  lemma RefRoundTrip(ref: string, daemon: string, worker: string)
    ensures ParseWorkerRef(ref) == Some((daemon, worker)) <==>
      IsDaemonId(daemon) && IsWorkerId(worker) && ref == WorkerRef(daemon, worker)
  {
    if IsDaemonId(daemon) && IsWorkerId(worker) && ref == WorkerRef(daemon, worker) {
      NoColonInId(daemon);
      assert ref[|daemon|] == ':';
      assert forall i :: 0 <= i < |daemon| ==> ref[i] == daemon[i];
      assert ColonAt(ref) == |daemon|;
      assert ref[..|daemon|] == daemon && ref[|daemon| + 1..] == worker;
    }
    if ParseWorkerRef(ref) == Some((daemon, worker)) {
      assert ref == ref[..ColonAt(ref)] + ":" + ref[ColonAt(ref) + 1..];
    }
  }
}
