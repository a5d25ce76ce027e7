/**
 Ids read off the calls that minted them: the time is the latest the clock has shown, the random field is the draw made
 when it first did, plus one for every id since; and both can be decoded from the text.
 */
module IdsReading {
  import opened Wrappers
  import opened Ids
  import opened IdsLaws

  // ---- decoding ----

  /** What a symbol stands for: digits, then letters, without I, L, O and U. */
  function DigitOf(c: char): int {
    if '0' <= c <= '9' then c as int - '0' as int
    else if 'A' <= c <= 'H' then c as int - 'A' as int + 10
    else if 'J' <= c <= 'K' then c as int - 'J' as int + 18
    else if 'M' <= c <= 'N' then c as int - 'M' as int + 20
    else if 'P' <= c <= 'T' then c as int - 'P' as int + 22
    else if 'V' <= c <= 'Z' then c as int - 'V' as int + 27
    else -1
  }

  lemma SymbolsDecode(d: nat)
    requires d < 32
    ensures DigitOf(CROCKFORD[d]) == d
  {
  }

  /** The number a text stands for. */
  function Decoded(s: string): int {
    if s == "" then 0 else Decoded(s[..|s| - 1]) * 32 + DigitOf(s[|s| - 1])
  }

  lemma {:induction false} EncodedDecodes(ds: seq<nat>)
    requires AreDigits(ds)
    ensures Decoded(Encoded(ds)) == Value(ds)
  {
    if ds != [] {
      EncodedDecodes(ds[..|ds| - 1]);
      SymbolsDecode(ds[|ds| - 1]);
      assert Encoded(ds)[..|ds| - 1] == Encoded(ds[..|ds| - 1]);
    }
  }

  // ---- what the clock and the dice gave ----

  /** A reading of the clock in whole milliseconds; before the epoch it counts as the epoch. */
  predicate IsMillisecond(now: real, t: int) {
    if now < 0.0 then t == 0 else t as real <= now < t as real + 1.0
  }

  /** A number drawn from [0, 1) as one of thirty-two equal parts. */
  predicate IsPart(v: real, d: int) {
    d as real <= v * 32.0 < d as real + 1.0
  }

  lemma TicksAreMilliseconds(now: real)
    ensures IsMillisecond(now, Tick(now))
  {
  }

  lemma DrawsAreParts(v: real)
    ensures 0.0 <= v < 1.0 ==> IsPart(v, RandomIndex(v))
    ensures v < 0.0 ==> RandomIndex(v) == 0
    ensures v >= 1.0 ==> RandomIndex(v) == 31
  {
  }

  /** Call `m` read the latest time of all, and was the first to do so. */
  predicate IsLatest(calls: seq<Call>, m: int) {
    && 0 <= m < |calls|
    && (forall k :: 0 <= k < m ==> Tick(calls[k].now) < Tick(calls[m].now))
    && (forall k :: m <= k < |calls| ==> Tick(calls[k].now) <= Tick(calls[m].now))
  }

  lemma LatestOneOn(calls: seq<Call>, m: int)
    requires |calls| > 1 && IsLatest(calls[..|calls| - 1], m)
    ensures if Tick(calls[|calls| - 1].now) <= Tick(calls[m].now) then IsLatest(calls, m)
            else IsLatest(calls, |calls| - 1)
  {
    var front := calls[..|calls| - 1];
    assert forall k :: 0 <= k < |front| ==> front[k] == calls[k];
  }

  lemma WrappedOnce(base: nat, since: nat, value: nat, p: nat)
    requires p > 0 && value < p && value == (base + since) % p
    ensures (if value == p - 1 then 0 else value + 1) == (base + since + 1) % p
  {
    Divides(base + since, p);
    var q := (base + since) / p;
    if value == p - 1 {
      assert base + since + 1 == (q + 1) * p + 0 by {
        assert (q + 1) * p == q * p + p;
      }
      RemainderIs(base + since + 1, q + 1, p, 0);
    } else {
      RemainderIs(base + since + 1, q, p, value + 1);
    }
  }

  /** The time is that of call `m`, the random field what `m` drew plus one for each call since, wrapping at 2^80. */
  ghost predicate IsRead(calls: seq<Call>, m: int) {
    PowersArePositive(RANDOM_LEN);
    && 0 <= m < |calls| && IsGen(Ran(calls)) && Ran(calls).lastTime == Tick(calls[m].now)
    && Value(Ran(calls).lastRandom) == (Value(Drawn(calls[m].draws)) + (|calls| - 1 - m)) % Pow32(RANDOM_LEN)
  }

  lemma ReadWhenDrawn(calls: seq<Call>)
    requires WellDrawn(calls) && calls != [] && !Stalls(Ran(calls[..|calls| - 1]), calls[|calls| - 1])
    ensures IsRead(calls, |calls| - 1)
  {
    RanIsGen(calls);
    DrawnFits(calls[|calls| - 1]);
  }

  lemma ReadWhenStalled(calls: seq<Call>, m: nat)
    requires WellDrawn(calls) && |calls| > 1 && IsRead(calls[..|calls| - 1], m)
    requires Stalls(Ran(calls[..|calls| - 1]), calls[|calls| - 1])
    ensures IsRead(calls, m)
  {
    var front := calls[..|calls| - 1];
    var g := Ran(front);
    RanIsGen(calls);
    PowersArePositive(RANDOM_LEN);
    assert front[m] == calls[m];
    IncrementIsPlusOne(g.lastRandom);
    ValueIsBounded(g.lastRandom);
    WrappedOnce(Value(Drawn(calls[m].draws)), |front| - 1 - m, Value(g.lastRandom), Pow32(RANDOM_LEN));
  }

  /** Main result: after any calls the generator is read off the first call that showed the latest time. */
  lemma {:induction false} GeneratorIsRead(calls: seq<Call>) returns (m: nat)
    requires WellDrawn(calls) && calls != []
    ensures IsLatest(calls, m) && IsRead(calls, m)
    decreases |calls|
  {
    var front, last := calls[..|calls| - 1], calls[|calls| - 1];
    if front == [] {
      m := 0;
      ReadWhenDrawn(calls);
    } else {
      m := GeneratorIsRead(front);
      LatestOneOn(calls, m);
      assert front[m] == calls[m];
      if Tick(last.now) <= Tick(calls[m].now) {
        ReadWhenStalled(calls, m);
      } else {
        m := |calls| - 1;
        ReadWhenDrawn(calls);
      }
    }
  }

  lemma DrawnFits(c: Call)
    requires |c.draws| == RANDOM_LEN
    ensures Pow32(RANDOM_LEN) > 0 && Value(Drawn(c.draws)) == (Value(Drawn(c.draws)) + 0) % Pow32(RANDOM_LEN)
  {
    PowersArePositive(RANDOM_LEN);
    ValueIsBounded(Drawn(c.draws));
    RemainderIs(Value(Drawn(c.draws)), 0, Pow32(RANDOM_LEN), Value(Drawn(c.draws)));
  }

  /** And so the text of the last id: its first ten symbols decode to that time, its last sixteen to that number. */
  lemma LastIdIsRead(calls: seq<Call>) returns (m: nat)
    requires WellDrawn(calls) && calls != []
    ensures IsLatest(calls, m) && IsMillisecond(calls[m].now, Tick(calls[m].now))
    ensures |IdAt(calls, |calls|)| == 26
    ensures Pow32(TIME_LEN) > 0 && Pow32(RANDOM_LEN) > 0
    ensures Decoded(IdAt(calls, |calls|)[..10]) == Tick(calls[m].now) % Pow32(TIME_LEN)
    ensures Decoded(IdAt(calls, |calls|)[10..]) ==
            (Value(Drawn(calls[m].draws)) + (|calls| - 1 - m)) % Pow32(RANDOM_LEN)
  {
    m := GeneratorIsRead(calls);
    TicksAreMilliseconds(calls[m].now);
    PowersArePositive(TIME_LEN);
    PowersArePositive(RANDOM_LEN);
    assert calls[..|calls|] == calls;
    BodyDecodes(Ran(calls));
  }

  lemma BodyDecodes(g: Gen)
    requires IsGen(g)
    ensures |Body(g)| == 26 && Pow32(TIME_LEN) > 0
    ensures Decoded(Body(g)[..10]) == g.lastTime % Pow32(TIME_LEN)
    ensures Decoded(Body(g)[10..]) == Value(g.lastRandom)
  {
    assert Body(g)[..10] == Encoded(LowDigits(g.lastTime, TIME_LEN));
    assert Body(g)[10..] == Encoded(g.lastRandom);
    EncodedDecodes(LowDigits(g.lastTime, TIME_LEN));
    EncodedDecodes(g.lastRandom);
    ValueOfLowDigits(g.lastTime, TIME_LEN);
  }
}
