/**
 Monotonic ULIDs: a time field and a random field in Crockford base 32, one generator behind every
 kind of id. Also the daemon-wide address of a worker.
 */
module Ids {
  import opened Wrappers

  const CROCKFORD := "0123456789ABCDEFGHJKMNPQRSTVWXYZ"
  const TIME_LEN: nat := 10
  const RANDOM_LEN: nat := 16

  // ---- base 32 ----

  predicate AreDigits(ds: seq<nat>) {
    forall i :: 0 <= i < |ds| ==> ds[i] < 32
  }

  function Value(ds: seq<nat>): nat {
    if ds == [] then 0 else Value(ds[..|ds| - 1]) * 32 + ds[|ds| - 1]
  }

  function Pow32(n: nat): nat {
    if n == 0 then 1 else 32 * Pow32(n - 1)
  }

  /** The `n` lowest base-32 digits of a number, highest first. */
  function LowDigits(t: nat, n: nat): (ds: seq<nat>)
    ensures |ds| == n && AreDigits(ds)
  {
    if n == 0 then [] else LowDigits(t / 32, n - 1) + [t % 32]
  }

  /** Plus one, with carry; all digits at their highest wrap to zero. */
  function Incremented(ds: seq<nat>): (r: seq<nat>)
    ensures |r| == |ds|
    ensures AreDigits(ds) ==> AreDigits(r)
  {
    if ds == [] then []
    else if ds[|ds| - 1] < 31 then ds[..|ds| - 1] + [ds[|ds| - 1] + 1]
    else Incremented(ds[..|ds| - 1]) + [0]
  }

  predicate AllHighest(ds: seq<nat>) {
    forall i :: 0 <= i < |ds| ==> ds[i] == 31
  }

  function Encoded(ds: seq<nat>): (s: string)
    requires AreDigits(ds)
    ensures |s| == |ds|
    ensures forall i :: 0 <= i < |s| ==> s[i] == CROCKFORD[ds[i]]
  {
    seq(|ds|, i requires 0 <= i < |ds| => CROCKFORD[ds[i]])
  }

  // ---- the generator as a value ----

  datatype Gen = Gen(lastTime: int, lastRandom: seq<nat>)

  const Fresh: Gen := Gen(-1, [])

  /** One call: the clock reading and the sixteen random numbers it would draw. */
  datatype Call = Call(now: real, draws: seq<real>)

  function RandomIndex(v: real): (d: nat)
    ensures d < 32
  {
    var n := (v * 32.0).Floor;
    if n < 0 then 0 else if n > 31 then 31 else n
  }

  function Tick(now: real): nat {
    if now.Floor > 0 then now.Floor else 0
  }

  function Drawn(draws: seq<real>): (ds: seq<nat>)
    ensures |ds| == |draws| && AreDigits(ds)
  {
    seq(|draws|, i requires 0 <= i < |draws| => RandomIndex(draws[i]))
  }

  /** The clock has not moved past the last id's millisecond. */
  predicate Stalls(g: Gen, c: Call) {
    Tick(c.now) <= g.lastTime && |g.lastRandom| == RANDOM_LEN
  }

  function Advanced(g: Gen, c: Call): Gen {
    if Stalls(g, c) then Gen(g.lastTime, Incremented(g.lastRandom)) else Gen(Tick(c.now), Drawn(c.draws))
  }

  predicate IsGen(g: Gen) {
    0 <= g.lastTime && |g.lastRandom| == RANDOM_LEN && AreDigits(g.lastRandom)
  }

  function Digits(g: Gen): (ds: seq<nat>)
    requires IsGen(g)
    ensures |ds| == TIME_LEN + RANDOM_LEN && AreDigits(ds)
  {
    LowDigits(g.lastTime, TIME_LEN) + g.lastRandom
  }

  function Body(g: Gen): string
    requires IsGen(g)
  {
    Encoded(Digits(g))
  }

  // ---- as the program runs it ----

  /** Base-32 +1 in place. */
  method IncrementRandom(digits: array<nat>)
    requires AreDigits(digits[..])
    modifies digits
    ensures digits[..] == Incremented(old(digits[..]))
  {
    var i := digits.Length;
    assert digits[..i] + digits[i..] == digits[..];
    assert digits[..i] == digits[..] && digits[i..] == [];
    assert Incremented(digits[..i]) + [] == Incremented(digits[..i]);
    while i > 0
      invariant 0 <= i <= digits.Length
      invariant digits[..i] == old(digits[..i])
      invariant Incremented(old(digits[..])) == Incremented(digits[..i]) + digits[i..]
    {
      i := i - 1;
      assert digits[..i + 1][..i] == digits[..i];
      if digits[i] < 31 {
        digits[i] := digits[i] + 1;
        assert digits[..] == digits[..i] + [digits[i]] + digits[i + 1..];
        return;
      }
      digits[i] := 0;
      assert digits[i..] == [0] + digits[i + 1..];
    }
    assert digits[..] == digits[0..];
  }

  method EncodeTime(ms: int) returns (s: string)
    ensures s == Encoded(LowDigits(if ms > 0 then ms else 0, TIME_LEN))
  {
    var n: nat := if ms > 0 then ms else 0;
    ghost var t := n;
    var out := new char[TIME_LEN];
    var i: nat := TIME_LEN;
    ghost var tail: seq<nat> := [];
    while i > 0
      invariant 0 <= i <= TIME_LEN && out.Length == TIME_LEN && |tail| == TIME_LEN - i && AreDigits(tail)
      invariant LowDigits(t, TIME_LEN) == LowDigits(n, i) + tail
      invariant out[i..] == Encoded(tail)
    {
      i := i - 1;
      var digit := n % 32;
      out[i] := CROCKFORD[digit];
      OneMoreDigit(n, i, digit, tail);
      n := (n - digit) / 32;
      tail := [digit] + tail;
      assert out[i..] == [out[i]] + out[i + 1..];
    }
    assert LowDigits(n, 0) + tail == tail;
    assert out[0..] == out[..];
    s := out[..];
  }

  lemma OneMoreDigit(n: nat, i: nat, digit: nat, tail: seq<nat>)
    requires digit == n % 32
    ensures (n - digit) / 32 == n / 32
    ensures LowDigits(n, i + 1) + tail == LowDigits(n / 32, i) + ([digit] + tail)
  {
  }

  class IdGen {
    var lastTime: int
    var lastRandom: array<nat>

    predicate Valid()
      reads this, lastRandom
    {
      AreDigits(lastRandom[..]) && (lastRandom.Length == RANDOM_LEN ==> lastTime >= 0)
    }

    function View(): Gen
      reads this, lastRandom
    {
      Gen(lastTime, lastRandom[..])
    }

    constructor ()
      ensures Valid() && View() == Fresh && fresh(lastRandom)
    {
      lastTime := -1;
      lastRandom := new nat[0];
    }

    /** Moves to the next id's time and random field: one up within a tick, drawn afresh otherwise. */
    method Advance(now: real, draws: seq<real>)
      requires Valid() && |draws| == RANDOM_LEN
      modifies this, lastRandom
      ensures Valid() && (lastRandom == old(lastRandom) || fresh(lastRandom))
      ensures View() == Advanced(old(View()), Call(now, draws)) && IsGen(View())
    {
      var t := if now.Floor > 0 then now.Floor else 0;
      if t <= lastTime && lastRandom.Length == RANDOM_LEN {
        IncrementRandom(lastRandom);
      } else {
        lastTime := t;
        lastRandom := new nat[RANDOM_LEN](i requires 0 <= i < RANDOM_LEN => RandomIndex(draws[i]));
        assert lastRandom[..] == Drawn(draws);
      }
    }

    method Next(now: real, draws: seq<real>) returns (body: string)
      requires Valid() && |draws| == RANDOM_LEN
      modifies this, lastRandom
      ensures Valid() && (lastRandom == old(lastRandom) || fresh(lastRandom))
      ensures View() == Advanced(old(View()), Call(now, draws))
      ensures IsGen(View()) && body == Body(View())
    {
      Advance(now, draws);
      body := EncodeTime(lastTime);
      body := AppendSymbols(body, lastRandom);
    }
  }

  method AppendSymbols(prefix: string, digits: array<nat>) returns (s: string)
    requires AreDigits(digits[..])
    ensures s == prefix + Encoded(digits[..])
  {
    s := prefix;
    for k := 0 to digits.Length
      invariant s == prefix + Encoded(digits[..k])
    {
      assert digits[..k + 1] == digits[..k] + [digits[k]];
      s := s + [CROCKFORD[digits[k]]];
    }
    assert digits[..digits.Length] == digits[..];
  }

  // ---- order ----

  /** The order of strings of equal length: the first difference decides. */
  predicate Less(a: string, b: string)
    requires |a| == |b|
  {
    exists k :: 0 <= k < |a| && a[..k] == b[..k] && a[k] < b[k]
  }

  predicate DigitsLess(a: seq<nat>, b: seq<nat>)
    requires |a| == |b|
  {
    exists k :: 0 <= k < |a| && a[..k] == b[..k] && a[k] < b[k]
  }

  lemma NextSymbol(i: nat)
    requires i < 31
    ensures CROCKFORD[i] < CROCKFORD[i + 1]
  {
  }

  lemma {:induction false} SymbolsClimb(i: nat, j: nat)
    requires i < j < 32
    ensures CROCKFORD[i] < CROCKFORD[j]
    decreases j - i
  {
    NextSymbol(i);
    if i + 1 < j {
      SymbolsClimb(i + 1, j);
    }
  }

  lemma AlphabetClimbs(i: nat, j: nat)
    requires i < 32 && j < 32
    ensures CROCKFORD[i] < CROCKFORD[j] <==> i < j
    ensures CROCKFORD[i] == CROCKFORD[j] <==> i == j
  {
    if i < j {
      SymbolsClimb(i, j);
    } else if j < i {
      SymbolsClimb(j, i);
    }
  }

  lemma EncodedOrder(a: seq<nat>, b: seq<nat>)
    requires |a| == |b| && AreDigits(a) && AreDigits(b)
    ensures Less(Encoded(a), Encoded(b)) <==> DigitsLess(a, b)
  {
    forall k | 0 <= k < |a|
      ensures Encoded(a)[k] < Encoded(b)[k] <==> a[k] < b[k]
      ensures Encoded(a)[k] == Encoded(b)[k] <==> a[k] == b[k]
    {
      AlphabetClimbs(a[k], b[k]);
    }
    forall k | 0 <= k < |a|
      ensures Encoded(a)[..k] == Encoded(b)[..k] <==> a[..k] == b[..k]
    {
      SamePrefix(a, b, k);
    }
  }

  lemma SamePrefix(a: seq<nat>, b: seq<nat>, k: nat)
    requires |a| == |b| && AreDigits(a) && AreDigits(b) && k <= |a|
    ensures Encoded(a)[..k] == Encoded(b)[..k] <==> a[..k] == b[..k]
  {
    forall i | 0 <= i < k
      ensures Encoded(a)[i] == Encoded(b)[i] <==> a[i] == b[i]
    {
      AlphabetClimbs(a[i], b[i]);
    }
    assert Encoded(a)[..k] == Encoded(b)[..k] <==> forall i :: 0 <= i < k ==> Encoded(a)[..k][i] == Encoded(b)[..k][i];
    assert a[..k] == b[..k] <==> forall i :: 0 <= i < k ==> a[..k][i] == b[..k][i];
  }

  /** Two numbers compare by their leading parts first and then by their last digits. */
  lemma LastDigitDecides(x: nat, y: nat, d: nat, e: nat)
    requires d < 32 && e < 32
    ensures x * 32 + d < y * 32 + e <==> x < y || (x == y && d < e)
    ensures x * 32 + d == y * 32 + e <==> x == y && d == e
  {
  }

  lemma LessGoesOn(a: seq<nat>, b: seq<nat>)
    requires |a| == |b| > 0
    ensures DigitsLess(a[..|a| - 1], b[..|a| - 1]) ==> DigitsLess(a, b)
    ensures a[..|a| - 1] == b[..|a| - 1] && a[|a| - 1] < b[|a| - 1] ==> DigitsLess(a, b)
  {
    var n := |a| - 1;
    if DigitsLess(a[..n], b[..n]) {
      var k :| 0 <= k < n && a[..n][..k] == b[..n][..k] && a[..n][k] < b[..n][k];
      assert a[..k] == a[..n][..k] && b[..k] == b[..n][..k];
    }
  }

  lemma {:induction false} ValueOrder(a: seq<nat>, b: seq<nat>)
    requires |a| == |b| && AreDigits(a) && AreDigits(b)
    ensures DigitsLess(a, b) <==> Value(a) < Value(b)
    ensures Value(a) == Value(b) <==> a == b
  {
    if a != [] {
      var n := |a| - 1;
      ValueOrder(a[..n], b[..n]);
      assert a == a[..n] + [a[n]] && b == b[..n] + [b[n]];
      LastDigitDecides(Value(a[..n]), Value(b[..n]), a[n], b[n]);
      LessGoesOn(a, b);
      if !DigitsLess(a[..n], b[..n]) && (a[..n] == b[..n] ==> a[n] >= b[n]) {
        NotLessAtLast(a, b);
      }
    }
  }

  lemma NotLessAtLast(a: seq<nat>, b: seq<nat>)
    requires |a| == |b| > 0
    requires !DigitsLess(a[..|a| - 1], b[..|a| - 1])
    requires a[..|a| - 1] == b[..|a| - 1] ==> a[|a| - 1] >= b[|a| - 1]
    ensures !DigitsLess(a, b)
  {
    var n := |a| - 1;
    forall k | 0 <= k < |a| && a[..k] == b[..k]
      ensures a[k] >= b[k]
    {
      if k < n {
        assert a[..n][..k] == a[..k] && b[..n][..k] == b[..k];
        assert !(a[..n][..k] == b[..n][..k] && a[..n][k] < b[..n][k]);
      }
    }
  }

  lemma {:induction false} ValueIsBounded(ds: seq<nat>)
    requires AreDigits(ds)
    ensures Value(ds) < Pow32(|ds|)
    ensures Value(ds) == Pow32(|ds|) - 1 <==> AllHighest(ds)
  {
    if ds != [] {
      ValueIsBounded(ds[..|ds| - 1]);
      assert ds == ds[..|ds| - 1] + [ds[|ds| - 1]];
    }
  }

  lemma {:induction false} IncrementIsPlusOne(ds: seq<nat>)
    requires AreDigits(ds)
    ensures Value(Incremented(ds)) == if AllHighest(ds) then 0 else Value(ds) + 1
  {
    if ds != [] {
      IncrementIsPlusOne(ds[..|ds| - 1]);
      assert ds == ds[..|ds| - 1] + [ds[|ds| - 1]];
      assert Incremented(ds)[..|ds| - 1] == if ds[|ds| - 1] < 31 then ds[..|ds| - 1] else Incremented(ds[..|ds| - 1]);
    }
  }

  lemma MultiplesApart(p: nat, q: nat, m: nat)
    requires p < q
    ensures p * m + m <= q * m
  {
    assert q * m == p * m + m + (q - p - 1) * m;
  }

  lemma Divides(t: nat, m: nat)
    requires m > 0
    ensures t == (t / m) * m + t % m && t % m < m
  {
  }

  lemma RemainderIs(t: nat, q: nat, m: nat, r: nat)
    requires t == q * m + r && r < m
    ensures t % m == r
  {
    Divides(t, m);
    if t / m < q {
      MultiplesApart(t / m, q, m);
    } else if t / m > q {
      MultiplesApart(q, t / m, m);
    }
  }

  /** The remainder by 32 times `m`, one digit at a time. */
  lemma RemainderByDigit(t: nat, m: nat)
    requires m > 0
    ensures t % (32 * m) == ((t / 32) % m) * 32 + t % 32
  {
    var q, r := (t / 32) / m, (t / 32) % m;
    Divides(t / 32, m);
    Reordered(t, q, m, r);
    RemainderIs(t, q, 32 * m, r * 32 + t % 32);
  }

  lemma Reordered(t: nat, q: nat, m: nat, r: nat)
    requires t / 32 == q * m + r && r < m
    ensures t == q * (32 * m) + (r * 32 + t % 32) && r * 32 + t % 32 < 32 * m
  {
  }

  lemma {:induction false} PowersArePositive(n: nat)
    ensures Pow32(n) > 0
  {
    if n > 0 {
      PowersArePositive(n - 1);
    }
  }

  lemma {:induction false} RemainderOfLowDigits(t: nat, n: nat)
    ensures Pow32(n) > 0 && Value(LowDigits(t, n)) == t % Pow32(n)
  {
    PowersArePositive(n);
    if n > 0 {
      RemainderOfLowDigits(t / 32, n - 1);
      assert LowDigits(t, n)[..n - 1] == LowDigits(t / 32, n - 1);
      RemainderByDigit(t, Pow32(n - 1));
    }
  }

  /** Digits beyond the `n` lowest are lost: the number comes back modulo 32 to the `n`. */
  lemma {:induction false} ValueOfLowDigits(t: nat, n: nat)
    ensures Pow32(n) > 0 && Value(LowDigits(t, n)) == t % Pow32(n)
    ensures t < Pow32(n) ==> Value(LowDigits(t, n)) == t
  {
    RemainderOfLowDigits(t, n);
    if t < Pow32(n) {
      RemainderIs(t, 0, Pow32(n), t);
    }
  }

  lemma {:induction false} ValueAppend(a: seq<nat>, b: seq<nat>)
    ensures Value(a + b) == Value(a) * Pow32(|b|) + Value(b)
    decreases |b|
  {
    if b == [] {
      assert a + b == a;
    } else {
      var b0 := b[..|b| - 1];
      ValueAppend(a, b0);
      assert (a + b)[..|a + b| - 1] == a + b0;
      assert Value(a) * Pow32(|b|) == Value(a) * Pow32(|b0|) * 32;
    }
  }
}
