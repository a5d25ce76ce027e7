/**
 Reading values off a list of items: what all of them contribute, the last that says something, what occurs first.
 */
module Reading {
  import opened Wrappers

  /** What the items contribute, joined in order. */
  function Collected<S, T>(xs: seq<S>, from: S -> seq<T>): seq<T> {
    if xs == [] then [] else Collected(xs[..|xs| - 1], from) + from(xs[|xs| - 1])
  }

  /** The last value that an item carries. */
  function LastOf<S, T>(xs: seq<S>, from: S -> Option<T>): Option<T> {
    if xs == [] then None else from(xs[|xs| - 1]).OrElse(LastOf(xs[..|xs| - 1], from))
  }

  /** Each value once, where it first occurs. */
  function FirstOccurrences<T(==)>(xs: seq<T>): seq<T> {
    if xs == [] then []
    else
      var last, before := xs[|xs| - 1], xs[..|xs| - 1];
      FirstOccurrences(before) + if last in before then [] else [last]
  }

  function OnlyIf<T>(condition: bool, x: T): seq<T> {
    if condition then [x] else []
  }

  lemma {:induction false} CollectedCons<S, T>(xs: seq<S>, from: S -> seq<T>)
    requires xs != []
    ensures Collected(xs, from) == from(xs[0]) + Collected(xs[1..], from)
  {
    if |xs| > 1 {
      var front, last := xs[..|xs| - 1], xs[|xs| - 1];
      CollectedCons(front, from);
      assert front[1..] == xs[1..][..|xs| - 2];
      Reassociated(from(xs[0]), Collected(front[1..], from), from(last));
    }
  }

  lemma {:induction false} LastOfCons<S, T>(xs: seq<S>, from: S -> Option<T>)
    requires xs != []
    ensures LastOf(xs, from) == LastOf(xs[1..], from).OrElse(from(xs[0]))
  {
    if |xs| > 1 {
      var front := xs[..|xs| - 1];
      LastOfCons(front, from);
      assert front[1..] == xs[1..][..|xs| - 2];
    }
  }

  lemma {:induction false} OccurrencesAreMembers(xs: seq<string>)
    ensures forall x :: x in FirstOccurrences(xs) <==> x in xs
  {
    if xs != [] {
      OccurrencesAreMembers(xs[..|xs| - 1]);
      assert xs == xs[..|xs| - 1] + [xs[|xs| - 1]];
    }
  }

  lemma OneMoreOccurrence(xs: seq<string>, more: seq<string>)
    requires |more| <= 1
    ensures FirstOccurrences(xs + more) == FirstOccurrences(xs) + if more != [] && more[0] !in xs then more else []
  {
    if more == [] {
      assert xs + more == xs;
    } else {
      assert more == [more[0]] && (xs + more)[..|xs|] == xs;
    }
  }

  lemma NoneCollected(xs: seq<string>)
    ensures FirstOccurrences(xs) == [] <==> xs == []
  {
    OccurrencesAreMembers(xs);
    if xs != [] {
      assert xs[0] in FirstOccurrences(xs);
    }
  }
}
