/**
 The tail is exact: no cut rune is ever decoded, no whole one lost, and the lines are the stream's lines.
 */
module StderrTailLaws {
  import opened Wrappers
  import opened StderrTail

  // ---- the bytes of one rune ----

  lemma RuneShape(r: Rune)
    ensures 1 <= |r| <= 4 && !IsContinuation(r[0]) && Needed(r[0]) == |r|
    ensures forall k :: 1 <= k < |r| ==> IsContinuation(r[k])
  {
  }

  predicate AllContinuations(p: seq<Byte>) {
    forall k :: 0 <= k < |p| ==> IsContinuation(p[k])
  }

  /** The beginning of a rune that is not all there, possibly nothing of it. */
  ghost predicate IsCutRune(q: seq<Byte>) {
    exists r: Rune :: |q| < |r| && q == r[..|q|]
  }

  // ---- what decoding does to the two ends ----

  lemma {:induction false} SkipsExactly(p: seq<Byte>, rest: seq<Byte>, k: nat)
    requires AllContinuations(p) && k <= |p| && (rest == [] || !IsContinuation(rest[0]))
    ensures SkipContinuations(p + rest, k) == |p|
    decreases |p| - k
  {
    if k < |p| {
      assert (p + rest)[k] == p[k];
      SkipsExactly(p, rest, k + 1);
    }
  }

  lemma {:induction false} WalksBack(buf: seq<Byte>, start: nat, k: nat, i: nat)
    requires start <= k <= i < |buf| && |buf| - k <= 4
    requires forall j :: k < j <= i ==> IsContinuation(buf[j])
    ensures CutAt(buf, start, i) == CutAt(buf, start, k)
    decreases i - k
  {
    if k < i {
      WalksBack(buf, start, k, i - 1);
    }
  }

  lemma CutRuneShape(q: seq<Byte>)
    requires IsCutRune(q) && q != []
    ensures |q| < 4 && !IsContinuation(q[0]) && Needed(q[0]) > |q|
    ensures forall j :: 1 <= j < |q| ==> IsContinuation(q[j])
  {
    var r: Rune :| |q| < |r| && q == r[..|q|];
    RuneShape(r);
  }

  /** A trailing piece of a rune is cut off. */
  lemma CutsTheLast(p: seq<Byte>, m: seq<Byte>, q: seq<Byte>)
    requires IsCutRune(q) && q != []
    ensures CutAt(p + m + q, |p|, |p + m + q| - 1) == |p + m|
  {
    var buf := p + m + q;
    var k := |p + m|;
    CutRuneShape(q);
    assert forall j :: 0 <= j < |q| ==> buf[k + j] == q[j];
    assert forall j :: k < j < |buf| ==> buf[j] == q[j - k];
    WalksBack(buf, |p|, k, |buf| - 1);
  }

  /** A last rune that is all there is kept. */
  lemma KeepsTheLast(p: seq<Byte>, m: seq<Byte>, last: Rune)
    ensures CutAt(p + m + last, |p|, |p + m + last| - 1) == |p + m + last|
  {
    var buf := p + m + last;
    var k := |p + m|;
    RuneShape(last);
    assert buf[k] == last[0];
    assert forall j :: k < j < |buf| ==> buf[j] == last[j - k];
    WalksBack(buf, |p|, k, |buf| - 1);
  }

  lemma {:induction false} BytesSnoc(rs: seq<Rune>)
    requires rs != []
    ensures Bytes(rs) == Bytes(rs[..|rs| - 1]) + rs[|rs| - 1]
  {
    BytesOfBoth(rs[..|rs| - 1], [rs[|rs| - 1]]);
    assert rs[..|rs| - 1] + [rs[|rs| - 1]] == rs;
    assert Bytes([rs[|rs| - 1]]) == rs[|rs| - 1] + Bytes([]);
  }

  lemma StartsWithLead(rs: seq<Rune>, q: seq<Byte>)
    requires IsCutRune(q)
    ensures Bytes(rs) + q == [] || !IsContinuation((Bytes(rs) + q)[0])
  {
    if rs != [] {
      RuneShape(rs[0]);
    } else if q != [] {
      CutRuneShape(q);
    }
  }

  lemma EndOfWholeRunes(p: seq<Byte>, rs: seq<Rune>)
    ensures var buf := p + Bytes(rs); CutAt(buf, |p|, |buf| - 1) == |buf|
  {
    if rs != [] {
      var most, last := Bytes(rs[..|rs| - 1]), rs[|rs| - 1];
      BytesSnoc(rs);
      Reassociated<Byte>(p, most, last);
      KeepsTheLast(p, most, last);
    }
  }

  lemma EndOfWindow(p: seq<Byte>, rs: seq<Rune>, q: seq<Byte>)
    requires IsCutRune(q)
    ensures var buf := p + Bytes(rs) + q; CutAt(buf, |p|, |buf| - 1) == |p + Bytes(rs)|
  {
    if q != [] {
      CutsTheLast(p, Bytes(rs), q);
    } else {
      assert p + Bytes(rs) + q == p + Bytes(rs);
      EndOfWholeRunes(p, rs);
    }
  }

  lemma StartOfWindow(p: seq<Byte>, rs: seq<Rune>, q: seq<Byte>)
    requires AllContinuations(p) && IsCutRune(q)
    ensures SkipContinuations(p + Bytes(rs) + q, 0) == |p|
  {
    assert p + Bytes(rs) + q == p + (Bytes(rs) + q);
    StartsWithLead(rs, q);
    SkipsExactly(p, Bytes(rs) + q, 0);
  }

  /** Stray continuations, whole runes, a piece of a rune: only the whole runes are decoded. */
  lemma DecodesTheMiddle(p: seq<Byte>, rs: seq<Rune>, q: seq<Byte>)
    requires AllContinuations(p) && IsCutRune(q)
    ensures Decodable(p + Bytes(rs) + q) == Bytes(rs)
  {
    StartOfWindow(p, rs, q);
    EndOfWindow(p, rs, q);
    assert (p + Bytes(rs) + q)[|p|..|p + Bytes(rs)|] == Bytes(rs);
  }

  // ---- cutting a window out of a stream ----

  /** The runes that lie wholly between byte `lo` and byte `hi` of the stream. */
  function Inside(text: seq<Rune>, lo: int, hi: int): seq<Rune> {
    if text == [] then []
    else
      var n := |text[0]|;
      var later := Inside(text[1..], lo - n, hi - n);
      if lo <= 0 && n <= hi then [text[0]] + later else later
  }

  lemma {:induction false} NothingInside(text: seq<Rune>, lo: int, hi: int)
    requires hi <= 0
    ensures Inside(text, lo, hi) == []
  {
    if text != [] {
      RuneShape(text[0]);
      NothingInside(text[1..], lo - |text[0]|, hi - |text[0]|);
    }
  }

  function Clamped(lo: int): nat {
    if lo < 0 then 0 else lo
  }

  ghost predicate SplitsAs(w: seq<Byte>, p: seq<Byte>, rs: seq<Rune>, q: seq<Byte>) {
    AllContinuations(p) && IsCutRune(q) && w == p + Bytes(rs) + q
  }

  lemma NothingIsACutRune()
    ensures IsCutRune([])
  {
    assert [] == NEWLINE[..0];
  }

  /** A window that ends inside its first rune. */
  lemma WithinOneRune(r: Rune, lo: nat, hi: nat) returns (p: seq<Byte>, q: seq<Byte>)
    requires lo <= hi < |r|
    ensures SplitsAs(r[lo..hi], p, [], q) && (lo == 0 ==> p == [])
  {
    RuneShape(r);
    NothingIsACutRune();
    if lo == 0 {
      p, q := [], r[..hi];
      assert q == r[..|q|];
    } else {
      p, q := r[lo..hi], [];
    }
  }

  lemma WholeFirstRune(r: Rune, w: seq<Byte>, rs: seq<Rune>, q: seq<Byte>)
    requires SplitsAs(w, [], rs, q)
    ensures SplitsAs(r + w, [], [r] + rs, q)
  {
    assert [] + Bytes(rs) + q == Bytes(rs) + q;
    BytesCons(r, rs);
    Reassociated<Byte>(r, Bytes(rs), q);
    assert [] + (r + Bytes(rs)) + q == r + Bytes(rs) + q;
  }

  lemma CutFirstRune(r: Rune, from: nat, w: seq<Byte>, rs: seq<Rune>, q: seq<Byte>)
    requires 0 < from < |r| && SplitsAs(w, [], rs, q)
    ensures SplitsAs(r[from..] + w, r[from..], rs, q)
  {
    RuneShape(r);
    assert [] + Bytes(rs) + q == Bytes(rs) + q;
    Reassociated<Byte>(r[from..], Bytes(rs), q);
  }

  lemma InsideOfMore(text: seq<Rune>, lo: int, hi: int)
    requires text != [] && |text[0]| <= hi
    ensures var n := |text[0]|;
            Inside(text, lo, hi) == if lo <= 0 then [text[0]] + Inside(text[1..], lo - n, hi - n)
                                    else Inside(text[1..], lo - n, hi - n)
  {
  }

  lemma WindowPastFirst(r: seq<Byte>, more: seq<Byte>, lo: nat, hi: nat)
    requires |r| <= lo <= hi <= |r + more|
    ensures (r + more)[lo..hi] == more[lo - |r|..hi - |r|]
  {
  }

  /** The window of a stream between two byte offsets, the first of which may lie before the stream. */
  function Window(text: seq<Rune>, lo: int, hi: nat): seq<Byte>
    requires Clamped(lo) <= hi <= |Bytes(text)|
  {
    Bytes(text)[Clamped(lo)..hi]
  }

  lemma WindowOverFirst(text: seq<Rune>, lo: int, hi: nat)
    requires text != [] && Clamped(lo) < |text[0]| <= hi <= |Bytes(text)|
    ensures hi - |text[0]| <= |Bytes(text[1..])|
    ensures Window(text, lo, hi) == text[0][Clamped(lo)..] + Window(text[1..], lo - |text[0]|, hi - |text[0]|)
  {
    SliceOver(text[0], Bytes(text[1..]), Clamped(lo), hi);
  }

  lemma SliceOver(r: seq<Byte>, more: seq<Byte>, lo: nat, hi: nat)
    requires lo <= |r| <= hi <= |r + more|
    ensures hi - |r| <= |more| && (r + more)[lo..hi] == r[lo..] + more[0..hi - |r|]
  {
  }

  lemma SameSplit(w: seq<Byte>, v: seq<Byte>, p: seq<Byte>, rs: seq<Rune>, ss: seq<Rune>, q: seq<Byte>)
    requires w == v && rs == ss && SplitsAs(v, p, ss, q)
    ensures SplitsAs(w, p, rs, q)
  {
  }

  lemma WindowFromStart(text: seq<Rune>, lo: int, hi: nat, rest: seq<Byte>, rs: seq<Rune>, q: seq<Byte>)
    requires text != [] && lo <= 0 && 0 < |text[0]| <= hi <= |Bytes(text)|
    requires rest == Window(text[1..], lo - |text[0]|, hi - |text[0]|)
    requires rs == Inside(text[1..], lo - |text[0]|, hi - |text[0]|) && SplitsAs(rest, [], rs, q)
    ensures SplitsAs(Window(text, lo, hi), [], Inside(text, lo, hi), q)
  {
    WindowOverFirst(text, lo, hi);
    InsideOfMore(text, lo, hi);
    assert text[0][0..] == text[0];
    WholeFirstRune(text[0], rest, rs, q);
    SameSplit(Window(text, lo, hi), text[0] + rest, [], Inside(text, lo, hi), [text[0]] + rs, q);
  }

  lemma WindowWithinFirst(text: seq<Rune>, lo: int, hi: nat, rest: seq<Byte>, rs: seq<Rune>, q: seq<Byte>)
    requires text != [] && 0 < lo < |text[0]| <= hi <= |Bytes(text)|
    requires rest == Window(text[1..], lo - |text[0]|, hi - |text[0]|)
    requires rs == Inside(text[1..], lo - |text[0]|, hi - |text[0]|) && SplitsAs(rest, [], rs, q)
    ensures SplitsAs(Window(text, lo, hi), text[0][lo..], Inside(text, lo, hi), q)
  {
    WindowOverFirst(text, lo, hi);
    InsideOfMore(text, lo, hi);
    CutFirstRune(text[0], lo, rest, rs, q);
    SameSplit(Window(text, lo, hi), text[0][lo..] + rest, text[0][lo..], Inside(text, lo, hi), rs, q);
  }

  lemma WindowBehindFirst(text: seq<Rune>, lo: int, hi: nat)
    requires text != [] && 0 < |text[0]| <= lo <= hi <= |Bytes(text)|
    ensures hi - |text[0]| <= |Bytes(text[1..])|
    ensures Window(text, lo, hi) == Window(text[1..], lo - |text[0]|, hi - |text[0]|)
  {
    WindowPastFirst(text[0], Bytes(text[1..]), lo, hi);
  }

  lemma WindowEndsInFirst(text: seq<Rune>, lo: int, hi: nat) returns (p: seq<Byte>, q: seq<Byte>)
    requires text != [] && Clamped(lo) <= hi < |text[0]|
    ensures hi <= |Bytes(text)| && SplitsAs(Window(text, lo, hi), p, Inside(text, lo, hi), q)
    ensures lo <= 0 ==> p == []
  {
    NothingInside(text[1..], lo - |text[0]|, hi - |text[0]|);
    p, q := WithinOneRune(text[0], Clamped(lo), hi);
    assert Window(text, lo, hi) == text[0][Clamped(lo)..hi];
  }

  lemma {:induction false} WindowSplits(text: seq<Rune>, lo: int, hi: nat) returns (p: seq<Byte>, q: seq<Byte>)
    requires Clamped(lo) <= hi <= |Bytes(text)|
    ensures SplitsAs(Window(text, lo, hi), p, Inside(text, lo, hi), q)
    ensures lo <= 0 ==> p == []
    decreases |text|
  {
    if text == [] {
      NothingIsACutRune();
      p, q := [], [];
      assert Window(text, lo, hi) == [] + Bytes([]) + [];
    } else if hi < |text[0]| {
      p, q := WindowEndsInFirst(text, lo, hi);
    } else {
      RuneShape(text[0]);
      var n := |text[0]|;
      p, q := WindowSplits(text[1..], lo - n, hi - n);
      var rest, rs := Window(text[1..], lo - n, hi - n), Inside(text[1..], lo - n, hi - n);
      if lo <= 0 {
        WindowFromStart(text, lo, hi, rest, rs, q);
      } else if lo < n {
        WindowWithinFirst(text, lo, hi, rest, rs, q);
        p := text[0][lo..];
      } else {
        WindowBehindFirst(text, lo, hi);
        InsideOfMore(text, lo, hi);
      }
    }
  }

  /**
   Decoding any window of a well-formed stream gives exactly the runes that lie wholly inside the window:
   a rune cut at either end is hidden, every other one is there.
   */
  lemma DecodingIsExact(text: seq<Rune>, lo: nat, hi: nat)
    requires lo <= hi <= |Bytes(text)|
    ensures Decodable(Bytes(text)[lo..hi]) == Bytes(Inside(text, lo, hi))
  {
    var p, q := WindowSplits(text, lo, hi);
    DecodesTheMiddle(p, Inside(text, lo, hi), q);
  }

  /** The snapshot of a tail that has seen the stream `text`. */
  lemma SnapshotIsExact(text: seq<Rune>, maxBytes: nat)
    ensures var size := |Bytes(text)|;
            Decodable(LastBytes(Bytes(text), maxBytes)) == Bytes(Inside(text, Clamped(size - maxBytes), size))
  {
    var size := |Bytes(text)|;
    var lo := Clamped(size - maxBytes);
    assert Bytes(text)[lo..size] == LastBytes(Bytes(text), maxBytes);
    DecodingIsExact(text, lo, size);
  }

  // ---- lines ----

  /** Every line with its line feed again. */
  function Joined(lines: seq<seq<Rune>>): seq<Rune> {
    if lines == [] then [] else lines[0] + [NEWLINE] + Joined(lines[1..])
  }

  lemma JoinedCons(line: seq<Rune>, lines: seq<seq<Rune>>, rest: seq<Rune>)
    ensures Joined([line] + lines) + rest == line + [NEWLINE] + (Joined(lines) + rest)
  {
    assert ([line] + lines)[1..] == lines;
  }

  lemma {:induction false} NoLineHoldsAnEnd(text: seq<Rune>)
    ensures NEWLINE !in Rest(text) && forall k :: 0 <= k < |Lines(text)| ==> NEWLINE !in Lines(text)[k]
    decreases |text|
  {
    var i := FirstNewline(text);
    if i != -1 {
      NoLineHoldsAnEnd(text[i + 1..]);
    }
  }

  lemma {:induction false} JoiningGivesTheStream(text: seq<Rune>)
    ensures Joined(Lines(text)) + Rest(text) == text
    decreases |text|
  {
    var i := FirstNewline(text);
    if i != -1 {
      var line, after := text[..i], text[i + 1..];
      SplitsAtFirst(text);
      JoiningGivesTheStream(after);
      JoinedCons(line, Lines(after), Rest(after));
      Reassociated(line, [NEWLINE], after);
    } else {
      assert Joined([]) + text == text;
    }
  }

  /** The lines are the stream cut at its line feeds: none holds one, and together with the rest they are it. */
  lemma {:induction false} LinesAreTheStream(text: seq<Rune>)
    ensures Joined(Lines(text)) + Rest(text) == text
    ensures NEWLINE !in Rest(text) && forall k :: 0 <= k < |Lines(text)| ==> NEWLINE !in Lines(text)[k]
  {
    NoLineHoldsAnEnd(text);
    JoiningGivesTheStream(text);
  }

  /** No other way of cutting it into lines does that. */
  lemma {:induction false} LinesAreTheOnlySplit(lines: seq<seq<Rune>>, rest: seq<Rune>)
    requires NEWLINE !in rest && forall k :: 0 <= k < |lines| ==> NEWLINE !in lines[k]
    ensures Lines(Joined(lines) + rest) == lines && Rest(Joined(lines) + rest) == rest
    decreases |lines|
  {
    if lines == [] {
      assert Joined(lines) + rest == rest;
    } else {
      var after := Joined(lines[1..]) + rest;
      LinesAreTheOnlySplit(lines[1..], rest);
      assert lines == [lines[0]] + lines[1..];
      JoinedCons(lines[0], lines[1..], rest);
      Reassociated(lines[0], [NEWLINE], after);
      LinesCons(lines[0], after);
    }
  }

  /**
   A tail finalized in the middle of its stream has emitted the lines so far and any unterminated rest as a line of its
   own; what follows starts a line afresh.
   */
  lemma FinalizedTailEmitsEverything(before: seq<Rune>, after: seq<Rune>)
    ensures Emitted(before + after, true, |before|) ==
            Lines(before) + (if Rest(before) != [] then [Rest(before)] else []) + Lines(after)
    ensures Unterminated(before + after, true, |before|) == Rest(after)
  {
    assert (before + after)[..|before|] == before && (before + after)[|before|..] == after;
  }
}
