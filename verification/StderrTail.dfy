/**
 A tail of a process's standard error: the last bytes of a UTF-8 stream, decoded without cut runes, and its
 lines as they complete.
 */
module StderrTail {
  import opened Wrappers

  // ---- UTF-8, RFC 3629 section 4 ----

  type Byte = bv8

  predicate IsContinuation(b: Byte) {
    b & 0xc0 == 0x80
  }

  /** The well-formed encodings of one character. */
  predicate IsRune(r: seq<Byte>) {
    || (|r| == 1 && r[0] < 0x80)
    || (|r| == 2 && 0xc2 <= r[0] <= 0xdf && IsContinuation(r[1]))
    || (|r| == 3 && IsContinuation(r[1]) && IsContinuation(r[2])
        && ((r[0] == 0xe0 && r[1] >= 0xa0) || (r[0] == 0xed && r[1] <= 0x9f)
            || 0xe1 <= r[0] <= 0xec || 0xee <= r[0] <= 0xef))
    || (|r| == 4 && IsContinuation(r[1]) && IsContinuation(r[2]) && IsContinuation(r[3])
        && ((r[0] == 0xf0 && r[1] >= 0x90) || 0xf1 <= r[0] <= 0xf3 || (r[0] == 0xf4 && r[1] <= 0x8f)))
  }

  type Rune = r: seq<Byte> | IsRune(r) witness [0x41 as Byte]

  const NEWLINE: Rune := [0x0a as Byte]

  function Bytes(text: seq<Rune>): seq<Byte> {
    if text == [] then [] else text[0] + Bytes(text[1..])
  }

  // ---- the range that is decoded ----

  function SkipContinuations(buf: seq<Byte>, start: nat): (s: nat)
    requires start <= |buf|
    ensures start <= s <= |buf|
    decreases |buf| - start
  {
    if start < |buf| && IsContinuation(buf[start]) then SkipContinuations(buf, start + 1) else start
  }

  /** How many bytes the rune that starts with this byte takes. */
  function Needed(b: Byte): nat {
    if b < 0x80 then 1 else if b & 0xe0 == 0xc0 then 2 else if b & 0xf0 == 0xe0 then 3 else 4
  }

  /** Walking back over at most four bytes to the last lead byte: cut there when its rune is incomplete. */
  function CutAt(buf: seq<Byte>, start: nat, i: int): (end: nat)
    requires start <= |buf| && start - 1 <= i < |buf|
    ensures start <= end <= |buf|
    decreases i - start + 1
  {
    if i < start || |buf| - i > 4 then |buf|
    else if IsContinuation(buf[i]) then CutAt(buf, start, i - 1)
    else if Needed(buf[i]) > |buf| - i then i
    else |buf|
  }

  /** The bytes handed to the decoder. */
  function Decodable(buf: seq<Byte>): seq<Byte> {
    var start := SkipContinuations(buf, 0);
    buf[start..CutAt(buf, start, |buf| - 1)]
  }

  method DecodeTail(buf: seq<Byte>) returns (bytes: seq<Byte>)
    ensures bytes == Decodable(buf)
  {
    var start := 0;
    while start < |buf| && buf[start] & 0xc0 == 0x80
      invariant start <= |buf|
      invariant SkipContinuations(buf, start) == SkipContinuations(buf, 0)
    {
      start := start + 1;
    }
    var end := |buf|;
    var i := end - 1;
    while i >= start && end - i <= 4
      invariant start - 1 <= i < |buf| && end == |buf|
      invariant CutAt(buf, start, i) == CutAt(buf, start, |buf| - 1)
    {
      var b := buf[i];
      if b & 0xc0 == 0x80 {
        i := i - 1;
        continue;
      }
      var needed := if b < 0x80 then 1 else if b & 0xe0 == 0xc0 then 2 else if b & 0xf0 == 0xe0 then 3 else 4;
      if needed > end - i {
        end := i;
      }
      break;
    }
    bytes := buf[start..end];
  }

  // ---- lines ----

  function FirstNewline(text: seq<Rune>): (i: int)
    ensures -1 <= i < |text|
    ensures i != -1 ==> text[i] == NEWLINE && NEWLINE !in text[..i]
    ensures i == -1 ==> NEWLINE !in text
  {
    if text == [] then -1
    else if text[0] == NEWLINE then 0
    else
      var i := FirstNewline(text[1..]);
      if i == -1 then -1 else i + 1
  }

  /** The lines that are complete. */
  function Lines(text: seq<Rune>): seq<seq<Rune>> {
    var i := FirstNewline(text);
    if i == -1 then [] else [text[..i]] + Lines(text[i + 1..])
  }

  /** What follows the last line feed. */
  function Rest(text: seq<Rune>): seq<Rune> {
    var i := FirstNewline(text);
    if i == -1 then text else Rest(text[i + 1..])
  }

  function LastBytes(bytes: seq<Byte>, max: nat): seq<Byte> {
    if |bytes| > max then bytes[|bytes| - max..] else bytes
  }

  /** Every line emitted for a stream that was finalized, if at all, after its first `closedAt` runes. */
  function Emitted(text: seq<Rune>, finalized: bool, closedAt: nat): seq<seq<Rune>>
    requires closedAt <= |text|
  {
    if !finalized then Lines(text)
    else
      var before := text[..closedAt];
      Lines(before) + (if Rest(before) != [] then [Rest(before)] else []) + Lines(text[closedAt..])
  }

  function Unterminated(text: seq<Rune>, finalized: bool, closedAt: nat): seq<Rune>
    requires closedAt <= |text|
  {
    if !finalized then Rest(text) else Rest(text[closedAt..])
  }

  // ---- the tail itself ----

  class Tail {
    const maxBytes: nat
    var buffered: seq<Byte>
    var pendingLine: seq<Rune>
    var finalized: bool
    // what a listener present from the start has been given
    var heard: seq<seq<Rune>>
    ghost var whole: seq<Rune>
    ghost var closedAt: nat

    ghost predicate Valid()
      reads this
    {
      && closedAt <= |whole|
      && buffered == LastBytes(Bytes(whole), maxBytes)
      && heard == Emitted(whole, finalized, closedAt)
      && pendingLine == Unterminated(whole, finalized, closedAt)
    }

    constructor (maxBytes: nat)
      ensures Valid() && this.maxBytes == maxBytes && whole == [] && heard == [] && !finalized
    {
      this.maxBytes := maxBytes;
      buffered, pendingLine, finalized, heard := [], [], false, [];
      whole, closedAt := [], 0;
    }

    method Write(text: seq<Rune>)
      requires Valid()
      modifies this`buffered, this`pendingLine, this`heard, this`whole
      ensures Valid() && whole == old(whole) + text && closedAt == old(closedAt) && finalized == old(finalized)
    {
      WriteBytes(text);
      WriteLines(text);
      whole := whole + text;
    }

    method WriteBytes(text: seq<Rune>)
      requires buffered == LastBytes(Bytes(whole), maxBytes)
      modifies this`buffered
      ensures buffered == LastBytes(Bytes(whole + text), maxBytes)
    {
      AppendedBytes(whole, text, maxBytes);
      var next := buffered + Bytes(text);
      buffered := if |next| > maxBytes then next[|next| - maxBytes..] else next;
    }

    method WriteLines(text: seq<Rune>)
      requires closedAt <= |whole|
      requires heard == Emitted(whole, finalized, closedAt)
      requires pendingLine == Unterminated(whole, finalized, closedAt)
      modifies this`pendingLine, this`heard
      ensures heard == Emitted(whole + text, finalized, closedAt)
      ensures pendingLine == Unterminated(whole + text, finalized, closedAt)
    {
      assert heard + Lines(pendingLine + text) == Emitted(whole + text, finalized, closedAt)
          && Rest(pendingLine + text) == Unterminated(whole + text, finalized, closedAt)
      by {
        AppendedLines(whole, text, finalized, closedAt);
      }
      pendingLine := pendingLine + text;
      TakeLines();
    }

    /** Emits every complete line of `pendingLine` and keeps the rest. */
    method TakeLines()
      modifies this`pendingLine, this`heard
      ensures heard == old(heard) + Lines(old(pendingLine)) && pendingLine == Rest(old(pendingLine))
    {
      while true
        invariant heard + Lines(pendingLine) == old(heard) + Lines(old(pendingLine))
        invariant Rest(pendingLine) == Rest(old(pendingLine))
        decreases |pendingLine|
      {
        var at := FirstNewline(pendingLine);
        if at == -1 {
          break;
        }
        ghost var line, rest := pendingLine[..at], Lines(pendingLine[at + 1..]);
        assert heard + ([line] + rest) == (heard + [line]) + rest;
        heard := heard + [pendingLine[..at]];
        pendingLine := pendingLine[at + 1..];
      }
    }

    method Snapshot() returns (bytes: seq<Byte>)
      ensures bytes == Decodable(buffered)
    {
      bytes := DecodeTail(buffered);
    }

    method Finalize()
      requires Valid()
      modifies this
      ensures Valid() && whole == old(whole) && finalized
      ensures closedAt == if old(finalized) then old(closedAt) else |whole|
    {
      if finalized {
        return;
      }
      finalized := true;
      closedAt := |whole|;
      assert whole[..|whole|] == whole && whole[|whole|..] == [];
      if pendingLine != [] {
        heard := heard + [pendingLine];
        pendingLine := [];
      }
      assert heard == Emitted(whole, true, closedAt);
    }
  }

  // ---- appending ----

  lemma BytesCons(r: Rune, text: seq<Rune>)
    ensures Bytes([r] + text) == r + Bytes(text)
  {
    assert ([r] + text)[1..] == text;
  }

  lemma {:induction false} BytesOfBoth(a: seq<Rune>, b: seq<Rune>)
    ensures Bytes(a + b) == Bytes(a) + Bytes(b)
  {
    if a == [] {
      assert a + b == b;
    } else {
      BytesOfBoth(a[1..], b);
      assert a == [a[0]] + a[1..];
      Reassociated([a[0]], a[1..], b);
      BytesCons(a[0], a[1..]);
      BytesCons(a[0], a[1..] + b);
      Reassociated<Byte>(a[0], Bytes(a[1..]), Bytes(b));
    }
  }

  lemma LastOfBoth(x: seq<Byte>, y: seq<Byte>, max: nat)
    ensures LastBytes(LastBytes(x, max) + y, max) == LastBytes(x + y, max)
  {
    if |x| > max {
      var kept := x[|x| - max..];
      var drop := |x| - max;
      assert kept + y == (x + y)[drop..];
      var d := |kept + y| - max;
      assert (x + y)[drop..][d..] == (x + y)[drop + d..];
    }
  }

  lemma AppendedBytes(a: seq<Rune>, b: seq<Rune>, max: nat)
    ensures LastBytes(LastBytes(Bytes(a), max) + Bytes(b), max) == LastBytes(Bytes(a + b), max)
  {
    BytesOfBoth(a, b);
    LastOfBoth(Bytes(a), Bytes(b), max);
  }

  /** A line, its line feed and what follows. */
  lemma LinesCons(line: seq<Rune>, after: seq<Rune>)
    requires NEWLINE !in line
    ensures Lines(line + ([NEWLINE] + after)) == [line] + Lines(after)
    ensures Rest(line + ([NEWLINE] + after)) == Rest(after)
  {
    var text := line + ([NEWLINE] + after);
    FirstAfter(line, after);
    assert text[..|line|] == line && text[|line| + 1..] == after;
  }

  lemma {:induction false} FirstAfter(line: seq<Rune>, after: seq<Rune>)
    requires NEWLINE !in line
    ensures FirstNewline(line + ([NEWLINE] + after)) == |line|
  {
    if line == [] {
      assert line + ([NEWLINE] + after) == [NEWLINE] + after;
    } else {
      assert (line + ([NEWLINE] + after))[1..] == line[1..] + ([NEWLINE] + after);
      FirstAfter(line[1..], after);
    }
  }

  /** A text with a line feed, taken apart at the first one. */
  lemma SplitsAtFirst(text: seq<Rune>)
    requires FirstNewline(text) != -1
    ensures var i := FirstNewline(text);
            NEWLINE !in text[..i] && text == text[..i] + ([NEWLINE] + text[i + 1..])
  {
    SplitAt(text, FirstNewline(text));
  }

  lemma SplitAt<T>(xs: seq<T>, i: nat)
    requires i < |xs|
    ensures xs == xs[..i] + ([xs[i]] + xs[i + 1..])
  {
  }

  lemma SplitsWithMore(a: seq<Rune>, b: seq<Rune>)
    requires FirstNewline(a) != -1
    ensures var i := FirstNewline(a);
            NEWLINE !in a[..i] && a + b == a[..i] + ([NEWLINE] + (a[i + 1..] + b))
  {
    var i := FirstNewline(a);
    SplitsAtFirst(a);
    Reassociated(a[..i], [NEWLINE] + a[i + 1..], b);
    Reassociated([NEWLINE], a[i + 1..], b);
  }

  /** One line on: both texts lose the same line. */
  lemma LinesOfOneMore(a: seq<Rune>, b: seq<Rune>)
    requires FirstNewline(a) != -1
    ensures var after := a[FirstNewline(a) + 1..];
            var line := a[..FirstNewline(a)];
            && Lines(a) == [line] + Lines(after) && Rest(a) == Rest(after)
            && Lines(a + b) == [line] + Lines(after + b) && Rest(a + b) == Rest(after + b)
  {
    SplitsWithMore(a, b);
    LinesCons(a[..FirstNewline(a)], a[FirstNewline(a) + 1..] + b);
  }

  lemma {:induction false} LinesOfBoth(a: seq<Rune>, b: seq<Rune>)
    ensures Lines(a + b) == Lines(a) + Lines(Rest(a) + b)
    decreases |a|
  {
    if FirstNewline(a) != -1 {
      var line, after := a[..FirstNewline(a)], a[FirstNewline(a) + 1..];
      LinesOfOneMore(a, b);
      LinesOfBoth(after, b);
      Reassociated([line], Lines(after), Lines(Rest(after) + b));
    }
  }

  lemma {:induction false} RestOfBoth(a: seq<Rune>, b: seq<Rune>)
    ensures Rest(a + b) == Rest(Rest(a) + b)
    decreases |a|
  {
    if FirstNewline(a) != -1 {
      LinesOfOneMore(a, b);
      RestOfBoth(a[FirstNewline(a) + 1..], b);
    }
  }

  lemma AppendedLines(whole: seq<Rune>, text: seq<Rune>, finalized: bool, closedAt: nat)
    requires closedAt <= |whole|
    ensures Emitted(whole + text, finalized, closedAt) ==
            Emitted(whole, finalized, closedAt) + Lines(Unterminated(whole, finalized, closedAt) + text)
    ensures Unterminated(whole + text, finalized, closedAt) == Rest(Unterminated(whole, finalized, closedAt) + text)
  {
    if finalized {
      assert (whole + text)[..closedAt] == whole[..closedAt];
      assert (whole + text)[closedAt..] == whole[closedAt..] + text;
      LinesOfBoth(whole[closedAt..], text);
      RestOfBoth(whole[closedAt..], text);
    } else {
      LinesOfBoth(whole, text);
      RestOfBoth(whole, text);
    }
  }
}
