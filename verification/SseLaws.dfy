/**
 Parsing does not depend on how the text arrives in chunks, exactly when CR CR LF does not occur in it.
 */
module SseLaws {
  import opened Wrappers
  import opened Sse

  function Concat(chunks: seq<string>): string {
    if chunks == [] then "" else chunks[0] + Concat(chunks[1..])
  }

  predicate HasCrLf(s: string) {
    exists i :: 0 <= i < |s| - 1 && s[i] == '\r' && s[i + 1] == '\n'
  }

  predicate CrCrLfAt(s: string, i: int) {
    0 <= i < |s| - 2 && s[i] == '\r' && s[i + 1] == '\r' && s[i + 2] == '\n'
  }

  ghost predicate HasCrCrLf(s: string) {
    exists i :: CrCrLfAt(s, i)
  }

  predicate EndsWith(s: string, c: char) { s != "" && s[|s| - 1] == c }

  predicate StartsWith(s: string, c: char) { s != "" && s[0] == c }

  // ---- normalizing ----

  lemma NormalizedCons(c: char, s: string)
    requires !(c == '\r' && StartsWith(s, '\n'))
    ensures Normalized([c] + s) == [c] + Normalized(s)
  {
    assert ([c] + s)[1..] == s;
  }

  lemma NormalizedPair(s: string)
    ensures Normalized("\r\n" + s) == "\n" + Normalized(s)
  {
    assert ("\r\n" + s)[2..] == s;
  }

  lemma {:induction false} NormalizedAppend(a: string, b: string)
    requires !(EndsWith(a, '\r') && StartsWith(b, '\n'))
    ensures Normalized(a + b) == Normalized(a) + Normalized(b)
    decreases |a|
  {
    if a == "" {
      assert a + b == b;
    } else if |a| >= 2 && a[0] == '\r' && a[1] == '\n' {
      assert a == "\r\n" + a[2..];
      NormalizedAppend(a[2..], b);
      NormalizedPair(a[2..]);
      NormalizedPair(a[2..] + b);
      Reassociated("\r\n", a[2..], b);
      Reassociated("\n", Normalized(a[2..]), Normalized(b));
    } else {
      assert a == [a[0]] + a[1..];
      NormalizedAppend(a[1..], b);
      NormalizedCons(a[0], a[1..]);
      NormalizedCons(a[0], a[1..] + b);
      Reassociated([a[0]], a[1..], b);
      Reassociated([a[0]], Normalized(a[1..]), Normalized(b));
    }
  }

  /** A CR that waits at the end of a chunk turns into the LF that follows it. */
  lemma NormalizedJoin(a: string, b: string)
    ensures Normalized(a + "\r") == Normalized(a) + "\r"
    ensures Normalized(a + "\r" + ("\n" + b)) == Normalized(a) + ("\n" + Normalized(b))
  {
    NormalizedAppend(a, "\r");
    assert a + "\r" + ("\n" + b) == a + ("\r\n" + b);
    NormalizedAppend(a, "\r\n" + b);
    assert ("\r\n" + b)[2..] == b;
  }

  lemma {:induction false} NormalizedIdentity(s: string)
    requires !HasCrLf(s)
    ensures Normalized(s) == s
  {
    if |s| >= 2 {
      assert !(s[0] == '\r' && s[0 + 1] == '\n');
      forall i | 0 <= i < |s[1..]| - 1
        ensures !(s[1..][i] == '\r' && s[1..][i + 1] == '\n')
      {
        assert !(s[i + 1] == '\r' && s[i + 1 + 1] == '\n');
      }
      NormalizedIdentity(s[1..]);
    }
  }

  lemma NormalizedHead(s: string)
    requires s != ""
    ensures Normalized(s) != ""
    ensures Normalized(s)[0] == if |s| > 1 && s[0] == '\r' && s[1] == '\n' then '\n' else s[0]
  {
  }

  lemma {:induction false} NormalizedEnd(s: string)
    ensures EndsWith(s, '\r') <==> EndsWith(Normalized(s), '\r')
    decreases |s|
  {
    if |s| >= 2 {
      if s[0] == '\r' && s[1] == '\n' {
        assert s == "\r\n" + s[2..];
        NormalizedEnd(s[2..]);
        NormalizedPair(s[2..]);
        EndOfBoth("\r\n", s[2..]);
        EndOfBoth("\n", Normalized(s[2..]));
      } else {
        assert s == [s[0]] + s[1..];
        NormalizedEnd(s[1..]);
        NormalizedHead(s[1..]);
        NormalizedCons(s[0], s[1..]);
        EndOfBoth([s[0]], s[1..]);
        EndOfBoth([s[0]], Normalized(s[1..]));
      }
    }
  }

  lemma EndOfBoth(a: string, b: string)
    requires a != ""
    ensures EndsWith(a + b, '\r') <==> if b == "" then EndsWith(a, '\r') else EndsWith(b, '\r')
  {
    if b == "" {
      assert a + b == a;
    }
  }

  /** Only CR CR LF leaves a CRLF behind. */
  lemma {:induction false} NormalizedIsFree(s: string)
    requires !HasCrCrLf(s)
    ensures !HasCrLf(Normalized(s))
    decreases |s|
  {
    if |s| >= 2 {
      var k := if s[0] == '\r' && s[1] == '\n' then 2 else 1;
      var tail := s[k..];
      forall i
        ensures !CrCrLfAt(tail, i)
      {
        assert !CrCrLfAt(s, i + k);
      }
      NormalizedIsFree(tail);
      if tail != "" {
        NormalizedHead(tail);
      }
      assert !CrCrLfAt(s, 0);
      FreeWithHead(if k == 2 then '\n' else s[0], Normalized(tail));
    }
  }

  lemma FreeWithHead(c: char, s: string)
    requires !HasCrLf(s) && !(c == '\r' && StartsWith(s, '\n'))
    ensures !HasCrLf([c] + s)
  {
    forall i | 0 <= i < |[c] + s| - 1
      ensures !(([c] + s)[i] == '\r' && ([c] + s)[i + 1] == '\n')
    {
      assert i > 0 ==> ([c] + s)[i] == s[i - 1] && ([c] + s)[i + 1] == s[i - 1 + 1];
    }
  }

  lemma {:induction false} NormalizedShrinks(s: string)
    ensures |Normalized(s)| <= |s|
    ensures HasCrLf(s) ==> |Normalized(s)| < |s|
    decreases |s|
  {
    if |s| >= 2 {
      if s[0] == '\r' && s[1] == '\n' {
        NormalizedShrinks(s[2..]);
      } else {
        NormalizedShrinks(s[1..]);
        if HasCrLf(s) {
          var i :| 0 <= i < |s| - 1 && s[i] == '\r' && s[i + 1] == '\n';
          assert s[1..][i - 1] == '\r' && s[1..][i - 1 + 1] == '\n';
        }
      }
    }
  }

  // ---- cutting ----

  lemma FirstBlankIsUnique(s: string, at: int)
    requires 0 <= at <= |s| - 2 && s[at] == '\n' && s[at + 1] == '\n'
    requires forall i :: 0 <= i < at ==> !(s[i] == '\n' && s[i + 1] == '\n')
    ensures BlankAt(s) == at
  {
  }

  lemma {:induction false} CutAppend(s: string, t: string)
    ensures Cut(s + t) == Later(Cut(s).blocks, Cut(Cut(s).rest + t))
    decreases |s|
  {
    var at := BlankAt(s);
    if at == -1 {
      assert [] + Cut(s + t).blocks == Cut(s + t).blocks;
    } else {
      FirstBlankIsUnique(s + t, at);
      assert (s + t)[..at] == s[..at] && (s + t)[at + 2..] == s[at + 2..] + t;
      CutAppend(s[at + 2..], t);
      var c := Cut(s[at + 2..]);
      var d := Cut(c.rest + t).blocks;
      assert [s[..at]] + (c.blocks + d) == ([s[..at]] + c.blocks) + d;
    }
  }

  lemma SliceOfSlice(s: string, i: nat, j: nat)
    requires i + j <= |s|
    ensures s[i..][j..] == s[i + j..]
  {
  }

  /** Where the rest begins: behind the last blank line. */
  function RestStart(s: string): (k: nat)
    ensures k <= |s|
    decreases |s|
  {
    var at := BlankAt(s);
    if at == -1 then 0 else at + 2 + RestStart(s[at + 2..])
  }

  lemma {:induction false} RestIsASuffix(s: string)
    ensures Cut(s).rest == s[RestStart(s)..]
    decreases |s|
  {
    var at := BlankAt(s);
    if at != -1 {
      RestIsASuffix(s[at + 2..]);
      SliceOfSlice(s, at + 2, RestStart(s[at + 2..]));
    }
  }

  lemma {:induction false} RestHasNoBlank(s: string)
    ensures BlankAt(Cut(s).rest) == -1
    ensures Cut(s).rest == "" ==> s == "" || EndsWith(s, '\n')
    decreases |s|
  {
    var at := BlankAt(s);
    if at != -1 {
      RestHasNoBlank(s[at + 2..]);
    }
  }

  lemma NoBlankAcross(s: string, t: string)
    requires BlankAt(s) == -1 && BlankAt(t) == -1 && !(EndsWith(s, '\n') && StartsWith(t, '\n'))
    ensures BlankAt(s + t) == -1
  {
    forall i | 0 <= i < |s + t| - 1
      ensures !((s + t)[i] == '\n' && (s + t)[i + 1] == '\n')
    {
      assert i + 1 < |s| ==> (s + t)[i] == s[i] && (s + t)[i + 1] == s[i + 1];
      assert i >= |s| ==> (s + t)[i] == t[i - |s|] && (s + t)[i + 1] == t[i - |s| + 1];
    }
  }

  // ---- chunk independence ----

  lemma LaterTwice(a: seq<string>, b: seq<string>, c: Cutting)
    ensures Later(a, Later(b, c)) == Later(a + b, c)
  {
    assert a + (b + c.blocks) == a + b + c.blocks;
  }

  /** One more chunk: the buffer stands for the whole text read so far. */
  lemma OneMoreChunk(p: string, c: string)
    requires !HasCrCrLf(p + c)
    ensures var q := Cut(Normalized(p)); Cut(Normalized(p + c)) == Later(q.blocks, Cut(Normalized(q.rest + c)))
  {
    var n := Normalized(p);
    var q := Cut(n);
    forall i
      ensures !CrCrLfAt(p, i)
    {
      assert !CrCrLfAt(p + c, i);
    }
    NormalizedIsFree(p);
    NormalizedEnd(p);
    RestHasNoBlank(n);
    RestIsASuffix(n);
    forall i | 0 <= i < |q.rest| - 1
      ensures !(q.rest[i] == '\r' && q.rest[i + 1] == '\n')
    {
      var k := RestStart(n) + i;
      assert !(n[k] == '\r' && n[k + 1] == '\n');
    }
    NormalizedIdentity(q.rest);
    assert EndsWith(q.rest, '\r') <==> EndsWith(p, '\r');
    if EndsWith(p, '\r') && StartsWith(c, '\n') {
      SplitCrLf(p, c);
    } else {
      NormalizedAppend(p, c);
      NormalizedAppend(q.rest, c);
      CutAppend(n, Normalized(c));
    }
  }

  /** A CR at the end of the text waits in the buffer. */
  lemma CutWithPendingCr(p: string)
    ensures var q := Cut(Normalized(p)); Cut(Normalized(p + "\r")) == Cutting(q.blocks, q.rest + "\r")
  {
    var n := Normalized(p);
    var q := Cut(n);
    NormalizedJoin(p, "");
    RestHasNoBlank(n);
    NoBlankAcross(q.rest, "\r");
    CutAppend(n, "\r");
    assert q.blocks + [] == q.blocks;
  }

  /** The case where a CRLF is split between two chunks. */
  lemma SplitCrLf(p: string, c: string)
    requires EndsWith(p, '\r') && StartsWith(c, '\n')
    requires !HasCrLf(Cut(Normalized(p)).rest)
    ensures var q := Cut(Normalized(p)); Cut(Normalized(p + c)) == Later(q.blocks, Cut(Normalized(q.rest + c)))
  {
    var p0, c0 := p[..|p| - 1], c[1..];
    assert p == p0 + "\r" && c == "\n" + c0;
    var q0 := Cut(Normalized(p0));
    CutWithPendingCr(p0);
    forall i | 0 <= i < |q0.rest| - 1
      ensures !(q0.rest[i] == '\r' && q0.rest[i + 1] == '\n')
    {
      var r := Cut(Normalized(p)).rest;
      assert !(r[i] == '\r' && r[i + 1] == '\n');
    }
    NormalizedIdentity(q0.rest);
    NormalizedJoin(p0, c0);
    NormalizedJoin(q0.rest, c0);
    CutAppend(Normalized(p0), "\n" + Normalized(c0));
  }

  lemma {:induction false} FeedFrom(p: string, chunks: seq<string>)
    requires !HasCrCrLf(p + Concat(chunks))
    ensures var q := Cut(Normalized(p)); Later(q.blocks, Feed(q.rest, chunks)) == Cut(Normalized(p + Concat(chunks)))
    decreases |chunks|
  {
    var q := Cut(Normalized(p));
    if chunks == [] {
      assert p + Concat(chunks) == p;
      assert q.blocks + [] == q.blocks;
    } else {
      var c, more := chunks[0], chunks[1..];
      assert p + Concat(chunks) == (p + c) + Concat(more);
      forall i
        ensures !CrCrLfAt(p + c, i)
      {
        assert !CrCrLfAt((p + c) + Concat(more), i);
      }
      OneMoreChunk(p, c);
      FeedFrom(p + c, more);
      var d := Cut(Normalized(q.rest + c));
      LaterTwice(q.blocks, d.blocks, Feed(d.rest, more));
    }
  }

  /** Main result: every way of cutting the text into chunks is read as the text itself. */
  lemma ChunkingDoesNotMatter(chunks: seq<string>)
    requires !HasCrCrLf(Concat(chunks))
    ensures Feed("", chunks) == Cut(Normalized(Concat(chunks)))
  {
    assert "" + Concat(chunks) == Concat(chunks);
    FeedFrom("", chunks);
    assert Cut(Normalized("")) == Cutting([], "");
    assert [] + Feed("", chunks).blocks == Feed("", chunks).blocks;
  }

  // ---- and only then ----

  function Size(c: Cutting): nat
    decreases |c.blocks|
  {
    if c.blocks == [] then |c.rest| else |c.blocks[0]| + 2 + Size(Cutting(c.blocks[1..], c.rest))
  }

  lemma {:induction false} SizeOfLater(a: seq<string>, c: Cutting)
    ensures Size(Later(a, c)) == Size(Cutting(a, "")) + Size(c)
    decreases |a|
  {
    if a == [] {
      assert [] + c.blocks == c.blocks;
    } else {
      assert (a + c.blocks)[1..] == a[1..] + c.blocks;
      SizeOfLater(a[1..], c);
    }
  }

  lemma {:induction false} SizeOfCut(s: string)
    ensures Size(Cut(s)) == |s|
    decreases |s|
  {
    var at := BlankAt(s);
    if at != -1 {
      SizeOfCut(s[at + 2..]);
      SizeOfLater([s[..at]], Cut(s[at + 2..]));
      assert [s[..at]][1..] == [];
    }
  }

  lemma NormalizedCrCrLf(a: string)
    ensures Normalized(a + "\r\r\n") == Normalized(a) + "\r\n"
  {
    assert a + "\r\r\n" == (a + "\r") + "\r" + ("\n" + "");
    NormalizedJoin(a + "\r", "");
    NormalizedJoin(a, "");
  }

  /** After CR CR LF the buffer holds a CRLF. */
  lemma CutAfterCrCrLf(a: string)
    ensures var q := Cut(Normalized(a)); Cut(Normalized(a + "\r\r\n")) == Cutting(q.blocks, q.rest + "\r\n")
  {
    var n := Normalized(a);
    var q := Cut(n);
    NormalizedCrCrLf(a);
    RestHasNoBlank(n);
    NoBlankAcross(q.rest, "\r\n");
    CutAppend(n, "\r\n");
    assert q.blocks + [] == q.blocks;
  }

  lemma FeedOne(s: string)
    ensures Feed("", [s]) == Cut(Normalized(s))
  {
    assert "" + s == s && [s][1..] == [];
    assert Cut(Normalized(s)).blocks + [] == Cut(Normalized(s)).blocks;
  }

  lemma FeedTwo(s: string, t: string)
    ensures var c := Cut(Normalized(s)); Feed("", [s, t]) == Later(c.blocks, Cut(Normalized(c.rest + t)))
  {
    var c := Cut(Normalized(s));
    assert "" + s == s && [s, t][1..] == [t] && [t][1..] == [];
    var d := Cut(Normalized(c.rest + t));
    assert d.blocks + [] == d.blocks;
    assert Feed(c.rest, [t]) == d;
  }

  /** The next chunk, even an empty one, normalizes that CRLF again. */
  lemma CrCrLfIsReadTwoWays(a: string, b: string)
    ensures Feed("", [a + "\r\r\n" + b]) != Feed("", [a + "\r\r\n", b])
  {
    var p := a + "\r\r\n";
    CutAfterCrCrLf(a);
    FeedOne(p + b);
    FeedTwo(p, b);
    var c := Cut(Normalized(p));
    assert c.rest[|c.rest| - 2] == '\r' && c.rest[|c.rest| - 2 + 1] == '\n';
    NormalizedShrinks(c.rest);
    NormalizedAppend(c.rest, b);
    NormalizedAppend(p, b);
    SizeOfCut(Normalized(p + b));
    SizeOfCut(Normalized(c.rest + b));
    SizeOfCut(Normalized(p));
    SizeOfLater(c.blocks, Cut(Normalized(c.rest + b)));
    SizeOfLater(c.blocks, Cutting([], c.rest));
    assert c.blocks + [] == c.blocks;
  }

  /** Chunk independence holds exactly for text without CR CR LF. */
  lemma ChunkingMattersExactlyWhen(text: string)
    ensures (forall c, d :: Concat(c) == text && Concat(d) == text ==> Feed("", c) == Feed("", d)) <==> !HasCrCrLf(text)
  {
    if HasCrCrLf(text) {
      var i :| CrCrLfAt(text, i);
      var a, b := text[..i], text[i + 3..];
      assert text == a + "\r\r\n" + b;
      CrCrLfIsReadTwoWays(a, b);
      assert Concat([text]) == text by {
        assert [text][1..] == [];
      }
      var two := [a + "\r\r\n", b];
      assert Concat(two) == text by {
        assert two[1..] == [b] && [b][1..] == [];
        assert Concat([b]) == b + "";
      }
    } else {
      forall c, d | Concat(c) == text && Concat(d) == text
        ensures Feed("", c) == Feed("", d)
      {
        ChunkingDoesNotMatter(c);
        ChunkingDoesNotMatter(d);
      }
    }
  }

  /** One block, read as two different blocks: a frame can come out differently. */
  lemma BlockReadTwoWays(line: string)
    requires forall i :: 0 <= i < |line| ==> line[i] != '\r' && line[i] != '\n'
    ensures Feed("", [line + "\r\r\n" + "\n"]) == Cutting([line + "\r"], "")
    ensures Feed("", [line + "\r\r\n", "\n"]) == Cutting([line], "")
  {
    NormalizedIdentity(line);
    NormalizedCrCrLf(line);
    ReadWhole(line);
    ReadSplit(line);
  }

  lemma ReadWhole(line: string)
    requires forall i :: 0 <= i < |line| ==> line[i] != '\n'
    requires Normalized(line + "\r\r\n") == line + "\r\n"
    ensures Feed("", [line + "\r\r\n" + "\n"]) == Cutting([line + "\r"], "")
  {
    var p := line + "\r\r\n";
    FeedOne(p + "\n");
    NormalizedAppend(p, "\n");
    LfTwice(line);
    CutAtBlank(line + "\r");
  }

  lemma LfTwice(line: string)
    ensures line + "\r\n" + "\n" == line + "\r" + "\n\n"
  {
  }

  lemma ReadSplit(line: string)
    requires forall i :: 0 <= i < |line| ==> line[i] != '\n'
    requires Normalized(line) == line
    ensures Feed("", [line + "\r\r\n", "\n"]) == Cutting([line], "")
  {
    NoBlankInLine(line);
    CutAfterCrCrLf(line);
    FeedTwo(line + "\r\r\n", "\n");
    NormalizedAgain(line);
    CutAtBlank(line);
    assert [] + [line] == [line];
  }

  lemma NormalizedAgain(line: string)
    requires Normalized(line) == line
    ensures Normalized(line + "\r\n" + "\n") == line + "\n\n"
  {
    Reassociated(line, "\r\n", "\n");
    NormalizedAppend(line, "\r\n" + "\n");
    assert ("\r\n" + "\n")[2..] == "\n";
    assert Normalized("\r\n" + "\n") == "\n\n";
  }

  lemma NoBlankInLine(line: string)
    requires forall i :: 0 <= i < |line| ==> line[i] != '\n'
    ensures BlankAt(line) == -1
  {
  }

  lemma CutAtBlank(line: string)
    requires forall i :: 0 <= i < |line| ==> line[i] != '\n'
    ensures Cut(line + "\n\n") == Cutting([line], "")
  {
    var s := line + "\n\n";
    var at := BlankAt(s);
    assert s[|line|] == '\n' && s[|line| + 1] == '\n';
    assert at == |line|;
    assert s[..at] == line;
    assert s[at + 2..] == "";
    assert Cut(s[at + 2..]) == Cutting([], "");
  }

  // ---- one data line ----

  /** A field's value less one leading space. */
  function Trimmed(v: string): string {
    if v != "" && v[0] == ' ' then v[1..] else v
  }

  lemma DataLine(v: string)
    ensures FieldName("data:" + v) == "data" && FieldValue("data:" + v) == Trimmed(v)
  {
    var line := "data:" + v;
    assert line[4] == ':' && IndexOf(line, ':') == 4;
    assert line[..4] == "data" && line[5..] == v;
  }

  lemma OneLine(line: string)
    requires forall k :: 0 <= k < |line| ==> line[k] != '\n'
    ensures WithLines(EmptyFrame, Pieces(line)) == WithLine(EmptyFrame, line)
  {
    assert Pieces(line) == [line] && [line][1..] == [];
  }

  lemma DataLineInFrame(f: Frame, v: string)
    ensures WithLine(f, "data:" + v) == f.(data := f.data + [Trimmed(v)])
  {
    var line := "data:" + v;
    DataLine(v);
    assert line[0] == 'd';
    assert |FieldName(line)| == 4;
  }

  lemma FrameOfDataLine(v: string)
    requires forall k :: 0 <= k < |v| ==> v[k] != '\n'
    ensures FrameOf("data:" + v) == Some(Frame(None, None, [Trimmed(v)]))
  {
    OneLine("data:" + v);
    DataLineInFrame(EmptyFrame, v);
    assert [] + [Trimmed(v)] == [Trimmed(v)];
  }

  lemma OneFrame(block: string, f: Frame)
    requires FrameOf(block) == Some(f)
    ensures FramesOf([block]) == [f]
  {
    assert [block][1..] == [];
  }

  /** The same text, cut in two ways, gives frames with different data: the CR stays, or it is gone. */
  lemma FrameReadTwoWays(v: string)
    requires forall k :: 0 <= k < |v| ==> v[k] != '\r' && v[k] != '\n'
    ensures FramesOf(Feed("", ["data:" + v + "\r\r\n" + "\n"]).blocks) == [Frame(None, None, [Trimmed(v + "\r")])]
    ensures FramesOf(Feed("", ["data:" + v + "\r\r\n", "\n"]).blocks) == [Frame(None, None, [Trimmed(v)])]
    ensures Trimmed(v + "\r") != Trimmed(v)
  {
    BlockReadTwoWays("data:" + v);
    FrameOfDataLine(v);
    FrameOfDataLine(v + "\r");
    Reassociated("data:", v, "\r");
    OneFrame("data:" + v, Frame(None, None, [Trimmed(v)]));
    OneFrame("data:" + v + "\r", Frame(None, None, [Trimmed(v + "\r")]));
    assert |Trimmed(v + "\r")| == |Trimmed(v)| + 1;
  }
}
