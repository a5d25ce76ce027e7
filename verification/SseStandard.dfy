/**
 The standard's own reading of an event stream (HTML Living Standard, sections 9.2.5 and 9.2.6),
 one line at a time over the raw text, and the proof that the parser computes it.
 */
module SseStandard {
  import opened Wrappers
  import opened Sse
  import opened SseLaws

  /** The type buffer and the data buffer at dispatch. */
  datatype StreamEvent = StreamEvent(eventType: string, data: string)

  datatype Buffers = Buffers(eventType: string, data: string)

  const NoBuffers := Buffers("", "")

  // ---- lines of the raw text ----

  /** Where the first line ends: at a LF, a CR or the end of the text. */
  function LineEnd(s: string): (i: nat)
    ensures i <= |s|
    ensures forall k :: 0 <= k < i ==> s[k] != '\n' && s[k] != '\r'
    ensures i < |s| ==> s[i] == '\n' || s[i] == '\r'
  {
    if s == "" || s[0] == '\n' || s[0] == '\r' then 0 else 1 + LineEnd(s[1..])
  }

  /** The complete lines: ended by CRLF, by LF or by CR. An unfinished last line is none. */
  function Lines(s: string): seq<string>
    decreases |s|
  {
    var i := LineEnd(s);
    if i == |s| then []
    else if s[i] == '\r' && i + 1 < |s| && s[i + 1] == '\n' then [s[..i]] + Lines(s[i + 2..])
    else [s[..i]] + Lines(s[i + 1..])
  }

  // ---- interpreting the lines ----

  function Processed(b: Buffers, line: string): Buffers
    requires line != ""
  {
    if line[0] == ':' then b
    else if FieldName(line) == "event" then b.(eventType := FieldValue(line))
    else if FieldName(line) == "data" then b.(data := b.data + FieldValue(line) + "\n")
    else b
  }

  /** An empty data buffer dispatches nothing; otherwise its last line feed is dropped. */
  function Dispatched(b: Buffers): seq<StreamEvent> {
    if b.data == "" then [] else [StreamEvent(b.eventType, b.data[..|b.data| - 1])]
  }

  function Interpreted(b: Buffers, lines: seq<string>): seq<StreamEvent>
    decreases |lines|
  {
    if lines == [] then []
    else if lines[0] == "" then Dispatched(b) + Interpreted(NoBuffers, lines[1..])
    else Interpreted(Processed(b, lines[0]), lines[1..])
  }

  function StandardReading(text: string): seq<StreamEvent> {
    Interpreted(NoBuffers, Lines(text))
  }

  // ---- the parser's frames as events ----

  /** Lines joined by LF. */
  function Joined(data: seq<string>): string
    requires data != []
  {
    if |data| == 1 then data[0] else Joined(data[..|data| - 1]) + "\n" + data[|data| - 1]
  }

  function EventsOf(frames: seq<Frame>): seq<StreamEvent> {
    if frames == [] then []
    else (if frames[0].data == [] then [] else [StreamEvent(frames[0].event.GetOr(""), Joined(frames[0].data))])
         + EventsOf(frames[1..])
  }

  // ---- raw lines and normalized lines ----

  predicate CrOnlyInCrLf(s: string) {
    forall i :: 0 <= i < |s| && s[i] == '\r' ==> i + 1 < |s| && s[i + 1] == '\n'
  }

  function LfLines(s: string): seq<string>
    decreases |s|
  {
    var i := IndexOf(s, '\n');
    if i == -1 then [] else [s[..i]] + LfLines(s[i + 1..])
  }

  lemma IndexIs(s: string, c: char, at: nat)
    requires at < |s| && s[at] == c && forall i :: 0 <= i < at ==> s[i] != c
    ensures IndexOf(s, c) == at
  {
  }

  lemma {:induction false} SuffixKeepsCr(s: string, k: nat)
    requires CrOnlyInCrLf(s) && k <= |s|
    ensures CrOnlyInCrLf(s[k..])
  {
    forall i | 0 <= i < |s[k..]| && s[k..][i] == '\r'
      ensures i + 1 < |s[k..]| && s[k..][i + 1] == '\n'
    {
      assert s[k + i] == '\r';
    }
  }

  predicate NoEnd(line: string) {
    forall k :: 0 <= k < |line| ==> line[k] != '\n' && line[k] != '\r'
  }

  /** Both line ends of a raw line are normalized to one LF. */
  lemma NormalizedLine(line: string, rest: string)
    requires NoEnd(line)
    ensures Normalized(line + ("\n" + rest)) == line + ("\n" + Normalized(rest))
    ensures Normalized(line + "\r" + ("\n" + rest)) == line + ("\n" + Normalized(rest))
  {
    NormalizedIdentity(line);
    NormalizedJoin(line, rest);
    NormalizedAppend(line, "\n" + rest);
    assert ("\n" + rest)[1..] == rest;
  }

  lemma LeftAndRight(s: string, i: nat)
    requires i < |s|
    ensures s == s[..i] + ([s[i]] + s[i + 1..])
  {
  }

  lemma CrLfAt(s: string, i: nat)
    requires i + 1 < |s| && s[i] == '\r' && s[i + 1] == '\n'
    ensures s == s[..i] + "\r" + ("\n" + s[i + 2..])
  {
  }

  /** A text with a line end, taken apart at the first one. */
  lemma SplitsAtLineEnd(s: string)
    requires CrOnlyInCrLf(s) && LineEnd(s) < |s|
    ensures var i := LineEnd(s);
            var k := if s[i] == '\r' then i + 2 else i + 1;
            && k <= |s| && NoEnd(s[..i])
            && s == if s[i] == '\r' then s[..i] + "\r" + ("\n" + s[k..]) else s[..i] + ("\n" + s[k..])
  {
    var i := LineEnd(s);
    if s[i] == '\r' {
      CrLfAt(s, i);
    } else {
      LeftAndRight(s, i);
    }
  }

  /** Where the line after the first one starts. */
  function NextLine(s: string): (k: nat)
    requires CrOnlyInCrLf(s) && LineEnd(s) < |s|
    ensures LineEnd(s) < k <= |s|
  {
    if s[LineEnd(s)] == '\r' then LineEnd(s) + 2 else LineEnd(s) + 1
  }

  lemma LinesStep(s: string)
    requires CrOnlyInCrLf(s) && LineEnd(s) < |s|
    ensures Lines(s) == [s[..LineEnd(s)]] + Lines(s[NextLine(s)..])
  {
  }

  lemma LfLinesStep(s: string)
    requires CrOnlyInCrLf(s) && LineEnd(s) < |s|
    ensures LfLines(Normalized(s)) == [s[..LineEnd(s)]] + LfLines(Normalized(s[NextLine(s)..]))
  {
    SplitsAtLineEnd(s);
    NormalizedLine(s[..LineEnd(s)], s[NextLine(s)..]);
    FirstLine(s[..LineEnd(s)], Normalized(s[NextLine(s)..]));
  }

  lemma NoLines(s: string)
    requires CrOnlyInCrLf(s) && LineEnd(s) == |s|
    ensures Lines(s) == [] && LfLines(Normalized(s)) == []
  {
    NormalizedIdentity(s);
    assert IndexOf(s, '\n') == -1;
  }

  lemma {:induction false} LinesOfNormalized(s: string)
    requires CrOnlyInCrLf(s)
    ensures LfLines(Normalized(s)) == Lines(s)
    decreases |s|
  {
    if LineEnd(s) == |s| {
      NoLines(s);
    } else {
      SuffixKeepsCr(s, NextLine(s));
      LinesStep(s);
      LfLinesStep(s);
      LinesOfNormalized(s[NextLine(s)..]);
    }
  }

  lemma FirstLine(line: string, rest: string)
    requires forall k :: 0 <= k < |line| ==> line[k] != '\n'
    ensures LfLines(line + ("\n" + rest)) == [line] + LfLines(rest)
  {
    var s := line + ("\n" + rest);
    IndexIs(s, '\n', |line|);
    assert s[..|line|] == line && s[|line| + 1..] == rest;
  }

  // ---- lines and blocks ----

  lemma SplitAtLineFeed(block: string, i: nat)
    requires i < |block| && block[i] == '\n'
    ensures block == block[..i] + ("\n" + block[i + 1..])
  {
  }

  lemma {:induction false} LinesOfBlock(block: string, rest: string)
    ensures LfLines(block + ("\n" + rest)) == Pieces(block) + LfLines(rest)
    decreases |block|
  {
    var i := IndexOf(block, '\n');
    if i == -1 {
      FirstLine(block, rest);
    } else {
      var line, more := block[..i], block[i + 1..];
      SplitAtLineFeed(block, i);
      Regroup(line, more, "\n" + rest);
      Reassociated([line], Pieces(more), LfLines(rest));
      FirstLine(line, more + ("\n" + rest));
      LinesOfBlock(more, rest);
    }
  }

  lemma Regroup(a: string, b: string, c: string)
    ensures a + ("\n" + b) + c == a + ("\n" + (b + c))
  {
  }

  predicate NoBlank(s: string) {
    forall i :: 0 <= i < |s| - 1 ==> !(s[i] == '\n' && s[i + 1] == '\n')
  }

  lemma NoBlankSuffix(s: string, k: nat)
    requires NoBlank(s) && k <= |s|
    ensures NoBlank(s[k..])
  {
    forall i | 0 <= i < |s[k..]| - 1
      ensures !(s[k..][i] == '\n' && s[k..][i + 1] == '\n')
    {
      assert !(s[k + i] == '\n' && s[k + i + 1] == '\n');
    }
  }

  /** In a text without a blank line, at most the first complete line is empty. */
  lemma {:induction false} OnlyFirstLineEmpty(s: string)
    requires NoBlank(s)
    ensures forall k :: 0 < k < |LfLines(s)| ==> LfLines(s)[k] != ""
    ensures !StartsWith(s, '\n') ==> forall k :: 0 <= k < |LfLines(s)| ==> LfLines(s)[k] != ""
    decreases |s|
  {
    var i := IndexOf(s, '\n');
    if i != -1 {
      var tail := s[i + 1..];
      assert !StartsWith(tail, '\n') by {
        assert i + 1 < |s| ==> !(s[i] == '\n' && s[i + 1] == '\n');
      }
      NoBlankSuffix(s, i + 1);
      OnlyFirstLineEmpty(tail);
    }
  }

  lemma {:induction false} OnlyFirstPieceEmpty(s: string)
    requires NoBlank(s) && !EndsWith(s, '\n')
    ensures forall k :: 0 < k < |Pieces(s)| ==> Pieces(s)[k] != ""
    ensures s != "" && !StartsWith(s, '\n') ==> Pieces(s)[0] != ""
    decreases |s|
  {
    var i := IndexOf(s, '\n');
    if i != -1 {
      var tail := s[i + 1..];
      assert tail != "" && !StartsWith(tail, '\n') by {
        assert i + 1 < |s| ==> !(s[i] == '\n' && s[i + 1] == '\n');
      }
      NoBlankSuffix(s, i + 1);
      OnlyFirstPieceEmpty(tail);
    }
  }

  // ---- frames and buffers ----

  /** Every data line followed by LF. */
  function DataBuffer(data: seq<string>): string {
    if data == [] then "" else DataBuffer(data[..|data| - 1]) + data[|data| - 1] + "\n"
  }

  function BuffersOf(f: Frame): Buffers {
    Buffers(f.event.GetOr(""), DataBuffer(f.data))
  }

  lemma {:induction false} DataBufferIsJoined(data: seq<string>)
    requires data != []
    ensures DataBuffer(data) == Joined(data) + "\n"
  {
    if |data| == 1 {
      assert DataBuffer(data[..0]) == "";
    } else {
      DataBufferIsJoined(data[..|data| - 1]);
    }
  }

  lemma ProcessedIsWithLine(f: Frame, line: string)
    requires line != ""
    ensures Processed(BuffersOf(f), line) == BuffersOf(WithLine(f, line))
  {
    if FieldName(line) == "data" && line[0] != ':' {
      var data := f.data + [FieldValue(line)];
      assert data[..|data| - 1] == f.data;
    }
  }

  lemma {:induction false} InterpretedOverLines(f: Frame, lines: seq<string>, more: seq<string>)
    requires forall k :: 0 <= k < |lines| ==> lines[k] != ""
    ensures Interpreted(BuffersOf(f), lines + more) == Interpreted(BuffersOf(WithLines(f, lines)), more)
    decreases |lines|
  {
    if lines == [] {
      assert lines + more == more;
    } else {
      assert (lines + more)[0] == lines[0] && (lines + more)[1..] == lines[1..] + more;
      ProcessedIsWithLine(f, lines[0]);
      InterpretedOverLines(WithLine(f, lines[0]), lines[1..], more);
    }
  }

  lemma {:induction false} NoDispatch(b: Buffers, lines: seq<string>)
    requires forall k :: 0 <= k < |lines| ==> lines[k] != ""
    ensures Interpreted(b, lines) == []
    decreases |lines|
  {
    if lines != [] {
      NoDispatch(Processed(b, lines[0]), lines[1..]);
    }
  }

  /** A leading empty line dispatches nothing; a block's lines and the blank line dispatch its frame. */
  lemma InterpretedBlock(ps: seq<string>, more: seq<string>)
    requires |ps| > 0 && forall k :: 0 < k < |ps| ==> ps[k] != ""
    ensures Interpreted(NoBuffers, ps + ([""] + more))
      == Dispatched(BuffersOf(WithLines(EmptyFrame, ps))) + Interpreted(NoBuffers, more)
  {
    var all := ps + ([""] + more);
    assert BuffersOf(EmptyFrame) == NoBuffers;
    assert ([""] + more)[1..] == more;
    if ps[0] == "" {
      assert all[0] == "" && all[1..] == ps[1..] + ([""] + more);
      assert Dispatched(NoBuffers) + Interpreted(NoBuffers, all[1..]) == Interpreted(NoBuffers, all[1..]);
      InterpretedOverLines(EmptyFrame, ps[1..], [""] + more);
    } else {
      InterpretedOverLines(EmptyFrame, ps, [""] + more);
    }
  }

  lemma DispatchedIsEvent(block: string)
    ensures Dispatched(BuffersOf(WithLines(EmptyFrame, Pieces(block)))) ==
      EventsOf(match FrameOf(block) case None => [] case Some(f) => [f])
  {
    var f := WithLines(EmptyFrame, Pieces(block));
    assert [f][1..] == [];
    if f.data != [] {
      DataBufferIsJoined(f.data);
      assert DataBuffer(f.data)[..|DataBuffer(f.data)| - 1] == Joined(f.data);
      assert EventsOf([f]) == [StreamEvent(f.event.GetOr(""), Joined(f.data))];
    }
  }

  lemma {:induction false} EventsAppend(a: seq<Frame>, b: seq<Frame>)
    ensures EventsOf(a + b) == EventsOf(a) + EventsOf(b)
    decreases |a|
  {
    if a == [] {
      assert a + b == b;
    } else {
      assert (a + b)[1..] == a[1..] + b;
      EventsAppend(a[1..], b);
    }
  }

  /** The first block of a text, before its first blank line. */
  lemma FirstBlock(s: string, at: nat)
    requires BlankAt(s) == at
    ensures s == s[..at] + ("\n" + ("\n" + s[at + 2..]))
    ensures NoBlank(s[..at]) && !EndsWith(s[..at], '\n')
  {
    var block := s[..at];
    forall i | 0 <= i < at
      ensures !(s[i] == '\n' && s[i + 1] == '\n')
      ensures block[i] == s[i]
    {
    }
  }

  lemma LinesOfFirstBlock(block: string, rest: string)
    ensures LfLines(block + ("\n" + ("\n" + rest))) == Pieces(block) + ([""] + LfLines(rest))
  {
    LinesOfBlock(block, "\n" + rest);
    FirstLine("", rest);
    assert "" + ("\n" + rest) == "\n" + rest;
  }

  lemma BlockIsEvent(block: string, rest: string)
    requires NoBlank(block) && !EndsWith(block, '\n')
    ensures Interpreted(NoBuffers, LfLines(block + ("\n" + ("\n" + rest)))) ==
      EventsOf(match FrameOf(block) case None => [] case Some(f) => [f]) + Interpreted(NoBuffers, LfLines(rest))
  {
    LinesOfFirstBlock(block, rest);
    OnlyFirstPieceEmpty(block);
    InterpretedBlock(Pieces(block), LfLines(rest));
    DispatchedIsEvent(block);
  }

  lemma {:induction false} BlocksAreStandard(s: string)
    ensures EventsOf(FramesOf(Cut(s).blocks)) == Interpreted(NoBuffers, LfLines(s))
    decreases |s|
  {
    var at := BlankAt(s);
    if at == -1 {
      NothingUnfinished(s);
    } else {
      var block, rest := s[..at], s[at + 2..];
      BlocksAreStandard(rest);
      FirstBlock(s, at);
      BlockIsEvent(block, rest);
      EventsOfBlocks(block, Cut(rest).blocks);
    }
  }

  lemma EventsOfBlocks(block: string, more: seq<string>)
    ensures EventsOf(FramesOf([block] + more)) ==
      EventsOf(match FrameOf(block) case None => [] case Some(f) => [f]) + EventsOf(FramesOf(more))
  {
    assert ([block] + more)[1..] == more;
    EventsAppend(match FrameOf(block) case None => [] case Some(f) => [f], FramesOf(more));
  }

  /** An unfinished final block is discarded by both readings. */
  lemma NothingUnfinished(s: string)
    requires BlankAt(s) == -1
    ensures Interpreted(NoBuffers, LfLines(s)) == []
  {
    var lines := LfLines(s);
    assert NoBlank(s);
    OnlyFirstLineEmpty(s);
    if lines != [] {
      if lines[0] == "" {
        NoDispatch(NoBuffers, lines[1..]);
      } else {
        NoDispatch(NoBuffers, lines);
      }
    }
  }

  /** Main result: however the text is cut into chunks, the parser reads what the standard reads. */
  lemma ParserFollowsTheStandard(chunks: seq<string>)
    requires CrOnlyInCrLf(Concat(chunks))
    ensures EventsOf(FramesOf(Feed("", chunks).blocks)) == StandardReading(Concat(chunks))
  {
    var text := Concat(chunks);
    forall i
      ensures !CrCrLfAt(text, i)
    {
    }
    ChunkingDoesNotMatter(chunks);
    BlocksAreStandard(Normalized(text));
    LinesOfNormalized(text);
  }

  lemma LoneCrEndsALine(a: string, b: string)
    requires NoEnd(a) && NoEnd(b) && b != ""
    ensures Lines(a + "\r" + b + "\n") == [a, b]
  {
    assert a + "\r" + b + "\n" == a + (['\r'] + (b + (['\n'] + "")));
    LinesAt(b, '\n', "");
    LinesAt(a, '\r', b + (['\n'] + ""));
    assert [a] + ([b] + []) == [a, b];
  }

  lemma LoneCrStaysInLine(line: string)
    requires (forall k :: 0 <= k < |line| ==> line[k] != '\n') && !EndsWith(line, '\r')
    ensures LfLines(Normalized(line + "\n")) == [line]
  {
    NormalizedIdentity(line + "\n");
    OneLfLine(line);
  }

  lemma NoLineFeedWithin(a: string, b: string)
    requires NoEnd(a) && NoEnd(b) && b != ""
    ensures var line := a + "\r" + b;
            (forall k :: 0 <= k < |line| ==> line[k] != '\n') && !EndsWith(line, '\r')
  {
    var line := a + "\r" + b;
    assert line[|line| - 1] == b[|b| - 1];
  }

  /** A lone CR ends a line for the standard and stays within the line for the parser. */
  lemma LoneCrIsReadDifferently(a: string, b: string)
    requires NoEnd(a) && NoEnd(b) && b != ""
    ensures Lines(a + "\r" + b + "\n") == [a, b]
    ensures LfLines(Normalized(a + "\r" + b + "\n")) == [a + "\r" + b]
  {
    LoneCrEndsALine(a, b);
    NoLineFeedWithin(a, b);
    LoneCrStaysInLine(a + "\r" + b);
  }

  lemma OneLfLine(line: string)
    requires forall k :: 0 <= k < |line| ==> line[k] != '\n'
    ensures LfLines(line + "\n") == [line]
  {
    FirstLine(line, "");
    assert "\n" + "" == "\n";
  }

  lemma LineEndIs(s: string, at: nat)
    requires at < |s| && (s[at] == '\n' || s[at] == '\r')
    requires forall k :: 0 <= k < at ==> s[k] != '\n' && s[k] != '\r'
    ensures LineEnd(s) == at
  {
  }

  // ---- exactly when the two see the same lines ----

  function LfCount(s: string): nat {
    if s == "" then 0 else (if s[0] == '\n' then 1 else 0) + LfCount(s[1..])
  }

  /** CRs that no LF follows. */
  function LoneCrs(s: string): nat {
    if s == "" then 0 else (if s[0] == '\r' && !StartsWith(s[1..], '\n') then 1 else 0) + LoneCrs(s[1..])
  }

  lemma {:induction false} LfsBehind(s: string, k: nat)
    requires k <= |s| && forall i :: 0 <= i < k ==> s[i] != '\n'
    ensures LfCount(s) == LfCount(s[k..])
  {
    if k > 0 {
      LfsBehind(s[1..], k - 1);
      assert s[1..][k - 1..] == s[k..];
    }
  }

  lemma {:induction false} LoneCrsBehind(s: string, k: nat)
    requires k <= |s| && forall i :: 0 <= i < k ==> s[i] != '\r'
    ensures LoneCrs(s) == LoneCrs(s[k..])
  {
    if k > 0 {
      LoneCrsBehind(s[1..], k - 1);
      assert s[1..][k - 1..] == s[k..];
    }
  }

  lemma {:induction false} OneLinePerLf(s: string)
    ensures |LfLines(s)| == LfCount(s)
    decreases |s|
  {
    var i := IndexOf(s, '\n');
    if i == -1 {
      LfsBehind(s, |s|);
    } else {
      LfsBehind(s, i);
      assert s[i..][1..] == s[i + 1..];
      OneLinePerLf(s[i + 1..]);
    }
  }

  lemma {:induction false} NormalizingKeepsLfs(s: string)
    ensures LfCount(Normalized(s)) == LfCount(s)
    decreases |s|
  {
    if |s| >= 2 {
      if s[0] == '\r' && s[1] == '\n' {
        NormalizingKeepsLfs(s[2..]);
        assert s[1..][1..] == s[2..];
      } else {
        NormalizingKeepsLfs(s[1..]);
      }
    }
  }

  lemma {:induction false} OneLinePerEnd(s: string)
    ensures |Lines(s)| == LfCount(s) + LoneCrs(s)
    decreases |s|
  {
    var i := LineEnd(s);
    LfsBehind(s, i);
    LoneCrsBehind(s, i);
    if i < |s| {
      var end := s[i..];
      assert end[1..] == s[i + 1..];
      if s[i] == '\r' && i + 1 < |s| && s[i + 1] == '\n' {
        assert end[1..][1..] == s[i + 2..];
        OneLinePerEnd(s[i + 2..]);
      } else {
        OneLinePerEnd(s[i + 1..]);
      }
    }
  }

  lemma {:induction false} NoLoneCr(s: string)
    ensures LoneCrs(s) == 0 <==> CrOnlyInCrLf(s)
  {
    if s != "" {
      NoLoneCr(s[1..]);
      if CrOnlyInCrLf(s) {
        SuffixKeepsCr(s, 1);
      } else {
        var i :| 0 <= i < |s| && s[i] == '\r' && !(i + 1 < |s| && s[i + 1] == '\n');
        if i > 0 {
          assert s[1..][i - 1] == '\r' && !(i < |s[1..]| && s[1..][i] == '\n');
        }
      }
    }
  }

  /** Main result: the parser sees the standard's lines if and only if CR stands only in CRLF. */
  lemma LinesAgreeExactlyWhen(s: string)
    ensures LfLines(Normalized(s)) == Lines(s) <==> CrOnlyInCrLf(s)
  {
    if CrOnlyInCrLf(s) {
      LinesOfNormalized(s);
    } else {
      NoLoneCr(s);
      OneLinePerLf(Normalized(s));
      NormalizingKeepsLfs(s);
      OneLinePerEnd(s);
    }
  }

  // ---- an event that is read differently ----

  lemma LinesAt(line: string, end: char, rest: string)
    requires NoEnd(line) && (end == '\n' || (end == '\r' && !StartsWith(rest, '\n')))
    ensures Lines(line + ([end] + rest)) == [line] + Lines(rest)
  {
    var s := line + ([end] + rest);
    LineEndIs(s, |line|);
    assert s[..|line|] == line && s[|line| + 1..] == rest;
  }

  lemma DataLineIsBuffered(b: Buffers, v: string)
    ensures Processed(b, "data:" + v) == b.(data := b.data + Trimmed(v) + "\n")
  {
    DataLine(v);
  }

  lemma TwoLinesThenBlank(b: Buffers, first: string, second: string)
    requires first != "" && second != ""
    ensures Interpreted(b, [first, second, ""]) == Dispatched(Processed(Processed(b, first), second))
  {
    var two := Processed(Processed(b, first), second);
    assert [first, second, ""][1..] == [second, ""] && [second, ""][1..] == [""] && [""][1..] == [];
    assert Interpreted(two, [""]) == Dispatched(two) + Interpreted(NoBuffers, []);
  }

  lemma DispatchedData(data: string)
    ensures Dispatched(Buffers("", data + "\n")) == [StreamEvent("", data)]
  {
    assert (data + "\n")[..|data|] == data;
  }

  /** Two data lines and a blank one. */
  lemma TwoDataLines(a: string, b: string)
    ensures Interpreted(NoBuffers, ["data:" + a, "data:" + b, ""]) == [StreamEvent("", Trimmed(a) + "\n" + Trimmed(b))]
  {
    TwoLinesThenBlank(NoBuffers, "data:" + a, "data:" + b);
    DataLineIsBuffered(NoBuffers, a);
    assert "" + Trimmed(a) + "\n" == Trimmed(a) + "\n";
    DataLineIsBuffered(Buffers("", Trimmed(a) + "\n"), b);
    DispatchedData(Trimmed(a) + "\n" + Trimmed(b));
  }

  lemma ThreeInARow(first: string, second: string, third: string)
    ensures [first] + ([second] + ([third] + [])) == [first, second, third]
  {
  }

  lemma LinesOfBlank()
    ensures Lines("" + (['\n'] + "")) == [""] + []
  {
    LinesAt("", '\n', "");
  }

  lemma LinesOfTwo(first: string, second: string, last: string)
    requires NoEnd(first) && NoEnd(second) && second != "" && last == "" + (['\n'] + "")
    ensures Lines(first + (['\r'] + (second + (['\n'] + last)))) == [first, second, ""]
  {
    LinesOfBlank();
    LinesAt(second, '\n', last);
    LinesAt(first, '\r', second + (['\n'] + last));
    ThreeInARow(first, second, "");
  }

  /** `data:a`, a lone CR, `data:b` and a blank line. */
  function LoneCrText(a: string, b: string): string {
    "data:" + a + "\r" + "data:" + b + "\n\n"
  }

  lemma LoneCrTextIs(a: string, b: string)
    ensures LoneCrText(a, b) == "data:" + a + (['\r'] + ("data:" + b + (['\n'] + ("" + (['\n'] + "")))))
    ensures LoneCrText(a, b) == "data:" + (a + "\r" + "data:" + b) + "\n\n"
  {
  }

  lemma StandardSeesTwoLines(a: string, b: string)
    requires NoEnd(a) && NoEnd(b)
    ensures StandardReading(LoneCrText(a, b)) == [StreamEvent("", Trimmed(a) + "\n" + Trimmed(b))]
  {
    LoneCrTextIs(a, b);
    LinesOfTwo("data:" + a, "data:" + b, "" + (['\n'] + ""));
    TwoDataLines(a, b);
  }

  lemma WholeBlock(line: string)
    requires forall k :: 0 <= k < |line| ==> line[k] != '\n'
    requires !EndsWith(line, '\r')
    ensures Feed("", [line + "\n\n"]) == Cutting([line], "")
  {
    NormalizedIdentity(line + "\n\n");
    FeedOne(line + "\n\n");
    CutAtBlank(line);
  }

  lemma EndOfSecond(a: string, b: string)
    requires NoEnd(b)
    ensures !EndsWith(a + "\r" + "data:" + b, '\r')
  {
    var v := a + "\r" + "data:" + b;
    if b == "" {
      assert v[|v| - 1] == ':';
    } else {
      assert v[|v| - 1] == b[|b| - 1];
    }
  }

  lemma ParserSeesOneLine(a: string, b: string)
    requires NoEnd(a) && NoEnd(b)
    ensures FramesOf(Feed("", [LoneCrText(a, b)]).blocks) == [Frame(None, None, [Trimmed(a + "\r" + "data:" + b)])]
  {
    var v := a + "\r" + "data:" + b;
    LoneCrTextIs(a, b);
    EndOfSecond(a, b);
    WholeBlock("data:" + v);
    FrameOfDataLine(v);
    OneFrame("data:" + v, Frame(None, None, [Trimmed(v)]));
  }

  /** Main result: a lone CR between two data lines makes the standard dispatch one event and the parser another. */
  lemma LoneCrChangesTheEvent(a: string, b: string)
    requires NoEnd(a) && NoEnd(b)
    ensures var text := LoneCrText(a, b);
            && StandardReading(text) == [StreamEvent("", Trimmed(a) + "\n" + Trimmed(b))]
            && EventsOf(FramesOf(Feed("", [text]).blocks)) == [StreamEvent("", Trimmed(a + "\r" + "data:" + b))]
            && StandardReading(text) != EventsOf(FramesOf(Feed("", [text]).blocks))
  {
    StandardSeesTwoLines(a, b);
    ParserSeesOneLine(a, b);
    var data := Trimmed(a + "\r" + "data:" + b);
    OneEvent(data);
    CrIsNotLf(a, b);
  }

  lemma OneEvent(data: string)
    ensures EventsOf([Frame(None, None, [data])]) == [StreamEvent("", data)]
  {
    assert [Frame(None, None, [data])][1..] == [];
  }

  lemma CrIsNotLf(a: string, b: string)
    ensures Trimmed(a) + "\n" + Trimmed(b) != Trimmed(a + "\r" + "data:" + b)
  {
    var left, right := Trimmed(a) + "\n" + Trimmed(b), Trimmed(a + "\r" + "data:" + b);
    assert left[|Trimmed(a)|] == '\n';
    assert right[|Trimmed(a)|] == '\r';
  }
}
