/**
 The incremental parser of server-sent events over chunks of decoded text. The buffer is normalized
 after every chunk and cut at blank lines; each block becomes at most one frame.
 */
module Sse {
  import opened Wrappers

  datatype Frame = Frame(id: Option<string>, event: Option<string>, data: seq<string>)

  const EmptyFrame: Frame := Frame(None, None, [])

  // ---- text ----

  /** Every CRLF replaced by LF, once through from left to right. */
  function Normalized(s: string): string {
    if |s| < 2 then s
    else if s[0] == '\r' && s[1] == '\n' then ['\n'] + Normalized(s[2..])
    else [s[0]] + Normalized(s[1..])
  }

  /** Where the first blank line starts, or -1. */
  function BlankAt(s: string): (at: int)
    ensures at == -1 || 0 <= at <= |s| - 2
    ensures at >= 0 ==> s[at] == '\n' && s[at + 1] == '\n'
    ensures forall i :: 0 <= i < (if at == -1 then |s| - 1 else at) ==> !(s[i] == '\n' && s[i + 1] == '\n')
  {
    if |s| < 2 then -1
    else if s[0] == '\n' && s[1] == '\n' then 0
    else
      var r := BlankAt(s[1..]);
      assert forall i :: 0 < i < |s| - 1 ==> s[i] == s[1..][i - 1] && s[i + 1] == s[1..][i];
      if r == -1 then -1 else r + 1
  }

  function IndexOf(s: string, c: char): (at: int)
    ensures at == -1 || 0 <= at < |s|
    ensures at >= 0 ==> s[at] == c
    ensures forall i :: 0 <= i < (if at == -1 then |s| else at) ==> s[i] != c
  {
    if s == "" then -1
    else if s[0] == c then 0
    else
      var r := IndexOf(s[1..], c);
      if r == -1 then -1 else r + 1
  }

  /** All pieces between line feeds, the last one included. */
  function Pieces(s: string): (ps: seq<string>)
    ensures |ps| > 0
    decreases |s|
  {
    var i := IndexOf(s, '\n');
    if i == -1 then [s] else [s[..i]] + Pieces(s[i + 1..])
  }

  // ---- fields ----

  function FieldName(line: string): string {
    var i := IndexOf(line, ':');
    if i == -1 then line else line[..i]
  }

  /** What follows the colon, less one leading space. */
  function FieldValue(line: string): string {
    var i := IndexOf(line, ':');
    var v := if i == -1 then "" else line[i + 1..];
    if v != "" && v[0] == ' ' then v[1..] else v
  }

  function WithLine(f: Frame, line: string): Frame {
    if line == "" || line[0] == ':' then f
    else
      var name, value := FieldName(line), FieldValue(line);
      if name == "id" then f.(id := Some(value))
      else if name == "event" then f.(event := Some(value))
      else if name == "data" then f.(data := f.data + [value])
      else f
  }

  function WithLines(f: Frame, lines: seq<string>): Frame
    decreases |lines|
  {
    if lines == [] then f else WithLines(WithLine(f, lines[0]), lines[1..])
  }

  /** A block with no field in it (a heartbeat) is no frame. */
  function FrameOf(block: string): Option<Frame> {
    var f := WithLines(EmptyFrame, Pieces(block));
    if f == EmptyFrame then None else Some(f)
  }

  function FramesOf(blocks: seq<string>): seq<Frame> {
    if blocks == [] then []
    else (match FrameOf(blocks[0]) case None => [] case Some(f) => [f]) + FramesOf(blocks[1..])
  }

  // ---- cutting ----

  /** The complete blocks of a text, and what is left after the last of them. */
  datatype Cutting = Cutting(blocks: seq<string>, rest: string)

  function Later(blocks: seq<string>, c: Cutting): Cutting {
    Cutting(blocks + c.blocks, c.rest)
  }

  function Cut(s: string): Cutting
    decreases |s|
  {
    var at := BlankAt(s);
    if at == -1 then Cutting([], s) else Later([s[..at]], Cut(s[at + 2..]))
  }

  /** What the parser makes of its buffer and the chunks still to come. */
  function Feed(buffer: string, chunks: seq<string>): Cutting
    decreases |chunks|
  {
    if chunks == [] then Cutting([], buffer)
    else
      var c := Cut(Normalized(buffer + chunks[0]));
      Later(c.blocks, Feed(c.rest, chunks[1..]))
  }

  // ---- as the program runs it ----

  method ParseBlock(block: string) returns (r: Option<Frame>)
    ensures r == FrameOf(block)
  {
    var frame, sawField := EmptyFrame, false;
    var lines := Pieces(block);
    for k := 0 to |lines|
      invariant WithLines(EmptyFrame, lines) == WithLines(frame, lines[k..])
      invariant sawField <==> frame != EmptyFrame
    {
      var line := lines[k];
      assert lines[k..][0] == line && lines[k..][1..] == lines[k + 1..];
      if line == "" || line[0] == ':' {
        continue;
      }
      var field, value := FieldName(line), FieldValue(line);
      if field == "id" {
        frame := frame.(id := Some(value));
        sawField := true;
      } else if field == "event" {
        frame := frame.(event := Some(value));
        sawField := true;
      } else if field == "data" {
        frame := frame.(data := frame.data + [value]);
        assert |frame.data| > 0;
        sawField := true;
      }
    }
    assert lines[|lines|..] == [];
    r := if sawField then Some(frame) else None;
  }

  /** The inner loop: takes every complete block out of the buffer. */
  method TakeBlocks(text: string, had: seq<Frame>, ghost before: seq<string>)
    returns (buffer: string, frames: seq<Frame>)
    requires had == FramesOf(before)
    ensures buffer == Cut(text).rest
    ensures frames == FramesOf(before + Cut(text).blocks)
  {
    buffer, frames := text, had;
    ghost var done := before;
    assert before + [] == before;
    var at := BlankAt(buffer);
    while at != -1
      invariant at == BlankAt(buffer)
      invariant Cut(text).rest == Cut(buffer).rest
      invariant before + Cut(text).blocks == done + Cut(buffer).blocks
      invariant frames == FramesOf(done)
      decreases |buffer|
    {
      var block := buffer[..at];
      buffer := buffer[at + 2..];
      var frame := ParseBlock(block);
      FramesAppend(done, block);
      Reassociated(done, [block], Cut(buffer).blocks);
      done := done + [block];
      if frame.Some? {
        frames := frames + [frame.value];
      }
      at := BlankAt(buffer);
    }
    assert done + [] == done;
  }

  method Iterate(chunks: seq<string>) returns (frames: seq<Frame>)
    ensures frames == FramesOf(Feed("", chunks).blocks)
  {
    frames := [];
    var buffer := "";
    ghost var done: seq<string> := [];
    for k := 0 to |chunks|
      invariant Feed("", chunks).blocks == done + Feed(buffer, chunks[k..]).blocks
      invariant frames == FramesOf(done)
    {
      assert chunks[k..][0] == chunks[k] && chunks[k..][1..] == chunks[k + 1..];
      var text := Normalized(buffer + chunks[k]);
      buffer, frames := TakeBlocks(text, frames, done);
      Reassociated(done, Cut(text).blocks, Feed(buffer, chunks[k + 1..]).blocks);
      done := done + Cut(text).blocks;
    }
    assert chunks[|chunks|..] == [];
    assert done + [] == done;
  }

  lemma FramesCons(block: string, blocks: seq<string>)
    ensures FramesOf([block] + blocks) == (match FrameOf(block) case None => [] case Some(f) => [f]) + FramesOf(blocks)
  {
    assert ([block] + blocks)[1..] == blocks;
  }

  lemma {:induction false} FramesAppend(blocks: seq<string>, block: string)
    ensures FramesOf(blocks + [block]) == FramesOf(blocks) + (match FrameOf(block) case None => [] case Some(f) => [f])
    decreases |blocks|
  {
    var last: seq<Frame> := match FrameOf(block) case None => [] case Some(f) => [f];
    if blocks == [] {
      FramesCons(block, []);
      assert blocks + [block] == [block] + [];
    } else {
      var first: seq<Frame> := match FrameOf(blocks[0]) case None => [] case Some(f) => [f];
      assert blocks == [blocks[0]] + blocks[1..];
      Reassociated([blocks[0]], blocks[1..], [block]);
      FramesCons(blocks[0], blocks[1..]);
      FramesCons(blocks[0], blocks[1..] + [block]);
      FramesAppend(blocks[1..], block);
      Reassociated(first, FramesOf(blocks[1..]), last);
    }
  }
}
