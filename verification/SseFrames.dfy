/**
 A frame read off the lines of its block, by what a line says rather than by where its colon is.
 */
module SseFrames {
  import opened Wrappers
  import opened Reading
  import opened Sse

  /** The line gives the field this value: after the colon and one space, or after the colon, or with no colon. */
  predicate Says(line: string, field: string, value: string) {
    || line == field + ": " + value
    || (line == field + ":" + value && (value == "" || value[0] != ' '))
    || (line == field && value == "")
  }

  function ValueSaid(line: string, field: string): Option<string> {
    if line == field || line == field + ":" then Some("")
    else if |line| > |field| + 1 && line[..|field| + 2] == field + ": " then Some(line[|field| + 2..])
    else if |line| > |field| && line[..|field| + 1] == field + ":" then Some(line[|field| + 1..])
    else None
  }

  /** The one value that a line can give a field. */
  lemma OnlyOneIsSaid(line: string, field: string, value: string)
    ensures Says(line, field, value) <==> ValueSaid(line, field) == Some(value)
  {
    var n := |field|;
    if Says(line, field, value) {
      assert line == field + ": " + value ==> line[..n + 2] == field + ": " && line[n + 2..] == value;
      assert line == field + ":" + value ==> line[..n + 1] == field + ":" && line[n + 1..] == value;
      if line == field + ":" + value && value != "" && |line| > n + 1 {
        assert line[n + 1] == value[0] && (field + ": ")[n + 1] == ' ';
        assert line[..n + 2] != field + ": ";
      }
    }
    if ValueSaid(line, field) == Some(value) {
      if |line| > n + 1 && line[..n + 2] == field + ": " {
        assert line == line[..n + 2] + line[n + 2..];
      } else if |line| > n && line[..n + 1] == field + ":" {
        assert line == line[..n + 1] + line[n + 1..];
      }
    }
  }

  function IdIn(line: string): Option<string> { ValueSaid(line, "id") }

  function EventIn(line: string): Option<string> { ValueSaid(line, "event") }

  function DataIn(line: string): seq<string> {
    match ValueSaid(line, "data")
    case None => []
    case Some(v) => [v]
  }

  /** The last id, the last event name, and every line of data in order. */
  function FrameRead(lines: seq<string>): Frame {
    Frame(id := LastOf(lines, IdIn), event := LastOf(lines, EventIn), data := Collected(lines, DataIn))
  }

  // ---- the parser's reading of a line ----

  lemma FirstColon(line: string, field: string)
    requires ':' !in field
    ensures (IndexOf(line, ':') == |field| && line[..|field|] == field) <==>
            |line| > |field| && line[..|field| + 1] == field + ":"
  {
    var n := |field|;
    if |line| > n && line[..n + 1] == field + ":" {
      assert line[n] == (field + ":")[n];
      assert line[..n] == line[..n + 1][..n] == field;
      forall i | 0 <= i < n
        ensures line[i] != ':'
      {
        assert line[i] == field[i];
      }
    }
    if IndexOf(line, ':') == n && line[..n] == field {
      assert line[..n + 1] == line[..n] + [line[n]];
    }
  }

  lemma FindsAfterColon(line: string, field: string)
    requires ':' !in field && field != "" && |line| > |field| && line[..|field| + 1] == field + ":"
    ensures line[0] != ':' && FieldName(line) == field && ValueSaid(line, field) == Some(FieldValue(line))
  {
    var n := |field|;
    FirstColon(line, field);
    assert line[0] == field[0];
    var v := line[n + 1..];
    if |line| > n + 1 {
      assert line[..n + 2] == line[..n + 1] + [v[0]];
      assert v[1..] == line[n + 2..];
    }
  }

  lemma SpaceNeedsColon(line: string, field: string)
    requires |line| > |field| + 1 && line[..|field| + 2] == field + ": "
    ensures line[..|field| + 1] == field + ":"
  {
    assert line[..|field| + 1] == line[..|field| + 2][..|field| + 1];
  }

  lemma FindsNoOther(line: string, field: string)
    requires ':' !in field && field != "" && !(|line| > |field| && line[..|field| + 1] == field + ":")
    ensures ValueSaid(line, field) == if line == field then Some("") else None
    ensures line != "" && line[0] != ':' && FieldName(line) == field <==> line == field
  {
    var n := |field|;
    FirstColon(line, field);
    if |line| > n + 1 && line[..n + 2] == field + ": " {
      SpaceNeedsColon(line, field);
    }
    if line == field {
      assert IndexOf(line, ':') == -1;
    }
  }

  /** For a field whose name has no colon, the parser finds the name and the value exactly where the line says so. */
  lemma ParserFinds(line: string, field: string)
    requires ':' !in field && field != ""
    ensures ValueSaid(line, field) ==
            if line != "" && line[0] != ':' && FieldName(line) == field then Some(FieldValue(line)) else None
  {
    if |line| > |field| && line[..|field| + 1] == field + ":" {
      FindsAfterColon(line, field);
    } else {
      FindsNoOther(line, field);
      if line == field {
        assert IndexOf(line, ':') == -1;
      }
    }
  }

  lemma LineIsRead(f: Frame, line: string)
    ensures WithLine(f, line) == Frame(IdIn(line).OrElse(f.id), EventIn(line).OrElse(f.event), f.data + DataIn(line))
  {
    ParserFinds(line, "id");
    ParserFinds(line, "event");
    ParserFinds(line, "data");
  }

  lemma {:induction false} LinesAreRead(f: Frame, lines: seq<string>)
    ensures var r := FrameRead(lines);
            WithLines(f, lines) == Frame(r.id.OrElse(f.id), r.event.OrElse(f.event), f.data + r.data)
    decreases |lines|
  {
    if lines != [] {
      var g := WithLine(f, lines[0]);
      LineIsRead(f, lines[0]);
      LinesAreRead(g, lines[1..]);
      LastOfCons(lines, IdIn);
      LastOfCons(lines, EventIn);
      CollectedCons(lines, DataIn);
      Reassociated(f.data, DataIn(lines[0]), Collected(lines[1..], DataIn));
    }
  }

  /** Main result: a block's frame, its id included, is read off its lines; it has none when no line says a field. */
  lemma FrameIsRead(block: string)
    ensures var r := FrameRead(Pieces(block));
            FrameOf(block) == if r.id.Some? || r.event.Some? || r.data != [] then Some(r) else None
  {
    LinesAreRead(EmptyFrame, Pieces(block));
    assert [] + FrameRead(Pieces(block)).data == FrameRead(Pieces(block)).data;
  }

  function FrameIn(block: string): seq<Frame> {
    var r := FrameRead(Pieces(block));
    OnlyIf(r.id.Some? || r.event.Some? || r.data != [], r)
  }

  /** The frames of a stream: those of its blocks, in order, every block that says a field giving one. */
  lemma {:induction false} FramesAreRead(blocks: seq<string>)
    ensures FramesOf(blocks) == Collected(blocks, FrameIn)
  {
    if blocks != [] {
      FramesAreRead(blocks[1..]);
      FrameIsRead(blocks[0]);
      CollectedCons(blocks, FrameIn);
    }
  }
}
