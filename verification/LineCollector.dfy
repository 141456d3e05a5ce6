/** Collecting the output of a child process line by line from a buffered reader. */
module LineCollector {

  newtype Byte = b: int | 0 <= b < 256

  const CR: Byte := 13
  const LF: Byte := 10

  predicate IsBreak(b: Byte) {
    b == CR || b == LF
  }

  function Concat(parts: seq<seq<Byte>>): seq<Byte> {
    if parts == [] then [] else parts[0] + Concat(parts[1..])
  }

  // ------------------------------------------------------------ raw lines

  function FirstBreak(s: seq<Byte>): (k: nat)
    ensures k <= |s|
    ensures k < |s| ==> IsBreak(s[k])
    ensures forall j :: 0 <= j < k ==> !IsBreak(s[j])
  {
    if s == [] || IsBreak(s[0]) then 0 else 1 + FirstBreak(s[1..])
  }

  /** The stream cut after every carriage return and every line feed. */
  function RawLines(s: seq<Byte>): seq<seq<Byte>>
    decreases |s|
  {
    if s == [] then []
    else
      var k := FirstBreak(s);
      if k == |s| then [s] else [s[..k + 1]] + RawLines(s[k + 1..])
  }

  /** Not empty, and no break before the last byte. */
  predicate IsPiece(line: seq<Byte>) {
    line != [] && forall j :: 0 <= j < |line| - 1 ==> !IsBreak(line[j])
  }

  predicate IsTerminated(line: seq<Byte>) {
    line != [] && IsBreak(line[|line| - 1])
  }

  /** Pieces of which only the last may lack its break. */
  ghost predicate AreRawLines(lines: seq<seq<Byte>>) {
    && (forall k :: 0 <= k < |lines| ==> IsPiece(lines[k]))
    && (forall k :: 0 <= k < |lines| - 1 ==> IsTerminated(lines[k]))
  }

  lemma {:induction false} RawLinesConcatenate(s: seq<Byte>)
    ensures AreRawLines(RawLines(s)) && Concat(RawLines(s)) == s
    decreases |s|
  {
    if s != [] {
      var k := FirstBreak(s);
      if k == |s| {
        assert RawLines(s)[1..] == [];
      } else {
        RawLinesConcatenate(s[k + 1..]);
        assert RawLines(s)[1..] == RawLines(s[k + 1..]);
        assert s == s[..k + 1] + s[k + 1..];
      }
    }
  }

  lemma FirstBreakIs(s: seq<Byte>, k: nat)
    requires k <= |s| && (forall j :: 0 <= j < k ==> !IsBreak(s[j])) && (k < |s| ==> IsBreak(s[k]))
    ensures FirstBreak(s) == k
  {
  }

  /** There is no other way to cut the stream into raw lines. */
  lemma {:induction false} RawLinesAreUnique(lines: seq<seq<Byte>>)
    requires AreRawLines(lines)
    ensures RawLines(Concat(lines)) == lines
  {
    if lines != [] {
      var line, rest := lines[0], lines[1..];
      RawLinesAreUnique(rest);
      assert IsPiece(line);
      if IsTerminated(line) {
        RawLinesStep(line, Concat(rest));
      } else {
        assert rest == [] && Concat(lines) == line;
        FirstBreakIs(line, |line|);
      }
    }
  }

  lemma RawLinesStep(line: seq<Byte>, rest: seq<Byte>)
    requires IsPiece(line) && IsTerminated(line)
    ensures RawLines(line + rest) == [line] + RawLines(rest)
  {
    FirstBreakIs(line + rest, |line| - 1);
    assert (line + rest)[..|line|] == line && (line + rest)[|line|..] == rest;
  }

  // ---------------------------------------------------------- the reader

  /** A buffered reader: what is left of the stream, in the chunks it will arrive in. */
  class Reader {
    var chunks: seq<seq<Byte>>

    ghost predicate Valid()
      reads this
    {
      forall k :: 0 <= k < |chunks| ==> chunks[k] != []
    }

    ghost function Contents(): seq<Byte>
      reads this
    {
      Concat(chunks)
    }

    constructor (chunks: seq<seq<Byte>>)
      requires forall k :: 0 <= k < |chunks| ==> chunks[k] != []
      ensures Valid() && Contents() == Concat(chunks)
    {
      this.chunks := chunks;
    }

    /** fill_buf: what is buffered, empty only at the end of the stream. */
    method FillBuf() returns (available: seq<Byte>)
      requires Valid()
      ensures available == if chunks == [] then [] else chunks[0]
      ensures available == [] <==> Contents() == []
    {
      available := if chunks == [] then [] else chunks[0];
    }

    method Consume(count: nat)
      requires Valid() && chunks != [] && count <= |chunks[0]|
      modifies this
      ensures Valid() && Contents() == old(Contents())[count..]
    {
      var head := chunks[0];
      assert Contents()[count..] == head[count..] + Concat(chunks[1..]);
      if count == |head| {
        chunks := chunks[1..];
      } else {
        ghost var tail := chunks[1..];
        chunks := [head[count..]] + chunks[1..];
        assert chunks[1..] == tail;
      }
    }

    /** The inner loop: bytes up to and including the next break, or to the end. */
    method ReadLine() returns (line: seq<Byte>)
      requires Valid()
      modifies this
      ensures Valid()
      ensures line == [] <==> old(Contents()) == []
      ensures line != [] ==> RawLines(old(Contents())) == [line] + RawLines(Contents())
      ensures old(Contents()) == line + Contents()
    {
      line := [];
      while true
        invariant Valid()
        invariant old(Contents()) == line + Contents()
        invariant NoBreak(line)
        decreases |Contents()|
      {
        var available := FillBuf();
        ghost var before := Contents();
        if available == [] {
          LastLine(line);
          return;
        }
        var pos := FirstBreak(available);
        assert before == available + Concat(chunks[1..]);
        if pos < |available| {
          Consume(pos + 1);
          TakeThrough(line, available, pos, before, Contents());
          line := line + available[..pos + 1];
          return;
        }
        Consume(|available|);
        TakeAll(line, available, before, Contents());
        line := line + available;
      }
    }
  }

  predicate NoBreak(line: seq<Byte>) {
    forall j :: 0 <= j < |line| ==> !IsBreak(line[j])
  }

  /** The end of the stream ends the line. */
  lemma LastLine(line: seq<Byte>)
    requires NoBreak(line)
    ensures line != [] ==> RawLines(line + []) == [line] + RawLines([])
  {
    assert line + [] == line;
    FirstBreakIs(line, |line|);
  }

  /** A break in the buffer ends the line there. */
  lemma TakeThrough(line: seq<Byte>, available: seq<Byte>, pos: nat, before: seq<Byte>, after: seq<Byte>)
    requires NoBreak(line) && pos < |available| && IsBreak(available[pos]) && NoBreak(available[..pos])
    requires available <= before && after == before[pos + 1..]
    ensures
      var whole := line + available[..pos + 1];
      line + before == whole + after && RawLines(line + before) == [whole] + RawLines(after)
  {
    var whole := line + available[..pos + 1];
    assert before[..pos + 1] == available[..pos + 1] && before == before[..pos + 1] + after;
    assert line + before == whole + after;
    forall j | 0 <= j < |whole| - 1
      ensures !IsBreak(whole[j])
    {
      assert j >= |line| ==> whole[j] == available[..pos][j - |line|];
    }
    assert whole[|whole| - 1] == available[pos];
    RawLinesStep(whole, after);
  }

  lemma TakeAll(line: seq<Byte>, available: seq<Byte>, before: seq<Byte>, after: seq<Byte>)
    requires NoBreak(line) && NoBreak(available) && available <= before && after == before[|available|..]
    ensures NoBreak(line + available) && line + before == (line + available) + after
  {
    assert before == available + after;
  }

  lemma MoveLine(lines: seq<seq<Byte>>, line: seq<Byte>, left: seq<seq<Byte>>, rest: seq<seq<Byte>>)
    requires left == [line] + rest
    ensures lines + left == (lines + [line]) + rest
  {
  }

  /** StreamCollector::collect for lines. However the stream is cut into chunks, the raw
      lines are those of the whole stream. */
  method Collect(chunks: seq<seq<Byte>>) returns (lines: seq<seq<Byte>>)
    requires forall k :: 0 <= k < |chunks| ==> chunks[k] != []
    ensures lines == RawLines(Concat(chunks))
    ensures Concat(lines) == Concat(chunks)
  {
    var reader := new Reader(chunks);
    lines := [];
    ghost var stream := Concat(chunks);
    ghost var left := RawLines(stream);
    assert [] + left == left;
    while true
      invariant reader.Valid() && fresh(reader) && left == RawLines(reader.Contents())
      invariant lines + left == RawLines(stream)
      decreases |reader.Contents()|
    {
      var line := reader.ReadLine();
      if line == [] {
        assert lines + [] == lines;
        break;
      }
      MoveLine(lines, line, left, RawLines(reader.Contents()));
      lines := lines + [line];
      left := RawLines(reader.Contents());
    }
    RawLinesConcatenate(stream);
  }

  // --------------------------------------------------- the kept last lines

  const KEPT := 10

  /** The last lines of all, at most ten. */
  function LastOf(all: seq<string>): seq<string> {
    if |all| <= KEPT then all else all[|all| - KEPT..]
  }

  /** The lines run_lines keeps for its error message, over both output streams. */
  class Tail {
    var lines: seq<string>

    constructor ()
      ensures lines == LastOf([])
    {
      lines := [];
    }

    method Handle(line: string, ghost all: seq<string>)
      requires lines == LastOf(all)
      modifies this
      ensures lines == LastOf(all + [line])
      ensures |lines| == (if |all| < 10 then |all| + 1 else 10) && lines[|lines| - 1] == line
      ensures lines == (all + [line])[|all| + 1 - |lines|..]
    {
      lines := lines + [line];
      if |lines| > KEPT {
        lines := lines[1..];
      }
    }
  }
}
