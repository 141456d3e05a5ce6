/** A whole table of word lists: the column widths, the heights of its rows and the lines
    that are printed. */
module TableLayout {
  import opened Wrappers
  import opened TableWidths
  import opened WordWrap

  type Words = seq<string>

  /** Every cell holds words, and no row is wider than the list of columns. */
  ghost predicate IsTable(table: seq<seq<Words>>) {
    forall r, c :: 0 <= r < |table| && 0 <= c < |table[r]| ==> AreWords(table[r][c])
  }

  // ------------------------------------------------------- smallest widths

  /** The smallest and natural width of every cell of a table. */
  ghost predicate IsMeasured(table: seq<seq<Words>>, cells: seq<seq<Cell>>) {
    && |cells| == |table|
    && forall r :: 0 <= r < |table| ==> RowMeasured(table[r], cells[r])
  }

  ghost predicate RowMeasured(row: seq<Words>, cells: seq<Cell>) {
    && |cells| == |row|
    && forall c :: 0 <= c < |row| ==> CellMeasured(row[c], cells[c])
  }

  ghost predicate CellMeasured(words: Words, cell: Cell) {
    && cell.min <= cell.max == |Spaced(words)|
    && (forall k :: 0 <= k < |words| ==> |words[k]| <= cell.min)
    && (cell.min == 0 || exists k :: 0 <= k < |words| && |words[k]| == cell.min)
  }

  method MeasureRow(row: seq<Words>) returns (cells: seq<Cell>)
    ensures RowMeasured(row, cells)
  {
    cells := [];
    for c := 0 to |row|
      invariant |cells| == c && forall j :: 0 <= j < c ==> CellMeasured(row[j], cells[j])
    {
      var min, max := WidthBounds(row[c]);
      cells := cells + [Cell(min, max)];
    }
  }

  method Measure(table: seq<seq<Words>>) returns (cells: seq<seq<Cell>>)
    ensures IsMeasured(table, cells)
  {
    cells := [];
    for r := 0 to |table|
      invariant |cells| == r && forall j :: 0 <= j < r ==> RowMeasured(table[j], cells[j])
    {
      var row := MeasureRow(table[r]);
      cells := cells + [row];
    }
  }

  /** A column is wide enough for the automata where it has to hold words. */
  ghost predicate HasRoom(row: seq<Words>, widths: seq<nat>) {
    |row| <= |widths| && forall c :: 0 <= c < |row| && row[c] != [] ==> widths[c] > 0
  }

  lemma MeasuredHasRoom(table: seq<seq<Words>>, cells: seq<seq<Cell>>, widths: seq<nat>, r: nat)
    requires IsTable(table) && IsMeasured(table, cells) && r < |table|
    requires |widths| == Columns(cells)
    requires forall i, c :: 0 <= i < |cells| && 0 <= c < |cells[i]| && cells[i][c].min > 0 ==> widths[c] > 0
    ensures HasRoom(table[r], widths)
  {
    assert RowMeasured(table[r], cells[r]);
    forall c | 0 <= c < |table[r]| && table[r][c] != [] ensures widths[c] > 0 {
      assert CellMeasured(table[r][c], cells[r][c]);
      assert AreWords(table[r][c]) && IsWord(table[r][c][0]);
      assert cells[r][c].min > 0;
    }
  }

  // ------------------------------------------------------------- one line

  /** Where the text of a column starts. */
  function Offset(widths: seq<nat>, c: nat): nat
    requires c <= |widths|
  {
    Sum(widths[..c]) + c
  }

  /** Columns and the borders between them. */
  function Span(widths: seq<nat>): nat {
    if widths == [] then 0 else Sum(widths) + |widths| - 1
  }

  lemma OffsetNext(widths: seq<nat>, c: nat)
    requires c < |widths|
    ensures Offset(widths, c + 1) == Offset(widths, c) + widths[c] + 1
    ensures c + 1 == |widths| ==> Offset(widths, c) + widths[c] == Span(widths)
  {
    SumPrefix(widths, c);
    assert widths[..|widths|] == widths;
  }

  /** The line holds this text from this position on. */
  predicate HoldsAt(line: string, offset: nat, text: string) {
    offset + |text| <= |line| && line[offset..offset + |text|] == text
  }

  lemma HoldsLonger(line: string, more: string, offset: nat, text: string)
    requires HoldsAt(line, offset, text)
    ensures HoldsAt(line + more, offset, text)
  {
    assert (line + more)[offset..offset + |text|] == line[offset..offset + |text|];
  }

  /** The position lies in the text of column j. */
  predicate Covers(parts: seq<Option<string>>, widths: seq<nat>, j: nat, p: nat)
    requires |parts| == |widths|
  {
    && j < |parts| && parts[j].Some?
    && Sum(widths[..j]) + j <= p < Sum(widths[..j]) + j + |parts[j].value|
  }

  /** Outside the texts of its columns a line is blank. */
  ghost predicate BlankOutside(line: string, parts: seq<Option<string>>, widths: seq<nat>)
    requires |parts| == |widths|
  {
    forall p :: 0 <= p < |line| ==> line[p] == ' ' || exists j: nat :: Covers(parts, widths, j, p)
  }

  /** The text a column contributes to a line, if it has one left. */
  ghost predicate PartsFit(parts: seq<Option<string>>, widths: seq<nat>) {
    |parts| == |widths| && forall c :: 0 <= c < |parts| && parts[c].Some? ==> |parts[c].value| <= widths[c]
  }

  /** The first c columns of a line. */
  ghost predicate Composed(line: string, parts: seq<Option<string>>, widths: seq<nat>, c: nat)
    requires |parts| == |widths| && c <= |parts|
  {
    && (if c == 0 then line == "" else |line| < Offset(widths, c))
    && BlankOutside(line, parts, widths)
    && forall j :: 0 <= j < c && parts[j].Some? ==> HoldsAt(line, Offset(widths, j), parts[j].value)
  }

  lemma ComposeNext(line: string, parts: seq<Option<string>>, widths: seq<nat>, c: nat, padding: string, text: string)
    requires PartsFit(parts, widths) && c < |parts| && Composed(line, parts, widths, c)
    requires text == if parts[c].Some? then parts[c].value else ""
    requires |line| + |padding| == Offset(widths, c) && forall p :: 0 <= p < |padding| ==> padding[p] == ' '
    ensures Composed(line + padding + text, parts, widths, c + 1)
  {
    OffsetNext(widths, c);
    var more := line + padding + text;
    assert more == line + (padding + text);
    forall j | 0 <= j < c && parts[j].Some? ensures HoldsAt(more, Offset(widths, j), parts[j].value) {
      HoldsLonger(line, padding + text, Offset(widths, j), parts[j].value);
    }
    assert more[Offset(widths, c)..Offset(widths, c) + |text|] == text;
    forall p | 0 <= p < |more| ensures more[p] == ' ' || exists j: nat :: Covers(parts, widths, j, p) {
      if Offset(widths, c) <= p {
        assert Covers(parts, widths, c, p);
      } else {
        assert more[p] == if p < |line| then line[p] else padding[p - |line|];
      }
    }
  }

  lemma ColumnsFollow(widths: seq<nat>, c: nat)
    requires c <= |widths|
    ensures c == 0 <==> Offset(widths, c) == 0
    ensures c == |widths| > 0 ==> Offset(widths, c) == Span(widths) + 1
  {
    if c > 0 {
      OffsetNext(widths, c - 1);
    }
  }

  /** The inner loop over the columns: each text starts at its column, columns do not run
      into each other, and there are only blanks in between. */
  method ComposeLine(parts: seq<Option<string>>, widths: seq<nat>) returns (line: string)
    requires PartsFit(parts, widths)
    ensures forall c :: 0 <= c < |parts| && parts[c].Some? ==> HoldsAt(line, Offset(widths, c), parts[c].value)
    ensures BlankOutside(line, parts, widths)
    ensures |line| <= Span(widths)
  {
    line := "";
    var nextCol: nat := 0;
    for c := 0 to |parts|
      invariant nextCol == Offset(widths, c) && Composed(line, parts, widths, c)
    {
      var text := if parts[c].Some? then parts[c].value else "";
      var padding := Padding(nextCol - |line|);
      ComposeNext(line, parts, widths, c, padding, text);
      OffsetNext(widths, c);
      line := line + padding + text;
      nextCol := nextCol + widths[c] + 1;
    }
    ColumnsFollow(widths, |widths|);
  }

  function Padding(count: nat): (s: string)
    ensures |s| == count && forall p :: 0 <= p < count ==> s[p] == ' '
  {
    seq(count, _ => ' ')
  }

  // -------------------------------------------------------------- one row

  /** The lines of a cell at its width. */
  function CellLines(words: Words, width: nat): seq<string> {
    TextLines(TextWords(width, words).out)
  }

  lemma CellLinesFit(words: Words, width: nat)
    requires AreWords(words) && (words != [] ==> width > 0)
    ensures Fits(CellLines(words, width), width)
    ensures words == [] ==> CellLines(words, width) == []
    ensures words != [] ==> HeightWords(width, words).height == |CellLines(words, width)|
  {
    if words == [] {
      assert TextWords(width, words).out == "";
    } else {
      HeightIsLineCount(words, width);
    }
  }

  /** The k-th line of a cell, for a column that the row may not have. */
  function PartOf(row: seq<Words>, widths: seq<nat>, c: nat, k: nat): Option<string>
    requires c < |widths|
  {
    if c < |row| && k < |CellLines(row[c], widths[c])| then Some(CellLines(row[c], widths[c])[k]) else None
  }

  function PartsOf(row: seq<Words>, widths: seq<nat>, k: nat): seq<Option<string>> {
    seq(|widths|, c requires 0 <= c < |widths| => PartOf(row, widths, c, k))
  }

  /** The k-th printed line shows the k-th line of every cell in its column. */
  ghost predicate ShowsLine(line: string, row: seq<Words>, widths: seq<nat>, k: nat) {
    && |line| <= Span(widths)
    && BlankOutside(line, PartsOf(row, widths, k), widths)
    && forall c :: 0 <= c < |row| && c < |widths| && k < |CellLines(row[c], widths[c])| ==>
      HoldsAt(line, Offset(widths, c), CellLines(row[c], widths[c])[k])
  }

  ghost predicate RowOk(row: seq<Words>, widths: seq<nat>) {
    HasRoom(row, widths) && forall c :: 0 <= c < |row| ==> AreWords(row[c])
  }

  /** No cell has more lines, and some cell has as many. */
  ghost predicate IsLineCount(row: seq<Words>, widths: seq<nat>, count: nat)
    requires |row| <= |widths|
  {
    && (forall c :: 0 <= c < |row| ==> |CellLines(row[c], widths[c])| <= count)
    && (count == 0 || exists c :: 0 <= c < |row| && |CellLines(row[c], widths[c])| == count)
  }

  method LineCount(row: seq<Words>, widths: seq<nat>) returns (count: nat)
    requires |row| <= |widths|
    ensures IsLineCount(row, widths, count)
  {
    count := 0;
    for c := 0 to |row|
      invariant forall j :: 0 <= j < c ==> |CellLines(row[j], widths[j])| <= count
      invariant count == 0 || exists j :: 0 <= j < c && |CellLines(row[j], widths[j])| == count
    {
      var lines := CellLines(row[c], widths[c]);
      if |lines| > count {
        count := |lines|;
      }
    }
  }

  /** The printed lines of a row: as many as its highest cell has, each with its part of
      every cell in its column. */
  ghost predicate IsRendered(lines: seq<string>, row: seq<Words>, widths: seq<nat>)
    requires |row| <= |widths|
  {
    IsLineCount(row, widths, |lines|) && AllShown(lines, row, widths)
  }

  ghost predicate AllShown(lines: seq<string>, row: seq<Words>, widths: seq<nat>) {
    forall k :: 0 <= k < |lines| ==> ShowsLine(lines[k], row, widths, k)
  }

  lemma OneMoreLine(lines: seq<string>, line: string, row: seq<Words>, widths: seq<nat>)
    requires AllShown(lines, row, widths) && ShowsLine(line, row, widths, |lines|)
    ensures AllShown(lines + [line], row, widths)
  {
    var more := lines + [line];
    forall k | 0 <= k < |more| ensures ShowsLine(more[k], row, widths, k) {
      assert k < |lines| ==> more[k] == lines[k] && ShowsLine(lines[k], row, widths, k);
    }
  }

  /** The lines of one row, one after another as long as some cell has a line left. */
  method RenderRow(row: seq<Words>, widths: seq<nat>) returns (lines: seq<string>)
    requires RowOk(row, widths)
    ensures IsRendered(lines, row, widths)
  {
    var count := LineCount(row, widths);
    lines := RenderLines(row, widths, count);
  }

  method RenderLines(row: seq<Words>, widths: seq<nat>, count: nat) returns (lines: seq<string>)
    requires RowOk(row, widths)
    ensures |lines| == count && AllShown(lines, row, widths)
  {
    lines := [];
    for k: nat := 0 to count
      invariant |lines| == k && AllShown(lines, row, widths)
    {
      var line := RenderLine(row, widths, k);
      OneMoreLine(lines, line, row, widths);
      lines := lines + [line];
    }
  }

  method RenderLine(row: seq<Words>, widths: seq<nat>, k: nat) returns (line: string)
    requires RowOk(row, widths)
    ensures ShowsLine(line, row, widths, k)
  {
    var parts := PartsOf(row, widths, k);
    RowPartsFit(row, widths, k);
    line := ComposeLine(parts, widths);
    assert forall c :: 0 <= c < |row| && k < |CellLines(row[c], widths[c])| ==>
      parts[c] == Some(CellLines(row[c], widths[c])[k]);
  }

  lemma RowPartsFit(row: seq<Words>, widths: seq<nat>, k: nat)
    requires RowOk(row, widths)
    ensures PartsFit(PartsOf(row, widths, k), widths)
  {
    forall c | 0 <= c < |widths| && PartOf(row, widths, c, k).Some?
      ensures |PartOf(row, widths, c, k).value| <= widths[c]
    {
      CellLinesFit(row[c], widths[c]);
    }
  }

  /** The height of a row, computed by the height automaton: the number of its lines,
      unless it is a row of empty cells, which has height one and no line. */
  method RowHeight(row: seq<Words>, widths: seq<nat>) returns (height: nat)
    requires RowOk(row, widths)
    ensures (exists c :: 0 <= c < |row| && row[c] != []) ==> IsLineCount(row, widths, height)
    ensures (forall c :: 0 <= c < |row| ==> row[c] == []) ==> height == if row == [] then 0 else 1
  {
    height := 0;
    for c := 0 to |row|
      invariant forall j :: 0 <= j < c ==> |CellLines(row[j], widths[j])| <= height
      invariant if c == 0 then height == 0 else height >= 1
      invariant height <= 1 || exists j :: 0 <= j < c && |CellLines(row[j], widths[j])| == height
      invariant forall j :: 0 <= j < c && row[j] != [] ==> |CellLines(row[j], widths[j])| >= 1
      invariant (forall j :: 0 <= j < c ==> row[j] == []) ==> height <= 1
    {
      var h := CellHeight(row[c], widths[c]);
      CellLinesFit(row[c], widths[c]);
      HeightIsPositive(row[c], widths[c]);
      if h > height {
        height := h;
      }
    }
  }

  lemma HeightIsPositive(words: Words, width: nat)
    requires words != [] ==> width > 0
    ensures HeightWords(width, words).height >= 1
  {
    if words != [] {
      HeightIsPositive(words[..|words| - 1], width);
    }
  }

  // ------------------------------------------------------------- the table

  ghost predicate RowRendered(lines: seq<string>, row: seq<Words>, widths: seq<nat>) {
    RowOk(row, widths) && IsRendered(lines, row, widths)
  }

  ghost predicate RowsRendered(rows: seq<seq<string>>, table: seq<seq<Words>>, widths: seq<nat>) {
    |rows| <= |table| && forall r :: 0 <= r < |rows| ==> RowRendered(rows[r], table[r], widths)
  }

  lemma OneMoreRow(rows: seq<seq<string>>, lines: seq<string>, table: seq<seq<Words>>, widths: seq<nat>)
    requires RowsRendered(rows, table, widths) && |rows| < |table|
    requires RowRendered(lines, table[|rows|], widths)
    ensures RowsRendered(rows + [lines], table, widths)
  {
    var more := rows + [lines];
    forall r | 0 <= r < |more| ensures RowRendered(more[r], table[r], widths) {
      assert r < |rows| ==> more[r] == rows[r] && RowRendered(rows[r], table[r], widths);
    }
  }

  /** render: every printed line shows its part of every cell in its column, and unless
      cutting the widest column cannot help, no line is wider than the terminal. */
  method Render(table: seq<seq<Words>>, width: nat)
    returns (cells: seq<seq<Cell>>, widths: seq<nat>, rows: seq<seq<string>>)
    requires IsTable(table) && (table == [] || exists r :: 0 <= r < |table| && table[r] != [])
    ensures IsMeasured(table, cells) && |widths| == Columns(cells) > 0
    ensures |rows| == |table| && RowsRendered(rows, table, widths)
    ensures
      var bounds := AllBounds(cells);
      IsChosen(bounds, width, |bounds| - 1, Sum(Mins(bounds)), Sum(Maxes(bounds)), widths)
    ensures
      var bounds := AllBounds(cells);
      Sum(Mins(bounds)) + |bounds| - 1 < width + bounds[Widest(bounds)].min ==> Span(widths) <= width
  {
    cells := Measure(table);
    ColumnsPositive(table, cells);
    widths := RenderWidths(cells, width);
    RowsAreOk(table, cells, widths);
    rows := RenderRows(table, widths);
  }

  lemma RowsAreOk(table: seq<seq<Words>>, cells: seq<seq<Cell>>, widths: seq<nat>)
    requires IsTable(table) && IsMeasured(table, cells) && |widths| == Columns(cells)
    requires forall i, c :: 0 <= i < |cells| && 0 <= c < |cells[i]| && cells[i][c].min > 0 ==> widths[c] > 0
    ensures forall r :: 0 <= r < |table| ==> RowOk(table[r], widths)
  {
    forall r | 0 <= r < |table| ensures RowOk(table[r], widths) {
      MeasuredHasRoom(table, cells, widths, r);
    }
  }

  method RenderRows(table: seq<seq<Words>>, widths: seq<nat>) returns (rows: seq<seq<string>>)
    requires forall r :: 0 <= r < |table| ==> RowOk(table[r], widths)
    ensures |rows| == |table| && RowsRendered(rows, table, widths)
  {
    rows := [];
    for r: nat := 0 to |table|
      invariant |rows| == r && RowsRendered(rows, table, widths)
    {
      var lines := RenderRow(table[r], widths);
      OneMoreRow(rows, lines, table, widths);
      rows := rows + [lines];
    }
  }

  lemma ColumnsPositive(table: seq<seq<Words>>, cells: seq<seq<Cell>>)
    requires IsTable(table) && IsMeasured(table, cells)
    requires table == [] || exists r :: 0 <= r < |table| && table[r] != []
    ensures CellsOk(cells) && Columns(cells) > 0
  {
    forall r, c | 0 <= r < |cells| && 0 <= c < |cells[r]| ensures cells[r][c].min <= cells[r][c].max {
      assert RowMeasured(table[r], cells[r]) && CellMeasured(table[r][c], cells[r][c]);
    }
    if r :| 0 <= r < |table| && table[r] != [] {
      assert RowMeasured(table[r], cells[r]);
    }
  }
}
