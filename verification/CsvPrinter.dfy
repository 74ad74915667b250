/** Printing a table as RFC 4180, section 2, describes it, and the proof that the tokenizers undo it. */
module CsvPrinter {
  import opened Prelude
  import opened Csv
  import opened CsvGuard

  /** A cell and the writer's choice to quote it. */
  datatype Cell = Cell(value: string, quoted: bool)

  datatype LineEnd = LF | CRLF

  /** The cells of a row and the line end behind it. */
  datatype Line = Line(cells: seq<Cell>, end: LineEnd)

  /** Cells with commas, quotes or line breaks must be quoted; others may be. */
  predicate WellQuoted(c: Cell) {
    c.quoted || Plain(c.value)
  }

  predicate Plain(value: string) {
    forall ch :: ch in value ==> ch != ',' && ch != '"' && !IsLineEnd(ch)
  }

  predicate Printable(cells: seq<Cell>) {
    cells != [] && forall c :: c in cells ==> WellQuoted(c)
  }

  function Doubled(value: string): string {
    if value == [] then []
    else (if value[0] == '"' then ['"', '"'] else [value[0]]) + Doubled(value[1..])
  }

  function PrintCell(c: Cell): string {
    if c.quoted then ['"'] + Doubled(c.value) + ['"'] else c.value
  }

  function PrintCells(cells: seq<Cell>): string
    requires cells != []
  {
    if |cells| == 1 then PrintCell(cells[0]) else PrintCell(cells[0]) + [','] + PrintCells(cells[1..])
  }

  function PrintEnd(end: LineEnd): string {
    if end.LF? then ['\n'] else ['\r', '\n']
  }

  ghost predicate PrintableTable(lines: seq<Line>, last: seq<Cell>) {
    (forall l :: l in lines ==> Printable(l.cells)) && (last == [] || Printable(last))
  }

  /** Every line with its line end, then a last row without one if there is any. */
  function PrintTable(lines: seq<Line>, last: seq<Cell>): string
    requires PrintableTable(lines, last)
  {
    if lines == [] then if last == [] then [] else PrintCells(last)
    else PrintCells(lines[0].cells) + PrintEnd(lines[0].end) + PrintTable(lines[1..], last)
  }

  function Values(cells: seq<Cell>): (r: Row)
    ensures |r| == |cells|
  {
    seq(|cells|, i requires 0 <= i < |cells| => cells[i].value)
  }

  // ---- one cell ----

  ghost predicate StartsNoQuote(rest: string) {
    rest == [] || rest[0] != '"'
  }

  lemma {:induction false} ScanDoubled(value: string, rest: string, row: Row, cell: string)
    requires StartsNoQuote(rest)
    ensures Scan(Doubled(value) + (['"'] + rest), row, cell, true) == Scan(rest, row, cell + value, false)
  {
    if value == [] {
      assert Doubled(value) + (['"'] + rest) == ['"'] + rest;
      assert (['"'] + rest)[1..] == rest;
      assert cell + value == cell;
    } else {
      var head := if value[0] == '"' then ['"', '"'] else [value[0]];
      Assoc(head, Doubled(value[1..]), ['"'] + rest);
      var tail := Doubled(value[1..]) + (['"'] + rest);
      assert (head + tail)[|head|..] == tail;
      ScanDoubled(value[1..], rest, row, cell + [value[0]]);
      assert cell + [value[0]] + value[1..] == cell + value;
    }
  }

  lemma {:induction false} ScanPlain(value: string, rest: string, row: Row, cell: string)
    requires Plain(value)
    ensures Scan(value + rest, row, cell, false) == Scan(rest, row, cell + value, false)
  {
    if value == [] {
      assert value + rest == rest && cell + value == cell;
    } else {
      assert value[0] in value;
      assert forall ch :: ch in value[1..] ==> ch in value;
      assert (value + rest)[1..] == value[1..] + rest;
      ScanPlain(value[1..], rest, row, cell + [value[0]]);
      assert cell + [value[0]] + value[1..] == cell + value;
    }
  }

  lemma ScanCell(c: Cell, rest: string, row: Row)
    requires WellQuoted(c) && StartsNoQuote(rest)
    ensures Scan(PrintCell(c) + rest, row, [], false) == Scan(rest, row, c.value, false)
  {
    assert [] + c.value == c.value;
    if c.quoted {
      var body := Doubled(c.value) + (['"'] + rest);
      assert PrintCell(c) + rest == ['"'] + body;
      assert (['"'] + body)[1..] == body;
      ScanDoubled(c.value, rest, row, []);
    } else {
      ScanPlain(c.value, rest, row, []);
    }
  }

  // ---- rows ----

  ghost predicate EndsRow(rest: string) {
    rest == [] || IsLineEnd(rest[0])
  }

  lemma {:induction false} ScanCells(cells: seq<Cell>, rest: string, row: Row)
    requires Printable(cells) && EndsRow(rest)
    ensures Scan(PrintCells(cells) + rest, row, [], false)
         == Scan(rest, row + Values(cells)[..|cells| - 1], cells[|cells| - 1].value, false)
  {
    if |cells| == 1 {
      ScanCell(cells[0], rest, row);
      assert row + Values(cells)[..0] == row;
    } else {
      var tail := PrintCells(cells[1..]) + rest;
      CommaTail(PrintCell(cells[0]), PrintCells(cells[1..]), rest);
      ScanCell(cells[0], [','] + tail, row);
      assert ([','] + tail)[1..] == tail;
      ScanCells(cells[1..], rest, row + [cells[0].value]);
      ShiftValues(cells, row);
    }
  }

  lemma CommaTail(a: string, b: string, c: string)
    ensures a + [','] + b + c == a + ([','] + (b + c))
  {
  }

  lemma ShiftValues(cells: seq<Cell>, row: Row)
    requires |cells| > 1
    ensures row + [cells[0].value] + Values(cells[1..])[..|cells| - 2] == row + Values(cells)[..|cells| - 1]
  {
  }

  lemma ScanLine(line: Line, rest: string)
    requires Printable(line.cells)
    ensures Records(PrintCells(line.cells) + PrintEnd(line.end) + rest) == [Record(Values(line.cells), true)] + Records(rest)
  {
    var end := PrintEnd(line.end) + rest;
    Assoc(PrintCells(line.cells), PrintEnd(line.end), rest);
    ScanCells(line.cells, end, []);
    assert end[LineEndWidth(end)..] == rest by {
      assert line.end.LF? ==> end[0] == '\n';
      assert line.end.CRLF? ==> end[0] == '\r' && end[1] == '\n';
    }
    LastCell(line.cells);
  }

  lemma LastCell(cells: seq<Cell>)
    requires cells != []
    ensures ([] + Values(cells)[..|cells| - 1]) + [cells[|cells| - 1].value] == Values(cells)
  {
  }

  lemma ScanLast(cells: seq<Cell>)
    requires cells == [] || Printable(cells)
    ensures Records(PrintTable([], cells)) == if cells == [] || Values(cells) == [[]] then [] else [Record(Values(cells), false)]
  {
    if cells != [] {
      assert PrintCells(cells) + [] == PrintCells(cells);
      ScanCells(cells, [], []);
      LastCell(cells);
      if |cells| > 1 {
        assert |Values(cells)| > 1;
      } else {
        assert Values(cells) == [cells[0].value];
      }
    }
  }

  // ---- tables ----

  /** The records a printed table is read back as. */
  function TableRecords(lines: seq<Line>, last: seq<Cell>): seq<Record> {
    if lines == [] then if last == [] || Values(last) == [[]] then [] else [Record(Values(last), false)]
    else [Record(Values(lines[0].cells), true)] + TableRecords(lines[1..], last)
  }

  /** All rows of the table. */
  function TableRows(lines: seq<Line>, last: seq<Cell>): seq<Row> {
    if lines == [] then if last == [] then [] else [Values(last)]
    else [Values(lines[0].cells)] + TableRows(lines[1..], last)
  }

  /** Whatever the writer quotes and whichever line ends it uses, the records come back in order. */
  lemma {:induction false} PrintedRecords(lines: seq<Line>, last: seq<Cell>)
    requires PrintableTable(lines, last)
    ensures Records(PrintTable(lines, last)) == TableRecords(lines, last)
  {
    if lines == [] {
      ScanLast(last);
    } else {
      PrintedRecords(lines[1..], last);
      ScanLine(lines[0], PrintTable(lines[1..], last));
    }
  }

  /**
   The CSV round trip: the tokenizers return exactly the table that was printed if and only if
   every row with a line end behind it has a non-empty cell and the row without one is not
   a single empty cell.
   */
  lemma CsvRoundTrip(lines: seq<Line>, last: seq<Cell>)
    requires PrintableTable(lines, last)
    ensures Rows(PrintTable(lines, last)) == TableRows(lines, last)
      <==> (forall l :: l in lines ==> !IsBlank(Values(l.cells))) && Values(last) != [[]]
  {
    PrintedRecords(lines, last);
    KeptRows(lines, last);
  }

  lemma {:induction false} KeptRows(lines: seq<Line>, last: seq<Cell>)
    ensures |KeptCells(TableRecords(lines, last))| <= |TableRows(lines, last)|
    ensures KeptCells(TableRecords(lines, last)) == TableRows(lines, last)
      <==> (forall l :: l in lines ==> !IsBlank(Values(l.cells))) && Values(last) != [[]]
  {
    if lines == [] {
      var records := TableRecords(lines, last);
      assert records != [] ==> records[1..] == [];
    } else {
      KeptRows(lines[1..], last);
      var records := TableRecords(lines, last);
      assert records[1..] == TableRecords(lines[1..], last);
      assert (forall l :: l in lines ==> !IsBlank(Values(l.cells)))
        <==> !IsBlank(Values(lines[0].cells)) && forall l :: l in lines[1..] ==> !IsBlank(Values(l.cells)) by {
        assert lines == [lines[0]] + lines[1..];
      }
      SameHead(Values(lines[0].cells), KeptCells(records[1..]), TableRows(lines[1..], last));
    }
  }

  lemma SameHead<T>(x: T, a: seq<T>, b: seq<T>)
    ensures [x] + a == [x] + b <==> a == b
  {
    assert ([x] + a)[1..] == a && ([x] + b)[1..] == b;
  }

  /**
   Row numbers are not physical line numbers: a line break inside a quoted cell is not counted,
   so the second row of this table is numbered 2 although it stands on the third line.
   */
  lemma QuotedBreakIsNotCounted()
    ensures var lines := [Line([Cell("a\nb", true)], LF), Line([Cell("c", false)], LF)];
      Numbered(Records(PrintTable(lines, [])), 1) == [NumberedRow(1, ["a\nb"]), NumberedRow(2, ["c"])]
  {
    var lines := [Line([Cell("a\nb", true)], LF), Line([Cell("c", false)], LF)];
    PrintedRecords(lines, []);
    assert forall l :: l in lines ==> l == lines[0] || l == lines[1];
    var one, two := Record(["a\nb"], true), Record(["c"], true);
    assert Values(lines[0].cells) == ["a\nb"] && Values(lines[1].cells) == ["c"];
    assert lines[1..] == [lines[1]] && [lines[1]][1..] == [];
    assert TableRecords(lines[1..], []) == [two] + [];
    assert TableRecords(lines, []) == [one, two];
    assert [one, two][1..] == [two] && [two][1..] == [];
    assert one.cells[0] != [] && two.cells[0] != [];
    assert Numbered([two], 2) == [NumberedRow(2, ["c"])] + Numbered([], 3);
    assert Numbered([one, two], 1) == [NumberedRow(1, ["a\nb"])] + Numbered([two], 2);
  }
}
