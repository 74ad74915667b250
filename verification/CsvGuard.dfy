/**
 The column guard of scripts/checkRequirementsCsvColumns.js over its own line-numbering
 tokenizer, the single-line tokenizer of scripts/checkDefinitionOfDone.js, and how they
 relate to the header-mapped parsers.
 */
module CsvGuard {
  import opened Prelude
  import opened Csv

  // ---- the tokenizer with line numbers ----

  ghost predicate NumbersTo(all: seq<NumberedRow>, rows: seq<NumberedRow>, line: int, rest: string, row: Row, cell: string, quoted: bool) {
    all == rows + Numbered(Scan(rest, row, cell, quoted), line)
  }

  lemma NumberedAfterLineEnd(all: seq<NumberedRow>, rows: seq<NumberedRow>, line: int, text: string, index: nat, row: Row, cell: string)
    requires index < |text| && IsLineEnd(text[index]) && NumbersTo(all, rows, line, text[index..], row, cell, false)
    ensures NumbersTo(all, if IsBlank(row + [cell]) then rows else rows + [NumberedRow(line, row + [cell])],
                      line + 1, text[index + WidthAt(text, index)..], [], [], false)
  {
    var rest := text[index..];
    EndOfRecord(text, index);
    var records := Scan(rest, row, cell, false);
    assert records[0] == Record(row + [cell], true) && records[1..] == Scan(rest[LineEndWidth(rest)..], [], [], false);
    Assoc(rows, [NumberedRow(line, row + [cell])], Numbered(records[1..], line + 1));
  }

  lemma NumberedAtEnd(all: seq<NumberedRow>, rows: seq<NumberedRow>, line: int, row: Row, cell: string, quoted: bool)
    requires NumbersTo(all, rows, line, [], row, cell, quoted)
    ensures all == if cell != [] || row != [] then rows + [NumberedRow(line, row + [cell])] else rows
  {
    var records := Scan([], row, cell, quoted);
    if records != [] {
      assert records[0] == Record(row + [cell], false) && records[1..] == [];
      assert Numbered(records, line) == [NumberedRow(line, row + [cell])] + [];
    } else {
      assert rows + [] == rows;
    }
  }

  method ParseCsvRows(text: string) returns (rows: seq<NumberedRow>)
    ensures rows == Numbered(Records(text), 1)
  {
    hide Scan, Numbered;
    rows := [];
    assert Numbered(Records(text), 1) == [] + Numbered(Scan(text, [], [], false), 1);
    var cells: Row, cell, inQuotes, index := [], [], false, 0;
    var line, rowStartLine, rowStarted := 1, 1, false;
    assert text[0..] == text;
    while index < |text|
      invariant index <= |text|
      invariant rowStarted ==> rowStartLine == line
      invariant NumbersTo(Numbered(Records(text), 1), rows, line, text[index..], cells, cell, inQuotes)
    {
      var character := text[index];
      if inQuotes || !IsLineEnd(character) {
        WithinRecord(text, index, cells, cell, inQuotes);
      }
      if character == '"' && inQuotes && index + 1 < |text| && text[index + 1] == '"' {
        cell := cell + ['"'];
        index := index + 2;
        continue;
      }
      if !inQuotes && (character == '\n' || character == '\r') {
        NumberedAfterLineEnd(Numbered(Records(text), 1), rows, line, text, index, cells, cell);
        if character == '\r' && index + 1 < |text| && text[index + 1] == '\n' {
          index := index + 1;
        }
        cells, cell := cells + [cell], [];
        var keep := SomeNonEmpty(cells);
        if keep {
          rows := rows + [NumberedRow(if rowStarted then rowStartLine else line, cells)];
        }
        cells, rowStarted, line := [], false, line + 1;
        index := index + 1;
        continue;
      }
      if !rowStarted {
        rowStartLine, rowStarted := line, true;
      }
      if character == '"' {
        inQuotes := !inQuotes;
      } else if !inQuotes && character == ',' {
        cells, cell := cells + [cell], [];
      } else {
        cell := cell + [character];
      }
      index := index + 1;
    }
    assert text[index..] == [];
    NumberedAtEnd(Numbered(Records(text), 1), rows, line, cells, cell, inQuotes);
    if |cell| > 0 || |cells| > 0 {
      cells := cells + [cell];
      rows := rows + [NumberedRow(if rowStarted then rowStartLine else line, cells)];
    }
  }

  /** All tokenizers return the same cells; the guard's copy only adds the numbers. */
  lemma {:induction false} NumberedCells(records: seq<Record>, line: int)
    ensures Cells(Numbered(records, line)) == KeptCells(records)
  {
    if records != [] {
      NumberedCells(records[1..], line + 1);
      CellsAppend(if Kept(records[0]) then [NumberedRow(line, records[0].cells)] else [], Numbered(records[1..], line + 1));
    }
  }

  lemma CellsAppend(a: seq<NumberedRow>, b: seq<NumberedRow>)
    ensures Cells(a + b) == Cells(a) + Cells(b)
  {
  }

  /** A row carries the number of the record it comes from: one plus the line ends that close earlier records. */
  lemma {:induction false} LineNumbersCountRecords(records: seq<Record>, line: int, k: nat)
    requires k < |Numbered(records, line)|
    ensures var row := Numbered(records, line)[k]; var i := row.lineNumber - line;
      0 <= i < |records| && records[i].cells == row.cells && Kept(records[i])
    ensures k > 0 ==> Numbered(records, line)[k - 1].lineNumber < Numbered(records, line)[k].lineNumber
  {
    var head := if Kept(records[0]) then 1 else 0;
    if k >= head {
      LineNumbersCountRecords(records[1..], line + 1, k - head);
      assert Numbered(records, line)[k] == Numbered(records[1..], line + 1)[k - head];
      if k > head {
        assert Numbered(records, line)[k - 1] == Numbered(records[1..], line + 1)[k - head - 1];
      }
    }
  }

  ghost predicate ClosedButLast(records: seq<Record>) {
    forall i :: 0 <= i < |records| - 1 ==> records[i].terminated
  }

  /** Every record but the last is closed by a line end outside quotes. */
  lemma {:induction false} OnlyTheLastIsOpen(text: string, row: Row, cell: string, quoted: bool)
    ensures ClosedButLast(Scan(text, row, cell, quoted))
    decreases |text|
  {
    if text == [] {
    } else if text[0] == '"' {
      if quoted && |text| > 1 && text[1] == '"' {
        OnlyTheLastIsOpen(text[2..], row, cell + ['"'], quoted);
      } else {
        OnlyTheLastIsOpen(text[1..], row, cell, !quoted);
      }
    } else if !quoted && text[0] == ',' {
      OnlyTheLastIsOpen(text[1..], row + [cell], [], quoted);
    } else if !quoted && IsLineEnd(text[0]) {
      OnlyTheLastIsOpen(text[LineEndWidth(text)..], [], [], quoted);
    } else {
      OnlyTheLastIsOpen(text[1..], row, cell + [text[0]], quoted);
    }
  }

  // ---- the single-line tokenizer ----

  function LineCells(text: string, row: Row, cell: string, quoted: bool): (r: Row)
    ensures |r| > |row|
    decreases |text|
  {
    if text == [] then row + [cell]
    else if text[0] == '"' && quoted && |text| > 1 && text[1] == '"' then LineCells(text[2..], row, cell + ['"'], quoted)
    else if text[0] == '"' then LineCells(text[1..], row, cell, !quoted)
    else if text[0] == ',' && !quoted then LineCells(text[1..], row + [cell], [], quoted)
    else LineCells(text[1..], row, cell + [text[0]], quoted)
  }

  method ParseCsvLine(line: string) returns (cells: Row)
    ensures cells == LineCells(line, [], [], false)
  {
    cells := [];
    var cell, quoted, index := [], false, 0;
    assert line[0..] == line;
    while index < |line|
      invariant index <= |line|
      invariant LineCells(line, [], [], false) == LineCells(line[index..], cells, cell, quoted)
    {
      var c := line[index];
      Drop(line, index, 1);
      if c == '"' && quoted && index + 1 < |line| && line[index + 1] == '"' {
        Drop(line, index, 2);
        cell := cell + ['"'];
        index := index + 1;
      } else if c == '"' {
        quoted := !quoted;
      } else if c == ',' && !quoted {
        cells, cell := cells + [cell], [];
      } else {
        cell := cell + [c];
      }
      index := index + 1;
    }
    assert line[index..] == [];
    cells := cells + [cell];
  }

  /** On one line the tokenizers agree, except that a lone empty cell is no row to the multi-line ones. */
  lemma {:induction false} SingleLineAgreement(text: string, row: Row, cell: string, quoted: bool)
    requires forall c :: c in text ==> !IsLineEnd(c)
    ensures Scan(text, row, cell, quoted) ==
      if LineCells(text, row, cell, quoted) == [[]] then [] else [Record(LineCells(text, row, cell, quoted), false)]
    decreases |text|
  {
    if text == [] {
      assert row + [cell] == [[]] <==> row == [] && cell == [] by {
        if row + [cell] == [[]] {
          assert |row + [cell]| == 1 && (row + [cell])[0] == [];
        }
      }
    } else if text[0] == '"' {
      if quoted && |text| > 1 && text[1] == '"' {
        SingleLineAgreement(text[2..], row, cell + ['"'], quoted);
      } else {
        SingleLineAgreement(text[1..], row, cell, !quoted);
      }
    } else if !quoted && text[0] == ',' {
      SingleLineAgreement(text[1..], row + [cell], [], quoted);
    } else {
      assert text[0] in text;
      SingleLineAgreement(text[1..], row, cell + [text[0]], quoted);
    }
  }

  // ---- the guard ----

  datatype Violation = Violation(lineNumber: int, id: string, columns: nat, expectedColumns: nat)
  datatype Report = Report(header: Row, expectedColumns: nat, dataRowCount: nat, ids: seq<string>, violations: seq<Violation>)

  function IdOf(row: Row): string {
    if row == [] then [] else row[0]
  }

  function Violations(rows: seq<NumberedRow>, columns: nat): seq<Violation> {
    if rows == [] then []
    else
      var k := |rows| - 1; var row := rows[k];
      Violations(rows[..k], columns)
      + (if |row.cells| == columns then [] else [Violation(row.lineNumber, IdOf(row.cells), |row.cells|, columns)])
  }

  function Ids(rows: seq<NumberedRow>): seq<string> {
    seq(|rows|, i requires 0 <= i < |rows| => IdOf(rows[i].cells))
  }

  method CheckCsv(text: string) returns (r: Report)
    ensures var rows := Numbered(Records(text), 1); var data := if rows == [] then [] else rows[1..];
      && r.header == (if rows == [] then [] else rows[0].cells)
      && r.expectedColumns == |r.header| && r.dataRowCount == |data| && r.ids == Ids(data)
      && r.violations == Violations(data, |r.header|)
  {
    var rows := ParseCsvRows(text);
    var header := if |rows| > 0 then rows[0].cells else [];
    var dataRows := if |rows| > 0 then rows[1..] else [];
    var violations: seq<Violation> := [];
    for k := 0 to |dataRows|
      invariant violations == Violations(dataRows[..k], |header|)
    {
      var row := dataRows[k];
      assert dataRows[..k + 1][..k] == dataRows[..k];
      if |row.cells| != |header| {
        violations := violations + [Violation(row.lineNumber, IdOf(row.cells), |row.cells|, |header|)];
      }
    }
    TakeAll(dataRows);
    return Report(header, |header|, |dataRows|, Ids(dataRows), violations);
  }

  /** The ids reported are the first cells of the data rows, in order. */
  lemma IdsAreFirstCells(rows: seq<NumberedRow>)
    ensures |Ids(rows)| == |rows|
    ensures forall i :: 0 <= i < |rows| ==> Ids(rows)[i] == if rows[i].cells == [] then "" else rows[i].cells[0]
  {
  }

  predicate Distinct(header: Row) {
    forall i, j :: 0 <= i < j < |header| ==> header[i] != header[j]
  }

  /** A row put together again from its record, in header order. */
  function Rebuild(header: Row, record: map<string, string>): Row {
    seq(|header|, i requires 0 <= i < |header| => if header[i] in record then record[header[i]] else [])
  }

  lemma {:induction false} RecordHolds(header: Row, row: Row, i: nat)
    requires Distinct(header) && i < |header|
    ensures header[i] in RecordOf(header, row)
    ensures RecordOf(header, row)[header[i]] == if i < |row| then row[i] else []
  {
    var k := |header| - 1;
    if i < k {
      RecordHolds(header[..k], row, i);
    }
  }

  /** A record has exactly the header's names. */
  lemma {:induction false} RecordKeys(header: Row, row: Row, key: string)
    ensures key in RecordOf(header, row) <==> key in header
  {
    if header != [] {
      RecordKeys(header[..|header| - 1], row, key);
      InitAndLast(header);
    }
  }

  /** A name's value is the cell under its last column, empty where the row is too short. */
  lemma {:induction false} RecordHoldsLast(header: Row, row: Row, i: nat)
    requires i < |header| && forall j :: i < j < |header| ==> header[j] != header[i]
    ensures header[i] in RecordOf(header, row)
    ensures RecordOf(header, row)[header[i]] == if i < |row| then row[i] else ""
  {
    var k := |header| - 1;
    if i < k {
      assert header[k] != header[i];
      RecordHoldsLast(header[..k], row, i);
    }
  }

  /** Under distinct header names a row survives the mapping exactly when it has the header's number of columns. */
  lemma RebuiltExactlyWhen(header: Row, row: Row)
    requires Distinct(header)
    ensures Rebuild(header, RecordOf(header, row)) == row <==> |row| == |header|
  {
    var back := Rebuild(header, RecordOf(header, row));
    forall i | 0 <= i < |header| ensures back[i] == if i < |row| then row[i] else [] {
      RecordHolds(header, row, i);
    }
  }

  lemma {:induction false} NoViolations(rows: seq<NumberedRow>, columns: nat)
    ensures Violations(rows, columns) == [] <==> forall i :: 0 <= i < |rows| ==> |rows[i].cells| == columns
  {
    if rows != [] {
      NoViolations(rows[..|rows| - 1], columns);
    }
  }

  /** The violations are exactly the rows of another width, each with its own line, id and width. */
  lemma {:induction false} ViolationsExactly(rows: seq<NumberedRow>, columns: nat, v: Violation)
    ensures v in Violations(rows, columns) <==>
      exists i :: 0 <= i < |rows| && |rows[i].cells| != columns
        && v.lineNumber == rows[i].lineNumber && v.id == (if rows[i].cells == [] then "" else rows[i].cells[0])
        && v.columns == |rows[i].cells| && v.expectedColumns == columns
  {
    if rows != [] {
      var k := |rows| - 1;
      ViolationsExactly(rows[..k], columns, v);
      assert forall i :: 0 <= i < k ==> rows[..k][i] == rows[i];
    }
  }

  /**
   The guard is sound and complete for the parsers it protects: on a text with distinct header
   names it reports nothing if and only if every data row can be rebuilt from the record
   the header-mapped parse makes of it.
   */
  lemma GuardProtectsRecords(text: string)
    requires Rows(text) != [] && Distinct(Rows(text)[0])
    ensures var rows, numbered := Rows(text), Numbered(Records(text), 1);
      && |numbered| == |rows| && |UnderHeader(rows)| == |rows| - 1
      && (Violations(numbered[1..], |rows[0]|) == []
          <==> forall i :: 0 <= i < |rows| - 1 ==> Rebuild(rows[0], UnderHeader(rows)[i]) == rows[i + 1])
  {
    var rows, numbered := Rows(text), Numbered(Records(text), 1);
    NumberedCells(Records(text), 1);
    NoViolations(numbered[1..], |rows[0]|);
    forall i | 0 <= i < |rows| - 1
      ensures Rebuild(rows[0], UnderHeader(rows)[i]) == rows[i + 1] <==> |numbered[1..][i].cells| == |rows[0]|
    {
      RebuiltExactlyWhen(rows[0], rows[i + 1]);
      assert Cells(numbered)[i + 1] == numbered[1..][i].cells;
      assert UnderHeader(rows)[i] == RecordOf(rows[0], rows[1..][i]);
    }
  }
}
