/**
 The quote-aware CSV tokenizers. One scanner defines what all copies must return; each copy
 is a loop proved against it.
 */
module Csv {
  import opened Prelude

  type Row = seq<string>

  /** A record as it stands in the text, with or without a line end behind it. */
  datatype Record = Record(cells: Row, terminated: bool)

  /** The records of `text`, continued from an unfinished row, an unfinished cell and the quote state. */
  function Scan(text: string, row: Row, cell: string, quoted: bool): seq<Record>
    decreases |text|
  {
    if text == [] then
      if cell != [] || row != [] then [Record(row + [cell], false)] else []
    else if text[0] == '"' then
      if quoted && |text| > 1 && text[1] == '"' then Scan(text[2..], row, cell + ['"'], quoted)
      else Scan(text[1..], row, cell, !quoted)
    else if !quoted && text[0] == ',' then Scan(text[1..], row + [cell], [], quoted)
    else if !quoted && IsLineEnd(text[0]) then
      [Record(row + [cell], true)] + Scan(text[LineEndWidth(text)..], [], [], quoted)
    else Scan(text[1..], row, cell + [text[0]], quoted)
  }

  predicate IsLineEnd(c: char) {
    c == '\n' || c == '\r'
  }

  /** CR LF counts as one line end. */
  function LineEndWidth(text: string): (n: nat)
    requires text != []
    ensures 1 <= n <= |text|
  {
    if text[0] == '\r' && |text| > 1 && text[1] == '\n' then 2 else 1
  }

  function Records(text: string): seq<Record> {
    Scan(text, [], [], false)
  }

  predicate IsBlank(row: Row) {
    forall i :: 0 <= i < |row| ==> row[i] == []
  }

  /** Blank records disappear, but only when a line end follows them. */
  predicate Kept(r: Record) {
    !r.terminated || !IsBlank(r.cells)
  }

  function KeptCells(records: seq<Record>): seq<Row> {
    if records == [] then []
    else (if Kept(records[0]) then [records[0].cells] else []) + KeptCells(records[1..])
  }

  /** The rows every tokenizer returns. */
  function Rows(text: string): seq<Row> {
    KeptCells(Records(text))
  }

  datatype NumberedRow = NumberedRow(lineNumber: int, cells: Row)

  /** The kept records, each with its place among all records. */
  function Numbered(records: seq<Record>, line: int): seq<NumberedRow> {
    if records == [] then []
    else (if Kept(records[0]) then [NumberedRow(line, records[0].cells)] else []) + Numbered(records[1..], line + 1)
  }

  function Cells(rows: seq<NumberedRow>): (r: seq<Row>)
    ensures |r| == |rows|
  {
    seq(|rows|, i requires 0 <= i < |rows| => rows[i].cells)
  }

  /** cells.some(value => value.length > 0). */
  method SomeNonEmpty(cells: Row) returns (found: bool)
    ensures found <==> !IsBlank(cells)
  {
    for i := 0 to |cells|
      invariant forall j :: 0 <= j < i ==> cells[j] == []
    {
      if |cells[i]| > 0 {
        return true;
      }
    }
    return false;
  }

  /** What the rest of the text adds to the rows found so far. */
  ghost predicate StepsTo(all: seq<Row>, rows: seq<Row>, rest: string, row: Row, cell: string, quoted: bool) {
    all == rows + KeptCells(Scan(rest, row, cell, quoted))
  }

  lemma AtEnd(all: seq<Row>, rows: seq<Row>, row: Row, cell: string, quoted: bool)
    requires StepsTo(all, rows, [], row, cell, quoted)
    ensures all == if cell != [] || row != [] then rows + [row + [cell]] else rows
  {
    var records := Scan([], row, cell, quoted);
    if records != [] {
      assert records[0] == Record(row + [cell], false) && records[1..] == [];
      assert KeptCells(records) == [row + [cell]] + [];
    } else {
      assert rows + [] == rows;
    }
  }

  lemma Drop<T>(text: seq<T>, index: nat, n: nat)
    requires index + n <= |text|
    ensures text[index..][n..] == text[index + n..]
  {
  }

  predicate IsEscapedQuote(text: string, index: nat, quoted: bool)
    requires index < |text|
  {
    text[index] == '"' && quoted && index + 1 < |text| && text[index + 1] == '"'
  }

  /** One round of a tokenizer's loop that does not end a record. */
  lemma WithinRecord(text: string, index: nat, row: Row, cell: string, quoted: bool)
    requires index < |text| && (quoted || !IsLineEnd(text[index]))
    ensures Scan(text[index..], row, cell, quoted) ==
      if IsEscapedQuote(text, index, quoted) then Scan(text[index + 2..], row, cell + ['"'], quoted)
      else if text[index] == '"' then Scan(text[index + 1..], row, cell, !quoted)
      else if !quoted && text[index] == ',' then Scan(text[index + 1..], row + [cell], [], quoted)
      else Scan(text[index + 1..], row, cell + [text[index]], quoted)
  {
    Drop(text, index, 1);
    if IsEscapedQuote(text, index, quoted) {
      Drop(text, index, 2);
    }
  }

  /** The width of the line end at `index`. */
  function WidthAt(text: string, index: nat): (n: nat)
    requires index < |text|
    ensures index + n <= |text|
  {
    if text[index] == '\r' && index + 1 < |text| && text[index + 1] == '\n' then 2 else 1
  }

  lemma EndOfRecord(text: string, index: nat)
    requires index < |text|
    ensures text[index..][LineEndWidth(text[index..])..] == text[index + WidthAt(text, index)..]
  {
    Drop(text, index, WidthAt(text, index));
  }

  lemma AfterLineEnd(all: seq<Row>, rows: seq<Row>, text: string, index: nat, row: Row, cell: string)
    requires index < |text| && IsLineEnd(text[index]) && StepsTo(all, rows, text[index..], row, cell, false)
    ensures StepsTo(all, if IsBlank(row + [cell]) then rows else rows + [row + [cell]],
                    text[index + WidthAt(text, index)..], [], [], false)
  {
    var rest := text[index..];
    EndOfRecord(text, index);
    var records := Scan(rest, row, cell, false);
    assert records[0] == Record(row + [cell], true) && records[1..] == Scan(rest[LineEndWidth(rest)..], [], [], false);
    Assoc(rows, [row + [cell]], KeptCells(records[1..]));
  }

  // ---- scripts/auditTraceabilitySteward.js ----

  /** A row under its header: missing cells are empty, later columns of the same name win. */
  function RecordOf(header: Row, row: Row): map<string, string> {
    if header == [] then map[]
    else
      var k := |header| - 1;
      RecordOf(header[..k], row)[header[k] := if k < |row| then row[k] else []]
  }

  function MapRows(header: Row, body: seq<Row>): (r: seq<map<string, string>>)
    ensures |r| == |body|
  {
    seq(|body|, i requires 0 <= i < |body| => RecordOf(header, body[i]))
  }

  /** What a header-mapped parse returns for the given rows. */
  function UnderHeader(rows: seq<Row>): seq<map<string, string>> {
    if rows == [] then [] else MapRows(rows[0], rows[1..])
  }

  method StewardRows(text: string) returns (rows: seq<Row>)
    ensures rows == Rows(text)
  {
    hide Scan, KeptCells;
    rows := [];
    assert Rows(text) == [] + KeptCells(Scan(text, [], [], false));
    var currentRow: Row, currentCell, inQuotes, index := [], [], false, 0;
    assert text[0..] == text;
    while index < |text|
      invariant index <= |text|
      invariant StepsTo(Rows(text), rows, text[index..], currentRow, currentCell, inQuotes)
    {
      var character := text[index];
      if inQuotes || !IsLineEnd(character) {
        WithinRecord(text, index, currentRow, currentCell, inQuotes);
      }
      if character == '"' && inQuotes && index + 1 < |text| && text[index + 1] == '"' {
        currentCell := currentCell + ['"'];
        index := index + 1;
      } else if character == '"' {
        inQuotes := !inQuotes;
      } else if !inQuotes && character == ',' {
        currentRow := currentRow + [currentCell];
        currentCell := [];
      } else if !inQuotes && (character == '\n' || character == '\r') {
        AfterLineEnd(Rows(text), rows, text, index, currentRow, currentCell);
        if character == '\r' && index + 1 < |text| && text[index + 1] == '\n' {
          index := index + 1;
        }
        currentRow := currentRow + [currentCell];
        currentCell := [];
        var keep := SomeNonEmpty(currentRow);
        if keep {
          rows := rows + [currentRow];
        }
        currentRow := [];
      } else {
        currentCell := currentCell + [character];
      }
      index := index + 1;
    }
    assert text[index..] == [];
    AtEnd(Rows(text), rows, currentRow, currentCell, inQuotes);
    if |currentCell| > 0 || |currentRow| > 0 {
      rows := rows + [currentRow + [currentCell]];
    }
  }

  method StewardParseCsv(text: string) returns (records: seq<map<string, string>>)
    ensures records == UnderHeader(Rows(text))
  {
    var rows := StewardRows(text);
    records := if rows == [] then [] else MapRows(rows[0], rows[1..]);
  }

  // ---- scripts/mapCoverageToTraceability.js ----

  /** parseCsv of the coverage map: the quote cases are nested differently, and the header defaults to []. */
  method CoverageParseCsv(text: string) returns (records: seq<map<string, string>>)
    ensures records == UnderHeader(Rows(text))
  {
    hide Scan, KeptCells;
    var rows: seq<Row> := [];
    assert Rows(text) == [] + KeptCells(Scan(text, [], [], false));
    var currentRow: Row, currentCell, inQuotes, index := [], [], false, 0;
    assert text[0..] == text;
    while index < |text|
      invariant index <= |text|
      invariant StepsTo(Rows(text), rows, text[index..], currentRow, currentCell, inQuotes)
    {
      var character := text[index];
      if inQuotes || !IsLineEnd(character) {
        WithinRecord(text, index, currentRow, currentCell, inQuotes);
      }
      if character == '"' {
        if inQuotes && index + 1 < |text| && text[index + 1] == '"' {
          currentCell := currentCell + ['"'];
          index := index + 1;
        } else {
          inQuotes := !inQuotes;
        }
      } else if !inQuotes && character == ',' {
        currentRow := currentRow + [currentCell];
        currentCell := [];
      } else if !inQuotes && (character == '\n' || character == '\r') {
        AfterLineEnd(Rows(text), rows, text, index, currentRow, currentCell);
        if character == '\r' && index + 1 < |text| && text[index + 1] == '\n' {
          index := index + 1;
        }
        currentRow := currentRow + [currentCell];
        var keep := SomeNonEmpty(currentRow);
        if keep {
          rows := rows + [currentRow];
        }
        currentRow, currentCell := [], [];
      } else {
        currentCell := currentCell + [character];
      }
      index := index + 1;
    }
    assert text[index..] == [];
    AtEnd(Rows(text), rows, currentRow, currentCell, inQuotes);
    if |currentCell| > 0 || |currentRow| > 0 {
      rows := rows + [currentRow + [currentCell]];
    }
    var headers, body := if rows == [] then [] else rows[0], if rows == [] then [] else rows[1..];
    return MapRows(headers, body);
  }
}
