/**
 What the row numbers of the column guard's tokenizer mean in the text: they count the line
 ends outside quotes before the row, and they are physical line numbers exactly as long as no
 line end stands inside quotes.
 */
module CsvLines {
  import opened Prelude
  import opened Csv
  import opened CsvGuard

  // ---- positions and line ends, without tokenizing ----

  /** The quote state behind `t`: every quote character switches it. */
  predicate QuotedBehind(t: string, quoted: bool) {
    if t == [] then quoted else QuotedBehind(t[1..], if t[0] == '"' then !quoted else quoted)
  }

  /** The line ends of `t` that stand outside quotes, CR LF counted once. */
  function OutsideEnds(t: string, quoted: bool): nat {
    if t == [] then 0
    else if t[0] == '"' then OutsideEnds(t[1..], !quoted)
    else if IsLineEnd(t[0]) then (if quoted then 0 else 1) + OutsideEnds(t[LineEndWidth(t)..], quoted)
    else OutsideEnds(t[1..], quoted)
  }

  /** All line ends of `t`. */
  function LineEnds(t: string): nat {
    if t == [] then 0
    else if IsLineEnd(t[0]) then 1 + LineEnds(t[LineEndWidth(t)..])
    else LineEnds(t[1..])
  }

  /** The number a text editor shows for the line of position `pos`. */
  function PhysicalLine(text: string, pos: nat): nat
    requires pos <= |text|
  {
    1 + LineEnds(text[..pos])
  }

  /** The start of the text, or right behind a whole line end. */
  predicate AtLineStart(text: string, pos: nat)
    requires pos <= |text|
  {
    pos == 0 || (IsLineEnd(text[pos - 1]) && !(text[pos - 1] == '\r' && pos < |text| && text[pos] == '\n'))
  }

  /** A line starts at `pos`, and not inside quotes. */
  predicate OutsideLineStart(text: string, pos: nat, quoted: bool)
    requires pos <= |text|
  {
    AtLineStart(text, pos) && !QuotedBehind(text[..pos], quoted)
  }

  // ---- what the scanner makes of the text up to such a position ----

  lemma PrefixStep(text: string, pos: nat, n: nat)
    requires n <= pos <= |text|
    ensures text[..pos][n..] == text[n..][..pos - n]
    ensures text[n..][pos - n..] == text[pos..]
    ensures forall i :: 0 <= i < n ==> text[..pos][i] == text[i]
  {
  }

  lemma LineStartStep(text: string, pos: nat, n: nat)
    requires n < pos <= |text| && AtLineStart(text, pos)
    ensures AtLineStart(text[n..], pos - n)
  {
    assert text[n..][pos - n - 1] == text[pos - 1];
    assert pos < |text| ==> text[n..][pos - n] == text[pos];
  }

  /** A line end is never cut by the start of a line. */
  lemma LineEndFits(text: string, pos: nat)
    requires 0 < pos <= |text| && AtLineStart(text, pos) && IsLineEnd(text[0])
    ensures LineEndWidth(text) <= pos && LineEndWidth(text[..pos]) == LineEndWidth(text)
    ensures AtLineStart(text[LineEndWidth(text)..], pos - LineEndWidth(text))
  {
    var w := LineEndWidth(text);
    if pos > w {
      LineStartStep(text, pos, w);
    }
  }

  lemma QuotedStep(t: string, n: nat, quoted: bool)
    requires n <= |t| && forall i :: 0 <= i < n ==> t[i] != '"'
    ensures QuotedBehind(t, quoted) == QuotedBehind(t[n..], quoted)
    decreases n
  {
    if n == 0 {
      assert t[0..] == t;
    } else {
      QuotedStep(t[1..], n - 1, quoted);
      Drop(t, 1, n - 1);
    }
  }

  /** Every record that is closed before `pos` is closed by one line end outside quotes, and the rest of the text is tokenized as if it stood alone. */
  lemma {:induction false} RecordsBehind(text: string, pos: nat, row: Row, cell: string, quoted: bool)
    requires pos <= |text| && OutsideLineStart(text, pos, quoted)
    requires pos == 0 ==> row == [] && cell == []
    ensures var n := OutsideEnds(text[..pos], quoted);
      n <= |Scan(text, row, cell, quoted)| && Scan(text, row, cell, quoted)[n..] == Records(text[pos..])
    decreases |text|
  {
    if pos == 0 {
      assert text[..0] == [] && text[0..] == text;
      assert Scan(text, row, cell, quoted)[0..] == Records(text);
    } else if text[0] == '"' {
      QuoteBehind(text, pos, row, cell, quoted);
    } else if IsLineEnd(text[0]) && !quoted {
      LineEndBehind(text, pos, row, cell);
    } else {
      OtherBehind(text, pos, row, cell, quoted);
    }
  }

  /** A doubled quote inside quotes leaves the quote state as it is. */
  lemma EscapedPair(t: string)
    requires |t| >= 2 && t[0] == '"' && t[1] == '"'
    ensures QuotedBehind(t, true) == QuotedBehind(t[2..], true)
    ensures OutsideEnds(t, true) == OutsideEnds(t[2..], true)
  {
    assert t[1..][0] == '"' && t[1..][1..] == t[2..];
  }

  lemma QuoteBehind(text: string, pos: nat, row: Row, cell: string, quoted: bool)
    requires 0 < pos <= |text| && OutsideLineStart(text, pos, quoted) && text[0] == '"'
    ensures var n := OutsideEnds(text[..pos], quoted);
      n <= |Scan(text, row, cell, quoted)| && Scan(text, row, cell, quoted)[n..] == Records(text[pos..])
    decreases |text|, 0
  {
    assert pos > 1;
    PrefixStep(text, pos, 1);
    if quoted && text[1] == '"' {
      PrefixStep(text, pos, 2);
      EscapedPair(text[..pos]);
      LineStartStep(text, pos, 2);
      RecordsBehind(text[2..], pos - 2, row, cell + ['"'], quoted);
    } else {
      LineStartStep(text, pos, 1);
      RecordsBehind(text[1..], pos - 1, row, cell, !quoted);
    }
  }

  lemma LineEndBehind(text: string, pos: nat, row: Row, cell: string)
    requires 0 < pos <= |text| && OutsideLineStart(text, pos, false) && IsLineEnd(text[0])
    ensures var n := OutsideEnds(text[..pos], false);
      n <= |Scan(text, row, cell, false)| && Scan(text, row, cell, false)[n..] == Records(text[pos..])
    decreases |text|, 0
  {
    var w := LineEndWidth(text);
    LineEndFits(text, pos);
    PrefixStep(text, pos, w);
    QuotedStep(text[..pos], w, false);
    RecordsBehind(text[w..], pos - w, [], [], false);
    var rest := Scan(text[w..], [], [], false);
    assert ([Record(row + [cell], true)] + rest)[1..] == rest;
    Drop([Record(row + [cell], true)] + rest, 1, OutsideEnds(text[w..][..pos - w], false));
  }

  lemma OtherBehind(text: string, pos: nat, row: Row, cell: string, quoted: bool)
    requires 0 < pos <= |text| && OutsideLineStart(text, pos, quoted) && text[0] != '"' && (quoted || !IsLineEnd(text[0]))
    ensures var n := OutsideEnds(text[..pos], quoted);
      n <= |Scan(text, row, cell, quoted)| && Scan(text, row, cell, quoted)[n..] == Records(text[pos..])
    decreases |text|, 0
  {
    PrefixStep(text, pos, 1);
    QuotedStep(text[..pos], 1, quoted);
    assert text[1..][..0] == [];
    LineStartStep(text, pos, 1);
    if !quoted && text[0] == ',' {
      RecordsBehind(text[1..], pos - 1, row + [cell], [], quoted);
    } else {
      RecordsBehind(text[1..], pos - 1, row, cell + [text[0]], quoted);
      EndsAfterOne(text[..pos], quoted);
    }
  }

  /** What is not a quote and not a line end outside quotes does not count, however a CR LF is cut. */
  lemma EndsAfterOne(t: string, quoted: bool)
    requires t != [] && t[0] != '"' && (quoted || !IsLineEnd(t[0]))
    ensures OutsideEnds(t, quoted) == OutsideEnds(t[1..], quoted)
  {
    if IsLineEnd(t[0]) && LineEndWidth(t) == 2 {
      Drop(t, 1, 1);
    }
  }

  // ---- every record has such a position ----

  lemma LineStartBack(text: string, n: nat, pos: nat)
    requires n <= |text| && 0 < pos <= |text[n..]| && AtLineStart(text[n..], pos)
    ensures AtLineStart(text, n + pos)
  {
    assert text[n..][pos - 1] == text[n + pos - 1];
    assert pos < |text[n..]| ==> text[n..][pos] == text[n + pos];
  }

  /** A position where a line starts outside quotes with `i` line ends outside quotes before it. */
  ghost predicate Follows(text: string, quoted: bool, i: nat, pos: nat) {
    0 < pos <= |text| && OutsideLineStart(text, pos, quoted) && OutsideEnds(text[..pos], quoted) == i
  }

  lemma FollowsQuote(text: string, quoted: bool, i: nat, pos: nat)
    requires text != [] && text[0] == '"' && Follows(text[1..], !quoted, i, pos)
    ensures Follows(text, quoted, i, pos + 1)
  {
    LineStartBack(text, 1, pos);
    PrefixStep(text, pos + 1, 1);
  }

  lemma FollowsPair(text: string, i: nat, pos: nat)
    requires |text| >= 2 && text[0] == '"' && text[1] == '"' && Follows(text[2..], true, i, pos)
    ensures Follows(text, true, i, pos + 2)
  {
    LineStartBack(text, 2, pos);
    PrefixStep(text, pos + 2, 2);
    EscapedPair(text[..pos + 2]);
  }

  lemma FollowsOther(text: string, quoted: bool, i: nat, pos: nat)
    requires text != [] && text[0] != '"' && (quoted || !IsLineEnd(text[0])) && Follows(text[1..], quoted, i, pos)
    ensures Follows(text, quoted, i, pos + 1)
  {
    LineStartBack(text, 1, pos);
    PrefixStep(text, pos + 1, 1);
    QuotedStep(text[..pos + 1], 1, quoted);
    EndsAfterOne(text[..pos + 1], quoted);
  }

  lemma FollowsLineEnd(text: string, i: nat, pos: nat)
    requires text != [] && IsLineEnd(text[0]) && Follows(text[LineEndWidth(text)..], false, i, pos)
    ensures Follows(text, false, i + 1, pos + LineEndWidth(text))
  {
    var w := LineEndWidth(text);
    LineStartBack(text, w, pos);
    LineEndFits(text, pos + w);
    PrefixStep(text, pos + w, w);
    QuotedStep(text[..pos + w], w, false);
  }

  lemma FirstFollows(text: string)
    requires text != [] && IsLineEnd(text[0])
    ensures Follows(text, false, 1, LineEndWidth(text))
  {
    var w := LineEndWidth(text);
    LineEndFits(text, w);
    QuotedStep(text[..w], w, false);
    assert text[..w][w..] == [];
  }

  lemma {:induction false} PositionOf(text: string, row: Row, cell: string, quoted: bool, i: nat) returns (pos: nat)
    requires 0 < i < |Scan(text, row, cell, quoted)|
    ensures Follows(text, quoted, i, pos)
    decreases |text|
  {
    if text[0] == '"' {
      if quoted && |text| > 1 && text[1] == '"' {
        pos := PositionOf(text[2..], row, cell + ['"'], quoted, i);
        FollowsPair(text, i, pos);
        pos := pos + 2;
      } else {
        pos := PositionOf(text[1..], row, cell, !quoted, i);
        FollowsQuote(text, quoted, i, pos);
        pos := pos + 1;
      }
    } else if !quoted && IsLineEnd(text[0]) {
      var w := LineEndWidth(text);
      if i == 1 {
        FirstFollows(text);
        pos := w;
      } else {
        pos := PositionOf(text[w..], [], [], false, i - 1);
        FollowsLineEnd(text, i - 1, pos);
        pos := pos + w;
      }
    } else {
      if !quoted && text[0] == ',' {
        pos := PositionOf(text[1..], row + [cell], [], quoted, i);
      } else {
        pos := PositionOf(text[1..], row, cell + [text[0]], quoted, i);
      }
      FollowsOther(text, quoted, i, pos);
      pos := pos + 1;
    }
  }

  // ---- rows ----

  /** Row `k` starts at `pos`: a line outside quotes, from which on the text holds exactly the rows from `k` on. */
  ghost predicate RowStartsAt(text: string, k: nat, pos: nat) {
    && pos <= |text| && OutsideLineStart(text, pos, false)
    && Records(text[pos..]) != [] && Kept(Records(text[pos..])[0])
    && k <= |Rows(text)| && Rows(text)[k..] == Rows(text[pos..])
  }

  lemma {:induction false} KeptAppend(a: seq<Record>, b: seq<Record>)
    ensures KeptCells(a + b) == KeptCells(a) + KeptCells(b)
  {
    if a == [] {
      assert a + b == b;
    } else {
      assert (a + b)[1..] == a[1..] + b;
      KeptAppend(a[1..], b);
      Assoc(if Kept(a[0]) then [a[0].cells] else [], KeptCells(a[1..]), KeptCells(b));
    }
  }

  lemma {:induction false} NumberedAppend(a: seq<Record>, b: seq<Record>, line: int)
    ensures Numbered(a + b, line) == Numbered(a, line) + Numbered(b, line + |a|)
  {
    if a == [] {
      assert a + b == b;
    } else {
      assert (a + b)[1..] == a[1..] + b;
      NumberedAppend(a[1..], b, line + 1);
      Assoc(if Kept(a[0]) then [NumberedRow(line, a[0].cells)] else [], Numbered(a[1..], line + 1), Numbered(b, line + |a|));
    }
  }

  lemma {:induction false} KeptAt(records: seq<Record>, k: nat) returns (i: nat)
    requires k < |KeptCells(records)|
    ensures i < |records| && Kept(records[i]) && |KeptCells(records[..i])| == k
  {
    if Kept(records[0]) && k == 0 {
      i := 0;
    } else {
      i := KeptAt(records[1..], if Kept(records[0]) then k - 1 else k);
      assert records[..i + 1] == [records[0]] + records[1..][..i];
      KeptAppend([records[0]], records[1..][..i]);
      assert [records[0]][1..] == [];
      i := i + 1;
    }
  }

  /** Every row starts somewhere. */
  lemma RowStart(text: string, k: nat) returns (pos: nat)
    requires k < |Rows(text)|
    ensures RowStartsAt(text, k, pos)
  {
    var records := Records(text);
    var i := KeptAt(records, k);
    if i == 0 {
      pos := 0;
      assert text[..0] == [];
    } else {
      pos := PositionOf(text, [], [], false, i);
    }
    RecordsBehind(text, pos, [], [], false);
    assert records == records[..i] + records[i..];
    KeptAppend(records[..i], records[i..]);
    assert Records(text[pos..]) == records[i..];
  }

  /** The number of a row is one more than the line ends outside quotes before its start. */
  lemma RowNumberCountsOutsideEnds(text: string, k: nat, pos: nat)
    requires k < |Numbered(Records(text), 1)| && RowStartsAt(text, k, pos)
    ensures Numbered(Records(text), 1)[k].lineNumber == 1 + OutsideEnds(text[..pos], false)
    ensures Numbered(Records(text), 1)[k].cells == Records(text[pos..])[0].cells
  {
    var records, n := Records(text), OutsideEnds(text[..pos], false);
    RecordsBehind(text, pos, [], [], false);
    var a, b := records[..n], records[n..];
    assert records == a + b;
    KeptAppend(a, b);
    NumberedAppend(a, b, 1);
    NumberedCells(a, 1);
    NumberedCells(records, 1);
    assert |KeptCells(a)| == k;
    assert Numbered(b, 1 + n)[0] == NumberedRow(1 + n, b[0].cells);
  }

  // ---- physical lines ----

  /** No line end stands inside quotes. */
  ghost predicate NoneInside(t: string, quoted: bool) {
    forall i :: 0 <= i < |t| && IsLineEnd(t[i]) ==> !QuotedBehind(t[..i], quoted)
  }

  lemma NoneInsideStep(t: string, quoted: bool)
    requires t != []
    ensures NoneInside(t, quoted)
      <==> (IsLineEnd(t[0]) ==> !quoted) && NoneInside(t[1..], if t[0] == '"' then !quoted else quoted)
  {
    var next := if t[0] == '"' then !quoted else quoted;
    assert t[..0] == [];
    forall i | 0 <= i < |t| - 1
      ensures t[1..][i] == t[i + 1] && QuotedBehind(t[1..][..i], next) == QuotedBehind(t[..i + 1], quoted)
    {
      assert t[..i + 1][1..] == t[1..][..i];
    }
    if NoneInside(t, quoted) {
      forall i | 0 <= i < |t[1..]| && IsLineEnd(t[1..][i]) ensures !QuotedBehind(t[1..][..i], next) {
        assert IsLineEnd(t[i + 1]);
      }
    }
    if (IsLineEnd(t[0]) ==> !quoted) && NoneInside(t[1..], next) {
      forall i | 0 <= i < |t| && IsLineEnd(t[i]) ensures !QuotedBehind(t[..i], quoted) {
        if i > 0 {
          assert IsLineEnd(t[1..][i - 1]);
        }
      }
    }
  }

  lemma {:induction false} OutsideAndInside(t: string, quoted: bool)
    ensures OutsideEnds(t, quoted) <= LineEnds(t)
    ensures OutsideEnds(t, quoted) == LineEnds(t) <==> NoneInside(t, quoted)
    decreases |t|
  {
    if t != [] {
      NoneInsideStep(t, quoted);
      if IsLineEnd(t[0]) && LineEndWidth(t) == 2 {
        NoneInsideStep(t[1..], quoted);
        Drop(t, 1, 1);
        OutsideAndInside(t[2..], quoted);
      } else {
        OutsideAndInside(t[1..], if t[0] == '"' then !quoted else quoted);
      }
    }
  }

  /** A row carries the number of the physical line it starts on if and only if no line end before it stands inside quotes. */
  lemma RowNumberIsPhysicalExactlyWhen(text: string, k: nat, pos: nat)
    requires k < |Numbered(Records(text), 1)| && RowStartsAt(text, k, pos)
    ensures Numbered(Records(text), 1)[k].lineNumber <= PhysicalLine(text, pos)
    ensures Numbered(Records(text), 1)[k].lineNumber == PhysicalLine(text, pos)
      <==> forall i :: 0 <= i < pos && IsLineEnd(text[i]) ==> !QuotedBehind(text[..i], false)
  {
    RowNumberCountsOutsideEnds(text, k, pos);
    OutsideAndInside(text[..pos], false);
    assert forall i :: 0 <= i < pos ==> text[..pos][i] == text[i] && text[..pos][..i] == text[..i];
  }
}
