/** The comma-separated reader of the licence check, against a printer in the manner of section 2 of RFC 4180. */
module Csv {
  import opened JsHeap

  type Text = seq<Unit>
  type Row = seq<Text>

  const QUOTE: Unit := 34
  const COMMA: Unit := 44
  const LF: Unit := 10
  const CR: Unit := 13

  datatype Mode = Unquoted | Quoted | AfterQuote

  /** The rest of a text read from this state on; `None` is a thrown error. */
  function Scan(text: Text, mode: Mode, field: Text, row: Row, rows: seq<Row>): Option<seq<Row>>
    decreases |text|
  {
    if text == [] then
      if mode.Quoted? then None
      else if field != [] || row != [] then Some(rows + [row + [field]])
      else Some(rows)
    else
      var c, rest := text[0], text[1..];
      match mode
      case Quoted =>
        if c == QUOTE then
          if rest != [] && rest[0] == QUOTE then Scan(rest[1..], Quoted, field + [QUOTE], row, rows)
          else Scan(rest, AfterQuote, field, row, rows)
        else Scan(rest, Quoted, field + [c], row, rows)
      case AfterQuote =>
        if c == COMMA then Scan(rest, Unquoted, [], row + [field], rows)
        else if c == LF then Scan(rest, Unquoted, [], [], rows + [row + [field]])
        else if c == CR then Scan(rest, AfterQuote, field, row, rows)
        else None
      case Unquoted =>
        if c == QUOTE && field == [] then Scan(rest, Quoted, field, row, rows)
        else if c == COMMA then Scan(rest, Unquoted, [], row + [field], rows)
        else if c == LF then Scan(rest, Unquoted, [], [], rows + [row + [field]])
        else if c == CR then Scan(rest, Unquoted, field, row, rows)
        else Scan(rest, Unquoted, field + [c], row, rows)
  }

  function Parsed(text: Text): Option<seq<Row>> {
    Scan(text, Unquoted, [], [], [])
  }

  /** The loop over the characters, with its cursor, field and row. */
  class Parser {
    const content: Text
    var rows: seq<Row>
    var row: Row
    var field: Text
    var mode: Mode

    constructor (content: Text)
      ensures this.content == content && rows == [] && row == [] && field == [] && mode == Unquoted
    {
      this.content, rows, row, field, mode := content, [], [], [], Unquoted;
    }

    /** What the text from this index on parses to, from the present state. */
    function Rest(index: nat): Option<seq<Row>>
      requires index <= |content|
      reads this
    {
      Scan(content[index..], mode, field, row, rows)
    }

    method FinishField()
      modifies this
      ensures row == old(row) + [old(field)] && field == [] && mode == Unquoted && rows == old(rows)
    {
      row, field, mode := row + [field], [], Unquoted;
    }

    method FinishRow()
      modifies this
      ensures rows == old(rows) + [old(row) + [old(field)]] && row == [] && field == [] && mode == Unquoted
    {
      FinishField();
      rows, row := rows + [row], [];
    }

    /** One character of a quoted field, or two for a doubled quote; the index of the last one. */
    method ConsumeQuotedCharacter(index: nat) returns (last: nat)
      requires index < |content| && mode == Quoted
      modifies this
      ensures index <= last < |content|
      ensures Rest(last + 1) == old(Rest(index))
    {
      var character := content[index];
      last := index;
      assert content[index..][1..] == content[index + 1..];
      if character == QUOTE {
        if index + 1 < |content| && content[index + 1] == QUOTE {
          field := field + [QUOTE];
          last := index + 1;
          assert content[index + 1..][1..] == content[index + 2..];
        } else {
          mode := AfterQuote;
        }
      } else {
        field := field + [character];
      }
    }

    method ConsumeAfterQuote(index: nat) returns (threw: bool)
      requires index < |content| && mode == AfterQuote
      modifies this
      ensures threw ==> old(Rest(index)).None?
      ensures !threw ==> Rest(index + 1) == old(Rest(index))
    {
      assert content[index..][1..] == content[index + 1..];
      threw := false;
      var character := content[index];
      if character == COMMA {
        FinishField();
      } else if character == LF {
        FinishRow();
      } else if character != CR {
        threw := true;
      }
    }

    method ConsumeUnquotedCharacter(index: nat)
      requires index < |content| && mode == Unquoted
      modifies this
      ensures Rest(index + 1) == old(Rest(index))
    {
      assert content[index..][1..] == content[index + 1..];
      var character := content[index];
      if character == QUOTE && |field| == 0 {
        mode := Quoted;
      } else if character == COMMA {
        FinishField();
      } else if character == LF {
        FinishRow();
      } else if character != CR {
        field := field + [character];
      }
    }

    method Run() returns (threw: bool)
      requires rows == [] && row == [] && field == [] && mode == Unquoted
      modifies this
      ensures if threw then Parsed(content).None? else Parsed(content) == Some(rows)
    {
      var index := 0;
      assert content[0..] == content;
      while index < |content|
        invariant index <= |content| && Rest(index) == Parsed(content)
      {
        match mode {
          case Quoted => index := ConsumeQuotedCharacter(index);
          case AfterQuote =>
            var bad := ConsumeAfterQuote(index);
            if bad {
              return true;
            }
          case Unquoted => ConsumeUnquotedCharacter(index);
        }
        index := index + 1;
      }
      if mode == Quoted {
        return true;
      }
      if |field| > 0 || |row| > 0 {
        FinishRow();
      }
      threw := false;
    }
  }

  method ParseCsv(content: Text) returns (r: Option<seq<Row>>)
    ensures r == Parsed(content)
  {
    var parser := new Parser(content);
    var threw := parser.Run();
    r := if threw then None else Some(parser.rows);
  }

  /** A field to print, in quotes or bare; only texts without special characters can be bare. */
  datatype Cell = Cell(text: Text, quoted: bool)

  predicate Printable(c: Cell) {
    c.quoted || (QUOTE !in c.text && COMMA !in c.text && LF !in c.text && CR !in c.text)
  }

  function Doubled(text: Text): Text {
    if text == [] then []
    else (if text[0] == QUOTE then [QUOTE, QUOTE] else [text[0]]) + Doubled(text[1..])
  }

  function PrintCell(c: Cell): Text {
    if c.quoted then [QUOTE] + Doubled(c.text) + [QUOTE] else c.text
  }

  function PrintCells(cells: seq<Cell>): Text
    requires cells != []
  {
    if |cells| == 1 then PrintCell(cells[0]) else PrintCell(cells[0]) + [COMMA] + PrintCells(cells[1..])
  }

  /** A row and its line ending; either ending may be chosen for each row. */
  datatype Line = Line(cells: seq<Cell>, crlf: bool)

  predicate PrintableLine(line: Line) {
    line.cells != [] && forall c :: c in line.cells ==> Printable(c)
  }

  function PrintLine(line: Line): Text
    requires PrintableLine(line)
  {
    PrintCells(line.cells) + if line.crlf then [CR, LF] else [LF]
  }

  function PrintLines(lines: seq<Line>): Text
    requires forall line :: line in lines ==> PrintableLine(line)
  {
    if lines == [] then [] else PrintLine(lines[0]) + PrintLines(lines[1..])
  }

  function Texts(cells: seq<Cell>): (row: Row)
    ensures |row| == |cells|
  {
    if cells == [] then [] else [cells[0].text] + Texts(cells[1..])
  }

  function Rows(lines: seq<Line>): seq<Row> {
    if lines == [] then [] else [Texts(lines[0].cells)] + Rows(lines[1..])
  }

  lemma {:induction false} ScanBare(text: Text, rest: Text, field: Text, row: Row, rows: seq<Row>)
    requires QUOTE !in text && COMMA !in text && LF !in text && CR !in text
    ensures Scan(text + rest, Unquoted, field, row, rows) == Scan(rest, Unquoted, field + text, row, rows)
    decreases |text|
  {
    if text == [] {
      assert text + rest == rest && field + text == field;
    } else {
      assert (text + rest)[1..] == text[1..] + rest && field + [text[0]] + text[1..] == field + text;
      ScanBare(text[1..], rest, field + [text[0]], row, rows);
    }
  }

  lemma {:induction false} ScanDoubled(text: Text, rest: Text, field: Text, row: Row, rows: seq<Row>)
    requires rest == [] || rest[0] != QUOTE
    ensures Scan(Doubled(text) + [QUOTE] + rest, Quoted, field, row, rows)
            == Scan(rest, AfterQuote, field + text, row, rows)
    decreases |text|
  {
    var whole := Doubled(text) + [QUOTE] + rest;
    if text == [] {
      assert whole == [QUOTE] + rest && whole[1..] == rest && field + text == field;
    } else {
      var next := Doubled(text[1..]) + [QUOTE] + rest;
      assert field + [text[0]] + text[1..] == field + text;
      if text[0] == QUOTE {
        assert whole == [QUOTE, QUOTE] + next && whole[1..][1..] == next;
      } else {
        assert whole == [text[0]] + next && whole[1..] == next;
      }
      ScanDoubled(text[1..], rest, field + [text[0]], row, rows);
    }
  }

  function Ended(c: Cell): Mode {
    if c.quoted then AfterQuote else Unquoted
  }

  lemma ScanCell(c: Cell, rest: Text, row: Row, rows: seq<Row>)
    requires Printable(c) && (rest == [] || rest[0] != QUOTE)
    ensures Scan(PrintCell(c) + rest, Unquoted, [], row, rows) == Scan(rest, Ended(c), c.text, row, rows)
  {
    if c.quoted {
      var inner := Doubled(c.text) + [QUOTE] + rest;
      assert PrintCell(c) + rest == [QUOTE] + inner && ([QUOTE] + inner)[1..] == inner;
      ScanDoubled(c.text, rest, [], row, rows);
      assert [] + c.text == c.text;
    } else {
      ScanBare(c.text, rest, [], row, rows);
      assert [] + c.text == c.text;
    }
  }

  lemma ScanComma(mode: Mode, field: Text, rest: Text, row: Row, rows: seq<Row>)
    requires !mode.Quoted?
    ensures Scan([COMMA] + rest, mode, field, row, rows) == Scan(rest, Unquoted, [], row + [field], rows)
  {
    assert ([COMMA] + rest)[1..] == rest;
  }

  lemma ScanCellAndComma(c: Cell, rest: Text, row: Row, rows: seq<Row>)
    requires Printable(c)
    ensures Scan(PrintCell(c) + ([COMMA] + rest), Unquoted, [], row, rows)
            == Scan(rest, Unquoted, [], row + [c.text], rows)
  {
    ScanCell(c, [COMMA] + rest, row, rows);
    ScanComma(Ended(c), c.text, rest, row, rows);
  }

  function LastOf(cells: seq<Cell>): Cell
    requires cells != []
  {
    cells[|cells| - 1]
  }

  /** All cells of a row but the last are finished, and the last one has been read. */
  lemma {:induction false} ScanCells(cells: seq<Cell>, rest: Text, row: Row, rows: seq<Row>)
    requires cells != [] && (forall c :: c in cells ==> Printable(c)) && (rest == [] || rest[0] != QUOTE)
    ensures Scan(PrintCells(cells) + rest, Unquoted, [], row, rows)
         == Scan(rest, Ended(LastOf(cells)), LastOf(cells).text, row + Texts(cells)[..|cells| - 1], rows)
    decreases |cells|
  {
    var c := cells[0];
    if |cells| == 1 {
      ScanCell(c, rest, row, rows);
      assert row + Texts(cells)[..0] == row;
    } else {
      var more := PrintCells(cells[1..]) + rest;
      FirstCell(cells, rest);
      ScanCellAndComma(c, more, row, rows);
      ScanCells(cells[1..], rest, row + [c.text], rows);
      FirstText(cells, row);
    }
  }

  lemma FirstCell(cells: seq<Cell>, rest: Text)
    requires |cells| > 1
    ensures PrintCells(cells) + rest == PrintCell(cells[0]) + ([COMMA] + (PrintCells(cells[1..]) + rest))
  {
  }

  lemma FirstText(cells: seq<Cell>, row: Row)
    requires |cells| > 1
    ensures row + [cells[0].text] + Texts(cells[1..])[..|cells| - 2] == row + Texts(cells)[..|cells| - 1]
  {
  }

  lemma {:induction false} LastText(cells: seq<Cell>)
    requires cells != []
    ensures Texts(cells)[..|cells| - 1] + [LastOf(cells).text] == Texts(cells)
    decreases |cells|
  {
    if |cells| > 1 {
      LastText(cells[1..]);
      assert Texts(cells)[..|cells| - 1] == [cells[0].text] + Texts(cells[1..])[..|cells| - 2];
    }
  }

  lemma ScanLine(line: Line, rest: Text, rows: seq<Row>)
    requires PrintableLine(line)
    ensures Scan(PrintLine(line) + rest, Unquoted, [], [], rows)
            == Scan(rest, Unquoted, [], [], rows + [Texts(line.cells)])
  {
    var cells, ending := line.cells, if line.crlf then [CR, LF] else [LF];
    var last := LastOf(cells);
    assert PrintLine(line) + rest == PrintCells(cells) + (ending + rest);
    ScanCells(cells, ending + rest, [], rows);
    LastText(cells);
    var row := [] + Texts(cells)[..|cells| - 1];
    assert row + [last.text] == Texts(cells);
    if line.crlf {
      assert (ending + rest)[1..] == [LF] + rest && ([LF] + rest)[1..] == rest;
    } else {
      assert (ending + rest)[1..] == rest;
    }
  }

  lemma {:induction false} ScanLines(lines: seq<Line>, rest: Text, rows: seq<Row>)
    requires forall line :: line in lines ==> PrintableLine(line)
    ensures Scan(PrintLines(lines) + rest, Unquoted, [], [], rows) == Scan(rest, Unquoted, [], [], rows + Rows(lines))
    decreases |lines|
  {
    if lines == [] {
      assert PrintLines(lines) + rest == rest && rows + Rows(lines) == rows;
    } else {
      assert PrintLines(lines) + rest == PrintLine(lines[0]) + (PrintLines(lines[1..]) + rest);
      ScanLine(lines[0], PrintLines(lines[1..]) + rest, rows);
      ScanLines(lines[1..], rest, rows + [Texts(lines[0].cells)]);
      assert rows + [Texts(lines[0].cells)] + Rows(lines[1..]) == rows + Rows(lines);
    }
  }

  /** Every table reads back from its printed lines, whatever its fields hold and however they are quoted and ended. */
  lemma ParsePrinted(lines: seq<Line>)
    requires forall line :: line in lines ==> PrintableLine(line)
    ensures Parsed(PrintLines(lines)) == Some(Rows(lines))
  {
    ScanLines(lines, [], []);
    assert PrintLines(lines) + [] == PrintLines(lines);
    assert [] + Rows(lines) == Rows(lines);
  }

  /** A last line without an ending reads back too, unless it is a single empty field, which is lost. */
  lemma ParseUnterminated(lines: seq<Line>, cells: seq<Cell>)
    requires forall line :: line in lines ==> PrintableLine(line)
    requires cells != [] && forall c :: c in cells ==> Printable(c)
    ensures (Parsed(PrintLines(lines) + PrintCells(cells)) == Some(Rows(lines) + [Texts(cells)])) <==>
            Texts(cells) != [[]]
  {
    ScanLines(lines, PrintCells(cells), []);
    var rows := [] + Rows(lines);
    ScanCells(cells, [], [], rows);
    assert PrintCells(cells) + [] == PrintCells(cells);
    LastText(cells);
    var row := [] + Texts(cells)[..|cells| - 1];
    assert row + [LastOf(cells).text] == Texts(cells) && rows == Rows(lines);
    if Texts(cells) == [[]] {
      assert row == [] && LastOf(cells).text == [];
      assert |rows| != |rows + [Texts(cells)]|;
    }
  }
}
