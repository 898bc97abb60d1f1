/** The CSV text of the history table, and a reader that gives the cells back. */
module CsvExport {
  import opened Wrappers

  type Row = seq<string>
  type Grid = seq<Row>

  // --- writing ---

  predicate NeedsQuotes(s: string) {
    ',' in s || '"' in s || '\n' in s || '\r' in s
  }

  function Doubled(s: string): string {
    if s == [] then []
    else (if s[0] == '"' then ['"', '"'] else [s[0]]) + Doubled(s[1..])
  }

  function CsvEscape(s: string): string {
    if NeedsQuotes(s) then "\"" + Doubled(s) + "\"" else s
  }

  function Join(parts: seq<string>, separator: char): string {
    if parts == [] then ""
    else if |parts| == 1 then parts[0]
    else parts[0] + [separator] + Join(parts[1..], separator)
  }

  function Escaped(row: Row): Row {
    seq(|row|, i requires 0 <= i < |row| => CsvEscape(row[i]))
  }

  function Line(row: Row): string {
    Join(Escaped(row), ',')
  }

  function Text(grid: Grid): string {
    Join(seq(|grid|, i requires 0 <= i < |grid| => Line(grid[i])), '\n')
  }

  // --- reading, as section 2 of RFC 4180 describes the format, with LF between records ---

  /** A cell and what follows it: nothing, or a separator and more. */
  datatype Cell = Cell(value: string, rest: string)

  predicate AtSeparator(s: string) {
    s == [] || s[0] == ',' || s[0] == '\n'
  }

  /** The inside of a quoted cell, up to its closing quote; a doubled quote stands for one. */
  function ReadQuoted(s: string): (c: Option<Cell>)
    ensures c.Some? ==> |c.value.rest| < |s|
  {
    if s == [] then None
    else if s[0] != '"' then Prefixed(s[0], ReadQuoted(s[1..]))
    else if |s| > 1 && s[1] == '"' then Prefixed('"', ReadQuoted(s[2..]))
    else Some(Cell("", s[1..]))
  }

  /** An unquoted cell; quotes and carriage returns are not allowed in one. */
  function ReadPlain(s: string): (c: Option<Cell>)
    ensures c.Some? ==> |c.value.rest| <= |s| && AtSeparator(c.value.rest)
  {
    if AtSeparator(s) then Some(Cell("", s))
    else if s[0] == '"' || s[0] == '\r' then None
    else Prefixed(s[0], ReadPlain(s[1..]))
  }

  function Prefixed(c: char, cell: Option<Cell>): (r: Option<Cell>)
    ensures r.Some? <==> cell.Some?
    ensures r.Some? ==> r.value == Cell([c] + cell.value.value, cell.value.rest)
  {
    if cell.None? then None else Some(Cell([c] + cell.value.value, cell.value.rest))
  }

  function ReadCell(s: string): (c: Option<Cell>)
    ensures c.Some? ==> |c.value.rest| <= |s| && AtSeparator(c.value.rest)
  {
    if s != [] && s[0] == '"' then
      var quoted := ReadQuoted(s[1..]);
      if quoted.Some? && AtSeparator(quoted.value.rest) then quoted else None
    else ReadPlain(s)
  }

  /** All records of a text. */
  function Read(s: string): (grid: Option<Grid>)
    ensures grid.Some? ==> grid.value != []
    decreases |s|
  {
    match ReadCell(s)
    case None => None
    case Some(Cell(value, rest)) =>
      if rest == [] then Some([[value]])
      else
        match Read(rest[1..])
        case None => None
        case Some(rows) => Some(if rest[0] == ',' then [[value] + rows[0]] + rows[1..] else [[value]] + rows)
  }

  // --- the round trip ---

  lemma {:induction false} QuotedReadsBack(s: string, tail: string)
    requires tail == [] || tail[0] != '"'
    ensures ReadQuoted(Doubled(s) + "\"" + tail) == Some(Cell(s, tail))
  {
    var text := Doubled(s) + "\"" + tail;
    if s == [] {
      assert text == "\"" + tail;
    } else {
      var rest := Doubled(s[1..]) + "\"" + tail;
      QuotedReadsBack(s[1..], tail);
      assert text == (if s[0] == '"' then ['"', '"'] else [s[0]]) + rest;
      assert s == [s[0]] + s[1..];
    }
  }

  lemma ReadPlainNext(s: string)
    requires !AtSeparator(s) && s[0] != '"' && s[0] != '\r'
    ensures ReadPlain(s) == Prefixed(s[0], ReadPlain(s[1..]))
  {
  }

  lemma {:induction false} PlainReadsBack(s: string, tail: string)
    requires !NeedsQuotes(s) && AtSeparator(tail)
    ensures ReadPlain(s + tail) == Some(Cell(s, tail))
  {
    if s == [] {
      assert s + tail == tail;
    } else {
      assert s[0] in s && forall c :: c in s[1..] ==> c in s;
      PlainReadsBack(s[1..], tail);
      assert (s + tail)[0] == s[0] && (s + tail)[1..] == s[1..] + tail;
      ReadPlainNext(s + tail);
      assert s == [s[0]] + s[1..];
    }
  }

  lemma QuotedCell(text: string, s: string, tail: string)
    requires AtSeparator(tail) && text == "\"" + (Doubled(s) + "\"" + tail)
    ensures ReadCell(text) == Some(Cell(s, tail))
  {
    assert text[0] == '"' && text[1..] == Doubled(s) + "\"" + tail;
    QuotedReadsBack(s, tail);
  }

  lemma PlainCell(text: string, s: string, tail: string)
    requires !NeedsQuotes(s) && AtSeparator(tail) && text == s + tail
    ensures ReadCell(text) == Some(Cell(s, tail))
  {
    assert s != [] ==> text[0] == s[0] && s[0] in s;
    PlainReadsBack(s, tail);
  }

  /** Whatever a cell holds, reading its escaped form before a separator gives it back. */
  lemma CellReadsBack(s: string, tail: string)
    requires AtSeparator(tail)
    ensures ReadCell(CsvEscape(s) + tail) == Some(Cell(s, tail))
  {
    var text := CsvEscape(s) + tail;
    if NeedsQuotes(s) {
      assert text == "\"" + (Doubled(s) + "\"" + tail);
      QuotedCell(text, s, tail);
    } else {
      PlainCell(text, s, tail);
    }
  }

  lemma ReadNext(s: string, value: string, separator: char, more: string, rows: Grid)
    requires ReadCell(s) == Some(Cell(value, [separator] + more)) && Read(more) == Some(rows)
    ensures Read(s) == Some(if separator == ',' then [[value] + rows[0]] + rows[1..] else [[value]] + rows)
  {
    assert ([separator] + more)[1..] == more;
  }

  lemma JoinedInTurn(a: string, b: string, c: string)
    ensures a + b + c == a + (b + c)
  {
  }

  /** Reading one escaped cell, its separator and a readable rest. */
  lemma ReadStep(cell: string, separator: char, more: string, rows: Grid)
    requires (separator == ',' || separator == '\n') && Read(more) == Some(rows)
    ensures Read(CsvEscape(cell) + [separator] + more) ==
            Some(if separator == ',' then [[cell] + rows[0]] + rows[1..] else [[cell]] + rows)
  {
    var tail := [separator] + more;
    CellReadsBack(cell, tail);
    JoinedInTurn(CsvEscape(cell), [separator], more);
    ReadNext(CsvEscape(cell) + tail, cell, separator, more, rows);
  }

  lemma TextByCell(grid: Grid)
    requires grid != [] && grid[0] != []
    ensures |grid[0]| > 1 ==> Text(grid) == CsvEscape(grid[0][0]) + "," + Text([grid[0][1..]] + grid[1..])
    ensures |grid[0]| == 1 && |grid| > 1 ==> Text(grid) == CsvEscape(grid[0][0]) + "\n" + Text(grid[1..])
    ensures |grid[0]| == 1 && |grid| == 1 ==> Text(grid) == CsvEscape(grid[0][0])
  {
    var row := grid[0];
    var lines := seq(|grid|, i requires 0 <= i < |grid| => Line(grid[i]));
    var after := seq(|grid[1..]|, i requires 0 <= i < |grid[1..]| => Line(grid[1..][i]));
    assert lines[1..] == after;
    if |row| > 1 {
      assert Escaped(row)[1..] == Escaped(row[1..]);
      assert Line(row) == CsvEscape(row[0]) + "," + Line(row[1..]);
      var g := [row[1..]] + grid[1..];
      var lines' := seq(|g|, i requires 0 <= i < |g| => Line(g[i]));
      assert lines'[1..] == after;
      assert lines'[0] == Line(row[1..]);
      if |grid| == 1 {
        assert Text(grid) == Line(row) && Text(g) == Line(row[1..]);
      } else {
        assert Text(grid) == Line(row) + "\n" + Join(after, '\n');
        assert Text(g) == Line(row[1..]) + "\n" + Join(after, '\n');
      }
    } else {
      assert Line(row) == CsvEscape(row[0]);
    }
  }

  lemma {:induction false} TextReadsBack(grid: Grid)
    requires grid != [] && forall i :: 0 <= i < |grid| ==> grid[i] != []
    ensures Read(Text(grid)) == Some(grid)
    decreases |grid|, |grid[0]|
  {
    var cell := grid[0][0];
    TextByCell(grid);
    if |grid[0]| > 1 {
      var g := [grid[0][1..]] + grid[1..];
      TextReadsBack(g);
      ReadStep(cell, ',', Text(g), g);
      assert [cell] + g[0] == grid[0] && [grid[0]] + g[1..] == grid;
    } else if |grid| > 1 {
      TextReadsBack(grid[1..]);
      ReadStep(cell, '\n', Text(grid[1..]), grid[1..]);
      assert grid[0] == [cell] && [[cell]] + grid[1..] == grid;
    } else {
      CellReadsBack(cell, "");
      assert CsvEscape(cell) + "" == CsvEscape(cell);
      assert grid[0] == [cell] && grid == [[cell]];
    }
  }

  // --- grids without cells ---

  /** A row without cells prints like one empty cell, and no rows at all like one such row. */
  function Filled(grid: Grid): Grid {
    if grid == [] then [[""]]
    else seq(|grid|, i requires 0 <= i < |grid| => if grid[i] == [] then [""] else grid[i])
  }

  /** The text of any grid reads back as the grid with its missing cells filled in. */
  lemma AnyTextReadsBack(grid: Grid)
    ensures Read(Text(grid)) == Some(Filled(grid))
  {
    var full := Filled(grid);
    var xs := seq(|grid|, i requires 0 <= i < |grid| => Line(grid[i]));
    var ys := seq(|full|, i requires 0 <= i < |full| => Line(full[i]));
    assert Escaped([]) == [] && Escaped([""]) == [""];
    if grid == [] {
      assert ys == [""];
    } else {
      assert xs == ys;
    }
    TextReadsBack(full);
  }

  /** The round trip returns the grid itself if and only if it has a row and every row has a cell. */
  lemma RoundTripIff(grid: Grid)
    ensures Read(Text(grid)) == Some(grid) <==> grid != [] && forall i :: 0 <= i < |grid| ==> grid[i] != []
  {
    AnyTextReadsBack(grid);
    if grid != [] && Filled(grid) == grid {
      forall i | 0 <= i < |grid| ensures grid[i] != [] {
        assert Filled(grid)[i] != [];
      }
    }
    if grid != [] && forall i :: 0 <= i < |grid| ==> grid[i] != [] {
      assert Filled(grid) == grid;
    }
  }

  // --- the exported file ---

  datatype Record = Record(timestamp: string, symbol: string, amountUsdt: string, tranId: string)

  const BOM := '\U{FEFF}'

  const HEADER: Row := ["时间", "合约", "金额（USDT）", "交易 ID"]

  function Rows(shown: seq<Record>, formatTimestamp: string -> string): Grid {
    seq(|shown|, i requires 0 <= i < |shown| =>
      [formatTimestamp(shown[i].timestamp), shown[i].symbol, shown[i].amountUsdt, shown[i].tranId])
  }

  function ExportCsv(shown: seq<Record>, formatTimestamp: string -> string): string {
    [BOM] + Text([HEADER] + Rows(shown, formatTimestamp))
  }

  /** Reading a file: drop the byte order mark if there is one. */
  function ReadFile(s: string): Option<Grid> {
    if s != [] && s[0] == BOM then Read(s[1..]) else Read(s)
  }

  /** The exported file reads back as the header and one row for each record shown, in order, cell by cell. */
  lemma ExportReadsBack(shown: seq<Record>, formatTimestamp: string -> string)
    ensures ReadFile(ExportCsv(shown, formatTimestamp)) == Some([HEADER] + Rows(shown, formatTimestamp))
  {
    var grid := [HEADER] + Rows(shown, formatTimestamp);
    assert ([BOM] + Text(grid))[1..] == Text(grid);
    TextReadsBack(grid);
  }

  lemma HeaderIs()
    ensures HEADER == ["时间", "合约", "金额（USDT）", "交易 ID"]
  {
  }

  ghost predicate HoldsCells(row: Row, r: Record, formatTimestamp: string -> string) {
    |row| == 4 && row[0] == formatTimestamp(r.timestamp) && row[1] == r.symbol && row[2] == r.amountUsdt &&
      row[3] == r.tranId
  }

  lemma RowCells(grid: Grid, header: Row, shown: seq<Record>, formatTimestamp: string -> string)
    requires grid == [header] + Rows(shown, formatTimestamp)
    ensures |grid| == |shown| + 1 && grid[0] == header
    ensures forall i :: 0 <= i < |shown| ==> HoldsCells(grid[i + 1], shown[i], formatTimestamp)
  {
    forall i | 0 <= i < |shown| ensures HoldsCells(grid[i + 1], shown[i], formatTimestamp) {
      assert grid[i + 1] == Rows(shown, formatTimestamp)[i];
    }
  }

  /** The cells of the file: the four headings, then time, symbol, amount and transaction id of each record shown. */
  lemma ExportedCells(shown: seq<Record>, formatTimestamp: string -> string) returns (grid: Grid)
    ensures ReadFile(ExportCsv(shown, formatTimestamp)) == Some(grid)
    ensures |grid| == |shown| + 1 && grid[0] == ["时间", "合约", "金额（USDT）", "交易 ID"]
    ensures forall i :: 0 <= i < |shown| ==> HoldsCells(grid[i + 1], shown[i], formatTimestamp)
  {
    grid := [HEADER] + Rows(shown, formatTimestamp);
    ExportReadsBack(shown, formatTimestamp);
    HeaderIs();
    RowCells(grid, HEADER, shown, formatTimestamp);
  }

  /** The file is a byte order mark and then the text of the grid. */
  lemma ExportStartsWithMark(shown: seq<Record>, formatTimestamp: string -> string)
    ensures var file := ExportCsv(shown, formatTimestamp);
            file != [] && file[0] == '\U{FEFF}' && file[1..] == Text([HEADER] + Rows(shown, formatTimestamp))
  {
  }

  /** A cell is written as it is if and only if it holds no comma, quote, line feed or carriage return. */
  lemma QuotedOnlyIfNeeded(s: string)
    ensures CsvEscape(s) == s <==>
            forall i :: 0 <= i < |s| ==> s[i] != ',' && s[i] != '"' && s[i] != '\n' && s[i] != '\r'
    ensures var t := CsvEscape(s);
            t != s ==> (|t| >= |s| + 2 && t[0] == '"' && t[|t| - 1] == '"')
  {
    DoubledGrows(s);
  }

  lemma {:induction false} DoubledGrows(s: string)
    ensures |Doubled(s)| >= |s|
  {
    if s != [] {
      DoubledGrows(s[1..]);
    }
  }
}
