/**
 * printResultSet, printSeparator and printRow: the layout of a query result.
 * The result set is given as its column descriptors and its rows; each row
 * holds one possibly-null value per column. The lines the renderer prints are
 * returned instead of printed.
 */
module Renderer {
  import opened Wrappers
  import opened JavaString

  /** A column descriptor: its label and the display size the driver suggests. */
  datatype Column = Column(columnLabel: string, displaySize: int)

  const MinWidth: int := 5
  const MaxWidth: int := 40

  /** The single character that marks a truncated cell (U+2026). */
  const Ellipsis: char := '\U{2026}'

  /** The ANSI escapes that make a header cell bold and end the bold text. */
  const Bold: string := "\U{1B}[1m"
  const Reset: string := "\U{1B}[0m"

  /** What a null value prints as. */
  const NullText: string := "(null)"

  function Max(a: int, b: int): int { if a >= b then a else b }

  function Min(a: int, b: int): int { if a <= b then a else b }

  /**
   * The width of a column: the longer of its upper-cased label and its
   * display size, clamped to [5, 40].
   */
  function ColumnWidth(col: Column): (w: int)
    ensures MinWidth <= w <= MaxWidth
    ensures var natural := Max(|col.columnLabel|, col.displaySize);
            && (MinWidth <= natural <= MaxWidth ==> w == natural)
            && (natural > MaxWidth ==> w == MaxWidth)
            && (natural < MinWidth ==> w == MinWidth)
  {
    Max(Min(Max(|ToUpper(col.columnLabel)|, col.displaySize), MaxWidth), MinWidth)
  }

  function Widths(columns: seq<Column>): (ws: seq<int>)
    ensures |ws| == |columns|
  {
    seq(|columns|, i requires 0 <= i < |columns| => ColumnWidth(columns[i]))
  }

  /** The header: the column labels, upper-cased. */
  function Labels(columns: seq<Column>): (ls: seq<string>)
    ensures |ls| == |columns|
  {
    seq(|columns|, i requires 0 <= i < |columns| => ToUpper(columns[i].columnLabel))
  }

  /** A value as the renderer shows it: null becomes the text `(null)`. */
  function CellText(v: Option<string>): string {
    match v
    case None => NullText
    case Some(s) => s
  }

  /** The texts of one row of values. */
  function Cells(row: seq<Option<string>>): (cs: seq<string>)
    ensures |cs| == |row|
  {
    seq(|row|, i requires 0 <= i < |row| => CellText(row[i]))
  }

  predicate PositiveWidths(ws: seq<int>) { forall i :: 0 <= i < |ws| ==> ws[i] >= 1 }

  /**
   * A cell longer than its width keeps its first `w - 1` characters and ends
   * with the ellipsis; a cell that fits is left alone.
   */
  function Truncate(cell: string, w: int): string
    requires w >= 1
  {
    if |cell| > w then cell[..w - 1] + [Ellipsis] else cell
  }

  /**
   * A fitted cell is never wider than its column; it keeps the cell's
   * leading characters, and a cut cell ends with the ellipsis.
   */
  lemma TruncateFits(cell: string, w: int)
    requires w >= 1
    ensures var r := Truncate(cell, w);
            && |r| == Min(|cell|, w)
            && (r != [] ==> r[..|r| - 1] == cell[..|r| - 1])
            && (|cell| <= w ==> r == cell)
            && (|cell| > w ==> r[w - 1] == Ellipsis)
  {
  }

  /** String.format("%-" + w + "s", s): `s` left-justified in a field of width `w`. */
  function PadRight(s: string, w: int): string
  {
    if |s| < w then s + Repeat(' ', w - |s|) else s
  }

  /** Padding keeps the text at the front and fills up to the width with spaces. */
  lemma PadRightFills(s: string, w: int)
    ensures var r := PadRight(s, w);
            && |r| == Max(|s|, w)
            && r[..|s|] == s
            && forall k :: |s| <= k < |r| ==> r[k] == ' '
  {
  }

  /** One cell of a row: a space, the cell fitted to the width, a space and a bar. */
  function RenderCell(cell: string, w: int): string
    requires w >= 1
  {
    " " + PadRight(Truncate(cell, w), w) + " |"
  }

  /** A cell as it goes into a row; header cells are wrapped in the bold escapes. */
  function Piece(cell: string, w: int, header: bool): string
    requires w >= 1
  {
    if header then Bold + RenderCell(cell, w) + Reset else RenderCell(cell, w)
  }

  /** The cells of a row, each rendered at its column's width. */
  function RowBody(cells: seq<string>, ws: seq<int>, header: bool): string
    requires |cells| <= |ws| && PositiveWidths(ws)
    decreases |cells|
  {
    if cells == [] then []
    else
      var n := |cells| - 1;
      RowBody(cells[..n], ws, header) + Piece(cells[n], ws[n], header)
  }

  /** The line printRow prints. */
  function Row(cells: seq<string>, ws: seq<int>, header: bool): string
    requires |cells| <= |ws| && PositiveWidths(ws)
  {
    "|" + RowBody(cells, ws, header)
  }

  /** String.repeat refuses a negative count, so every width must be at least -2. */
  predicate SeparatorWidths(ws: seq<int>) { forall i :: 0 <= i < |ws| ==> ws[i] >= -2 }

  function SeparatorBody(ws: seq<int>): string
    requires SeparatorWidths(ws)
    decreases |ws|
  {
    if ws == [] then []
    else
      var n := |ws| - 1;
      SeparatorBody(ws[..n]) + Repeat('-', ws[n] + 2) + "+"
  }

  /** The line printSeparator prints: a dash run two longer than each width, between pluses. */
  function Separator(ws: seq<int>): string
    requires SeparatorWidths(ws)
  {
    "+" + SeparatorBody(ws)
  }

  /** The width of a table line: one leading character, then `w + 3` per column. */
  function TableWidth(ws: seq<int>): int
    decreases |ws|
  {
    if ws == [] then 1 else TableWidth(ws[..|ws| - 1]) + ws[|ws| - 1] + 3
  }

  /**
   * A rendered cell takes exactly `w + 3` characters. Between the leading
   * space and the trailing " |" stand the first `w - 1` characters and the
   * ellipsis when the cell is too long, and otherwise the cell padded with
   * spaces.
   */
  lemma RenderCellLayout(cell: string, w: int)
    requires w >= 1
    ensures var r := RenderCell(cell, w);
            && |r| == w + 3
            && r[0] == ' ' && r[w + 1..] == " |"
            && (|cell| > w ==> r[1..w + 1] == cell[..w - 1] + [Ellipsis])
            && (|cell| <= w ==> r[1..w + 1] == cell + Repeat(' ', w - |cell|))
  {
    var t := Truncate(cell, w);
    var p := PadRight(t, w);
    var r := RenderCell(cell, w);
    assert r == [' '] + p + [' ', '|'];
    assert r[1..w + 1] == p;
    if |cell| <= w {
      assert p == cell + Repeat(' ', w - |cell|) by {
        if |cell| == w { assert Repeat(' ', 0) == []; }
      }
    }
  }

  /** A rendered cell takes exactly `w + 3` characters. */
  lemma RenderCellWidth(cell: string, w: int)
    requires w >= 1
    ensures |RenderCell(cell, w)| == w + 3
  {
    TruncateFits(cell, w);
    PadRightFills(Truncate(cell, w), w);
  }

  /** A separator is as wide as the table. */
  lemma {:induction false} SeparatorLength(ws: seq<int>)
    requires SeparatorWidths(ws)
    ensures |Separator(ws)| == TableWidth(ws)
    decreases |ws|
  {
    if ws != [] {
      var n := |ws| - 1;
      SeparatorLength(ws[..n]);
    }
  }

  /** A data row with one cell per column is as wide as the table. */
  lemma {:induction false} RowLength(cells: seq<string>, ws: seq<int>)
    requires |cells| == |ws| && PositiveWidths(ws)
    ensures |Row(cells, ws, false)| == TableWidth(ws)
    decreases |ws|
  {
    if ws != [] {
      var n := |ws| - 1;
      RowLength(cells[..n], ws[..n]);
      RowBodyWidths(cells[..n], ws, ws[..n], false);
      RenderCellWidth(cells[n], ws[n]);
    }
  }

  /** A header row is as wide as the table plus the bold escapes around each cell. */
  lemma {:induction false} HeaderRowLength(cells: seq<string>, ws: seq<int>)
    requires |cells| == |ws| && PositiveWidths(ws)
    ensures |Row(cells, ws, true)| == TableWidth(ws) + (|Bold| + |Reset|) * |ws|
    decreases |ws|
  {
    if ws != [] {
      var n := |ws| - 1;
      HeaderRowLength(cells[..n], ws[..n]);
      RowBodyWidths(cells[..n], ws, ws[..n], true);
      RenderCellWidth(cells[n], ws[n]);
    }
  }

  /** A row body only looks at the widths of the columns it has cells for. */
  lemma {:induction false} RowBodyWidths(cells: seq<string>, ws: seq<int>, ws': seq<int>, header: bool)
    requires |cells| <= |ws| && |cells| <= |ws'| && PositiveWidths(ws) && PositiveWidths(ws')
    requires ws[..|cells|] == ws'[..|cells|]
    ensures RowBody(cells, ws, header) == RowBody(cells, ws', header)
    decreases |cells|
  {
    if cells != [] {
      var n := |cells| - 1;
      assert ws[n] == ws[..|cells|][n];
      RowBodyWidths(cells[..n], ws, ws', header);
    }
  }

  /** Every data row lines up with the separators above and below it. */
  lemma RowsAlignWithSeparator(cells: seq<string>, ws: seq<int>)
    requires |cells| == |ws| && PositiveWidths(ws)
    ensures |Row(cells, ws, false)| == |Separator(ws)|
  {
    RowLength(cells, ws);
    SeparatorLength(ws);
  }

  /**
   * A null value shows as `(null)` in any column at least six wide; at the
   * minimum width of five it is truncated like any other text, to `(nul…`.
   */
  lemma NullCellRendering(w: int)
    requires MinWidth <= w
    ensures w >= 6 ==> RenderCell(CellText(None), w)[1..7] == "(null)"
    ensures w == 5 ==> RenderCell(CellText(None), w)[1..6] == "(nul" + [Ellipsis]
  {
    RenderCellLayout(NullText, w);
    var r := RenderCell(NullText, w);
    if w >= 6 {
      assert r[1..7] == r[1..w + 1][..6];
      assert (NullText + Repeat(' ', w - 6))[..6] == NullText;
    }
  }

  // ---- the imperative renderer --------------------------------------------

  /** printSeparator: builds the separator for the column widths. */

  method PrintSeparator(widths: array<int>) returns (line: string)
    requires SeparatorWidths(widths[..])
    ensures line == Separator(widths[..])
  {
    var sb := "+";
    for i := 0 to widths.Length
      invariant sb == "+" + SeparatorBody(widths[..i])
    {
      assert widths[..i + 1][..i] == widths[..i];
      sb := sb + Repeat('-', widths[i] + 2) + "+";
    }
    assert widths[..widths.Length] == widths[..];
    line := sb;
  }

  /** printRow: builds a row, truncating each cell that is longer than its width. */
  method PrintRow(data: array<string>, widths: array<int>, isHeader: bool) returns (line: string)
    requires data.Length <= widths.Length && PositiveWidths(widths[..])
    ensures line == Row(data[..], widths[..], isHeader)
  {
    ghost var ws := widths[..];
    ghost var body: string := [];
    var sb := "|";
    for i := 0 to data.Length
      invariant body == RowBody(data[..i], ws, isHeader)
      invariant sb == "|" + body
    {
      var cell := data[i];
      if |cell| > widths[i] {
        cell := cell[..widths[i] - 1] + [Ellipsis];
      }
      assert cell == Truncate(data[i], ws[i]);
      var formatted := " " + PadRight(cell, widths[i]) + " |";
      assert formatted == RenderCell(data[i], ws[i]);
      var piece := if isHeader then Bold + formatted + Reset else formatted;
      assert piece == Piece(data[i], ws[i], isHeader);
      assert data[..i + 1][..i] == data[..i];
      AppendAssoc("|", body, piece);
      sb := sb + piece;
      body := body + piece;
    }
    assert data[..data.Length] == data[..];
    line := sb;
  }

  /** Rows whose values fill every column, as a result set delivers them. */
  predicate RowsFit(rows: seq<seq<Option<string>>>, n: int) {
    forall k :: 0 <= k < |rows| ==> |rows[k]| == n
  }

  /** The data lines of a table, one per row, in order. */
  function DataRows(rows: seq<seq<Option<string>>>, ws: seq<int>): (lines: seq<string>)
    requires RowsFit(rows, |ws|) && PositiveWidths(ws)
  {
    seq(|rows|, k requires 0 <= k < |rows| => Row(Cells(rows[k]), ws, false))
  }

  /** Printing the line of row `n` after the lines of the rows before it. */
  lemma DataRowsAppend(head: seq<string>, rows: seq<seq<Option<string>>>, ws: seq<int>, n: int, line: string)
    requires RowsFit(rows, |ws|) && PositiveWidths(ws) && 0 <= n < |rows|
    requires line == Row(Cells(rows[n]), ws, false)
    ensures head + DataRows(rows[..n], ws) + [line] == head + DataRows(rows[..n + 1], ws)
  {
    var before := DataRows(rows[..n], ws);
    var after := DataRows(rows[..n + 1], ws);
    forall j | 0 <= j < n
      ensures after[j] == before[j]
    {
      assert rows[..n + 1][j] == rows[..n][j];
    }
    assert after[n] == line;
    assert after == before + [line];
    AppendAssoc(head, before, [line]);
  }

  /**
   * What printResultSet prints: a blank line, a separator, the header, a
   * separator, one line per row and a closing separator.
   */
  function Table(columns: seq<Column>, rows: seq<seq<Option<string>>>): seq<string>
    requires RowsFit(rows, |columns|)
  {
    var ws := Widths(columns);
    Frame(Separator(ws), Row(Labels(columns), ws, true), DataRows(rows, ws))
  }

  /** A body of lines framed by separators, with the header on top and a blank line first. */
  function Frame(sep: string, header: string, body: seq<string>): seq<string> {
    [[], sep, header, sep] + body + [sep]
  }

  lemma FrameLines(sep: string, header: string, body: seq<string>)
    ensures var t := Frame(sep, header, body);
            && |t| == |body| + 5
            && t[0] == [] && t[1] == sep && t[2] == header && t[3] == sep && t[|t| - 1] == sep
            && forall k :: 0 <= k < |body| ==> t[4 + k] == body[k]
  {
  }

  /**
   * The frame of a printed table: the blank line, the separator, the header
   * and the separator again, and after the rows the closing separator.
   */
  lemma TableFrame(columns: seq<Column>, rows: seq<seq<Option<string>>>)
    requires RowsFit(rows, |columns|)
    ensures var t := Table(columns, rows);
            var ws := Widths(columns);
            && |t| == |rows| + 5
            && t[0] == []
            && t[1] == Separator(ws) && t[3] == t[1] && t[|t| - 1] == t[1]
            && t[2] == Row(Labels(columns), ws, true)
  {
    var ws := Widths(columns);
    FrameLines(Separator(ws), Row(Labels(columns), ws, true), DataRows(rows, ws));
  }

  /** Between the frame, the table holds one line per row, in the order of the rows. */
  lemma TableRows(columns: seq<Column>, rows: seq<seq<Option<string>>>)
    requires RowsFit(rows, |columns|)
    ensures forall k :: 0 <= k < |rows| ==>
              Table(columns, rows)[4 + k] == Row(Cells(rows[k]), Widths(columns), false)
  {
    var ws := Widths(columns);
    FrameLines(Separator(ws), Row(Labels(columns), ws, true), DataRows(rows, ws));
  }

  /**
   * Every line of a printed table but the blank one and the header is
   * exactly as wide as the table, so the separators and the data rows line
   * up.
   */
  lemma TableAligned(columns: seq<Column>, rows: seq<seq<Option<string>>>)
    requires RowsFit(rows, |columns|)
    ensures var t := Table(columns, rows);
            forall k :: 1 <= k < |t| && k != 2 ==> |t[k]| == TableWidth(Widths(columns))
  {
    forall k | 1 <= k < |Table(columns, rows)| && k != 2
      ensures |Table(columns, rows)[k]| == TableWidth(Widths(columns))
    {
      TableLineWidth(columns, rows, k);
    }
  }

  lemma TableLineWidth(columns: seq<Column>, rows: seq<seq<Option<string>>>, k: int)
    requires RowsFit(rows, |columns|)
    requires 1 <= k < |rows| + 5 && k != 2
    ensures |Table(columns, rows)[k]| == TableWidth(Widths(columns))
  {
    var ws := Widths(columns);
    var body := DataRows(rows, ws);
    if 4 <= k < |rows| + 4 {
      var cells := Cells(rows[k - 4]);
      assert Table(columns, rows)[k] == Row(cells, ws, false) by {
        FrameLines(Separator(ws), Row(Labels(columns), ws, true), body);
        assert body[k - 4] == Row(cells, ws, false);
      }
      RowLength(cells, ws);
    } else {
      assert Table(columns, rows)[k] == Separator(ws) by {
        FrameLines(Separator(ws), Row(Labels(columns), ws, true), body);
      }
      SeparatorLength(ws);
    }
  }

  /** The column labels and widths printResultSet collects before printing. */
  method CollectColumns(columns: seq<Column>) returns (colNames: array<string>, colWidth: array<int>)
    ensures fresh(colNames) && fresh(colWidth)
    ensures colNames[..] == Labels(columns)
    ensures colWidth[..] == Widths(columns)
  {
    var colCount := |columns|;
    colNames := new string[colCount];
    colWidth := new int[colCount];
    for i := 0 to colCount
      invariant forall k :: 0 <= k < i ==> colNames[k] == ToUpper(columns[k].columnLabel)
      invariant forall k :: 0 <= k < i ==> colWidth[k] == ColumnWidth(columns[k])
    {
      colNames[i] := ToUpper(columns[i].columnLabel);
      colWidth[i] := Max(|colNames[i]|, columns[i].displaySize);
      colWidth[i] := Min(colWidth[i], MaxWidth);
      colWidth[i] := Max(colWidth[i], MinWidth);
    }
    assert colNames[..] == Labels(columns);
    assert colWidth[..] == Widths(columns);
  }

  /** The texts of one result row, with `(null)` for each null value. */
  method CollectRow(values: seq<Option<string>>) returns (rowData: array<string>)
    ensures fresh(rowData)
    ensures rowData[..] == Cells(values)
  {
    rowData := new string[|values|];
    for i := 0 to |values|
      invariant forall k :: 0 <= k < i ==> rowData[k] == CellText(values[k])
    {
      rowData[i] := CellText(values[i]);
    }
    assert rowData[..] == Cells(values);
  }

  /**
   * printResultSet: prints the header between two separators, then one line
   * per result row in the order the rows arrive, then a closing separator.
   * The count returned is the number of rows consumed.
   */
  method PrintResultSet(columns: seq<Column>, rows: seq<seq<Option<string>>>)
    returns (output: seq<string>, rowCount: int)
    requires RowsFit(rows, |columns|)
    ensures rowCount == |rows|
    ensures output == Table(columns, rows)
  {
    var colNames, colWidth := CollectColumns(columns);
    ghost var ws := Widths(columns);

    output := [[]];
    var separator := PrintSeparator(colWidth);
    var header := PrintRow(colNames, colWidth, true);
    output := output + [separator, header, separator];
    ghost var head := output;
    assert head == [[], Separator(ws), Row(Labels(columns), ws, true), Separator(ws)];

    rowCount := 0;
    var remaining := rows;
    while remaining != []
      modifies {}
      invariant 0 <= rowCount <= |rows| && remaining == rows[rowCount..]
      invariant colWidth[..] == ws
      invariant output == head + DataRows(rows[..rowCount], ws)
    {
      var values := remaining[0];
      remaining := remaining[1..];
      assert values == rows[rowCount];
      var rowData := CollectRow(values);
      var line := PrintRow(rowData, colWidth, false);
      assert line == Row(Cells(values), ws, false);
      DataRowsAppend(head, rows, ws, rowCount, line);
      output := output + [line];
      rowCount := rowCount + 1;
    }
    assert rows[..rowCount] == rows;
    var closing := PrintSeparator(colWidth);
    assert closing == Separator(ws);
    output := output + [closing];
  }
}
