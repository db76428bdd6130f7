/** `process_sheet`: the visible cells of a sheet's print area, row by row. */
module Extraction {
  import opened Wrappers
  import opened PrintArea

  /** The cell values read for one sheet, addressed 0-based; `None` stands for
      a missing value. */
  type Grid = seq<seq<Option<string>>>

  /** The table `process_sheet` returns: one list of strings per output row. */
  type Table = seq<seq<string>>

  /** What `process_sheet` reads from the worksheet: its extent, its print area
      and the 1-based indices of the columns and rows flagged hidden. */
  datatype Sheet = Sheet(
    name: string,
    maxRow: nat,
    maxColumn: nat,
    printArea: Option<string>,
    hiddenColumns: set<int>,
    hiddenRows: set<int>)

  /** A value grid has rows of one width, as a data frame does. */
  predicate Rectangular(g: Grid) {
    forall i :: 0 <= i < |g| ==> |g[i]| == |g[0]|
  }

  /** The number of columns of the grid (its second shape component). */
  function Width(g: Grid): nat {
    if g == [] then 0 else |g[0]|
  }

  /** A data frame is empty when it has no rows or no columns. */
  predicate IsEmptyFrame(g: Grid) {
    |g| == 0 || Width(g) == 0
  }

  /** The text of the cell at 1-based `row` and `col`: empty outside the grid
      and for a missing value, otherwise the value's string form. */
  function CellText(g: Grid, row: int, col: int): (text: string)
    requires Rectangular(g)
    ensures text != "" ==> 0 <= row - 1 < |g| && 0 <= col - 1 < Width(g) && g[row - 1][col - 1] == Some(text)
    ensures 0 <= row - 1 < |g| && 0 <= col - 1 < Width(g) && g[row - 1][col - 1].Some? ==>
      text == g[row - 1][col - 1].value
  {
    if 0 <= row - 1 < |g| && 0 <= col - 1 < Width(g) then
      match g[row - 1][col - 1]
      case Some(text) => text
      case None => ""
    else ""
  }

  // ---------------------------------------------------------------------------
  // Specification of the loops
  // ---------------------------------------------------------------------------

  /** The indices `lo..hi` that are not in `hidden`, in increasing order. */
  function VisibleIndices(lo: int, hi: int, hidden: set<int>): seq<int>
    decreases hi - lo
  {
    if hi < lo then []
    else VisibleIndices(lo, hi - 1, hidden) + (if hi in hidden then [] else [hi])
  }

  /** One output row: the text of each visible column of sheet row `row`. */
  function VisibleRow(g: Grid, row: int, cols: seq<int>): (r: seq<string>)
    requires Rectangular(g)
    ensures |r| == |cols|
  {
    seq(|cols|, j requires 0 <= j < |cols| => CellText(g, row, cols[j]))
  }

  /** The table with one row per visible sheet row. */
  function VisibleTable(g: Grid, rows: seq<int>, cols: seq<int>): (t: Table)
    requires Rectangular(g)
    ensures |t| == |rows|
  {
    seq(|rows|, i requires 0 <= i < |rows| => VisibleRow(g, rows[i], cols))
  }

  predicate HasColumnLetter(col: int) {
    1 <= col <= MaxColumnIndex
  }

  /** The first index in `lo..hi` that `get_column_letter` refuses, if any. */
  function FirstBadColumn(lo: int, hi: int): (r: Option<int>)
    ensures r.Some? ==> lo <= r.value <= hi && !HasColumnLetter(r.value)
    ensures r.Some? ==> forall k :: lo <= k < r.value ==> HasColumnLetter(k)
    ensures r.None? ==> forall k :: lo <= k <= hi ==> HasColumnLetter(k)
  {
    if hi < lo then None
    else if lo < 1 then Some(lo)
    else if hi > MaxColumnIndex then Some(if lo > MaxColumnIndex then lo else MaxColumnIndex + 1)
    else None
  }

  /** The result of `process_sheet` on a sheet and its value grid. */
  function SheetTable(sheet: Sheet, g: Grid): (r: Result<Table, SheetError>)
    requires Rectangular(g)
    ensures r.Err? ==> !IsEmptyFrame(g)
    ensures r.Ok? ==> forall i :: 0 <= i < |r.value| ==> |r.value[i]| == |r.value[0]|
  {
    if IsEmptyFrame(g) then Ok([])
    else
      match ResolveBounds(sheet.printArea, sheet.maxColumn, sheet.maxRow)
      case Err(e) => Err(e)
      case Ok(b) =>
        match FirstBadColumn(b.minCol, b.maxCol)
        case Some(col) => Err(ColumnIndexOutOfRange(col))
        case None =>
          Ok(VisibleTable(g, VisibleIndices(b.minRow, b.maxRow, sheet.hiddenRows),
                             VisibleIndices(b.minCol, b.maxCol, sheet.hiddenColumns)))
  }

  // ---------------------------------------------------------------------------
  // The loops of process_sheet
  // ---------------------------------------------------------------------------

  /** The hidden columns in `lo..hi`. Each index is first turned into a column
      letter, which fails outside `1..MaxColumnIndex`. */
  method HiddenColumns(sheet: Sheet, lo: int, hi: int) returns (r: Result<set<int>, SheetError>)
    ensures FirstBadColumn(lo, hi).Some? ==> r == Err(ColumnIndexOutOfRange(FirstBadColumn(lo, hi).value))
    ensures FirstBadColumn(lo, hi).None? ==> r.Ok?
    ensures r.Ok? ==> forall col :: col in r.value <==> lo <= col <= hi && col in sheet.hiddenColumns
  {
    var hidden: set<int> := {};
    var col := lo;
    while col <= hi
      invariant lo <= col && (col <= hi + 1 || col == lo)
      invariant forall k :: lo <= k < col ==> HasColumnLetter(k)
      invariant forall k :: k in hidden <==> lo <= k < col && k in sheet.hiddenColumns
    {
      if !HasColumnLetter(col) {
        return Err(ColumnIndexOutOfRange(col));
      }
      if col in sheet.hiddenColumns {
        hidden := hidden + {col};
      }
      col := col + 1;
    }
    return Ok(hidden);
  }

  /** The hidden rows in `lo..hi`. */
  method HiddenRows(sheet: Sheet, lo: int, hi: int) returns (hidden: set<int>)
    ensures forall row :: row in hidden <==> lo <= row <= hi && row in sheet.hiddenRows
  {
    hidden := {};
    var row := lo;
    while row <= hi
      invariant lo <= row && (row <= hi + 1 || row == lo)
      invariant forall k :: k in hidden <==> lo <= k < row && k in sheet.hiddenRows
    {
      if row in sheet.hiddenRows {
        hidden := hidden + {row};
      }
      row := row + 1;
    }
  }

  /** The nested loops: every row of `b` not in `hiddenRows`, each holding the
      text of every column of `b` not in `hiddenColumns`. */
  method ExtractVisible(g: Grid, b: Bounds, hiddenRows: set<int>, hiddenColumns: set<int>) returns (table: Table)
    requires Rectangular(g)
    ensures table == VisibleTable(g, VisibleIndices(b.minRow, b.maxRow, hiddenRows),
                                     VisibleIndices(b.minCol, b.maxCol, hiddenColumns))
  {
    ghost var cols := VisibleIndices(b.minCol, b.maxCol, hiddenColumns);
    table := [];
    var row := b.minRow;
    while row <= b.maxRow
      invariant b.minRow <= row && (row <= b.maxRow + 1 || row == b.minRow)
      invariant table == VisibleTable(g, VisibleIndices(b.minRow, row - 1, hiddenRows), cols)
    {
      if row !in hiddenRows {
        var rowValues: seq<string> := [];
        var col := b.minCol;
        while col <= b.maxCol
          invariant b.minCol <= col && (col <= b.maxCol + 1 || col == b.minCol)
          invariant rowValues == VisibleRow(g, row, VisibleIndices(b.minCol, col - 1, hiddenColumns))
        {
          if col !in hiddenColumns {
            ghost var before := VisibleIndices(b.minCol, col - 1, hiddenColumns);
            if 0 <= row - 1 < |g| && 0 <= col - 1 < Width(g) {
              var value := g[row - 1][col - 1];
              rowValues := rowValues + [if value.Some? then value.value else ""];
            } else {
              rowValues := rowValues + [""];
            }
            VisibleRowSnoc(g, row, before, col);
          }
          col := col + 1;
        }
        VisibleTableSnoc(g, VisibleIndices(b.minRow, row - 1, hiddenRows), row, cols);
        table := table + [rowValues];
      }
      row := row + 1;
    }
  }

  /** `process_sheet`: an empty data frame gives the empty table; otherwise the
      print area is resolved, the hidden columns and rows inside it are
      collected, and the visible cells are copied. */
  method ProcessSheet(sheet: Sheet, g: Grid) returns (r: Result<Table, SheetError>)
    requires Rectangular(g)
    ensures r == SheetTable(sheet, g)
  {
    if IsEmptyFrame(g) {
      return Ok([]);
    }
    var b :- ResolveBounds(sheet.printArea, sheet.maxColumn, sheet.maxRow);
    var hiddenColumns :- HiddenColumns(sheet, b.minCol, b.maxCol);
    var hiddenRows := HiddenRows(sheet, b.minRow, b.maxRow);
    var table := ExtractVisible(g, b, hiddenRows, hiddenColumns);
    VisibleIndicesInRange(b.minRow, b.maxRow, hiddenRows, sheet.hiddenRows);
    VisibleIndicesInRange(b.minCol, b.maxCol, hiddenColumns, sheet.hiddenColumns);
    return Ok(table);
  }

  // ---------------------------------------------------------------------------
  // Lemmas
  // ---------------------------------------------------------------------------

  lemma VisibleRowSnoc(g: Grid, row: int, cols: seq<int>, col: int)
    requires Rectangular(g)
    ensures VisibleRow(g, row, cols + [col]) == VisibleRow(g, row, cols) + [CellText(g, row, col)]
  {
    var a := VisibleRow(g, row, cols + [col]);
    var b := VisibleRow(g, row, cols) + [CellText(g, row, col)];
    assert |a| == |b|;
    forall j | 0 <= j < |a| ensures a[j] == b[j] {
      if j < |cols| {
        assert (cols + [col])[j] == cols[j];
      }
    }
  }

  lemma VisibleTableSnoc(g: Grid, rows: seq<int>, row: int, cols: seq<int>)
    requires Rectangular(g)
    ensures VisibleTable(g, rows + [row], cols) == VisibleTable(g, rows, cols) + [VisibleRow(g, row, cols)]
  {
    var a := VisibleTable(g, rows + [row], cols);
    var b := VisibleTable(g, rows, cols) + [VisibleRow(g, row, cols)];
    assert |a| == |b|;
    forall i | 0 <= i < |a| ensures a[i] == b[i] {
      if i < |rows| {
        assert (rows + [row])[i] == rows[i];
      }
    }
  }

  /** Exactly the indices of `lo..hi` that are not hidden are visible. */
  lemma {:induction false} VisibleIndicesMembers(lo: int, hi: int, hidden: set<int>)
    ensures forall x :: x in VisibleIndices(lo, hi, hidden) <==> lo <= x <= hi && x !in hidden
    decreases hi - lo
  {
    if lo <= hi {
      VisibleIndicesMembers(lo, hi - 1, hidden);
    }
  }

  predicate StrictlyIncreasing(s: seq<int>) {
    forall i, j :: 0 <= i < j < |s| ==> s[i] < s[j]
  }

  /** The visible indices are strictly increasing, so none is repeated. */
  lemma {:induction false} VisibleIndicesIncreasing(lo: int, hi: int, hidden: set<int>)
    ensures StrictlyIncreasing(VisibleIndices(lo, hi, hidden))
    decreases hi - lo
  {
    if lo <= hi {
      VisibleIndicesIncreasing(lo, hi - 1, hidden);
      VisibleIndicesMembers(lo, hi - 1, hidden);
      var v := VisibleIndices(lo, hi - 1, hidden);
      var w := VisibleIndices(lo, hi, hidden);
      assert w == v + (if hi in hidden then [] else [hi]);
      assert StrictlyIncreasing(v);
      forall i, j | 0 <= i < j < |w| ensures w[i] < w[j] {
        if j < |v| {
          assert w[i] == v[i] && w[j] == v[j];
        } else {
          assert v[i] in v && w[i] == v[i] && w[j] == hi;
        }
      }
    }
  }

  /** Hidden indices outside `lo..hi` do not matter. */
  lemma {:induction false} VisibleIndicesInRange(lo: int, hi: int, h1: set<int>, h2: set<int>)
    requires forall x :: lo <= x <= hi ==> (x in h1 <==> x in h2)
    ensures VisibleIndices(lo, hi, h1) == VisibleIndices(lo, hi, h2)
    decreases hi - lo
  {
    if lo <= hi {
      VisibleIndicesInRange(lo, hi - 1, h1, h2);
    }
  }

  /** The hidden indices of `lo..hi` (the set the source collects). */
  function HiddenWithin(lo: int, hi: int, hidden: set<int>): set<int> {
    set x | x in hidden && lo <= x <= hi
  }

  /** Visible and hidden indices together account for all of `lo..hi`: one
      output position per visible index, no placeholders. */
  lemma {:induction false} VisibleIndicesCount(lo: int, hi: int, hidden: set<int>)
    ensures |VisibleIndices(lo, hi, hidden)| + |HiddenWithin(lo, hi, hidden)| == if hi < lo then 0 else hi - lo + 1
    decreases hi - lo
  {
    if hi < lo {
      assert HiddenWithin(lo, hi, hidden) == {};
    } else {
      VisibleIndicesCount(lo, hi - 1, hidden);
      if hi in hidden {
        assert HiddenWithin(lo, hi, hidden) == HiddenWithin(lo, hi - 1, hidden) + {hi};
      } else {
        assert HiddenWithin(lo, hi, hidden) == HiddenWithin(lo, hi - 1, hidden);
      }
    }
  }

  /** An empty data frame yields the empty table, whatever the print area. */
  lemma EmptyFrameGivesEmptyTable(sheet: Sheet, g: Grid)
    requires Rectangular(g) && IsEmptyFrame(g)
    ensures SheetTable(sheet, g) == Ok([])
  {
  }

  /** The shape and content of a successful result: output row `i` is sheet
      row `rows[i]`, output column `j` is sheet column `cols[j]`, every row has
      the same width, and each cell is the grid value at the 0-based position
      one less than its sheet coordinates, or empty when that position is
      outside the grid or holds a missing value. */
  lemma SheetTableCells(sheet: Sheet, g: Grid, b: Bounds)
    requires Rectangular(g) && !IsEmptyFrame(g)
    requires ResolveBounds(sheet.printArea, sheet.maxColumn, sheet.maxRow) == Ok(b)
    requires FirstBadColumn(b.minCol, b.maxCol).None?
    ensures var rows := VisibleIndices(b.minRow, b.maxRow, sheet.hiddenRows);
      var cols := VisibleIndices(b.minCol, b.maxCol, sheet.hiddenColumns);
      && SheetTable(sheet, g).Ok?
      && var t := SheetTable(sheet, g).value;
      && |t| == |rows|
      && (forall i :: 0 <= i < |t| ==> |t[i]| == |cols|)
      && (forall i, j :: 0 <= i < |t| && 0 <= j < |cols| ==>
            t[i][j] == if 0 <= rows[i] - 1 < |g| && 0 <= cols[j] - 1 < Width(g) && g[rows[i] - 1][cols[j] - 1].Some?
                       then g[rows[i] - 1][cols[j] - 1].value else "")
  {
    var rows := VisibleIndices(b.minRow, b.maxRow, sheet.hiddenRows);
    var cols := VisibleIndices(b.minCol, b.maxCol, sheet.hiddenColumns);
    assert SheetTable(sheet, g) == Ok(VisibleTable(g, rows, cols));
    VisibleTableCells(g, rows, cols);
  }

  /** Cell `(i, j)` of the table is the grid value at sheet row `rows[i]` and
      sheet column `cols[j]`, or empty. */
  lemma VisibleTableCells(g: Grid, rows: seq<int>, cols: seq<int>)
    requires Rectangular(g)
    ensures var t := VisibleTable(g, rows, cols);
      && (forall i :: 0 <= i < |t| ==> |t[i]| == |cols|)
      && (forall i, j :: 0 <= i < |t| && 0 <= j < |cols| ==>
            t[i][j] == if 0 <= rows[i] - 1 < |g| && 0 <= cols[j] - 1 < Width(g) && g[rows[i] - 1][cols[j] - 1].Some?
                       then g[rows[i] - 1][cols[j] - 1].value else "")
  {
    var t := VisibleTable(g, rows, cols);
    forall i, j | 0 <= i < |t| && 0 <= j < |cols|
      ensures t[i][j] == CellText(g, rows[i], cols[j])
    {
      assert t[i] == VisibleRow(g, rows[i], cols);
    }
  }

  /** `get_column_letter` fails only for a sheet without a print area whose
      extent is wider than column ZZZ; the index reported is the first one
      past ZZZ. */
  lemma ColumnLetterFailure(sheet: Sheet, g: Grid)
    requires Rectangular(g)
    ensures (SheetTable(sheet, g).Err? && SheetTable(sheet, g).error.ColumnIndexOutOfRange?)
        <==> !IsEmptyFrame(g) && NoPrintArea(sheet.printArea) && sheet.maxColumn > MaxColumnIndex
    ensures !IsEmptyFrame(g) && NoPrintArea(sheet.printArea) && sheet.maxColumn > MaxColumnIndex ==>
      SheetTable(sheet, g) == Err(ColumnIndexOutOfRange(MaxColumnIndex + 1))
  {
  }

  /** Rows 1 to 5 with row 3 hidden give output rows for sheet rows 1, 2, 4
      and 5, in that order. */
  lemma HiddenRowExample()
    ensures VisibleIndices(1, 5, {3}) == [1, 2, 4, 5]
  {
  }
}
