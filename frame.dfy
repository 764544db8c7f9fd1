/**
 * The part of pandas that the sheet extractor uses, on an already decoded
 * workbook: read_excel with a header row and a label column, dropna with
 * how='all' along either axis, and the DataFrame object those calls mutate.
 * How spreadsheet bytes become cells is not part of this model.
 */
module Frame {
  import opened Options

  /** A decoded cell. Nothing computes on cell values, so they stay uninterpreted. */
  datatype Cell = Number(amount: real) | Text(text: string)

  /** One position of a sheet; None is a missing cell (pandas' NaN). */
  type Entry = Option<Cell>
  type Row = seq<Entry>
  type Grid = seq<Row>

  /**
   * A DataFrame as a value: the two axis names, the row labels (index), the
   * column labels, and one row of values per row label.
   */
  datatype Table = Table(indexName: Entry, columnsName: Entry, index: seq<Entry>, columns: seq<Entry>, rows: seq<Row>)
  {
    /** One label per row, and every row as wide as the column labels. */
    predicate Valid()
    {
      |index| == |rows| && forall i :: 0 <= i < |rows| ==> |rows[i]| == |columns|
    }
  }

  predicate HasValue(r: Row)
  {
    exists j :: 0 <= j < |r| && r[j].Some?
  }

  predicate ColumnHasValue(rows: seq<Row>, j: nat)
  {
    exists i :: 0 <= i < |rows| && j < |rows[i]| && rows[i][j].Some?
  }

  predicate Increasing(ps: seq<nat>)
  {
    forall a, b :: 0 <= a < b < |ps| ==> ps[a] < ps[b]
  }

  predicate InRange(ps: seq<nat>, n: nat)
  {
    forall k :: 0 <= k < |ps| ==> ps[k] < n
  }

  /** The elements of s at positions ps, in the order of ps. */
  function Select<T>(s: seq<T>, ps: seq<nat>): (r: seq<T>)
    requires InRange(ps, |s|)
    ensures |r| == |ps|
    ensures forall k :: 0 <= k < |ps| ==> r[k] == s[ps[k]]
  {
    seq(|ps|, k requires 0 <= k < |ps| => s[ps[k]])
  }

  // ---------------------------------------------------------------------
  // read_excel(..., header=HeaderRow, index_col=LabelColumn)
  // ---------------------------------------------------------------------

  /** The row that holds the column labels; the rows above it are skipped. */
  const HeaderRow: nat := 5
  /** The column that holds the row labels. The reading below relies on it being the first column. */
  const LabelColumn: nat := 0

  /** The widest row of the sheet: the reader pads every row to this width. */
  function Width(g: Grid): (w: nat)
    ensures forall i :: 0 <= i < |g| ==> |g[i]| <= w
    ensures w == 0 <==> forall i :: 0 <= i < |g| ==> |g[i]| == 0
    ensures |g| > 0 ==> exists i :: 0 <= i < |g| && |g[i]| == w
  {
    if |g| == 0 then 0
    else
      var rest := Width(g[1..]);
      assert forall i :: 1 <= i < |g| ==> g[i] == g[1..][i - 1];
      if |g[0]| < rest then rest else |g[0]|
  }

  /** The cell at row i, column j of the sheet once its rows are padded with missing cells. */
  function CellAt(g: Grid, i: nat, j: nat): Entry
    requires i < |g|
  {
    if j < |g[i]| then g[i][j] else None
  }

  /** Row i of the sheet from column `from` on, padded with missing cells to the sheet's width. */
  function PaddedRow(g: Grid, i: nat, from: nat): (r: Row)
    requires i < |g| && from <= Width(g)
    ensures |r| == Width(g) - from
    ensures forall j :: 0 <= j < |r| ==> r[j] == CellAt(g, i, from + j)
    decreases Width(g) - from
  {
    if from == Width(g) then [] else [CellAt(g, i, from)] + PaddedRow(g, i, from + 1)
  }

  /** The label cells of the rows from `from` on. */
  function ReadLabels(g: Grid, from: nat): (labels: seq<Entry>)
    requires from <= |g|
    ensures |labels| == |g| - from
    ensures forall i :: 0 <= i < |labels| ==> labels[i] == CellAt(g, from + i, LabelColumn)
    decreases |g| - from
  {
    if from == |g| then [] else [CellAt(g, from, LabelColumn)] + ReadLabels(g, from + 1)
  }

  /** The value cells of the rows from `from` on, each padded to the sheet's width. */
  function ReadRows(g: Grid, from: nat): (rows: seq<Row>)
    requires from <= |g| && LabelColumn < Width(g)
    ensures |rows| == |g| - from
    ensures forall i :: 0 <= i < |rows| ==> |rows[i]| == Width(g) - (LabelColumn + 1)
    ensures forall i, j :: 0 <= i < |rows| && 0 <= j < |rows[i]| ==> rows[i][j] == CellAt(g, from + i, LabelColumn + 1 + j)
    decreases |g| - from
  {
    if from == |g| then [] else [PaddedRow(g, from, LabelColumn + 1)] + ReadRows(g, from + 1)
  }

  /**
   * The rows the openpyxl reader hands on: the sheet with its trailing rows
   * that hold no present cell cut off. It is empty exactly when no row of
   * the sheet holds a value.
   */
  function DataRows(g: Grid): (d: Grid)
    ensures |d| <= |g| && d == g[..|d|]
    ensures |d| > 0 ==> HasValue(d[|d| - 1])
    ensures forall i :: |d| <= i < |g| ==> !HasValue(g[i])
  {
    if |g| == 0 || HasValue(g[|g| - 1]) then g
    else
      var d := DataRows(g[..|g| - 1]);
      assert forall i :: |d| <= i < |g| - 1 ==> g[..|g| - 1][i] == g[i];
      d
  }

  /** The data rows reach past the header row and hold at least one column. */
  predicate Readable(d: Grid)
  {
    |d| > HeaderRow && Width(d) > LabelColumn
  }

  /** No cell outside the label column is present: the reader's rows are one cell wide once trailing missing cells are cut. */
  predicate OneColumn(g: Grid)
  {
    forall i, j :: 0 <= i < |g| && LabelColumn < j < |g[i]| ==> g[i][j].None?
  }

  /**
   * The rows pandas' parser looks for the header in. The parser skips a
   * line that is a single empty field, and the reader's rows are single
   * fields exactly when the sheet is one column wide: such a sheet keeps
   * only its rows that hold a value, in order. Any other sheet keeps its
   * data rows, blank ones included. Either way the result is empty exactly
   * when the sheet holds no value.
   */
  function ParsedRows(g: Grid): (e: Grid)
    ensures !OneColumn(g) ==> e == DataRows(g)
    ensures OneColumn(g) ==> e == Select(g, RowPositions(g, 0))
    ensures OneColumn(g) ==> forall i :: 0 <= i < |e| ==> HasValue(e[i])
    ensures |e| == 0 <==> forall i :: 0 <= i < |g| ==> !HasValue(g[i])
    ensures |e| > 0 ==> HasValue(e[|e| - 1])
  {
    if OneColumn(g) then
      var ps := RowPositions(g, 0);
      assert InRange(ps, |g|);
      NoRowPositionsIffBlank(g);
      Select(g, ps)
    else
      DataRows(g)
  }

  /** What read_excel returns for a sheet that holds no value at all: a frame with no labels, columns or rows. */
  const EmptyFrame: Table := Table(None, None, [], [], [])

  /**
   * The frame read from a sheet's data rows: row HeaderRow gives the column
   * labels (its first cell names the index), each later row gives a row
   * label from its first cell and its values from the others.
   */
  function ReadData(d: Grid): (t: Table)
    requires Readable(d)
    ensures t.Valid()
    ensures |t.rows| == |d| - (HeaderRow + 1) && |t.columns| == Width(d) - 1
    ensures t.indexName == CellAt(d, HeaderRow, LabelColumn) && t.columnsName == None
    ensures forall j :: 0 <= j < |t.columns| ==> t.columns[j] == CellAt(d, HeaderRow, j + 1)
    ensures forall i :: 0 <= i < |t.rows| ==> t.index[i] == CellAt(d, HeaderRow + 1 + i, LabelColumn)
    ensures forall i, j :: 0 <= i < |t.rows| && 0 <= j < |t.columns| ==>
              t.rows[i][j] == CellAt(d, HeaderRow + 1 + i, j + 1)
  {
    Table(
      CellAt(d, HeaderRow, LabelColumn),
      None,
      ReadLabels(d, HeaderRow + 1),
      PaddedRow(d, HeaderRow, LabelColumn + 1),
      ReadRows(d, HeaderRow + 1))
  }

  /**
   * read_excel(sheet, header=HeaderRow, index_col=LabelColumn): the rows
   * the parser sees are ParsedRows; none of them reads as the empty frame,
   * at most HeaderRow of them is a read error, and more are read by ReadData.
   */
  function ReadSheet(g: Grid): (t: Option<Table>)
    ensures t.None? <==> 0 < |ParsedRows(g)| <= HeaderRow
    ensures |ParsedRows(g)| == 0 ==> t == Some(EmptyFrame)
    ensures |ParsedRows(g)| > HeaderRow ==> Readable(ParsedRows(g)) && t == Some(ReadData(ParsedRows(g)))
    ensures t.Some? ==> t.value.Valid()
  {
    var d := ParsedRows(g);
    if |d| == 0 then Some(EmptyFrame)
    else if |d| <= HeaderRow then None
    else
      assert |d[|d| - 1]| > 0;
      Some(ReadData(d))
  }

  /** A sheet row (below the header) holds a present cell outside the label column. */
  predicate DataRowHasValue(g: Grid, i: nat)
    requires i < |g|
  {
    exists j :: LabelColumn < j < |g[i]| && g[i][j].Some?
  }

  /** Some row below the header holds a present cell in sheet column j. */
  predicate SheetColumnHasValue(g: Grid, j: nat)
  {
    exists i :: HeaderRow < i < |g| && CellAt(g, i, j).Some?
  }

  /** A read row holds a value exactly when its sheet row holds one outside the label column. */
  lemma ReadRowHasValue(g: Grid, r: nat)
    requires Readable(g) && r < |ReadData(g).rows|
    ensures HasValue(ReadData(g).rows[r]) <==> DataRowHasValue(g, HeaderRow + 1 + r)
  {
    var raw := ReadData(g);
    var i := HeaderRow + 1 + r;
    if HasValue(raw.rows[r]) {
      var j :| 0 <= j < |raw.rows[r]| && raw.rows[r][j].Some?;
      assert CellAt(g, i, j + 1).Some?;
    }
    if DataRowHasValue(g, i) {
      var j :| LabelColumn < j < |g[i]| && g[i][j].Some?;
      assert raw.rows[r][j - 1] == CellAt(g, i, j);
    }
  }

  /** The row drop keeps a row exactly when it holds a value. */
  lemma KeptRowIffHasValue(t: Table, r: nat)
    requires r < |t.rows|
    ensures r in KeptRows(t) <==> HasValue(t.rows[r])
  {
    var ps := KeptRows(t);
    if r in ps {
      var k :| 0 <= k < |ps| && ps[k] == r;
    }
    if HasValue(t.rows[r]) {
      RowPositionsComplete(t.rows, 0, r);
    }
  }

  /** The column drop keeps a column exactly when some row holds a value in it. */
  lemma KeptColumnIffHasValue(t: Table, j: nat)
    requires j < |t.columns|
    ensures j in KeptColumns(t) <==> ColumnHasValue(t.rows, j)
  {
    var qs := KeptColumns(t);
    if j in qs {
      var k :| 0 <= k < |qs| && qs[k] == j;
    }
    if ColumnHasValue(t.rows, j) {
      ColumnPositionsComplete(t.rows, |t.columns|, 0, j);
    }
  }

  /** A sheet row below the header is kept by the row drop exactly when it holds a value outside the label column. */
  lemma KeptRowIffFilled(g: Grid, i: nat)
    requires Readable(g) && HeaderRow < i < |g|
    ensures i - (HeaderRow + 1) in KeptRows(ReadData(g)) <==> DataRowHasValue(g, i)
  {
    ReadRowHasValue(g, i - (HeaderRow + 1));
    KeptRowIffHasValue(ReadData(g), i - (HeaderRow + 1));
  }

  /** A value column is kept by the column drop, after the row drop, exactly when its sheet column holds a value below the header. */
  lemma KeptColumnIffFilled(g: Grid, j: nat)
    requires Readable(g) && j < Width(g) - 1
    ensures j in KeptColumns(DropEmptyRows(ReadData(g))) <==> SheetColumnHasValue(g, j + 1)
  {
    var raw := ReadData(g);
    ReadColumnHasValue(g, j);
    DropEmptyRowsKeepsColumnValues(raw, j);
    KeptColumnIffHasValue(DropEmptyRows(raw), j);
  }

  /** All of KeptRowIffFilled at once: the kept rows are exactly the sheet rows below the header that hold a value. */
  lemma KeptRowsAreTheFilled(g: Grid)
    requires Readable(g)
    ensures forall i :: HeaderRow < i < |g| ==>
              (i - (HeaderRow + 1) in KeptRows(ReadData(g)) <==> DataRowHasValue(g, i))
  {
    forall i | HeaderRow < i < |g|
      ensures i - (HeaderRow + 1) in KeptRows(ReadData(g)) <==> DataRowHasValue(g, i)
    {
      KeptRowIffFilled(g, i);
    }
  }

  /** All of KeptColumnIffFilled at once: the kept columns are exactly the sheet columns that hold a value below the header. */
  lemma KeptColumnsAreTheFilled(g: Grid)
    requires Readable(g)
    ensures forall j :: 0 <= j < Width(g) - 1 ==>
              (j in KeptColumns(DropEmptyRows(ReadData(g))) <==> SheetColumnHasValue(g, j + 1))
  {
    forall j | 0 <= j < Width(g) - 1
      ensures j in KeptColumns(DropEmptyRows(ReadData(g))) <==> SheetColumnHasValue(g, j + 1)
    {
      KeptColumnIffFilled(g, j);
    }
  }

  /** After both drops, the b-th remaining column carries the header cell of the sheet column it came from. */
  lemma KeptColumnLabels(g: Grid)
    requires Readable(g)
    ensures var d := DropEmptyRows(ReadData(g));
            var qs := KeptColumns(d);
            && |DropEmptyColumns(d).columns| == |qs|
            && forall b :: 0 <= b < |qs| ==> DropEmptyColumns(d).columns[b] == CellAt(g, HeaderRow, qs[b] + 1)
  {
    var raw := ReadData(g);
    var d := DropEmptyRows(raw);
    var qs := KeptColumns(d);
    var u := DropEmptyColumns(d);
    assert u.columns == Select(d.columns, qs);
    forall b | 0 <= b < |qs|
      ensures u.columns[b] == CellAt(g, HeaderRow, qs[b] + 1)
    {
      assert u.columns[b] == raw.columns[qs[b]];
    }
  }

  /** A read column holds a value exactly when its sheet column holds one below the header. */
  lemma ReadColumnHasValue(g: Grid, j: nat)
    requires Readable(g) && j < |ReadData(g).columns|
    ensures ColumnHasValue(ReadData(g).rows, j) <==> SheetColumnHasValue(g, j + 1)
  {
    var raw := ReadData(g);
    if ColumnHasValue(raw.rows, j) {
      var r :| 0 <= r < |raw.rows| && j < |raw.rows[r]| && raw.rows[r][j].Some?;
      assert CellAt(g, HeaderRow + 1 + r, j + 1).Some?;
    }
    if SheetColumnHasValue(g, j + 1) {
      var i :| HeaderRow < i < |g| && CellAt(g, i, j + 1).Some?;
      assert raw.rows[i - (HeaderRow + 1)][j].Some?;
    }
  }

  // ---------------------------------------------------------------------
  // dropna(how='all', axis=0) and dropna(how='all', axis=1)
  // ---------------------------------------------------------------------

  /** Positions from `from` on of the rows that hold at least one value, in order. */
  function RowPositions(rows: seq<Row>, from: nat): (ps: seq<nat>)
    requires from <= |rows|
    ensures Increasing(ps)
    ensures forall k :: 0 <= k < |ps| ==> from <= ps[k] < |rows| && HasValue(rows[ps[k]])
    decreases |rows| - from
  {
    if from == |rows| then []
    else if HasValue(rows[from]) then [from] + RowPositions(rows, from + 1)
    else RowPositions(rows, from + 1)
  }

  /** Positions from `from` below `width` of the columns that hold a value in some row, in order. */
  function ColumnPositions(rows: seq<Row>, width: nat, from: nat): (qs: seq<nat>)
    requires from <= width
    ensures Increasing(qs)
    ensures forall k :: 0 <= k < |qs| ==> from <= qs[k] < width && ColumnHasValue(rows, qs[k])
    decreases width - from
  {
    if from == width then []
    else if ColumnHasValue(rows, from) then [from] + ColumnPositions(rows, width, from + 1)
    else ColumnPositions(rows, width, from + 1)
  }

  /** A grid has no row positions exactly when none of its rows holds a value. */
  lemma NoRowPositionsIffBlank(g: Grid)
    ensures |RowPositions(g, 0)| == 0 <==> forall i :: 0 <= i < |g| ==> !HasValue(g[i])
  {
    if exists i :: 0 <= i < |g| && HasValue(g[i]) {
      var i :| 0 <= i < |g| && HasValue(g[i]);
      RowPositionsComplete(g, 0, i);
    }
    var ps := RowPositions(g, 0);
    if |ps| > 0 {
      assert HasValue(g[ps[0]]);
    }
  }

  /** No row holding a value is left out of RowPositions. */
  lemma {:induction false} RowPositionsComplete(rows: seq<Row>, from: nat, i: nat)
    requires from <= i < |rows| && HasValue(rows[i])
    ensures i in RowPositions(rows, from)
    decreases |rows| - from
  {
    if from < i {
      RowPositionsComplete(rows, from + 1, i);
    }
  }

  /** No column holding a value is left out of ColumnPositions. */
  lemma {:induction false} ColumnPositionsComplete(rows: seq<Row>, width: nat, from: nat, j: nat)
    requires from <= j < width && ColumnHasValue(rows, j)
    ensures j in ColumnPositions(rows, width, from)
    decreases width - from
  {
    if from < j {
      ColumnPositionsComplete(rows, width, from + 1, j);
    }
  }

  function KeptRows(t: Table): seq<nat>
  {
    RowPositions(t.rows, 0)
  }

  function KeptColumns(t: Table): seq<nat>
  {
    ColumnPositions(t.rows, |t.columns|, 0)
  }

  /** dropna(how='all', axis=0): a row goes, with its label, when none of its values is present. */
  function DropEmptyRows(t: Table): (u: Table)
    requires t.Valid()
    ensures u.Valid()
    ensures u.indexName == t.indexName && u.columnsName == t.columnsName && u.columns == t.columns
    ensures forall i :: 0 <= i < |u.rows| ==> HasValue(u.rows[i])
    ensures |u.rows| <= |t.rows|
  {
    var ps := KeptRows(t);
    assert InRange(ps, |t.rows|);
    assert |ps| <= |t.rows| by { IncreasingInRangeIsShort(ps, |t.rows|); }
    t.(index := Select(t.index, ps), rows := Select(t.rows, ps))
  }

  /**
   * dropna(how='all', axis=1): a column goes when no row has a value in it;
   * its label and each row's cell at that position go together.
   */
  function DropEmptyColumns(t: Table): (u: Table)
    requires t.Valid()
    ensures u.Valid()
    ensures u.indexName == t.indexName && u.columnsName == t.columnsName && u.index == t.index
    ensures |u.rows| == |t.rows| && |u.columns| <= |t.columns|
    ensures forall j :: 0 <= j < |u.columns| ==> ColumnHasValue(u.rows, j)
    ensures forall i :: 0 <= i < |t.rows| && HasValue(t.rows[i]) ==> HasValue(u.rows[i])
  {
    var qs := KeptColumns(t);
    assert |qs| <= |t.columns| by { IncreasingInRangeIsShort(qs, |t.columns|); }
    var rows := SelectColumns(t.rows, qs, |t.columns|);
    KeptColumnsHoldValues(t.rows, qs, |t.columns|);
    KeptColumnsKeepRowValues(t.rows, qs, |t.columns|);
    t.(columns := Select(t.columns, qs), rows := rows)
  }

  /** Every row cut down to the columns at positions qs. */
  function SelectColumns(rows: seq<Row>, qs: seq<nat>, width: nat): (r: seq<Row>)
    requires forall i :: 0 <= i < |rows| ==> |rows[i]| == width
    requires InRange(qs, width)
    ensures |r| == |rows|
    ensures forall i :: 0 <= i < |rows| ==> r[i] == Select(rows[i], qs)
  {
    seq(|rows|, i requires 0 <= i < |rows| => Select(rows[i], qs))
  }

  lemma KeptColumnsHoldValues(rows: seq<Row>, qs: seq<nat>, width: nat)
    requires forall i :: 0 <= i < |rows| ==> |rows[i]| == width
    requires qs == ColumnPositions(rows, width, 0)
    ensures forall k :: 0 <= k < |qs| ==> ColumnHasValue(SelectColumns(rows, qs, width), k)
  {
    var r := SelectColumns(rows, qs, width);
    forall k | 0 <= k < |qs| ensures ColumnHasValue(r, k) {
      assert ColumnHasValue(rows, qs[k]);
      var i :| 0 <= i < |rows| && qs[k] < |rows[i]| && rows[i][qs[k]].Some?;
      assert r[i][k] == rows[i][qs[k]];
    }
  }

  lemma KeptColumnsKeepRowValues(rows: seq<Row>, qs: seq<nat>, width: nat)
    requires forall i :: 0 <= i < |rows| ==> |rows[i]| == width
    requires qs == ColumnPositions(rows, width, 0)
    ensures forall i :: 0 <= i < |rows| && HasValue(rows[i]) ==> HasValue(SelectColumns(rows, qs, width)[i])
  {
    var r := SelectColumns(rows, qs, width);
    forall i | 0 <= i < |rows| && HasValue(rows[i]) ensures HasValue(r[i]) {
      var j :| 0 <= j < |rows[i]| && rows[i][j].Some?;
      assert ColumnHasValue(rows, j);
      ColumnPositionsComplete(rows, width, 0, j);
      var k :| 0 <= k < |qs| && qs[k] == j;
      assert r[i][k] == rows[i][j];
    }
  }

  /** Dropping empty rows never empties a column: the rows holding its values all stay. */
  lemma DropEmptyRowsKeepsColumnValues(t: Table, j: nat)
    requires t.Valid() && j < |t.columns|
    ensures ColumnHasValue(DropEmptyRows(t).rows, j) <==> ColumnHasValue(t.rows, j)
  {
    var d, ps := DropEmptyRows(t), KeptRows(t);
    if ColumnHasValue(d.rows, j) {
      var a :| 0 <= a < |d.rows| && j < |d.rows[a]| && d.rows[a][j].Some?;
      assert t.rows[ps[a]][j] == d.rows[a][j];
    }
    if ColumnHasValue(t.rows, j) {
      var r :| 0 <= r < |t.rows| && j < |t.rows[r]| && t.rows[r][j].Some?;
      assert HasValue(t.rows[r]);
      RowPositionsComplete(t.rows, 0, r);
      var a :| 0 <= a < |ps| && ps[a] == r;
      assert d.rows[a][j] == t.rows[r][j];
    }
  }

  /** The positions lo, lo + 1, ..., hi - 1. */
  function Range(lo: nat, hi: nat): (r: seq<nat>)
    requires lo <= hi
    ensures |r| == hi - lo && forall k :: 0 <= k < |r| ==> r[k] == lo + k
  {
    seq(hi - lo, k requires 0 <= k < hi - lo => lo + k)
  }

  lemma RangeCons(lo: nat, hi: nat)
    requires lo < hi
    ensures [lo] + Range(lo + 1, hi) == Range(lo, hi)
  {
  }

  lemma {:induction false} RowPositionsOfNonEmpty(rows: seq<Row>, from: nat)
    requires from <= |rows|
    requires forall i :: from <= i < |rows| ==> HasValue(rows[i])
    ensures RowPositions(rows, from) == Range(from, |rows|)
    decreases |rows| - from
  {
    if from < |rows| {
      RowPositionsOfNonEmpty(rows, from + 1);
      RangeCons(from, |rows|);
    }
  }

  lemma {:induction false} ColumnPositionsOfFilled(rows: seq<Row>, width: nat, from: nat)
    requires from <= width
    requires forall j :: from <= j < width ==> ColumnHasValue(rows, j)
    ensures ColumnPositions(rows, width, from) == Range(from, width)
    decreases width - from
  {
    if from < width {
      assert ColumnPositions(rows, width, from) == [from] + ColumnPositions(rows, width, from + 1) by {
        assert ColumnHasValue(rows, from);
      }
      ColumnPositionsOfFilled(rows, width, from + 1);
      RangeCons(from, width);
    }
  }

  /** A frame whose every row holds a value is left as it is by the row pass. */
  lemma DropEmptyRowsKeepsFilledRows(t: Table)
    requires t.Valid()
    requires forall i :: 0 <= i < |t.rows| ==> HasValue(t.rows[i])
    ensures DropEmptyRows(t) == t
  {
    RowPositionsOfNonEmpty(t.rows, 0);
    assert Select(t.rows, Range(0, |t.rows|)) == t.rows;
    assert Select(t.index, Range(0, |t.index|)) == t.index;
  }

  /** A frame whose every column holds a value is left as it is by the column pass. */
  lemma DropEmptyColumnsKeepsFilledColumns(t: Table)
    requires t.Valid()
    requires forall j :: 0 <= j < |t.columns| ==> ColumnHasValue(t.rows, j)
    ensures DropEmptyColumns(t) == t
  {
    var r := Range(0, |t.columns|);
    ColumnPositionsOfFilled(t.rows, |t.columns|, 0);
    assert Select(t.columns, r) == t.columns;
    var u := DropEmptyColumns(t);
    forall i | 0 <= i < |t.rows| ensures u.rows[i] == t.rows[i] {
      assert Select(t.rows[i], r) == t.rows[i];
    }
  }

  /** A strictly increasing list of positions below n has at most n entries. */
  lemma {:induction false} IncreasingInRangeIsShort(ps: seq<nat>, n: nat)
    requires Increasing(ps) && InRange(ps, n)
    ensures |ps| <= n
  {
    if |ps| > 0 {
      var last := ps[|ps| - 1];
      assert Increasing(ps[..|ps| - 1]) && InRange(ps[..|ps| - 1], last);
      IncreasingInRangeIsShort(ps[..|ps| - 1], last);
    }
  }

  // ---------------------------------------------------------------------
  // The DataFrame object that process_excel_sheet mutates
  // ---------------------------------------------------------------------

  /** A pandas DataFrame whose dropna(inplace=True) and axis-name setters change it in place. */
  class DataFrame {
    var indexName: Entry
    var columnsName: Entry
    var index: seq<Entry>
    var columns: seq<Entry>
    var values: seq<Row>

    /** The frame's current contents as a value. */
    function Value(): Table
      reads this
    {
      Table(indexName, columnsName, index, columns, values)
    }

    predicate Valid()
      reads this
    {
      Value().Valid()
    }

    /** A new frame holding t, as read_excel returns it. */
    constructor FromTable(t: Table)
      requires t.Valid()
      ensures Valid() && Value() == t
    {
      indexName, columnsName := t.indexName, t.columnsName;
      index, columns, values := t.index, t.columns, t.rows;
    }

    /** dropna(how='all', axis=0, inplace=True) */
    method DropEmptyRowsInPlace()
      requires Valid()
      modifies this
      ensures Valid() && Value() == DropEmptyRows(old(Value()))
    {
      var u := DropEmptyRows(Value());
      index, values := u.index, u.rows;
    }

    /** dropna(how='all', axis=1, inplace=True) */
    method DropEmptyColumnsInPlace()
      requires Valid()
      modifies this
      ensures Valid() && Value() == DropEmptyColumns(old(Value()))
    {
      var u := DropEmptyColumns(Value());
      columns, values := u.columns, u.rows;
    }

    /** The assignments to df.index.name and df.columns.name. */
    method SetAxisNames(rowAxis: Entry, columnAxis: Entry)
      requires Valid()
      modifies this
      ensures Valid() && Value() == old(Value()).(indexName := rowAxis, columnsName := columnAxis)
    {
      indexName := rowAxis;
      columnsName := columnAxis;
    }
  }
}
