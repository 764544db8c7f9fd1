/**
 * process_excel_sheet, which the HTTP backend and the console script define
 * identically: read one named sheet with the header at row 5 and the row
 * labels in column 0, drop the all-missing rows and then the all-missing
 * columns, and name the two axes. Any failure yields None.
 */
module Extractor {
  import opened Options
  import opened Frame

  /** What a path or an upload holds: a workbook of named sheets, or bytes no spreadsheet reader accepts. */
  datatype File = Workbook(sheets: map<string, Grid>) | Unreadable

  /** The name given to the row axis (df.index.name). */
  const IndexAxisName: string := "Chỉ tiêu"
  /** The name given to the column axis (df.columns.name). */
  const ColumnAxisName: string := "Quý"

  /** The fixed mapping from logical key to literal sheet name, in the order both front ends iterate it. */
  const SheetMapping: seq<(string, string)> :=
    [("balance_sheet", "CDKT"), ("income_statement", "KQKD"), ("financial_ratios", "CSTC")]

  /** The assignments to df.index.name and df.columns.name: the two axis names change and nothing else does. */
  function Label(t: Table): (u: Table)
    ensures u.indexName == Some(Text(IndexAxisName)) && u.columnsName == Some(Text(ColumnAxisName))
    ensures u.index == t.index && u.columns == t.columns && u.rows == t.rows
    ensures t.Valid() ==> u.Valid()
  {
    t.(indexName := Some(Text(IndexAxisName)), columnsName := Some(Text(ColumnAxisName)))
  }

  /**
   * The table process_excel_sheet returns for the sheet, or None when the
   * file cannot be read, the sheet is missing (the ValueError branch) or
   * the sheet cannot be read with that header row and label column (the
   * catch-all branch).
   */
  function Extract(f: File, sheetName: string): (t: Option<Table>)
    ensures t.Some? <==> f.Workbook? && sheetName in f.sheets
                          && (|ParsedRows(f.sheets[sheetName])| == 0 || |ParsedRows(f.sheets[sheetName])| > HeaderRow)
    ensures t.Some? && |ParsedRows(f.sheets[sheetName])| == 0 ==> t.value == Label(EmptyFrame)
    ensures t.Some? ==> t.value.Valid()
  {
    if f.Unreadable? || sheetName !in f.sheets then None
    else match ReadSheet(f.sheets[sheetName])
      case None => None
      case Some(raw) => Some(Label(DropEmptyColumns(DropEmptyRows(raw))))
  }

  /**
   * An extracted table is rectangular, carries the two fixed axis names
   * whatever the header said, and has no row and no column without a value.
   */
  lemma ExtractShape(f: File, sheetName: string)
    requires Extract(f, sheetName).Some?
    ensures var t := Extract(f, sheetName).value;
            && t.indexName == Some(Text(IndexAxisName)) && t.columnsName == Some(Text(ColumnAxisName))
            && (forall i :: 0 <= i < |t.rows| ==> HasValue(t.rows[i]))
            && (forall j :: 0 <= j < |t.columns| ==> ColumnHasValue(t.rows, j))
  {
  }

  /**
   * The sheet's rows as the reader sees them: the sheet up to its last row
   * with a present cell, and for a one-column sheet only its rows that hold
   * a value (ParsedRows says how the two relate).
   */
  function Data(f: File, sheetName: string): Grid
    requires f.Workbook? && sheetName in f.sheets
  {
    ParsedRows(f.sheets[sheetName])
  }

  /**
   * The reader cuts off trailing blank rows before it looks for the header
   * row: a sheet with no value at all extracts to the empty frame with the
   * two axis names, and a sheet whose values all lie above the header row
   * fails, however many blank rows follow them.
   */
  lemma BlankRowsAreCutOff(f: File, sheetName: string)
    requires f.Workbook? && sheetName in f.sheets
    ensures (forall i :: 0 <= i < |f.sheets[sheetName]| ==> !HasValue(f.sheets[sheetName][i]))
            ==> Extract(f, sheetName) == Some(Label(EmptyFrame))
    ensures (exists i :: 0 <= i < |f.sheets[sheetName]| && HasValue(f.sheets[sheetName][i]))
            && (forall i :: HeaderRow <= i < |f.sheets[sheetName]| ==> !HasValue(f.sheets[sheetName][i]))
            ==> Extract(f, sheetName).None?
  {
    var g := f.sheets[sheetName];
    if OneColumn(g) {
      var ps := RowPositions(g, 0);
      if forall i :: HeaderRow <= i < |g| ==> !HasValue(g[i]) {
        assert InRange(ps, HeaderRow);
        IncreasingInRangeIsShort(ps, HeaderRow);
      }
    } else {
      var d := DataRows(g);
      if 0 < |d| {
        assert d[|d| - 1] == g[|d| - 1];
        assert !(forall i :: 0 <= i < |g| ==> !HasValue(g[i]));
      }
    }
  }

  /**
   * On a sheet whose only values lie in the label column the parser skips
   * the blank rows, so the header is the row after the first HeaderRow rows
   * that hold a value, not sheet row HeaderRow. Such a sheet gives a frame
   * exactly when it holds no value or more than HeaderRow rows with one, and
   * that frame has no rows and no columns left: no row holds a value outside
   * the label column.
   */
  lemma OneColumnSheetSkipsBlankRows(f: File, sheetName: string)
    requires f.Workbook? && sheetName in f.sheets && OneColumn(f.sheets[sheetName])
    ensures Extract(f, sheetName).Some? <==>
              |RowPositions(f.sheets[sheetName], 0)| == 0 || |RowPositions(f.sheets[sheetName], 0)| > HeaderRow
    ensures Extract(f, sheetName).Some? ==> Extract(f, sheetName).value.rows == [] && Extract(f, sheetName).value.columns == []
  {
    var g := f.sheets[sheetName];
    if Extract(f, sheetName).Some? && |Data(f, sheetName)| > HeaderRow {
      var e := Data(f, sheetName);
      var raw := Raw(f, sheetName);
      assert raw == ReadData(e);
      forall r | 0 <= r < |raw.rows| ensures !HasValue(raw.rows[r]) {
        var i := HeaderRow + 1 + r;
        assert e[i] == g[RowPositions(g, 0)[i]];
        forall j | 0 <= j < |raw.rows[r]| ensures raw.rows[r][j].None? {
          assert raw.rows[r][j] == CellAt(e, i, j + 1);
        }
      }
      NoRowPositionsIffBlank(raw.rows);
      var d := DropEmptyRows(raw);
      assert d.rows == [];
    }
  }

  /** Five blank rows and a single label below them: the parser finds no header, so the sheet gives no frame. */
  lemma LabelBelowBlankRowsGivesNoFrame(sheetName: string, cell: Cell)
    ensures Extract(Workbook(map[sheetName := [[None], [None], [None], [None], [None], [Some(cell)]]]), sheetName).None?
  {
    var f: File := Workbook(map[sheetName := [[None], [None], [None], [None], [None], [Some(cell)]]]);
    var g: Grid := f.sheets[sheetName];
    assert g[5][0].Some?;
    assert RowPositions(g, 6) == [];
    assert RowPositions(g, 5) == [5];
    forall i | 0 <= i < 5 ensures !HasValue(g[i]) {
      assert g[i] == [None];
    }
    assert RowPositions(g, 4) == [5];
    assert RowPositions(g, 3) == [5];
    assert RowPositions(g, 2) == [5];
    assert RowPositions(g, 1) == [5];
    assert RowPositions(g, 0) == [5];
    OneColumnSheetSkipsBlankRows(f, sheetName);
  }

  /** The frame as read, before anything is dropped. */
  function Raw(f: File, sheetName: string): (raw: Table)
    requires Extract(f, sheetName).Some?
    ensures raw.Valid()
  {
    ReadSheet(f.sheets[sheetName]).value
  }

  /** Positions, among the rows below the header, of the rows that survive. */
  function SurvivingRows(f: File, sheetName: string): seq<nat>
    requires Extract(f, sheetName).Some?
  {
    KeptRows(Raw(f, sheetName))
  }

  /** Positions, among the value columns, of the columns that survive. */
  function SurvivingColumns(f: File, sheetName: string): seq<nat>
    requires Extract(f, sheetName).Some?
  {
    KeptColumns(DropEmptyRows(Raw(f, sheetName)))
  }

  /**
   * The in-place version: read the frame, drop in place along each
   * axis, then set both axis names.
   */
  method ProcessExcelSheet(f: File, sheetName: string) returns (df: DataFrame?)
    ensures df == null <==> Extract(f, sheetName).None?
    ensures df != null ==> fresh(df) && df.Valid() && Extract(f, sheetName) == Some(df.Value())
  {
    if f.Unreadable? || sheetName !in f.sheets {
      return null;
    }
    var raw := ReadSheet(f.sheets[sheetName]);
    if raw.None? {
      return null;
    }
    df := new DataFrame.FromTable(raw.value);
    df.DropEmptyRowsInPlace();
    df.DropEmptyColumnsInPlace();
    df.SetAxisNames(Some(Text(IndexAxisName)), Some(Text(ColumnAxisName)));
  }

  // ---------------------------------------------------------------------
  // What extraction keeps, and where it comes from
  // ---------------------------------------------------------------------

  /**
   * Rows: a row below the header survives exactly when it holds a value
   * outside the label column; survivors keep their sheet order and their labels.
   */
  lemma ExtractKeepsExactlyTheFilledRows(f: File, sheetName: string)
    requires Extract(f, sheetName).Some?
    ensures Increasing(SurvivingRows(f, sheetName))
    ensures |Extract(f, sheetName).value.index| == |SurvivingRows(f, sheetName)|
    ensures forall i :: HeaderRow < i < |Data(f, sheetName)| ==>
              (i - (HeaderRow + 1) in SurvivingRows(f, sheetName) <==> DataRowHasValue(Data(f, sheetName), i))
  {
    var g := Data(f, sheetName);
    if |g| > HeaderRow {
      assert SurvivingRows(f, sheetName) == KeptRows(ReadData(g));
      KeptRowsAreTheFilled(g);
    }
  }

  /** Row labels: the a-th surviving row keeps the label its sheet row has in the label column. */
  lemma ExtractKeepsRowLabels(f: File, sheetName: string)
    requires Extract(f, sheetName).Some?
    ensures |Extract(f, sheetName).value.index| == |SurvivingRows(f, sheetName)|
    ensures forall a :: 0 <= a < |SurvivingRows(f, sheetName)| ==>
              Extract(f, sheetName).value.index[a]
              == CellAt(Data(f, sheetName), HeaderRow + 1 + SurvivingRows(f, sheetName)[a], LabelColumn)
  {
  }

  /**
   * Columns: a value column survives exactly when some row below the header
   * holds a value in it; survivors keep their sheet order and their header labels.
   */
  lemma ExtractKeepsExactlyTheFilledColumns(f: File, sheetName: string)
    requires Extract(f, sheetName).Some?
    ensures Increasing(SurvivingColumns(f, sheetName))
    ensures forall j :: 0 <= j < Width(Data(f, sheetName)) - 1 ==>
              (j in SurvivingColumns(f, sheetName) <==> SheetColumnHasValue(Data(f, sheetName), j + 1))
  {
    var g := Data(f, sheetName);
    if |g| > HeaderRow {
      assert SurvivingColumns(f, sheetName) == KeptColumns(DropEmptyRows(ReadData(g)));
      KeptColumnsAreTheFilled(g);
    }
  }

  /** Column labels: the b-th surviving column keeps the label its sheet column has in the header row. */
  lemma ExtractKeepsColumnLabels(f: File, sheetName: string)
    requires Extract(f, sheetName).Some?
    ensures |Extract(f, sheetName).value.columns| == |SurvivingColumns(f, sheetName)|
    ensures forall b :: 0 <= b < |SurvivingColumns(f, sheetName)| ==>
              Extract(f, sheetName).value.columns[b]
              == CellAt(Data(f, sheetName), HeaderRow, SurvivingColumns(f, sheetName)[b] + 1)
  {
    var g := Data(f, sheetName);
    if |g| > HeaderRow {
      var d := DropEmptyRows(ReadData(g));
      assert SurvivingColumns(f, sheetName) == KeptColumns(d);
      assert Extract(f, sheetName).value.columns == DropEmptyColumns(d).columns;
      KeptColumnLabels(g);
    }
  }

  /** Cells: the value at (a, b) is the sheet cell in the a-th surviving row and the b-th surviving column. */
  lemma ExtractAlignsCells(f: File, sheetName: string)
    requires Extract(f, sheetName).Some?
    ensures |Extract(f, sheetName).value.rows| == |SurvivingRows(f, sheetName)|
    ensures forall a, b :: 0 <= a < |SurvivingRows(f, sheetName)| && 0 <= b < |SurvivingColumns(f, sheetName)| ==>
              Extract(f, sheetName).value.rows[a][b]
              == CellAt(Data(f, sheetName), HeaderRow + 1 + SurvivingRows(f, sheetName)[a], SurvivingColumns(f, sheetName)[b] + 1)
  {
    var g, raw := Data(f, sheetName), Raw(f, sheetName);
    var ps, qs := SurvivingRows(f, sheetName), SurvivingColumns(f, sheetName);
    var d := DropEmptyRows(raw);
    var t := Extract(f, sheetName).value;
    forall a, b | 0 <= a < |ps| && 0 <= b < |qs|
      ensures t.rows[a][b] == CellAt(g, HeaderRow + 1 + ps[a], qs[b] + 1)
    {
      assert t.rows[a] == Select(d.rows[a], qs);
      assert d.rows[a] == raw.rows[ps[a]];
    }
  }

  /** Running both drop passes again on an extracted table changes nothing. */
  lemma ExtractIsIdempotent(f: File, sheetName: string)
    requires Extract(f, sheetName).Some?
    ensures DropEmptyColumns(DropEmptyRows(Extract(f, sheetName).value)) == Extract(f, sheetName).value
  {
    var t := Extract(f, sheetName).value;
    ExtractShape(f, sheetName);
    DropEmptyRowsKeepsFilledRows(t);
    DropEmptyColumnsKeepsFilledColumns(t);
  }

  // ---------------------------------------------------------------------
  // The layout of the sample workbooks
  // ---------------------------------------------------------------------

  /**
   * The layout the sample workbooks are written in: HeaderRow filler rows
   * with no values, a header row of a title cell and the period names,
   * then one row per indicator, its label followed by its figures.
   */
  function FixtureSheet(fillerWidth: nat, title: Entry, periods: seq<Entry>, labels: seq<Entry>, figures: seq<Row>): (g: Grid)
    requires |labels| == |figures|
    ensures |g| == HeaderRow + 1 + |figures|
  {
    seq(HeaderRow, _ => seq(fillerWidth, _ => None))
    + [[title] + periods]
    + seq(|figures|, i requires 0 <= i < |figures| => [labels[i]] + figures[i])
  }

  /**
   * Extracting a sheet in that layout gives back the period names as column
   * labels and the indicators, in order, as row labels, without the
   * indicators whose figures are all missing; whatever the title cell holds,
   * the axes get the two fixed names.
   */
  lemma FixtureRoundTrip(sheetName: string, fillerWidth: nat, title: Entry, periods: seq<Entry>, labels: seq<Entry>, figures: seq<Row>)
    requires |labels| == |figures|
    requires fillerWidth <= |periods| + 1
    requires forall i :: 0 <= i < |figures| ==> |figures[i]| == |periods|
    requires title.Some? && forall i :: 0 <= i < |labels| ==> labels[i].Some?
    requires 0 < |periods| && periods[0].Some?
    requires forall j :: 0 <= j < |periods| ==> ColumnHasValue(figures, j)
    ensures Extract(Workbook(map[sheetName := FixtureSheet(fillerWidth, title, periods, labels, figures)]), sheetName)
         == Some(Table(Some(Text(IndexAxisName)), Some(Text(ColumnAxisName)),
                       Select(labels, RowPositions(figures, 0)), periods, Select(figures, RowPositions(figures, 0))))
  {
    var g := FixtureSheet(fillerWidth, title, periods, labels, figures);
    FixtureReads(fillerWidth, title, periods, labels, figures);
    var raw := ReadSheet(g).value;
    var d := DropEmptyRows(raw);
    forall j | 0 <= j < |d.columns| ensures ColumnHasValue(d.rows, j) {
      DropEmptyRowsKeepsColumnValues(raw, j);
    }
    DropEmptyColumnsKeepsFilledColumns(d);
  }

  /** Reading a sheet in the sample layout gives the periods as columns, the indicators as labels and their figures as rows. */
  lemma FixtureReads(fillerWidth: nat, title: Entry, periods: seq<Entry>, labels: seq<Entry>, figures: seq<Row>)
    requires |labels| == |figures|
    requires fillerWidth <= |periods| + 1
    requires forall i :: 0 <= i < |figures| ==> |figures[i]| == |periods|
    requires title.Some? && forall i :: 0 <= i < |labels| ==> labels[i].Some?
    requires 0 < |periods| && periods[0].Some?
    ensures ReadSheet(FixtureSheet(fillerWidth, title, periods, labels, figures))
         == Some(Table(title, None, labels, periods, figures))
  {
    var g := FixtureSheet(fillerWidth, title, periods, labels, figures);
    FixtureWidth(fillerWidth, title, periods, labels, figures);
    FixtureIsData(fillerWidth, title, periods, labels, figures);
    var raw := ReadData(g);
    FixtureHeader(fillerWidth, title, periods, labels, figures);
    FixtureBody(fillerWidth, title, periods, labels, figures);
    assert raw.indexName == title;
  }

  /** The last row of the sample layout, the header or the last indicator, holds a value, and the header names a period: the parser sees every row. */
  lemma FixtureIsData(fillerWidth: nat, title: Entry, periods: seq<Entry>, labels: seq<Entry>, figures: seq<Row>)
    requires |labels| == |figures|
    requires title.Some? && forall i :: 0 <= i < |labels| ==> labels[i].Some?
    requires 0 < |periods| && periods[0].Some?
    ensures ParsedRows(FixtureSheet(fillerWidth, title, periods, labels, figures)) == FixtureSheet(fillerWidth, title, periods, labels, figures)
  {
    var g := FixtureSheet(fillerWidth, title, periods, labels, figures);
    if |figures| == 0 {
      assert g[|g| - 1] == [title] + periods;
    } else {
      assert g[|g| - 1] == [labels[|figures| - 1]] + figures[|figures| - 1];
    }
    assert g[|g| - 1][0].Some?;
    assert g[HeaderRow][1] == periods[0];
  }

  /** In the sample layout the header row holds the index title and then the periods. */
  lemma FixtureHeader(fillerWidth: nat, title: Entry, periods: seq<Entry>, labels: seq<Entry>, figures: seq<Row>)
    requires |labels| == |figures|
    requires fillerWidth <= |periods| + 1
    requires forall i :: 0 <= i < |figures| ==> |figures[i]| == |periods|
    requires Width(FixtureSheet(fillerWidth, title, periods, labels, figures)) == |periods| + 1
    ensures Readable(FixtureSheet(fillerWidth, title, periods, labels, figures))
    ensures ReadData(FixtureSheet(fillerWidth, title, periods, labels, figures)).columns == periods
  {
    var g := FixtureSheet(fillerWidth, title, periods, labels, figures);
    var raw := ReadData(g);
    forall j | 0 <= j < |periods| ensures raw.columns[j] == periods[j] {
      assert CellAt(g, HeaderRow, j + 1) == periods[j];
    }
  }

  /** In the sample layout each row below the header holds an indicator's label and then its figures. */
  lemma FixtureBody(fillerWidth: nat, title: Entry, periods: seq<Entry>, labels: seq<Entry>, figures: seq<Row>)
    requires |labels| == |figures|
    requires fillerWidth <= |periods| + 1
    requires forall i :: 0 <= i < |figures| ==> |figures[i]| == |periods|
    requires Width(FixtureSheet(fillerWidth, title, periods, labels, figures)) == |periods| + 1
    ensures Readable(FixtureSheet(fillerWidth, title, periods, labels, figures))
    ensures ReadData(FixtureSheet(fillerWidth, title, periods, labels, figures)).index == labels
    ensures ReadData(FixtureSheet(fillerWidth, title, periods, labels, figures)).rows == figures
  {
    var g := FixtureSheet(fillerWidth, title, periods, labels, figures);
    var raw := ReadData(g);
    forall i | 0 <= i < |figures|
      ensures raw.index[i] == labels[i] && raw.rows[i] == figures[i]
    {
      assert g[HeaderRow + 1 + i] == [labels[i]] + figures[i];
      forall j | 0 <= j < |periods| ensures raw.rows[i][j] == figures[i][j] {
        assert CellAt(g, HeaderRow + 1 + i, j + 1) == figures[i][j];
      }
    }
  }

  /** The header row is the widest row of the sample layout. */
  lemma FixtureWidth(fillerWidth: nat, title: Entry, periods: seq<Entry>, labels: seq<Entry>, figures: seq<Row>)
    requires |labels| == |figures|
    requires fillerWidth <= |periods| + 1
    requires forall i :: 0 <= i < |figures| ==> |figures[i]| == |periods|
    ensures Width(FixtureSheet(fillerWidth, title, periods, labels, figures)) == |periods| + 1
  {
    var g := FixtureSheet(fillerWidth, title, periods, labels, figures);
    var w := |periods| + 1;
    forall i | 0 <= i < |g| ensures |g[i]| <= w {
      if HeaderRow < i {
        assert g[i] == [labels[i - (HeaderRow + 1)]] + figures[i - (HeaderRow + 1)];
      }
    }
    assert |g[HeaderRow]| == w;
  }
}
