/**
 * The console script: it asks for a workbook path until one is accepted,
 * loads the three statements of the sheet mapping (keeping None for the
 * ones that fail), then answers menu choices until the user exits. The
 * console's input() calls are a sequence of lines; running out of lines
 * (EOFError) ends the program. What is printed is a sequence of Display
 * values; the text rendering of a frame is not part of this model.
 */
module Console {
  import opened Options
  import opened Strings
  import opened Frame
  import opened Extractor
  import opened Backend

  // ---------------------------------------------------------------------
  // analyze_financials: the path prompt
  // ---------------------------------------------------------------------

  /** file_path.lower().endswith(('.xlsx', '.xls')) */
  predicate HasExcelSuffix(path: string)
  {
    EndsWith(Lower(path), ".xlsx") || EndsWith(Lower(path), ".xls")
  }

  /**
   * A path is accepted when it exists and has an Excel suffix. `fs` maps
   * every existing path to what reading it gives, so os.path.exists is
   * membership in it.
   */
  predicate AcceptPath(path: string, fs: map<string, File>): (ok: bool)
    ensures ok <==> path in fs && AllowedFile(path)
  {
    SuffixTestAgreesWithAllowedFile(path);
    path in fs && HasExcelSuffix(path)
  }

  /** The console's suffix test and the upload endpoint's extension test accept the same names. */
  lemma SuffixTestAgreesWithAllowedFile(path: string)
    ensures HasExcelSuffix(path) <==> AllowedFile(path)
  {
    if HasExcelSuffix(path) {
      var ext := if EndsWith(Lower(path), ".xlsx") then "xlsx" else "xls";
      SuffixGivesExtension(path, ext);
    }
    if AllowedFile(path) {
      var k :| AllowedAfterLastDot(path, k);
      ExtensionGivesSuffix(path, k);
    }
  }

  /** A name whose lower-cased form ends with '.' and ext has its last dot just before ext. */
  lemma SuffixGivesExtension(path: string, ext: string)
    requires ext in AllowedExtensions && EndsWith(Lower(path), "." + ext)
    ensures AllowedFile(path)
  {
    var low := Lower(path);
    var k := |path| - |ext| - 1;
    assert low[k..] == "." + ext;
    assert low[k] == '.';
    LowerCharKeepsDot(path[k]);
    forall j | k < j < |path|
      ensures path[j] != '.'
    {
      assert low[j] == ext[j - k - 1];
      LowerCharKeepsDot(path[j]);
    }
    LowerSlice(path, k + 1);
    assert Lower(path[k + 1..]) == ext;
    assert AllowedAfterLastDot(path, k);
  }

  /** A name whose text after the dot at k, lower-cased, is an allowed extension has an Excel suffix. */
  lemma ExtensionGivesSuffix(path: string, k: nat)
    requires k < |path| && path[k] == '.' && Lower(path[k + 1..]) in AllowedExtensions
    ensures HasExcelSuffix(path)
  {
    LowerFromDot(path, k);
    TailIsExcelSuffix(Lower(path), k, Lower(path[k + 1..]));
  }

  lemma LowerFromDot(path: string, k: nat)
    requires k < |path| && path[k] == '.'
    ensures Lower(path)[k..] == "." + Lower(path[k + 1..])
  {
    LowerSlice(path, k + 1);
    assert Lower(path)[k..] == [Lower(path)[k]] + Lower(path)[k + 1..];
  }

  lemma TailIsExcelSuffix(s: string, k: nat, ext: string)
    requires k <= |s| && s[k..] == "." + ext && ext in AllowedExtensions
    ensures EndsWith(s, ".xlsx") || EndsWith(s, ".xls")
  {
    assert EndsWith(s, "." + ext);
    if ext == "xlsx" {
      assert "." + ext == ".xlsx";
    } else {
      assert "." + ext == ".xls";
    }
  }

  /**
   * The prompt loop: read lines until one names an accepted path, and
   * return it with the number of lines read. Without such a line the input
   * runs out and no path is returned.
   */
  method PromptPath(inputs: seq<string>, fs: map<string, File>) returns (path: Option<string>, consumed: nat)
    ensures consumed <= |inputs|
    ensures forall i :: 0 <= i < consumed - 1 ==> !AcceptPath(inputs[i], fs)
    ensures path.Some? ==> consumed > 0 && path.value == inputs[consumed - 1] && AcceptPath(path.value, fs)
    ensures path.None? ==> consumed == |inputs| && forall i :: 0 <= i < |inputs| ==> !AcceptPath(inputs[i], fs)
  {
    consumed := 0;
    while consumed < |inputs|
      invariant consumed <= |inputs|
      invariant forall i :: 0 <= i < consumed ==> !AcceptPath(inputs[i], fs)
    {
      var filePath := inputs[consumed];
      consumed := consumed + 1;
      if AcceptPath(filePath, fs) {
        return Some(filePath), consumed;
      }
    }
    path := None;
  }

  // ---------------------------------------------------------------------
  // main: loading the three statements
  // ---------------------------------------------------------------------

  /** What loading the first n sheets of the mapping stores: each logical key maps to its extraction, None included. */
  function Loaded(f: File, n: nat): map<string, Option<Table>>
    requires n <= |SheetMapping|
  {
    if n == 0 then map[]
    else Loaded(f, n - 1)[SheetMapping[n - 1].0 := Extract(f, SheetMapping[n - 1].1)]
  }

  /** Unlike the upload endpoint, the console keeps all three keys, whether or not their sheet extracts. */
  lemma {:induction false} LoadedKeepsEveryKey(f: File, n: nat)
    requires n <= |SheetMapping|
    ensures forall key :: key in Loaded(f, n) <==> exists i :: 0 <= i < n && SheetMapping[i].0 == key
  {
    if n > 0 {
      LoadedKeepsEveryKey(f, n - 1);
      forall k | k in Loaded(f, n)
        ensures exists i :: 0 <= i < n && SheetMapping[i].0 == k
      {
        if k == SheetMapping[n - 1].0 {
          assert SheetMapping[n - 1].0 == k;
        } else {
          assert k in Loaded(f, n - 1);
        }
      }
    }
  }

  /** Each key holds its sheet's extraction, None for a sheet that fails. */
  lemma {:induction false} LoadedStoresEachExtraction(f: File, n: nat)
    requires n <= |SheetMapping|
    ensures forall i :: 0 <= i < n ==> SheetMapping[i].0 in Loaded(f, n)
    ensures forall i :: 0 <= i < n ==> Loaded(f, n)[SheetMapping[i].0] == Extract(f, SheetMapping[i].1)
  {
    if n > 0 {
      LoadedStoresEachExtraction(f, n - 1);
      SheetMappingKeysAreDistinct();
    }
  }

  /** The frames the program holds, as values: null is None. */
  function View(frames: map<string, DataFrame?>): (v: map<string, Option<Table>>)
    reads frames.Values
    ensures v.Keys == frames.Keys
  {
    map key | key in frames :: if frames[key] == null then None else Some(frames[key].Value())
  }

  /** Storing a frame under a key changes the view at that key only. */
  lemma ViewUpdate(frames: map<string, DataFrame?>, key: string, df: DataFrame?)
    ensures View(frames[key := df]) == View(frames)[key := if df == null then None else Some(df.Value())]
  {
  }

  /** The loop of main over the mapping, storing whatever process_excel_sheet returns. */
  method LoadFrames(f: File) returns (frames: map<string, DataFrame?>)
    ensures View(frames) == Loaded(f, |SheetMapping|)
  {
    frames := map[];
    var n := 0;
    while n < |SheetMapping|
      invariant n <= |SheetMapping|
      invariant View(frames) == Loaded(f, n)
    {
      var (key, sheetName) := SheetMapping[n];
      ghost var before := View(frames);
      var df := ProcessExcelSheet(f, sheetName);
      assert View(frames) == before;
      ViewUpdate(frames, key, df);
      frames := frames[key := df];
      n := n + 1;
    }
  }

  // ---------------------------------------------------------------------
  // The get_* selectors and the menu
  // ---------------------------------------------------------------------

  /** The three statements the menu offers. */
  datatype Selector = BalanceSheet | IncomeStatement | FinancialRatios
  {
    /** The position of the selector's statement in the sheet mapping. */
    function Position(): (i: nat)
      ensures i < |SheetMapping|
    {
      match this
      case BalanceSheet => 0
      case IncomeStatement => 1
      case FinancialRatios => 2
    }

    /** The logical key the selector looks up: 'balance_sheet', 'income_statement' or 'financial_ratios'. */
    function Key(): string
    {
      SheetMapping[Position()].0
    }

    /** The line printed above the frame. */
    function Title(): string
    {
      match this
      case BalanceSheet => "--- Balance Sheet (Cân đối kế toán) ---"
      case IncomeStatement => "--- Income Statement (Kết quả kinh doanh) ---"
      case FinancialRatios => "--- Financial Ratios (Chỉ số tài chính) ---"
    }

    /** The line printed when the frame is None or missing. */
    function Unavailable(): string
    {
      match this
      case BalanceSheet => "Balance sheet data is not available."
      case IncomeStatement => "Income statement data is not available."
      case FinancialRatios => "Financial ratios data is not available."
    }
  }

  /** The number of rows df.head shows. */
  const HeadRows: nat := 1000

  /** The first n elements of s, or all of s when it is shorter. */
  function Take<T>(s: seq<T>, n: nat): (r: seq<T>)
    ensures |r| == if |s| < n then |s| else n
    ensures r == s[..|r|]
  {
    if |s| <= n then s else s[..n]
  }

  /** df.head(n): the first n rows with their labels, or all of them when there are fewer. */
  function Head(t: Table, n: nat): (h: Table)
    ensures t.Valid() ==> h.Valid()
    ensures h.rows == Take(t.rows, n) && h.index == Take(t.index, n)
    ensures h.columns == t.columns && h.indexName == t.indexName && h.columnsName == t.columnsName
  {
    t.(index := Take(t.index, n), rows := Take(t.rows, n))
  }

  /**
   * What one menu choice puts on the console: the selected statement's
   * head, its not-available line, the invalid-input line or the exit line.
   * Printed spells the lines of each.
   */
  datatype Display =
    | Shown(sheet: Selector, table: Table)
    | NotAvailable(sheet: Selector)
    | InvalidInput
    | Exiting

  /** A get_* selector: the head of the frame under its key, or the not-available message. */
  function Show(frames: map<string, Option<Table>>, s: Selector): Display
  {
    if s.Key() in frames && frames[s.Key()].Some?
    then Shown(s, Head(frames[s.Key()].value, HeadRows))
    else NotAvailable(s)
  }

  const InvalidInputLine: string := "Invalid input. Please enter 1, 2, 3, or 0."
  const ExitLine: string := "Exiting program."
  /** The rule printed after a shown frame: a blank line, 70 '=' and a blank line. */
  const Separator: string := "\n" + "======================================================================" + "\n"

  /**
   * The lines a display prints, apart from the text pandas renders for a
   * shown frame, which comes between the title and the separator.
   */
  function Printed(d: Display): (lines: seq<string>)
    ensures d.Shown? ==> lines == [d.sheet.Title(), Separator]
    ensures d.NotAvailable? ==> lines == [d.sheet.Unavailable()]
    ensures d.InvalidInput? ==> lines == [InvalidInputLine]
    ensures d.Exiting? ==> lines == [ExitLine]
  {
    match d
    case Shown(s, _) => [s.Title(), Separator]
    case NotAvailable(s) => [s.Unavailable()]
    case InvalidInput => [InvalidInputLine]
    case Exiting => [ExitLine]
  }

  /**
   * A selector prints its own title above the head of its statement when
   * one was loaded, and its own not-available line otherwise.
   */
  lemma ShowPrintsItsLines(frames: map<string, Option<Table>>, s: Selector)
    ensures s.Key() in frames && frames[s.Key()].Some? ==>
              Printed(Show(frames, s)) == [s.Title(), Separator]
    ensures s.Key() !in frames || frames[s.Key()].None? ==>
              Printed(Show(frames, s)) == [s.Unavailable()]
  {
  }

  /** The first line printed tells the three statements apart, and tells a shown statement from a missing one. */
  lemma FirstLineNamesTheChoice(d: Display, e: Display)
    requires (d.Shown? || d.NotAvailable?) && (e.Shown? || e.NotAvailable?)
    requires Printed(d)[0] == Printed(e)[0]
    ensures d.sheet == e.sheet && d.Shown? == e.Shown?
  {
    var x, y := Printed(d)[0], Printed(e)[0];
    assert x[4] == y[4] && x[0] == y[0];
  }

  /** The branch of the menu loop that one input line takes. */
  function Respond(frames: map<string, Option<Table>>, input: string): Display
  {
    if input == "1" then Show(frames, BalanceSheet)
    else if input == "2" then Show(frames, IncomeStatement)
    else if input == "3" then Show(frames, FinancialRatios)
    else if input == "0" then Exiting
    else InvalidInput
  }

  /** How many lines the menu loop handles: up to and including the first "0", or all of them when none is "0". */
  function Handled(lines: seq<string>): (n: nat)
    ensures n <= |lines|
    ensures forall k :: 0 <= k < n - 1 ==> lines[k] != "0"
    ensures n == |lines| || (0 < n && lines[n - 1] == "0")
  {
    if |lines| == 0 then 0
    else if lines[0] == "0" then 1
    else 1 + Handled(lines[1..])
  }

  /** Only one count fits that description: the loop stops at the first "0" and not before. */
  lemma {:induction false} HandledIsTheFirstExit(lines: seq<string>, n: nat)
    requires n <= |lines|
    requires forall k :: 0 <= k < n - 1 ==> lines[k] != "0"
    requires n == |lines| || (0 < n && lines[n - 1] == "0")
    ensures Handled(lines) == n
  {
    if 0 < |lines| && lines[0] != "0" {
      assert 0 < n;
      HandledIsTheFirstExit(lines[1..], n - 1);
    }
  }

  /** A selector shows the head of its statement when one was loaded, and the not-available message otherwise. */
  lemma ShowSelectsItsStatement(frames: map<string, Option<Table>>, s: Selector)
    ensures Show(frames, s).NotAvailable? <==> s.Key() !in frames || frames[s.Key()].None?
    ensures Show(frames, s).Shown? ==>
              var t := frames[s.Key()].value;
              var h := Show(frames, s).table;
              && |h.rows| <= HeadRows
              && h.rows == t.rows[..|h.rows|]
              && h.columns == t.columns
              && (t.Valid() && |t.rows| <= HeadRows ==> h == t)
  {
  }

  /** The menu keys select the three statements in order, whatever else is typed is refused. */
  lemma MenuChoices(frames: map<string, Option<Table>>, input: string)
    ensures Respond(frames, input).Exiting? <==> input == "0"
    ensures Respond(frames, input).InvalidInput? <==> input !in {"0", "1", "2", "3"}
    ensures input == "1" ==> Respond(frames, input) == Show(frames, BalanceSheet)
    ensures input == "2" ==> Respond(frames, input) == Show(frames, IncomeStatement)
    ensures input == "3" ==> Respond(frames, input) == Show(frames, FinancialRatios)
  {
  }

  /**
   * The `while True` menu loop of main, which breaks after "0": one display
   * per handled line, in order.
   */
  method RunMenu(frames: map<string, Option<Table>>, inputs: seq<string>) returns (shown: seq<Display>)
    ensures |shown| == Handled(inputs)
    ensures forall k :: 0 <= k < |shown| ==> shown[k] == Respond(frames, inputs[k])
  {
    shown := [];
    var i := 0;
    while i < |inputs|
      invariant i <= |inputs| && |shown| == i
      invariant forall k :: 0 <= k < i ==> shown[k] == Respond(frames, inputs[k]) && inputs[k] != "0"
    {
      var inputNum := inputs[i];
      shown := shown + [Respond(frames, inputNum)];
      if inputNum == "0" {
        HandledIsTheFirstExit(inputs, i + 1);
        return;
      }
      i := i + 1;
    }
    HandledIsTheFirstExit(inputs, i);
  }

  /**
   * main: prompt for a path, load the three statements from it, then run
   * the menu on the remaining lines.
   */
  method RunMain(inputs: seq<string>, fs: map<string, File>) returns (path: Option<string>, consumed: nat, shown: seq<Display>)
    ensures consumed <= |inputs|
    ensures forall i :: 0 <= i < consumed - 1 ==> !AcceptPath(inputs[i], fs)
    ensures path.Some? ==> consumed > 0 && path.value == inputs[consumed - 1] && AcceptPath(path.value, fs)
    ensures path.None? ==> (forall i :: 0 <= i < |inputs| ==> !AcceptPath(inputs[i], fs)) && shown == []
    ensures path.Some? ==> |shown| == Handled(inputs[consumed..])
    ensures path.Some? ==> forall k :: 0 <= k < |shown| ==>
              shown[k] == Respond(Loaded(fs[path.value], |SheetMapping|), inputs[consumed + k])
  {
    path, consumed := PromptPath(inputs, fs);
    if path.None? {
      return path, consumed, [];
    }
    var frames := LoadFrames(fs[path.value]);
    shown := RunMenu(View(frames), inputs[consumed..]);
  }
}
