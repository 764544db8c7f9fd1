# Financial Excel processor: a Dafny model of its sheet extractor and front ends

The financial processor reads a Vietnamese company's financial workbook. The
workbook has three sheets: the balance sheet `CDKT`, the income statement
`KQKD` and the financial ratios `CSTC`. Each sheet has five filler rows, then a
header row of period names, then one row per indicator. The repository offers
the same extraction behind two front ends:

- an HTTP backend (`financial-processor/backend/app.py`): it checks an
  uploaded file's name, extracts the three sheets and answers with a JSON
  payload per sheet;
- a console script (`dataframe.py`): it asks for a workbook path, loads the
  three sheets, and shows the statement chosen in a menu.

This project models that logic on an already decoded workbook and proves what
it promises.

- `options.dfy`: the `Option` type.
- `strings.dfy`: the string helpers the file-name tests use.
  - ASCII lower-casing.
  - The last position of a character, which is what `rsplit('.', 1)` splits at.
  - Suffix test and decimal rendering.
- `frame.dfy`: the part of pandas the extractor uses.
  - A sheet is a grid of optional cells, and `None` is pandas' NaN.
  - `read_excel(header=5, index_col=0)` is a function from a grid to a
    `Table` value. The reader cuts off trailing blank rows, then pads every
    row to the widest row. On a sheet one column wide the parser also skips
    the blank rows before it looks for the header.
  - `dropna(how='all')` along each axis is a function on tables.
  - The `DataFrame` class holds the frame that `dropna(..., inplace=True)` and
    the axis-name assignments change in place.
- `extractor.dfy`: `process_excel_sheet`. The two Python files define it
  identically.
  - The specification function is `Extract`.
  - The method that mutates the frame in place is `ProcessExcelSheet`.
  - Lemmas state what survives extraction and where each surviving label and
    cell came from.
  - The sample-workbook layout of `data_test.py` gets a round-trip lemma.
- `backend.dfy`: the backend.
  - `allowed_file` and `dataframe_to_json`.
  - `upload_file`: its guards and its loop over the sheet mapping. The loop is
    a method proved against an `Aggregate` function, and the endpoint is a
    method proved against an `Upload` function.
- `console.dfy`: the console script.
  - The path prompt loop.
  - The three-key load loop, over `DataFrame` objects.
  - The `get_*` selectors and the menu loop.
  - `main` as a whole.
  - Console input is a sequence of lines, and output is a sequence of
    `Display` values.

Four points of the code's behaviour shape the model:

- `process_excel_sheet` turns both a missing sheet (its `ValueError` branch)
  and any other error into `None`, and so does `Extract`.
- `dataframe_to_json` runs outside the `try`. `reset_index` raises
  `ValueError` when a value column already carries the index's name
  `Chỉ tiêu`, and that ends the upload in an HTTP 500
  (`Conversion.ResetIndexConflict`, `Response.InternalError`). This needs a
  period column headed `Chỉ tiêu` in a header whose first cell holds
  something else, blank included: when the first cell is `Chỉ tiêu` too,
  pandas renames the period column `Chỉ tiêu.1` and the upload succeeds.
- `read_excel` first cuts off the sheet's trailing rows that hold no value
  (`Frame.DataRows`). A sheet with no value at all then reads as an empty
  frame, which the upload converts and reports like any other sheet. A sheet
  whose values all lie above the header row is a read error, however many
  blank rows follow.
- pandas' parser skips a line that is a single empty field. The reader's
  rows are single fields exactly when the sheet holds values only in its
  first column, so on such a sheet the blank rows are skipped before the
  header is looked for (`Frame.ParsedRows`): five blank rows and then one
  label give no frame.

## Model

| member | source | states |
|---|---|---|
| Strings.Lower | financial-processor/backend/app.py:22 | `.lower()` keeps the length; each character is lower-cased on its own, and only `A`..`Z` change |
| Strings.LastIndexOf | financial-processor/backend/app.py:22 | where `rsplit('.', 1)` splits: `None` exactly when the name has no such character; otherwise a position that holds it, with none after it |
| Strings.LastIndexOfIsUnique | financial-processor/backend/app.py:22 | any position that holds the character with none after it is the one found, so the split point is unique |
| Strings.NatToString | financial-processor/backend/app.py:104 | the f-string rendering of the sheet count is a non-empty string of decimal digits whose value is the count, with no leading zero |
| Frame.Width | financial-processor/backend/app.py:29 | the width the reader pads rows to is that of the widest row: no row is wider, one row reaches it, and it is 0 only when every row is empty |
| Frame.DataRows | financial-processor/backend/app.py:29 | the rows the reader keeps are a prefix of the sheet that ends with a row holding a value; every row cut off holds none, so the prefix is empty exactly when the sheet holds no value |
| Frame.ParsedRows | financial-processor/backend/app.py:29 | the rows the parser looks for the header in: for a sheet with values only in column 0, exactly its rows that hold a value, in order; for any other sheet, its data rows. They are empty exactly when the sheet holds no value, and the last one holds a value |
| Frame.NoRowPositionsIffBlank | financial-processor/backend/app.py:29-31 | a grid has no filled-row positions exactly when none of its rows holds a value |
| Frame.ReadSheet | financial-processor/backend/app.py:29 | `read_excel(header=5, index_col=0)` fails exactly when the parser's rows are at least one and at most five. None reads as the empty frame. More read as `ReadData` of those rows |
| Frame.ReadData | financial-processor/backend/app.py:29 | reading parser rows that reach past row 5 gives a rectangular frame: row 5 gives the column labels from column 1 on, and its column-0 cell names the index. Each later row gives its column-0 cell as label and its cells, padded to the widest row, as values |
| Frame.RowPositions | financial-processor/backend/app.py:31 | the positions it lists are increasing, and each names a row that holds a value |
| Frame.RowPositionsComplete | financial-processor/backend/app.py:31 | no row that holds a value is missing from those positions |
| Frame.ColumnPositions | financial-processor/backend/app.py:32 | the positions it lists are increasing and in range, and each names a column that holds a value in some row |
| Frame.ColumnPositionsComplete | financial-processor/backend/app.py:32 | no column that holds a value is missing from those positions |
| Frame.DropEmptyRows | financial-processor/backend/app.py:31 | `dropna(how='all', axis=0)` keeps the frame rectangular, keeps names and column labels, leaves only rows with a value, and never adds rows |
| Frame.DropEmptyColumns | financial-processor/backend/app.py:32 | `dropna(how='all', axis=1)` keeps the frame rectangular, keeps names and row labels, leaves only columns with a value, and a row that held a value still holds one |
| Frame.KeptColumnsHoldValues | financial-processor/backend/app.py:32 | every column that survives the column drop holds a value |
| Frame.KeptColumnsKeepRowValues | financial-processor/backend/app.py:32 | the column drop never empties a row |
| Frame.KeptRowIffHasValue | financial-processor/backend/app.py:31 | the row drop keeps a row if and only if it holds a value |
| Frame.KeptColumnIffHasValue | financial-processor/backend/app.py:32 | the column drop keeps a column if and only if some row holds a value in it |
| Frame.DropEmptyRowsKeepsColumnValues | financial-processor/backend/app.py:31-32 | the row drop never empties a column, and never fills one: a column holds a value afterwards if and only if it did before |
| Frame.DropEmptyRowsKeepsFilledRows | financial-processor/backend/app.py:31 | on a frame whose rows all hold values, the row drop changes nothing |
| Frame.DropEmptyColumnsKeepsFilledColumns | financial-processor/backend/app.py:32 | on a frame whose columns all hold values, the column drop changes nothing |
| Frame.ReadRowHasValue | financial-processor/backend/app.py:29-31 | a read row holds a value if and only if its data row (a sheet row the reader keeps) holds one outside column 0 |
| Frame.ReadColumnHasValue | financial-processor/backend/app.py:29-32 | a read column holds a value if and only if its column of the data rows holds one below the header |
| Frame.KeptRowIffFilled | financial-processor/backend/app.py:29-31 | a data row below the header survives the row drop if and only if it holds a value outside column 0 |
| Frame.KeptColumnIffFilled | financial-processor/backend/app.py:29-32 | after the row drop, a column of the data rows survives the column drop if and only if it holds a value below the header |
| Frame.KeptRowsAreTheFilled | financial-processor/backend/app.py:29-31 | for every row below the header at once: it survives the row drop if and only if it holds a value outside column 0 |
| Frame.KeptColumnsAreTheFilled | financial-processor/backend/app.py:29-32 | for every value column at once: after the row drop, it survives the column drop if and only if it holds a value below the header |
| Frame.KeptColumnLabels | financial-processor/backend/app.py:29-32 | after both drops, each surviving column carries the header-row label of the column of the data rows it came from |
| Frame.DataFrame.FromTable | financial-processor/backend/app.py:29 | the frame `read_excel` returns holds exactly the table read |
| Frame.DataFrame.DropEmptyRowsInPlace | financial-processor/backend/app.py:31 | `dropna(..., inplace=True)` on rows replaces the frame's contents with the row drop of its old contents |
| Frame.DataFrame.DropEmptyColumnsInPlace | financial-processor/backend/app.py:32 | the same for columns |
| Frame.DataFrame.SetAxisNames | financial-processor/backend/app.py:34-35 | the assignments to `index.name` and `columns.name` change those two names and nothing else |
| Extractor.Extract | financial-processor/backend/app.py:24-45 | `process_excel_sheet` (the same code as dataframe.py:4-24) gives a frame exactly when the file is a readable workbook that has the sheet, and the sheet either holds no value or gives the parser more than five rows (`Frame.ParsedRows`). A sheet with no value gives the empty frame with the two axis names. Every failure gives `None`, never a partial table, and the frame is rectangular |
| Extractor.ExtractShape | financial-processor/backend/app.py:31-35 | the axis names are always `Chỉ tiêu` and `Quý`, whatever the header said; no row and no column of the result is all-missing |
| Extractor.Label | financial-processor/backend/app.py:34-35 | the two axis-name assignments set the names to `Chỉ tiêu` and `Quý` and leave labels and values as they are |
| Extractor.BlankRowsAreCutOff | financial-processor/backend/app.py:29-45 | a sheet with no value at all extracts to the empty frame with the two axis names; a sheet whose values all lie above the header row gives `None` |
| Extractor.OneColumnSheetSkipsBlankRows | financial-processor/backend/app.py:29-45 | on a sheet with values only in column 0, extraction succeeds exactly when no row or more than five rows hold a value, and then leaves no rows and no columns |
| Extractor.LabelBelowBlankRowsGivesNoFrame | financial-processor/backend/app.py:29-42 | five blank rows with one label below them give `None`: the parser skips the blank rows and finds no header row |
| Extractor.ProcessExcelSheet | financial-processor/backend/app.py:24-45 | the in-place version (read, drop rows in place, drop columns in place, name both axes) returns `None` exactly when `Extract` fails; otherwise it returns a fresh frame holding what `Extract` gives |
| Extractor.ExtractKeepsExactlyTheFilledRows | financial-processor/backend/app.py:29-31 | a data row below the header survives if and only if it holds a value outside the label column. The survivors keep their sheet order, one row label each |
| Extractor.ExtractKeepsRowLabels | financial-processor/backend/app.py:29-31 | each surviving row keeps its sheet row's column-0 label |
| Extractor.ExtractKeepsExactlyTheFilledColumns | financial-processor/backend/app.py:29-32 | a value column survives if and only if some data row below the header holds a value in it; survivors keep their sheet order |
| Extractor.ExtractKeepsColumnLabels | financial-processor/backend/app.py:29-32 | each surviving column keeps its sheet column's header-row label: a label is dropped together with its column |
| Extractor.ExtractAlignsCells | financial-processor/backend/app.py:29-32 | the cell at (a, b) of the result is the data-row cell at the a-th surviving row and the b-th surviving column, so labels and cells stay aligned |
| Extractor.ExtractIsIdempotent | financial-processor/backend/app.py:31-32 | running both drop passes again on an extracted table changes nothing |
| Extractor.FixtureReads | data_test.py:101-109 | reading a sheet in the sample layout, with its title cell, its first period and every indicator label present, keeps all its rows and gives the title cell as index name, the periods as column labels, the indicators as row labels and their figures as rows |
| Extractor.FixtureRoundTrip | data_test.py:101-109 | extracting a sheet in the sample layout, with its title cell, its first period and every indicator label present and a figure for every period, gives back the periods as columns, the indicators in order minus those with no figures, their figures, and the two fixed axis names |
| Backend.AllowedFile | financial-processor/backend/app.py:21-22 | a name is allowed if and only if it has a dot that is its last dot, and the text after it, lower-cased, is `xlsx` or `xls` |
| Backend.RejectsOtherExtension | financial-processor/backend/app.py:21-22 | `report.pdf` is refused |
| Backend.RejectsNameWithoutDot | financial-processor/backend/app.py:21-22 | `xlsx` with no dot is refused |
| Backend.RejectsTrailingDot | financial-processor/backend/app.py:21-22 | `a.xlsx.` is refused: its extension is empty |
| Backend.AcceptsUpperCaseExtension | financial-processor/backend/app.py:21-22 | `A.B.XLS` is accepted: only the last dot counts, and case is ignored |
| Backend.AcceptsWorkbookName | financial-processor/backend/app.py:21-22 | `report.xlsx` is accepted |
| Backend.ResetLabel | financial-processor/backend/app.py:53 | `reset_index` labels the new first column with the index name when there is one |
| Backend.DataFrameToJson | financial-processor/backend/app.py:47-60 | `None` maps to no payload. `reset_index` raises exactly when a column already carries the index column's label. Otherwise: one more column label than the frame has, one data row per frame row, each as wide as the columns list, and the shape is (rows, columns − 1), taken before the reset |
| Backend.JsonRoundTrip | financial-processor/backend/app.py:53-59 | the payload loses nothing: its first column label is the index's, and taking its first column back as row labels gives the frame again |
| Backend.ExtractedTableConverts | financial-processor/backend/app.py:53 | an extracted table fails to convert if and only if one of its columns is labelled `Chỉ tiêu` |
| Backend.OutcomeOfSheet | financial-processor/backend/app.py:89-91 | a sheet gives no payload exactly when it does not extract, and raises exactly when it extracts with a column labelled `Chỉ tiêu` |
| Backend.SheetMappingKeysAreDistinct | financial-processor/backend/app.py:79-83 | the three logical keys of the mapping are distinct |
| Backend.Outcomes | financial-processor/backend/app.py:89-91 | one outcome per sheet of the mapping, in mapping order; a sheet gives no payload exactly when it does not extract |
| Backend.ProcessedNames | financial-processor/backend/app.py:88-92 | `processed_sheets` holds only the literal sheet names of the mapping |
| Backend.Step | financial-processor/backend/app.py:89-92 | one loop turn: a raise is final and a conflict raises; a sheet with no frame changes nothing; a payload is stored under its key, leaving the other keys as they were, and the sheet's name is appended |
| Backend.Aggregate | financial-processor/backend/app.py:85-92 | the loop after n sheets lists at most n names unless it raised |
| Backend.ProcessedNamesAreTheExtracted | financial-processor/backend/app.py:88-92 | `processed_sheets` names exactly the sheets that gave a frame, holds no more names than there are sheets, and is empty exactly when none did |
| Backend.AggregateRaisesOnConflict | financial-processor/backend/app.py:88-91 | the loop raises if and only if some sheet's conversion raises |
| Backend.AggregateCollects | financial-processor/backend/app.py:85-92 | unless the loop raised: `processed_sheets` lists the extracted sheets' literal names in mapping order, and `results` holds a key exactly for each sheet that extracted, with that sheet's payload, and no other key |
| Backend.UploadGuards | financial-processor/backend/app.py:65-73 | in order, a missing `file` field, an empty filename and a refused extension (the answer at line 109) each give a 400 with their own message, and every request that fails a guard gets a 400 |
| Backend.SuccessMessage | financial-processor/backend/app.py:104 | the success message is `Successfully processed `, then the decimal digits of the count, then ` sheets` |
| Backend.Upload | financial-processor/backend/app.py:63-109 | a request that fails a guard is rejected; a processed answer passed every guard, has at least one payload, and its message counts the processed sheets |
| Backend.GuardsIgnoreContent | financial-processor/backend/app.py:65-73 | a request that fails a guard gets the same answer whatever its file holds: nothing is extracted |
| Backend.UploadOutcome | financial-processor/backend/app.py:85-101 | an accepted upload ends in a 500 exactly when a conversion raises. Otherwise it ends in a 400 "No valid sheets found" exactly when no sheet extracts |
| Backend.UploadProcessed | financial-processor/backend/app.py:100-107 | a successful upload passed every guard, lists the extracted sheets in mapping order (at least one), and counts them in its message. Its `data` holds exactly their payloads under their logical keys |
| Backend.MissingRatiosSheetScenario | financial-processor/backend/app.py:85-92 | a workbook with readable `CDKT` and `KQKD` sheets and no `CSTC` sheet reports `["CDKT", "KQKD"]` |
| Backend.UploadFile | financial-processor/backend/app.py:63-109 | the endpoint, with its guards and the loop, gives the response `Upload` specifies |
| Backend.ConvertSheets | financial-processor/backend/app.py:85-92 | the loop over the mapping fills `results` and `processed_sheets` as `Aggregate` says, and raises exactly when `Aggregate` does |
| Backend.ConvertSheet | financial-processor/backend/app.py:89-91 | one iteration's `process_excel_sheet` and `dataframe_to_json` give that sheet's outcome |
| Console.SuffixTestAgreesWithAllowedFile | dataframe.py:31 | the console's `.lower().endswith(('.xlsx', '.xls'))` test accepts exactly the names the backend's `allowed_file` accepts |
| Console.HasExcelSuffix | dataframe.py:31 | `file_path.lower().endswith(('.xlsx', '.xls'))`; `SuffixTestAgreesWithAllowedFile` proves it accepts exactly what `allowed_file` accepts |
| Console.AcceptPath | dataframe.py:31 | a path is accepted if and only if it exists and `allowed_file` would accept its name |
| Console.PromptPath | dataframe.py:26-35 | the prompt loop returns the first line that names an existing path with an Excel suffix, after reading exactly up to it. Without such a line it reads all input and returns nothing |
| Console.Loaded | dataframe.py:78-80 | what the load loop stores after n sheets of the mapping; `LoadedKeepsEveryKey` and `LoadedStoresEachExtraction` state its keys and values |
| Console.LoadedKeepsEveryKey | dataframe.py:78-80 | the loaded map has exactly the three logical keys, whichever sheets fail |
| Console.LoadedStoresEachExtraction | dataframe.py:78-80 | each key holds its sheet's extraction, `None` included |
| Console.LoadFrames | dataframe.py:78-80 | the load loop over `DataFrame` objects stores what `Loaded` describes, with null for `None` |
| Console.Head | dataframe.py:42 | `head(n)` keeps the first n rows and their labels, or all of them when there are fewer; columns and names are unchanged |
| Console.Handled | dataframe.py:83-96 | the menu handles every line up to and including the first `0`, or every line when no line is `0` |
| Console.HandledIsTheFirstExit | dataframe.py:83-96 | that count is the only one that fits: the loop stops at the first `0` and not earlier |
| Console.Respond | dataframe.py:86-96 | the branch one menu line takes; `MenuChoices` states which line selects which branch |
| Console.MenuChoices | dataframe.py:86-96 | `1`, `2` and `3` select the balance sheet, the income statement and the ratios; `0` exits; every other line is refused as invalid input |
| Console.Show | dataframe.py:38-63 | a `get_*` selector's display; `ShowSelectsItsStatement` and `ShowPrintsItsLines` state when it shows the head and what it prints |
| Console.ShowSelectsItsStatement | dataframe.py:38-63 | a selector prints "not available" exactly when its key is missing or holds `None`. Otherwise it shows at most 1000 leading rows of that statement, all of them when the statement is shorter |
| Console.Printed | dataframe.py:41-45 | the lines a display prints besides the frame text: a shown statement prints its selector's title and the separator, a missing one its selector's not-available line, and the invalid-input and exit branches their own lines |
| Console.ShowPrintsItsLines | dataframe.py:38-63 | a selector prints its own title above the head when its statement was loaded, and its own not-available line otherwise |
| Console.FirstLineNamesTheChoice | dataframe.py:38-63 | the first printed line tells the three statements apart, and a shown statement from a missing one |
| Console.RunMenu | dataframe.py:83-96 | the `while True` menu loop answers each handled line in order, as `Respond` says |
| Console.RunMain | dataframe.py:66-96 | `main` prompts for the path, then answers the remaining lines' menu choices from the statements loaded from that path. If no line is ever accepted, it shows nothing |

## Left out

- Flask glue is not modelled: routing, CORS, `secure_filename`, `jsonify`,
  the 16 MB request limit, and the constant `/api/sheets` and `/api/health`
  answers. A request is modelled only by its file fields.
- File I/O is not modelled: `file.save`, the `os.remove` clean-up and its
  warning, `os.makedirs`, and the progress and error messages that
  `process_excel_sheet`, the path prompt and the backend print.
  `os.path.exists` is membership in a map from path to file. Of the console
  output only the menu's lines are modelled (`Console.Printed`).
- The spreadsheet codec is not modelled: how xlsx bytes become cells, type
  coercion, blank strings read as NaN, `Unnamed:` names for missing header
  cells, and renaming of duplicate header labels. A workbook is a map from
  sheet name to a grid of optional, uninterpreted cells. Corrupt bytes are
  `File.Unreadable`.
- Frame.ReadData: pads rows to the widest row of the grid as given. The
  reader also trims each row's trailing missing cells first, so columns that
  are missing in every kept row, header included, are extra in the model.
  No row holds a value in them, so the column drop removes them. Whether a
  sheet is one column wide is decided on its present cells
  (`Frame.OneColumn`), so these columns do not change it.
- Backend.DataFrameToJson: duplicate header labels are not renamed, so the
  model raises the `reset_index` conflict for a period column headed
  `Chỉ tiêu` even when the header's first cell is `Chỉ tiêu` too. pandas
  would rename that column `Chỉ tiêu.1` and convert the sheet.
- Backend.DataFrameToJson: cell values stay uninterpreted, so NaN-to-JSON
  encoding and number formatting are not modelled.
- Strings.Lower: only ASCII letters are lower-cased. Python's `str.lower`
  also folds other Unicode letters.
- Console.RunMain: input running out (an `EOFError` from `input()`) ends the
  prompt and menu loops. The Python program would instead stop with that
  exception.
- Console.RunMenu: a shown statement is a `Display` value holding the head
  table. The text pandas prints for that table is not modelled.
- `FileStorage` filenames are strings. Werkzeug's `None` filename is not
  modelled.
- `financial-processor/frontend/src/App.js` is not part of this model. It is
  a React UI with timers and `fetch`. Its own extension test takes the text
  after the last dot without requiring a dot.
- `data_test.py` is used only for the layout of its sample sheets
  (`FixtureSheet`). Its DataFrame construction and file writing are not
  modelled.
