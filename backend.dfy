/**
 * The HTTP backend: the upload file-name check, the conversion of an
 * extracted table to the JSON payload, and the guard and aggregation logic
 * of the upload endpoint. Routing, CORS, the size limit and the temporary
 * file on disk are not part of this model.
 */
module Backend {
  import opened Options
  import opened Strings
  import opened Frame
  import opened Extractor

  // ---------------------------------------------------------------------
  // allowed_file
  // ---------------------------------------------------------------------

  const AllowedExtensions: set<string> := {"xlsx", "xls"}

  /** The dot at k is the last dot of the name, and the text after it, lower-cased, is an allowed extension. */
  predicate AllowedAfterLastDot(filename: string, k: int)
  {
    0 <= k < |filename| && filename[k] == '.'
    && (forall j :: k < j < |filename| ==> filename[j] != '.')
    && Lower(filename[k + 1..]) in AllowedExtensions
  }

  /**
   * '.' in filename and filename.rsplit('.', 1)[1].lower() in ALLOWED_EXTENSIONS:
   * a name is allowed exactly when it has a last dot with an allowed extension after it.
   */
  function AllowedFile(filename: string): (ok: bool)
    ensures ok <==> exists k :: AllowedAfterLastDot(filename, k)
  {
    match LastIndexOf(filename, '.')
    case None => false
    case Some(k) =>
      LastDotIsUnique(filename);
      var allowed := Lower(filename[k + 1..]) in AllowedExtensions;
      assert allowed ==> AllowedAfterLastDot(filename, k);
      allowed
  }

  /** Any dot followed by an allowed extension and no further dot is the one LastIndexOf finds. */
  lemma LastDotIsUnique(filename: string)
    ensures forall k :: AllowedAfterLastDot(filename, k) ==> LastIndexOf(filename, '.') == Some(k)
  {
    forall k | AllowedAfterLastDot(filename, k)
      ensures LastIndexOf(filename, '.') == Some(k)
    {
      LastIndexOfIsUnique(filename, '.');
    }
  }

  /** Another extension is refused. */
  lemma RejectsOtherExtension()
    ensures !AllowedFile("report.pdf")
  {
    LastIndexOfIsUnique("report.pdf", '.');
    assert "report.pdf"[6] == '.' && "report.pdf"[7..] == "pdf";
    assert Lower("pdf") == "pdf";
  }

  /** A bare extension without a dot is refused. */
  lemma RejectsNameWithoutDot()
    ensures !AllowedFile("xlsx")
  {
    assert '.' !in "xlsx";
  }

  /** A name ending in a dot has the empty extension, which is refused. */
  lemma RejectsTrailingDot()
    ensures !AllowedFile("a.xlsx.")
  {
    LastIndexOfIsUnique("a.xlsx.", '.');
    assert "a.xlsx."[6] == '.' && "a.xlsx."[7..] == "";
  }

  /** Only the last dot counts, and the extension is compared lower-cased. */
  lemma AcceptsUpperCaseExtension()
    ensures AllowedFile("A.B.XLS")
  {
    LastIndexOfIsUnique("A.B.XLS", '.');
    assert "A.B.XLS"[3] == '.' && "A.B.XLS"[4..] == "XLS";
    assert Lower("XLS") == "xls";
  }

  /** An ordinary workbook name is accepted. */
  lemma AcceptsWorkbookName()
    ensures AllowedFile("report.xlsx")
  {
    LastIndexOfIsUnique("report.xlsx", '.');
    assert "report.xlsx"[6] == '.';
    assert "report.xlsx"[7..] == "xlsx";
    assert Lower("xlsx") == "xlsx";
  }

  // ---------------------------------------------------------------------
  // dataframe_to_json
  // ---------------------------------------------------------------------

  /** The payload of one table: column labels, rows of values, and the frame's shape. */
  datatype Json = Json(columns: seq<Entry>, data: seq<Row>, shape: (nat, nat))

  /**
   * What dataframe_to_json gives: None for no frame, the payload, or the
   * ValueError reset_index raises when a value column already carries the
   * label the index column would get.
   */
  datatype Conversion = NoFrame | Converted(json: Json) | ResetIndexConflict

  /**
   * The label reset_index gives the column it makes of the index: the index
   * name, or for an unnamed index 'index', or 'level_0' when a column is
   * already labelled 'index'.
   */
  function ResetLabel(t: Table): (name: Entry)
    ensures name.Some?
    ensures t.indexName.Some? ==> name == t.indexName
  {
    if t.indexName.Some? then t.indexName
    else if Some(Text("index")) in t.columns then Some(Text("level_0"))
    else Some(Text("index"))
  }

  /**
   * reset_index moves the row labels into a first column; the payload lists
   * that column's label before the others, each row's label before its
   * values, and the shape of the frame as it was before the reset.
   */
  function DataFrameToJson(df: Option<Table>): (c: Conversion)
    requires df.Some? ==> df.value.Valid()
    ensures c.NoFrame? <==> df.None?
    ensures c.ResetIndexConflict? <==> df.Some? && ResetLabel(df.value) in df.value.columns
    ensures c.Converted? ==> |c.json.data| == |df.value.rows| && |c.json.columns| == |df.value.columns| + 1
    ensures c.Converted? ==> forall i :: 0 <= i < |c.json.data| ==> |c.json.data[i]| == |c.json.columns|
    ensures c.Converted? ==> c.json.shape == (|c.json.data|, |c.json.columns| - 1)
  {
    match df
    case None => NoFrame
    case Some(t) =>
      if ResetLabel(t) in t.columns then ResetIndexConflict
      else
        Converted(Json(
          [ResetLabel(t)] + t.columns,
          seq(|t.rows|, i requires 0 <= i < |t.rows| => [t.index[i]] + t.rows[i]),
          (|t.rows|, |t.columns|)))
  }

  /** The frame a payload describes: its first column back as the row labels. */
  function PayloadTable(j: Json, indexName: Entry, columnsName: Entry): (t: Table)
    requires |j.columns| > 0 && forall i :: 0 <= i < |j.data| ==> |j.data[i]| > 0
  {
    Table(indexName, columnsName,
          seq(|j.data|, i requires 0 <= i < |j.data| => j.data[i][0]),
          j.columns[1..],
          seq(|j.data|, i requires 0 <= i < |j.data| => j.data[i][1..]))
  }

  /** Converting loses nothing: the payload gives back the frame, and names the index column by its axis name. */
  lemma JsonRoundTrip(t: Table)
    requires t.Valid()
    requires DataFrameToJson(Some(t)).Converted?
    ensures var j := DataFrameToJson(Some(t)).json;
            j.columns[0] == ResetLabel(t)
            && PayloadTable(j, t.indexName, t.columnsName) == t
  {
    var j := DataFrameToJson(Some(t)).json;
    var u := PayloadTable(j, t.indexName, t.columnsName);
    assert u.index == t.index;
    assert u.rows == t.rows by {
      forall i | 0 <= i < |t.rows| ensures u.rows[i] == t.rows[i] {
        assert j.data[i] == [t.index[i]] + t.rows[i];
      }
    }
  }

  /** An extracted table always converts: its index is named 'Chỉ tiêu' unless a value column is too. */
  lemma ExtractedTableConverts(f: File, sheetName: string)
    requires Extract(f, sheetName).Some?
    ensures DataFrameToJson(Extract(f, sheetName)).ResetIndexConflict?
            <==> Some(Text(IndexAxisName)) in Extract(f, sheetName).value.columns
  {
  }

  // ---------------------------------------------------------------------
  // upload_file
  // ---------------------------------------------------------------------

  /** An uploaded file: the name the client sent and what the saved bytes hold. */
  datatype FileStorage = FileStorage(filename: string, content: File)

  /** The multipart fields of a request, by field name. */
  datatype Request = Request(files: map<string, FileStorage>)

  datatype Response =
    | Rejected(error: string)
    | Processed(message: string, processedSheets: seq<string>, data: map<string, Json>)
    | InternalError
  {
    /** The HTTP status Flask answers with. */
    function Status(): nat
    {
      match this
      case Rejected(_) => 400
      case Processed(_, _, _) => 200
      case InternalError => 500
    }
  }

  const NoFileError: string := "No file provided"
  const NoSelectionError: string := "No file selected"
  const InvalidTypeError: string := "Invalid file type. Please upload .xlsx or .xls files"
  const NoValidSheetsError: string := "No valid sheets found in the Excel file"

  const SuccessPrefix: string := "Successfully processed "
  const SuccessSuffix: string := " sheets"

  /** The f-string of the success answer: the count, in decimal, between a fixed prefix and suffix. */
  function SuccessMessage(count: nat): (m: string)
    ensures |SuccessPrefix| + |SuccessSuffix| < |m|
    ensures m[..|SuccessPrefix|] == SuccessPrefix && m[|m| - |SuccessSuffix|..] == SuccessSuffix
    ensures DecimalValue(m[|SuccessPrefix|..|m| - |SuccessSuffix|]) == count
  {
    var digits := NatToString(count);
    var m := SuccessPrefix + digits + SuccessSuffix;
    assert m[|SuccessPrefix|..|m| - |SuccessSuffix|] == digits;
    m
  }

  /** The request passes all three guards and its file is processed. */
  predicate Accepted(req: Request)
  {
    "file" in req.files && req.files["file"].filename != "" && AllowedFile(req.files["file"].filename)
  }

  /**
   * What process_excel_sheet followed by dataframe_to_json gives for each
   * sheet of the mapping, in mapping order.
   */
  function Outcomes(f: File): (cs: seq<Conversion>)
    ensures |cs| == |SheetMapping|
    ensures forall i :: 0 <= i < |cs| ==> (cs[i].NoFrame? <==> Extract(f, SheetMapping[i].1).None?)
  {
    seq(|SheetMapping|, i requires 0 <= i < |SheetMapping| => DataFrameToJson(Extract(f, SheetMapping[i].1)))
  }

  /** A sheet's outcome is a payload or a conflict exactly when the sheet extracts. */
  lemma OutcomeOfSheet(f: File, i: nat)
    requires i < |SheetMapping|
    ensures Outcomes(f)[i].NoFrame? <==> Extract(f, SheetMapping[i].1).None?
    ensures Outcomes(f)[i].ResetIndexConflict? <==>
              Extract(f, SheetMapping[i].1).Some? && Some(Text(IndexAxisName)) in Extract(f, SheetMapping[i].1).value.columns
  {
    if Extract(f, SheetMapping[i].1).Some? {
      ExtractedTableConverts(f, SheetMapping[i].1);
    }
  }

  lemma SheetMappingKeysAreDistinct()
    ensures forall i, j :: 0 <= i < j < |SheetMapping| ==> SheetMapping[i].0 != SheetMapping[j].0
  {
    assert SheetMapping[0].0[0] == 'b' && SheetMapping[1].0[0] == 'i' && SheetMapping[2].0[0] == 'f';
  }

  /** The literal names of the sheets among the first n of the mapping whose outcome is not NoFrame, in mapping order. */
  function ProcessedNames(cs: seq<Conversion>, n: nat): (names: seq<string>)
    requires n <= |cs| == |SheetMapping|
    ensures forall k :: 0 <= k < |names| ==> names[k] in {"CDKT", "KQKD", "CSTC"}
  {
    if n == 0 then []
    else ProcessedNames(cs, n - 1) + (if cs[n - 1].NoFrame? then [] else [SheetMapping[n - 1].1])
  }

  /** ProcessedNames names every sheet that extracts, and nothing else; it is empty exactly when none does. */
  lemma {:induction false} ProcessedNamesAreTheExtracted(cs: seq<Conversion>, n: nat)
    requires n <= |cs| == |SheetMapping|
    ensures |ProcessedNames(cs, n)| <= n
    ensures forall name :: name in ProcessedNames(cs, n) <==>
              exists i :: 0 <= i < n && SheetMapping[i].1 == name && !cs[i].NoFrame?
    ensures |ProcessedNames(cs, n)| == 0 <==> forall i :: 0 <= i < n ==> cs[i].NoFrame?
  {
    if n > 0 {
      ProcessedNamesAreTheExtracted(cs, n - 1);
      var prev := ProcessedNames(cs, n - 1);
      var last: seq<string> := if cs[n - 1].NoFrame? then [] else [SheetMapping[n - 1].1];
      assert ProcessedNames(cs, n) == prev + last;
      forall name
        ensures name in prev + last <==> exists i :: 0 <= i < n && SheetMapping[i].1 == name && !cs[i].NoFrame?
      {
        if name in prev + last {
          if name !in prev {
            assert SheetMapping[n - 1].1 == name && !cs[n - 1].NoFrame?;
          }
        }
        if exists i :: 0 <= i < n && SheetMapping[i].1 == name && !cs[i].NoFrame? {
          var i :| 0 <= i < n && SheetMapping[i].1 == name && !cs[i].NoFrame?;
          if i < n - 1 {
            assert name in prev;
          } else {
            assert name in last;
          }
        }
      }
      if |prev + last| == 0 {
        assert last == [];
      }
    }
  }

  /** How far the loop over the mapping has got: a conversion raised, or the results and names so far. */
  datatype Progress = Raised | Running(results: map<string, Json>, processed: seq<string>)

  /** One turn of the loop, for the sheet with logical key `key` and literal name `name`. */
  function Step(p: Progress, key: string, name: string, c: Conversion): (q: Progress)
    ensures p.Raised? || c.ResetIndexConflict? <==> q.Raised?
    ensures c.NoFrame? ==> q == p
    ensures q.Running? && c.Converted? ==>
              q.processed == p.processed + [name] && q.results.Keys == p.results.Keys + {key} && q.results[key] == c.json
    ensures q.Running? ==> forall k :: k in p.results && k != key ==> k in q.results && q.results[k] == p.results[k]
  {
    match p
    case Raised => Raised
    case Running(results, processed) =>
      match c
      case NoFrame => p
      case ResetIndexConflict => Raised
      case Converted(j) => Running(results[key := j], processed + [name])
  }

  /** Where the loop of upload_file stands after the first n sheets of the mapping. */
  function Aggregate(cs: seq<Conversion>, n: nat): (p: Progress)
    requires n <= |cs| == |SheetMapping|
    ensures p.Running? ==> |p.processed| <= n
  {
    if n == 0 then Running(map[], [])
    else Step(Aggregate(cs, n - 1), SheetMapping[n - 1].0, SheetMapping[n - 1].1, cs[n - 1])
  }

  /** The loop raises exactly when some sheet it reaches extracts but cannot be converted. */
  lemma {:induction false} AggregateRaisesOnConflict(cs: seq<Conversion>, n: nat)
    requires n <= |cs| == |SheetMapping|
    ensures Aggregate(cs, n).Raised? <==> exists i :: 0 <= i < n && cs[i].ResetIndexConflict?
  {
    if n > 0 {
      AggregateRaisesOnConflict(cs, n - 1);
    }
  }

  /**
   * Unless it raised, the loop has recorded under its logical key the payload
   * of exactly the sheets that extract, under no other key, and listed their
   * literal names in mapping order.
   */
  lemma {:induction false} AggregateCollects(cs: seq<Conversion>, n: nat)
    requires n <= |cs| == |SheetMapping|
    requires Aggregate(cs, n).Running?
    ensures Aggregate(cs, n).processed == ProcessedNames(cs, n)
    ensures forall key :: key in Aggregate(cs, n).results ==> exists i :: 0 <= i < n && SheetMapping[i].0 == key
    ensures forall i :: 0 <= i < |SheetMapping| ==>
              (SheetMapping[i].0 in Aggregate(cs, n).results <==> i < n && !cs[i].NoFrame?)
    ensures forall i :: 0 <= i < n && !cs[i].NoFrame? ==>
              cs[i] == Converted(Aggregate(cs, n).results[SheetMapping[i].0])
  {
    if n > 0 {
      assert Aggregate(cs, n - 1).Running?;
      AggregateCollects(cs, n - 1);
      SheetMappingKeysAreDistinct();
    }
  }

  /** The response upload_file gives, once Flask has parsed the request into its file fields. */
  function Upload(req: Request): (resp: Response)
    ensures !Accepted(req) ==> resp.Rejected?
    ensures resp.Processed? ==> Accepted(req) && |resp.data| > 0 && resp.message == SuccessMessage(|resp.processedSheets|)
  {
    if "file" !in req.files then Rejected(NoFileError)
    else if req.files["file"].filename == "" then Rejected(NoSelectionError)
    else if !AllowedFile(req.files["file"].filename) then Rejected(InvalidTypeError)
    else match Aggregate(Outcomes(req.files["file"].content), |SheetMapping|)
      case Raised => InternalError
      case Running(results, processed) =>
        if |results| == 0 then Rejected(NoValidSheetsError)
        else Processed(SuccessMessage(|processed|), processed, results)
  }

  /** The three guards answer 400 with their own message, in this order. */
  lemma UploadGuards(req: Request)
    ensures "file" !in req.files ==> Upload(req) == Rejected(NoFileError)
    ensures "file" in req.files && req.files["file"].filename == "" ==> Upload(req) == Rejected(NoSelectionError)
    ensures "file" in req.files && req.files["file"].filename != "" && !AllowedFile(req.files["file"].filename)
            ==> Upload(req) == Rejected(InvalidTypeError)
    ensures !Accepted(req) ==> Upload(req).Status() == 400
  {
  }

  /** A request a guard turns away gets the same answer whatever its file holds: nothing is extracted. */
  lemma GuardsIgnoreContent(req: Request, content: File)
    requires "file" in req.files && !Accepted(req)
    ensures Upload(Request(req.files["file" := FileStorage(req.files["file"].filename, content)])) == Upload(req)
  {
  }

  /**
   * An accepted upload fails with 500 exactly when a sheet's conversion
   * raises, and otherwise with 400 exactly when no sheet extracts.
   */
  lemma UploadOutcome(req: Request)
    requires Accepted(req)
    ensures var cs := Outcomes(req.files["file"].content);
            && (Upload(req).InternalError? <==> exists i :: 0 <= i < |SheetMapping| && cs[i].ResetIndexConflict?)
            && (Upload(req).Rejected? <==>
                  !Upload(req).InternalError? && forall i :: 0 <= i < |SheetMapping| ==> cs[i].NoFrame?)
            && (Upload(req).Rejected? ==> Upload(req).error == NoValidSheetsError)
  {
    var cs := Outcomes(req.files["file"].content);
    AggregateRaisesOnConflict(cs, |SheetMapping|);
    var p := Aggregate(cs, |SheetMapping|);
    if p.Running? {
      AggregateCollects(cs, |SheetMapping|);
      if |p.results| == 0 {
        forall i | 0 <= i < |SheetMapping| ensures cs[i].NoFrame? {
          assert SheetMapping[i].0 !in p.results;
        }
      } else {
        var key :| key in p.results;
      }
    }
  }

  /**
   * A successful upload reports, under their logical keys, the payloads of
   * exactly the sheets that extract, lists their literal names in mapping
   * order, and counts them in its message.
   */
  lemma UploadProcessed(req: Request)
    requires Upload(req).Processed?
    ensures Accepted(req)
    ensures var cs := Outcomes(req.files["file"].content);
            var resp := Upload(req);
            && resp.processedSheets == ProcessedNames(cs, |SheetMapping|)
            && |resp.processedSheets| > 0
            && resp.message == SuccessMessage(|resp.processedSheets|)
            && (forall key :: key in resp.data ==> exists i :: 0 <= i < |SheetMapping| && SheetMapping[i].0 == key)
            && (forall i :: 0 <= i < |SheetMapping| ==> (SheetMapping[i].0 in resp.data <==> !cs[i].NoFrame?))
            && (forall i :: 0 <= i < |SheetMapping| && !cs[i].NoFrame? ==>
                  cs[i] == Converted(resp.data[SheetMapping[i].0]))
  {
    var cs := Outcomes(req.files["file"].content);
    AggregateCollects(cs, |SheetMapping|);
    ProcessedNamesAreTheExtracted(cs, |SheetMapping|);
    var p := Aggregate(cs, |SheetMapping|);
    var key :| key in p.results;
    var i :| 0 <= i < |SheetMapping| && SheetMapping[i].0 == key;
    assert !cs[i].NoFrame?;
  }

  /** A workbook without "CSTC" but with readable "CDKT" and "KQKD" reports exactly those two, in that order. */
  lemma MissingRatiosSheetScenario(sheets: map<string, Grid>)
    requires "CDKT" in sheets && ReadSheet(sheets["CDKT"]).Some?
    requires "KQKD" in sheets && ReadSheet(sheets["KQKD"]).Some?
    requires "CSTC" !in sheets
    ensures ProcessedNames(Outcomes(Workbook(sheets)), |SheetMapping|) == ["CDKT", "KQKD"]
  {
    var cs := Outcomes(Workbook(sheets));
    OutcomeOfSheet(Workbook(sheets), 0);
    OutcomeOfSheet(Workbook(sheets), 1);
    OutcomeOfSheet(Workbook(sheets), 2);
    assert !cs[0].NoFrame? && !cs[1].NoFrame? && cs[2].NoFrame?;
    assert ProcessedNames(cs, 1) == ["CDKT"];
  }

  /** The upload endpoint: three guards in order, then the loop over the mapping. */
  method UploadFile(req: Request) returns (resp: Response)
    ensures resp == Upload(req)
  {
    if "file" !in req.files {
      return Rejected(NoFileError);
    }
    var file := req.files["file"];
    if file.filename == "" {
      return Rejected(NoSelectionError);
    }
    if !AllowedFile(file.filename) {
      return Rejected(InvalidTypeError);
    }
    var raised, results, processed := ConvertSheets(file.content);
    if raised {
      return InternalError;
    }
    if |results| == 0 {
      return Rejected(NoValidSheetsError);
    }
    resp := Processed(SuccessMessage(|processed|), processed, results);
  }

  /**
   * The loop of upload_file over the sheet mapping: each sheet that
   * extracts is converted and recorded under its key, and its literal name
   * appended. `raised` tells that a conversion raised, which ends the loop
   * and the request.
   */
  method ConvertSheets(f: File) returns (raised: bool, results: map<string, Json>, processed: seq<string>)
    ensures raised <==> Aggregate(Outcomes(f), |SheetMapping|).Raised?
    ensures !raised ==> Aggregate(Outcomes(f), |SheetMapping|) == Running(results, processed)
  {
    results, processed := map[], [];
    var n := 0;
    while n < |SheetMapping|
      invariant 0 <= n <= |SheetMapping|
      invariant Aggregate(Outcomes(f), n) == Running(results, processed)
    {
      var (key, sheetName) := SheetMapping[n];
      var conversion := ConvertSheet(f, n);
      if !conversion.NoFrame? {
        if conversion.ResetIndexConflict? {
          AggregateRaisesOnConflict(Outcomes(f), n + 1);
          AggregateRaisesOnConflict(Outcomes(f), |SheetMapping|);
          return true, results, processed;
        }
        results := results[key := conversion.json];
        processed := processed + [sheetName];
      }
      n := n + 1;
    }
    raised := false;
  }

  /** One iteration's calls: process_excel_sheet, then dataframe_to_json when a frame came back. */
  method ConvertSheet(f: File, i: nat) returns (c: Conversion)
    requires i < |SheetMapping|
    ensures c == Outcomes(f)[i]
  {
    var df := ProcessExcelSheet(f, SheetMapping[i].1);
    if df == null {
      return NoFrame;
    }
    c := DataFrameToJson(Some(df.Value()));
  }
}
