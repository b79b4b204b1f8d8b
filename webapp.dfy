/**
 * The `/convert` route of the Flask app: the checks an upload must pass, the
 * paths it is saved to and converted into, and the response each outcome
 * gives. `secure_filename` and `file.save` are taken as inputs.
 */
module WebApp {
  import opened Wrappers
  import opened Text
  import opened Paths
  import opened Conversion
  import opened Converter

  const UploadFolder := "uploads"
  const OutputsFolder := "outputs"
  const AllowedExtensions: set<string> := {"pdf"}
  const DocxMimetype := "application/vnd.openxmlformats-officedocument.wordprocessingml.document"

  /** The request as the route sees it: the filename of its "pdf_file" part, None when there is no such part. */
  datatype Request = Request(pdfFile: Option<string>)

  datatype Response =
    | Json(status: nat, success: bool, message: string)
    | Attachment(path: string, downloadName: string, mimetype: string)

  /** The response, and the `convert_single` call made on the way to it, if any. */
  datatype Handling = Handling(response: Response, call: Option<Attempt>)

  /** `allowed_file`: the text after the last dot, lower-cased, is an allowed extension. */
  predicate AllowedFile(filename: string)
  {
    '.' in filename && Lower(AfterLast(filename, '.')) in AllowedExtensions
  }

  /** The world once the upload has been written to `pdfPath`. */
  function Uploaded(world: World, pdfPath: string): (w: World)
    ensures w.pathExists(pdfPath) && w.library == world.library
  {
    World(p => p == pdfPath || world.pathExists(p), world.library)
  }

  function ServerError(error: string): Response
  {
    Json(500, false, "Server error: " + error)
  }

  /** What `convert_single`'s result turns into. */
  function Respond(r: CallResult, outputPath: string, outputName: string): Response
  {
    match r
    case Returned(true, _) => Attachment(outputPath, outputName, DocxMimetype)
    case Returned(false, message) => Json(500, false, message)
    case Raised(error) => ServerError(error)
  }

  /**
   * `convert()`: the three 400 checks in order, then saving under the
   * sanitised name, deriving the ".docx" name, and converting; an exception on
   * the way is a 500 "Server error".
   */
  function HandleConvert(req: Request, sanitize: string -> string, saveError: string -> Option<string>,
                         world: World): Handling
  {
    if req.pdfFile.None? then Handling(Json(400, false, "No file uploaded"), None)
    else if req.pdfFile.value == "" then Handling(Json(400, false, "No file selected"), None)
    else if !AllowedFile(req.pdfFile.value) then
      Handling(Json(400, false, "Invalid file type. Only PDF files are allowed."), None)
    else
      var filename := sanitize(req.pdfFile.value);
      var pdfPath := OsJoin(UploadFolder, filename);
      if saveError(pdfPath).Some? then Handling(ServerError(saveError(pdfPath).value), None)
      else match WithDocxSuffix(filename)
        case None => Handling(ServerError(EmptyNameMessage(filename)), None)
        case Some(docx) =>
          var outputName := Name(docx);
          var outputPath := OsJoin(OutputsFolder, outputName);
          var a := Attempted(pdfPath, Some(outputPath), 0, None, Uploaded(world, pdfPath));
          Handling(Respond(Reply(a), outputPath, outputName), Some(a))
  }

  /** The converter the app shares between requests: one file at a time, one worker. */
  method NewAppConverter() returns (c: PdfToDocxConverter)
    ensures fresh(c)
    ensures c.preserveImages && c.preserveTables && c.preserveFonts
    ensures !c.multiProcessing && c.maxWorkers == 1
    ensures c.stats == Stats(0, 0)
  {
    c := new PdfToDocxConverter(true, true, true, false, 1);
  }

  /** The route itself, calling the app's converter and so moving its counters. */
  method Convert(converter: PdfToDocxConverter, req: Request, sanitize: string -> string,
                 saveError: string -> Option<string>, world: World) returns (resp: Response)
    modifies converter
    ensures var h := HandleConvert(req, sanitize, saveError, world);
      && resp == h.response
      && converter.stats == (if h.call.Some? then Tally(old(converter.stats), h.call.value) else old(converter.stats))
  {
    if req.pdfFile.None? {
      return Json(400, false, "No file uploaded");
    }
    var uploaded := req.pdfFile.value;
    if uploaded == "" {
      return Json(400, false, "No file selected");
    }
    if !AllowedFile(uploaded) {
      return Json(400, false, "Invalid file type. Only PDF files are allowed.");
    }
    var filename := sanitize(uploaded);
    var pdfPath := OsJoin(UploadFolder, filename);
    var error := saveError(pdfPath);
    if error.Some? {
      return ServerError(error.value);
    }
    var docx := WithDocxSuffix(filename);
    if docx.None? {
      return ServerError(EmptyNameMessage(filename));
    }
    var outputName := Name(docx.value);
    var outputPath := OsJoin(OutputsFolder, outputName);
    var r := converter.ConvertSingle(Uploaded(world, pdfPath), pdfPath, Some(outputPath));
    resp := Respond(r, outputPath, outputName);
  }

  // ---------------------------------------------------------------------------
  // Properties

  /** `ext.lower() == "pdf"` holds exactly for the three letters p, d, f, each in either case. */
  lemma LowerIsPdf(t: string)
    ensures Lower(t) == "pdf" <==> |t| == 3 && t[0] in "pP" && t[1] in "dD" && t[2] in "fF"
  {
    if |t| == 3 {
      assert Lower(t) == [LowerChar(t[0]), LowerChar(t[1]), LowerChar(t[2])];
    }
  }

  /** An upload is accepted exactly when its name ends in a dot and "pdf" in any ASCII case. */
  lemma AllowedFileIff(filename: string)
    ensures AllowedFile(filename) <==>
      |filename| >= 4 && filename[|filename| - 4] == '.' && Lower(filename[|filename| - 3..]) == "pdf"
  {
    var n := |filename|;
    AfterLastSplits(filename, '.');
    if AllowedFile(filename) {
      var r := AfterLast(filename, '.');
      assert |r| == 3;
      assert filename == filename[..n - 4] + ['.'] + r;
      assert filename[n - 4] == '.';
      assert filename[n - 3..] == r;
    }
    if n >= 4 && filename[n - 4] == '.' && Lower(filename[n - 3..]) == "pdf" {
      var u := filename[..n - 3];
      var t := filename[n - 3..];
      LowerIsPdf(t);
      assert '.' !in t;
      assert filename == u + t;
      LastIndexOfAppend(u, t, '.');
      assert LastIndexOf(u, '.') == n - 4;
      assert AfterLast(filename, '.') == t;
      assert filename[n - 4] in filename;
    }
  }

  /** Upper case and earlier dots are accepted, and so is a name that is only the extension. */
  lemma AcceptedExamples()
    ensures AllowedFile("Report.PDF") && AllowedFile("scan.v2.pdf") && AllowedFile(".pdf")
  {
    LowerIsPdf("PDF");
    LowerIsPdf("pdf");
    AllowedFileIff("Report.PDF");
    assert "Report.PDF"[7..] == "PDF";
    AllowedFileIff("scan.v2.pdf");
    assert "scan.v2.pdf"[8..] == "pdf";
    AllowedFileIff(".pdf");
    assert ".pdf"[1..] == "pdf";
  }

  /** Another last extension, a name without a dot and a longer extension are refused. */
  lemma RefusedExamples()
    ensures !AllowedFile("scan.pdf.exe") && !AllowedFile("pdf") && !AllowedFile("scan.pdfx")
  {
    AllowedFileIff("scan.pdf.exe");
    assert Lower("exe")[0] == LowerChar('e') == 'e';
    assert "scan.pdf.exe"[9..] == "exe";
    AllowedFileIff("pdf");
    AllowedFileIff("scan.pdfx");
    assert "scan.pdfx"[5] != '.';
  }

  /**
   * The 400 answers are exactly the three checks, in their order, and none of
   * them saves or converts anything.
   */
  lemma ValidationLadder(req: Request, sanitize: string -> string, saveError: string -> Option<string>,
                         world: World)
    ensures var h := HandleConvert(req, sanitize, saveError, world);
      && (h.response.Json? && h.response.status == 400 <==>
            req.pdfFile.None? || req.pdfFile.value == "" || !AllowedFile(req.pdfFile.value))
      && (req.pdfFile.None? ==> h == Handling(Json(400, false, "No file uploaded"), None))
      && (req.pdfFile == Some("") ==> h == Handling(Json(400, false, "No file selected"), None))
      && (req.pdfFile.Some? && req.pdfFile.value != "" && !AllowedFile(req.pdfFile.value) ==>
            h == Handling(Json(400, false, "Invalid file type. Only PDF files are allowed."), None))
  {
    var h := HandleConvert(req, sanitize, saveError, world);
    if req.pdfFile.Some? && req.pdfFile.value != "" && AllowedFile(req.pdfFile.value) {
      var filename := sanitize(req.pdfFile.value);
      var pdfPath := OsJoin(UploadFolder, filename);
      if saveError(pdfPath).None? && WithDocxSuffix(filename).Some? {
        var outputName := Name(WithDocxSuffix(filename).value);
        var outputPath := OsJoin(OutputsFolder, outputName);
        var a := Attempted(pdfPath, Some(outputPath), 0, None, Uploaded(world, pdfPath));
        assert h.response == Respond(Reply(a), outputPath, outputName);
      }
    }
  }

  /**
   * A request that passes the checks is converted only once the upload is
   * saved and a ".docx" name exists; the converter then always finds the
   * saved file and reaches the library, with page 0 to the end.
   */
  lemma SavedUploadIsConverted(req: Request, sanitize: string -> string, saveError: string -> Option<string>,
                               world: World)
    ensures var h := HandleConvert(req, sanitize, saveError, world);
      h.call.Some? ==>
        && req.pdfFile.Some? && AllowedFile(req.pdfFile.value)
        && var filename := sanitize(req.pdfFile.value);
        var pdfPath := OsJoin(UploadFolder, filename);
        && saveError(pdfPath).None? && Name(filename) != ""
        && h.call.value.Ran?
        && h.call.value.outputPath == OsJoin(OutputsFolder, Name(WithDocxSuffix(filename).value))
        && h.call.value.outcome == world.library(pdfPath, h.call.value.outputPath, 0, None)
    ensures var h := HandleConvert(req, sanitize, saveError, world);
      h.call.None? ==> h.response.Json? && !h.response.success
  {
  }

  /**
   * The converted file is sent exactly when the upload passes the checks, is
   * saved, has a ".docx" name and the library converts it; the download keeps
   * the sanitised name's stem, ends in ".docx" and lies in the outputs folder.
   */
  lemma DownloadIff(req: Request, sanitize: string -> string, saveError: string -> Option<string>,
                    world: World)
    ensures var h := HandleConvert(req, sanitize, saveError, world);
      h.response.Attachment? <==>
        && req.pdfFile.Some? && req.pdfFile.value != "" && AllowedFile(req.pdfFile.value)
        && var filename := sanitize(req.pdfFile.value);
           var pdfPath := OsJoin(UploadFolder, filename);
           && saveError(pdfPath).None? && Name(filename) != ""
           && world.library(pdfPath, OsJoin(OutputsFolder, Stem(Name(filename)) + DocxSuffix), 0, None) == Converted
    ensures var h := HandleConvert(req, sanitize, saveError, world);
      h.response.Attachment? ==>
        var name := Name(sanitize(req.pdfFile.value));
        && h.response.downloadName == Stem(name) + DocxSuffix
        && '/' !in h.response.downloadName
        && h.response.path == OsJoin(OutputsFolder, h.response.downloadName)
        && Name(h.response.path) == h.response.downloadName
        && h.response.mimetype == DocxMimetype
  {
    if req.pdfFile.Some? && req.pdfFile.value != "" && AllowedFile(req.pdfFile.value) {
      var filename := sanitize(req.pdfFile.value);
      var pdfPath := OsJoin(UploadFolder, filename);
      if saveError(pdfPath).None? && Name(filename) != "" {
        DocxName(filename);
        var outputName := Name(WithDocxSuffix(filename).value);
        var outputPath := OsJoin(OutputsFolder, outputName);
        OsJoinName(OutputsFolder, outputName);
        var a := Attempted(pdfPath, Some(outputPath), 0, None, Uploaded(world, pdfPath));
        assert a == Ran(outputPath, world.library(pdfPath, outputPath, 0, None));
        assert HandleConvert(req, sanitize, saveError, world).response == Respond(Reply(a), outputPath, outputName);
      }
    }
  }

  /** A request that reaches the converter answers with what the converter's result turns into. */
  lemma ReachedConverter(req: Request, sanitize: string -> string, saveError: string -> Option<string>,
                         world: World)
    requires req.pdfFile.Some? && req.pdfFile.value != "" && AllowedFile(req.pdfFile.value)
    requires saveError(OsJoin(UploadFolder, sanitize(req.pdfFile.value))).None?
    requires Name(sanitize(req.pdfFile.value)) != ""
    ensures var filename := sanitize(req.pdfFile.value);
      var pdfPath := OsJoin(UploadFolder, filename);
      var outputName := Name(WithDocxSuffix(filename).value);
      var outputPath := OsJoin(OutputsFolder, outputName);
      var a := Ran(outputPath, world.library(pdfPath, outputPath, 0, None));
      HandleConvert(req, sanitize, saveError, world) == Handling(Respond(Reply(a), outputPath, outputName), Some(a))
  {
    var filename := sanitize(req.pdfFile.value);
    var pdfPath := OsJoin(UploadFolder, filename);
    var outputName := Name(WithDocxSuffix(filename).value);
    var outputPath := OsJoin(OutputsFolder, outputName);
    var w := Uploaded(world, pdfPath);
    assert Attempted(pdfPath, Some(outputPath), 0, None, w) == Ran(outputPath, w.library(pdfPath, outputPath, 0, None));
  }

  /** Every JSON answer reports failure, with status 400 or 500. */
  lemma JsonMeansFailure(req: Request, sanitize: string -> string, saveError: string -> Option<string>,
                         world: World)
    ensures var h := HandleConvert(req, sanitize, saveError, world);
      h.response.Json? ==> !h.response.success && (h.response.status == 400 || h.response.status == 500)
  {
    if req.pdfFile.Some? && req.pdfFile.value != "" && AllowedFile(req.pdfFile.value) {
      var filename := sanitize(req.pdfFile.value);
      if saveError(OsJoin(UploadFolder, filename)).None? && Name(filename) != "" {
        ReachedConverter(req, sanitize, saveError, world);
      }
    }
  }

  /** A conversion that fails is a 500 that passes the converter's own message through unchanged. */
  lemma FailuresPassMessageThrough(req: Request, sanitize: string -> string, saveError: string -> Option<string>,
                                   world: World)
    ensures var h := HandleConvert(req, sanitize, saveError, world);
      h.call.Some? ==>
        && h.call.value.Ran?
        && (h.call.value.outcome != Converted ==>
              h.response == Json(500, false, Reply(h.call.value).text) && Reply(h.call.value).text != "")
  {
    SavedUploadIsConverted(req, sanitize, saveError, world);
    if HandleConvert(req, sanitize, saveError, world).call.Some? {
      ReachedConverter(req, sanitize, saveError, world);
    }
  }

  /** An upload that cannot be saved is a 500 "Server error" with the error's text, and is not converted. */
  lemma SaveErrorIsServerError(req: Request, sanitize: string -> string, saveError: string -> Option<string>,
                               world: World)
    requires req.pdfFile.Some? && req.pdfFile.value != "" && AllowedFile(req.pdfFile.value)
    requires saveError(OsJoin(UploadFolder, sanitize(req.pdfFile.value))).Some?
    ensures HandleConvert(req, sanitize, saveError, world)
      == Handling(ServerError(saveError(OsJoin(UploadFolder, sanitize(req.pdfFile.value))).value), None)
  {
  }

  /** A sanitised name with no name part ("" or ".") is a 500 with pathlib's message, after saving. */
  lemma EmptyNameIsServerError(req: Request, sanitize: string -> string, saveError: string -> Option<string>,
                               world: World)
    requires req.pdfFile.Some? && req.pdfFile.value != "" && AllowedFile(req.pdfFile.value)
    requires saveError(OsJoin(UploadFolder, sanitize(req.pdfFile.value))).None?
    requires Name(sanitize(req.pdfFile.value)) == ""
    ensures HandleConvert(req, sanitize, saveError, world)
      == Handling(ServerError(EmptyNameMessage(sanitize(req.pdfFile.value))), None)
  {
  }

  /**
   * A 500 "Server error" before any conversion happens exactly when the upload
   * passes the checks and then either cannot be saved or its sanitised name has
   * no name part.
   */
  lemma UnconvertedServerError(req: Request, sanitize: string -> string, saveError: string -> Option<string>,
                               world: World)
    ensures var h := HandleConvert(req, sanitize, saveError, world);
      (h.call.None? && h.response.Json? && h.response.status == 500) <==>
        && req.pdfFile.Some? && req.pdfFile.value != "" && AllowedFile(req.pdfFile.value)
        && var filename := sanitize(req.pdfFile.value);
           (saveError(OsJoin(UploadFolder, filename)).Some? || Name(filename) == "")
  {
    if req.pdfFile.Some? && req.pdfFile.value != "" && AllowedFile(req.pdfFile.value) {
      var filename := sanitize(req.pdfFile.value);
      if saveError(OsJoin(UploadFolder, filename)).None? && Name(filename) != "" {
        ReachedConverter(req, sanitize, saveError, world);
      }
    }
  }
}
