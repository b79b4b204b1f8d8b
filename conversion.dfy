/**
 * What one call of `PDFToDocxConverter.convert_single` does, with the pdf2docx
 * library and the filesystem taken as inputs: which branch it takes, what it
 * returns and how it moves the `stats` counters.
 */
module Conversion {
  import opened Wrappers
  import opened Paths

  /** What the pdf2docx open/convert/close sequence does. */
  datatype Outcome =
    | Converted                 // the output file was written
    | PermissionDenied          // a PermissionError was raised
    | Failed(reason: string)    // any other exception, with str(e)

  /** The library as a function of (input, output, start page, end page). */
  type Library = (string, string, int, Option<int>) -> Outcome

  /** `os.path.exists` */
  type FileExists = string -> bool

  /** The filesystem and the library, as the call finds them. */
  datatype World = World(pathExists: FileExists, library: Library)

  /** The `(bool, str)` tuple a call returns, or the exception it lets escape. */
  datatype CallResult =
    | Returned(success: bool, text: string)
    | Raised(error: string)

  /** The integer counters of the `stats` dictionary (its float `total_time` is not modelled). */
  datatype Stats = Stats(success: nat, failed: nat)

  /** The branch a call takes. */
  datatype Attempt =
    | NotFound(pdfPath: string)                  // the input does not exist
    | EmptyName(pdfPath: string)                 // deriving the default output raised ValueError
    | Ran(outputPath: string, outcome: Outcome)  // the library was called

  function NotFoundMessage(pdfPath: string): string
  {
    "❌ File not found: " + pdfPath
  }

  function PermissionMessage(outputPath: string): string
  {
    " Permission denied: " + outputPath + ". Close the file if it's open."
  }

  function FailureMessage(reason: string): string
  {
    " Conversion failed: " + reason
  }

  /** The text of pathlib's ValueError for a path with an empty name (`Path("")` shows as "."). */
  function EmptyNameMessage(pdfPath: string): string
  {
    "PosixPath('" + (if pdfPath == "" then "." else pdfPath) + "') has an empty name"
  }

  /** The output path a call writes: the given one, else the input with its suffix replaced by ".docx". */
  function OutputFor(pdfPath: string, outputPath: Option<string>): Option<string>
  {
    if outputPath.Some? then outputPath else WithDocxSuffix(pdfPath)
  }

  function Attempted(pdfPath: string, outputPath: Option<string>, startPage: int, endPage: Option<int>,
                     world: World): Attempt
  {
    if !world.pathExists(pdfPath) then NotFound(pdfPath)
    else match OutputFor(pdfPath, outputPath)
      case None => EmptyName(pdfPath)
      case Some(out) => Ran(out, world.library(pdfPath, out, startPage, endPage))
  }

  /** What the call hands back for the branch it took. */
  function Reply(a: Attempt): CallResult
  {
    match a
    case NotFound(p) => Returned(false, NotFoundMessage(p))
    case EmptyName(p) => Raised(EmptyNameMessage(p))
    case Ran(out, Converted) => Returned(true, out)
    case Ran(out, PermissionDenied) => Returned(false, PermissionMessage(out))
    case Ran(_, Failed(reason)) => Returned(false, FailureMessage(reason))
  }

  /** The counters after the call: only a call that reached the library moves them. */
  function Tally(stats: Stats, a: Attempt): Stats
  {
    match a
    case Ran(_, Converted) => stats.(success := stats.success + 1)
    case Ran(_, _) => stats.(failed := stats.failed + 1)
    case _ => stats
  }

  /** A missing input fails fast with the not-found message and leaves the counters alone. */
  lemma MissingInputFailsFast(pdfPath: string, outputPath: Option<string>, startPage: int, endPage: Option<int>,
                              world: World, stats: Stats)
    requires !world.pathExists(pdfPath)
    ensures var a := Attempted(pdfPath, outputPath, startPage, endPage, world);
      Reply(a) == Returned(false, "❌ File not found: " + pdfPath) && Tally(stats, a) == stats
  {
  }

  /**
   * The call succeeds exactly when the input exists, an output path is known
   * and the library converts it; it then returns that output path and counts
   * one success and no failure.
   */
  lemma SuccessIff(pdfPath: string, outputPath: Option<string>, startPage: int, endPage: Option<int>,
                   world: World, stats: Stats)
    ensures var a := Attempted(pdfPath, outputPath, startPage, endPage, world);
      var out := OutputFor(pdfPath, outputPath);
      && (Reply(a).Returned? && Reply(a).success
          <==> world.pathExists(pdfPath) && out.Some? && world.library(pdfPath, out.value, startPage, endPage) == Converted)
      && (Reply(a).Returned? && Reply(a).success ==>
            Reply(a).text == out.value && Tally(stats, a) == Stats(stats.success + 1, stats.failed))
  {
    var a := Attempted(pdfPath, outputPath, startPage, endPage, world);
    match a
    case NotFound(_) =>
    case EmptyName(_) =>
    case Ran(out, outcome) =>
      assert out == OutputFor(pdfPath, outputPath).value;
  }

  /**
   * Once the library has been called, a failure counts one failure and no
   * success, and its message says which exception it was.
   */
  lemma FailureCounted(pdfPath: string, outputPath: Option<string>, startPage: int, endPage: Option<int>,
                       world: World, stats: Stats)
    requires world.pathExists(pdfPath) && OutputFor(pdfPath, outputPath).Some?
    ensures var a := Attempted(pdfPath, outputPath, startPage, endPage, world);
      var out := OutputFor(pdfPath, outputPath).value;
      var outcome := world.library(pdfPath, out, startPage, endPage);
      && (outcome == PermissionDenied ==> Reply(a) == Returned(false, PermissionMessage(out)))
      && (outcome.Failed? ==> Reply(a) == Returned(false, " Conversion failed: " + outcome.reason))
      && (outcome != Converted ==> Tally(stats, a) == Stats(stats.success, stats.failed + 1))
  {
  }

  /**
   * The call escapes with an exception only when it has to derive the output
   * path itself and the input has an empty name ("/" or "."); with an output
   * path given it always returns a tuple.
   */
  lemma RaisesOnlyForEmptyName(pdfPath: string, outputPath: Option<string>, startPage: int, endPage: Option<int>,
                               world: World)
    ensures Reply(Attempted(pdfPath, outputPath, startPage, endPage, world)).Raised?
      <==> world.pathExists(pdfPath) && outputPath.None? && Name(pdfPath) == ""
  {
  }

  /**
   * Every tuple is either a success carrying the output path written or a
   * failure with a non-empty message, and the counters rise by at most one.
   */
  lemma ResultIsDefinite(pdfPath: string, outputPath: Option<string>, startPage: int, endPage: Option<int>,
                         world: World, stats: Stats)
    ensures var a := Attempted(pdfPath, outputPath, startPage, endPage, world);
      var r := Reply(a);
      var after := Tally(stats, a);
      && (r.Returned? && r.success ==> a.Ran? && r.text == a.outputPath && a.outcome == Converted)
      && (r.Returned? && !r.success ==> r.text != "")
      && after.success + after.failed == stats.success + stats.failed + (if a.Ran? then 1 else 0)
  {
  }
}
