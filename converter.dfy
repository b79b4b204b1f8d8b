/**
 * `PDFToDocxConverter`: its configuration, the `stats` counters its calls
 * update in place, and the three conversion entry points.
 */
module Converter {
  import opened Wrappers
  import opened Paths
  import opened Conversion
  import opened Batch

  class PdfToDocxConverter {
    const preserveImages: bool
    const preserveTables: bool
    const preserveFonts: bool
    const multiProcessing: bool
    const maxWorkers: int
    var stats: Stats

    constructor (preserveImages: bool := true, preserveTables: bool := true, preserveFonts: bool := true,
                 multiProcessing: bool := true, maxWorkers: int := 4)
      ensures this.preserveImages == preserveImages && this.preserveTables == preserveTables
      ensures this.preserveFonts == preserveFonts && this.multiProcessing == multiProcessing
      ensures this.maxWorkers == maxWorkers
      ensures stats == Stats(0, 0)
    {
      this.preserveImages := preserveImages;
      this.preserveTables := preserveTables;
      this.preserveFonts := preserveFonts;
      this.multiProcessing := multiProcessing;
      this.maxWorkers := maxWorkers;
      stats := Stats(0, 0);
    }

    /**
     * `convert_single`: fails fast on a missing input, derives the default
     * output path, calls the library and maps its outcome to the returned
     * tuple, counting a success or a failure for every call that reached it.
     */
    method ConvertSingle(world: World, pdfPath: string, outputPath: Option<string> := None,
                         startPage: int := 0, endPage: Option<int> := None) returns (r: CallResult)
      modifies this
      ensures r == Reply(Attempted(pdfPath, outputPath, startPage, endPage, world))
      ensures stats == Tally(old(stats), Attempted(pdfPath, outputPath, startPage, endPage, world))
    {
      ghost var a := Attempted(pdfPath, outputPath, startPage, endPage, world);
      if !world.pathExists(pdfPath) {
        assert a == NotFound(pdfPath);
        return Returned(false, NotFoundMessage(pdfPath));
      }
      var out := outputPath;
      if out.None? {
        out := WithDocxSuffix(pdfPath);
        if out.None? {
          assert a == EmptyName(pdfPath);
          return Raised(EmptyNameMessage(pdfPath));
        }
      }
      assert out == OutputFor(pdfPath, outputPath);
      var outcome := world.library(pdfPath, out.value, startPage, endPage);
      assert a == Ran(out.value, outcome);
      match outcome {
        case Converted =>
          stats := stats.(success := stats.success + 1);
          r := Returned(true, out.value);
        case PermissionDenied =>
          stats := stats.(failed := stats.failed + 1);
          r := Returned(false, PermissionMessage(out.value));
        case Failed(reason) =>
          stats := stats.(failed := stats.failed + 1);
          r := Returned(false, FailureMessage(reason));
      }
    }

    /**
     * `convert_batch`: nothing for a missing folder or an empty glob;
     * otherwise every discovered file is converted into the output folder and
     * its result recorded. The parallel branch records results in the order
     * the workers complete them (`completed`); the workers' calls are taken
     * one after another in that order.
     */
    method ConvertBatch(world: World, inputFolder: string, outputFolder: Option<string>,
                        discovered: seq<string>, completed: seq<string>) returns (results: BatchReport)
      requires Named(discovered) && multiset(completed) == multiset(discovered)
      modifies this
      ensures results == BatchResult(multiProcessing, inputFolder, outputFolder, discovered, completed, world)
      ensures stats.success == old(stats.success) + results.success
      ensures stats.failed <= old(stats.failed) + results.failed
      ensures (forall f :: f in discovered ==> world.pathExists(f)) ==>
        stats.failed == old(stats.failed) + results.failed
      ensures !world.pathExists(inputFolder) || |discovered| == 0 ==> stats == old(stats)
      ensures world.pathExists(inputFolder) && |discovered| > 0 ==>
        stats.failed + Vanished(discovered, world) == old(stats.failed) + results.failed
    {
      if !world.pathExists(inputFolder) {
        return EmptyReport;
      }
      if |discovered| == 0 {
        return EmptyReport;
      }
      var out := OutputFolder(inputFolder, outputFolder);
      if multiProcessing && |discovered| > 1 {
        assert forall f :: f in completed ==> f in multiset(discovered);
        results := Collect(world, completed, out);
        VanishedPermutation(completed, discovered, world);
        assert forall f :: f in discovered ==> f in multiset(completed);
        if forall f :: f in discovered ==> world.pathExists(f) {
          NoneVanished(completed, world);
        }
      } else {
        results := Collect(world, discovered, out);
        if forall f :: f in discovered ==> world.pathExists(f) {
          NoneVanished(discovered, world);
        }
      }
    }

    /** The per-file loop both branches of `convert_batch` run. */
    method Collect(world: World, files: seq<string>, out: string) returns (results: BatchReport)
      requires Named(files)
      modifies this
      ensures results == Fold(Items(files, out, world))
      ensures stats.success == old(stats.success) + results.success
      ensures stats.failed + Vanished(files, world) == old(stats.failed) + results.failed
    {
      results := EmptyReport;
      ghost var base := stats;
      var i := 0;
      while i < |files|
        invariant 0 <= i <= |files|
        invariant Named(files[..i])
        invariant results == Fold(Items(files[..i], out, world))
        invariant stats.success == base.success + results.success
        invariant stats.failed + Vanished(files[..i], world) == base.failed + results.failed
      {
        var f := files[i];
        ghost var before := stats;
        var r := ConvertSingle(world, f, Some(Target(out, f)));
        CollectStep(files, i, out, world, results, r, base, before, stats);
        results := Record(results, Item(Name(f), r));
        i := i + 1;
      }
      assert files[..i] == files;
    }

    /**
     * `convert_with_ocr_fallback`: a success whose output exceeds 1000 bytes is
     * returned at once, anything else after the scanned-PDF warning; either way
     * the result is exactly the pair the plain conversion produced, whatever
     * `size` (standing for `os.path.getsize`) reports.
     */
    method ConvertWithOcrFallback(world: World, size: string -> int, pdfPath: string,
                                  outputPath: Option<string> := None)
      returns (r: CallResult)
      modifies this
      ensures r == Reply(Attempted(pdfPath, outputPath, 0, None, world))
      ensures stats == Tally(old(stats), Attempted(pdfPath, outputPath, 0, None, world))
    {
      r := ConvertSingle(world, pdfPath, outputPath);
      if r.Returned? && r.success && size(r.text) > 1000 {
        return Returned(true, r.text);
      }
    }
  }
}
