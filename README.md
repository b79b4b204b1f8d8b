# PDF to DOCX converter — a verified model

This project models the core of a small PDF-to-DOCX conversion tool and proves
properties of the model. The tool has three parts:

- `generalised_converter.py` holds the `PDFToDocxConverter` class. Its
  `convert_single` converts one file through the pdf2docx library and keeps
  `success`/`failed` counters in `stats`. Its `convert_batch` converts every
  PDF a folder holds, one after another or on a thread pool. Its
  `convert_with_ocr_fallback` wraps `convert_single`. Its `main` reads the
  command line.
- `app.py` is a Flask app. Its `/convert` route validates an upload, saves
  it, and sends back the converted document or a JSON error.

The model is organised as follows:

- `Wrappers` holds `Option`.
- `Text` models the string operations the source relies on: `rsplit('.', 1)`,
  ASCII `lower()`, `startswith` and `list.index`. It also has `rfind` and
  `endswith`, which the source does not call itself; they stand for what
  `Path.suffix` and `os.path.join` do internally.
- `Paths` models the pathlib and `os.path.join` behaviour the source uses:
  `.name`, `.suffix`, `.stem`, `with_suffix('.docx')`, `Path /` and
  `os.path.join`. Paths are taken in the form `str(Path(...))` prints them.
- `Conversion` is one `convert_single` call as a function of its inputs.
  - The filesystem (`os.path.exists`) and the pdf2docx library are inputs, bundled as `World`.
  - The library's open/convert/close sequence is a function returning `Converted`, `PermissionDenied` or `Failed(str(e))`.
  - `Attempted` says which branch the call takes. `Reply` gives the returned tuple, or the ValueError that escapes when a default output path has to be derived for a path with an empty name. `Tally` gives the new counters.
- `Batch` is the result dictionary of `convert_batch`.
  - It is the per-file update `Record`, folded over the files in order.
  - The glob's result is an input (`discovered`).
  - The thread pool's completion order is an input too (`completed`), a permutation of `discovered`.
- `Converter` holds the class `PdfToDocxConverter`.
  - Its configuration is `const` fields and `stats` is a mutable field.
  - `ConvertSingle`, `ConvertBatch` (with its loop in `Collect`) and `ConvertWithOcrFallback` are methods proved against the functions above.
- `Cli` gives the meaning of `sys.argv` as a `Command`. It also covers a
  printer for commands and the exit status of `main`.
- `WebApp` covers `allowed_file` and the `/convert` route. The route is a
  function `HandleConvert` plus a method `Convert` that calls the converter.
  `secure_filename` and `file.save` are inputs.

Some behaviour the model keeps faithfully:

- **A missing input leaves `stats` alone.** `convert_single` returns before
  it touches `stats` when the input does not exist. So in a batch, a file that
  vanished after the glob is counted in the batch result's `failed` but not in
  `stats['failed']`. `ConvertBatch` states the exact relation, using the
  number of vanished files (`Batch.Vanished`), and leaves `stats` unchanged
  when the folder is missing or the glob finds nothing.
- **Two files with the same name share one error entry.** The batch
  dictionary keys its errors by file name, and a later failure overwrites an
  earlier one. `BatchErrorKeys` states the error keys in general.
  `FoldErrorLast` states the messages in general: each entry holds the
  message of the last failure under its name. `BatchDistinctNames` gives one
  entry per failure, holding that file's message, when the names are distinct.
- **`--pages` is looked for anywhere in `sys.argv`.** Its first occurrence is
  used, even at index 0 or 1. The start page is parsed before the end page.

## Model

| member | source | states |
|---|---|---|
| Text.LastIndexOf | app.py:50 | `str.rfind(c)`, the position `rsplit(c, 1)` splits at; stated by `Text.LastIndexOfIsLast` |
| Text.AfterLast | app.py:50 | `s.rsplit(c, 1)[1]`, the extension `allowed_file` tests; stated by `Text.AfterLastSplits` |
| Text.Lower | app.py:50 | `str.lower()` on ASCII text; stated by `Text.LowerIsLower` and `WebApp.LowerIsPdf` |
| Text.LastIndexOfIsLast | app.py:50 | `rfind` returns an index holding the character with none after it, and -1 exactly when the character does not occur |
| Text.AfterLastSplits | app.py:50 | when `c` occurs, `rsplit(c, 1)[1]` holds no `c`, and the string is what precedes it, `c`, and it (the source only splits after checking that "." occurs; the model's value for a string without `c` is the whole string, a case Python would answer with IndexError) |
| Text.LowerIsLower | app.py:50 | the result of `lower()` holds no upper-case ASCII letter, and lowering twice is lowering once |
| Text.StartsWith | generalised_converter.py:347 | `str.startswith`; the flag test on the second argument, whose meaning `Cli.SingleFileArguments` states |
| Text.IndexOf | generalised_converter.py:353 | `list.index` returns the first position holding the value |
| Paths.Name | generalised_converter.py:193 | `Path.name`, the last component; its properties are stated by `Paths.NameSplits` |
| Paths.NameSplits | generalised_converter.py:193 | `Path.name` holds no separator, and a path is its directory prefix followed by its non-empty name |
| Paths.Suffix | generalised_converter.py:81 | `Path.suffix`, which `with_suffix` replaces; its shape is stated by `Paths.SuffixShape` |
| Paths.SuffixShape | generalised_converter.py:81 | a non-empty suffix is a dot, at least one character and no further dot, and shorter than the name; a name without a dot, or whose only dot is the first character, has none |
| Paths.Stem | generalised_converter.py:81 | a name is its stem followed by its suffix, and a non-empty name has a non-empty stem |
| Paths.WithDocxSuffix | generalised_converter.py:81 | `with_suffix('.docx')` gives a path exactly when the path has a non-empty name (pathlib raises ValueError otherwise) |
| Paths.WithDocxSuffixReplacesSuffix | generalised_converter.py:81 | `with_suffix('.docx')` keeps the directory and the stem, makes ".docx" the suffix, and is idempotent |
| Paths.DocxNameParts | generalised_converter.py:186 | a stem followed by ".docx" has ".docx" as its suffix and that stem as its stem |
| Paths.DocxName | app.py:129 | the name after `with_suffix('.docx')` is the stem with ".docx", a proper name without separators |
| Paths.Join | generalised_converter.py:186 | `Path(folder) / name`; its property is stated by `Paths.JoinName` |
| Paths.JoinName | generalised_converter.py:186 | `Path(folder) / name` ends in `name`, starts with `folder`, and has `folder` (with a separator added when missing) as its directory |
| Paths.OsJoin | app.py:122 | `os.path.join(folder, name)`; its properties are stated by `Paths.OsJoinName` |
| Paths.OsJoinName | app.py:130 | `os.path.join(a, b)` with a relative `b` starts with `a` and ends with `b`, and has `b` as its name when `b` is a proper name |
| Conversion.OutputFor | generalised_converter.py:80-81 | the output path: the given one, else the input with ".docx" as its suffix, none when the input has an empty name; stated by `Conversion.SuccessIff` and `Conversion.RaisesOnlyForEmptyName` |
| Conversion.Attempted | generalised_converter.py:74-102 | which branch one call takes: not found, no output name, or the library's outcome for the output path; its properties are stated by the lemmas below |
| Conversion.Reply | generalised_converter.py:74-132 | the tuple the call returns, or the error that escapes; stated by `Conversion.SuccessIff`, `Conversion.FailureCounted` and `Conversion.RaisesOnlyForEmptyName` |
| Conversion.Tally | generalised_converter.py:116-131 | the counters after the call; stated by `Conversion.MissingInputFailsFast`, `Conversion.SuccessIff` and `Conversion.ResultIsDefinite` |
| Conversion.MissingInputFailsFast | generalised_converter.py:74-77 | a missing input returns `(False, "❌ File not found: …")` and leaves the counters unchanged |
| Conversion.SuccessIff | generalised_converter.py:94-119 | the call succeeds exactly when the input exists, an output path is known and the library converts; it then returns the output path and counts one success |
| Conversion.FailureCounted | generalised_converter.py:121-132 | a PermissionError gives the permission message, any other exception the "Conversion failed" message, and each counts one failure |
| Conversion.RaisesOnlyForEmptyName | generalised_converter.py:80-81 | an exception escapes exactly when the input exists, no output path is given and the input's name is empty |
| Conversion.ResultIsDefinite | generalised_converter.py:74-132 | a success means the library ran and returns its output path; a failure has a non-empty message; the counters rise by one exactly when the library ran |
| Batch.Message | generalised_converter.py:201-209 | the error text stored for a failure: the returned message, or `str(e)` of an escaped exception; stated by `Batch.FoldErrorLast` and `Batch.BatchDistinctNames` |
| Batch.Record | generalised_converter.py:200-209 | the per-file update of the results dictionary; stated by `Batch.FoldCounts`, `Batch.FoldErrorKeys` and `Batch.FoldErrorLast` |
| Batch.Fold | generalised_converter.py:177-226 | the results dictionary after the files collected in order; stated by the fold lemmas below |
| Batch.Target | generalised_converter.py:186 | the output file of one discovered file; stated by `Batch.TargetName` |
| Batch.TargetName | generalised_converter.py:186 | each file is converted to `output_folder / <stem>.docx` |
| Batch.ItemFor | generalised_converter.py:186-193 | each result is recorded under the file's name, and with the output path given the call never raises |
| Batch.TallyFollowsItem | generalised_converter.py:212-226 | the counters follow the recorded result, except that a vanished input moves neither |
| Batch.Vanished | generalised_converter.py:74-77 | the number of files missing at their turn, at most the number of files |
| Batch.VanishedPermutation | generalised_converter.py:196 | the number of vanished files does not depend on the order the files are collected in |
| Batch.NoneVanished | generalised_converter.py:74-77 | when every discovered file exists, no failure goes uncounted |
| Batch.Items | generalised_converter.py:185-193 | the results in order are one per file, each that file's result |
| Batch.FoldCounts | generalised_converter.py:222-226 | the per-file update counts: successes plus failures equals the number of results |
| Batch.FoldErrorKeys | generalised_converter.py:204-206 | a name is an error key exactly when some result of that name failed |
| Batch.FoldErrorValues | generalised_converter.py:204-206 | with one result per name, every failure's message is stored under its name |
| Batch.FoldErrorLast | generalised_converter.py:204-206 | each error entry holds the message of the last failure under its name |
| Batch.FoldErrorsBound | generalised_converter.py:204-206 | there are never more error entries than failures, and exactly as many when names are distinct |
| Batch.FoldOrderIrrelevant | generalised_converter.py:196-209 | collecting in any order gives the same counters, and the same error map when a name determines its result |
| Batch.ItemsPermutation | generalised_converter.py:185-196 | converting the files in another order gives a permutation of the results |
| Batch.OutputFolder | generalised_converter.py:169-171 | the output folder defaults to the input folder; used by `Batch.BatchResult` |
| Batch.Parallel | generalised_converter.py:180 | the thread-pool branch is taken with multi-processing on and more than one file; stated by `Batch.SequentialBatchValues` and `Batch.BatchOrderIrrelevant` |
| Batch.BatchResult | generalised_converter.py:152-231 | `convert_batch`'s returned dictionary; stated by `Batch.BatchCounts`, `Batch.BatchErrorKeys` and `Batch.BatchOrderIrrelevant` |
| Batch.BatchOrderIrrelevant | generalised_converter.py:180-226 | the parallel and sequential branches give the same counters for every completion order, and the same dictionary when no two files share a name |
| Batch.SequentialBatchValues | generalised_converter.py:180-226 | with multi-processing off or a single file, the files are collected in glob order whatever the completion order |
| Batch.BatchCounts | generalised_converter.py:154-166 | a missing folder or an empty glob gives the empty result; otherwise success plus failed equals the number of files found, with no more error entries than failures |
| Batch.BatchErrorKeys | generalised_converter.py:177-226 | the error keys are exactly the names of the discovered files that failed |
| Batch.BatchDistinctNames | generalised_converter.py:193-226 | with distinct names there is one error entry per failure, holding that file's message |
| Converter.PdfToDocxConverter.constructor | generalised_converter.py:30-51 | the configuration is stored and both counters start at 0 |
| Converter.PdfToDocxConverter.ConvertSingle | generalised_converter.py:53-132 | returns the reply of the branch taken and updates `stats` as that branch does |
| Converter.PdfToDocxConverter.Collect | generalised_converter.py:210-226 | the loop builds the fold of the per-file results; `stats` gains the successes and every failure except vanished inputs |
| Converter.PdfToDocxConverter.ConvertBatch | generalised_converter.py:134-231 | returns the batch dictionary; `stats` is unchanged for a missing folder or an empty glob; otherwise `stats.success` rises by its successes and `stats.failed` by its failures minus the vanished files |
| Converter.PdfToDocxConverter.ConvertWithOcrFallback | generalised_converter.py:252-270 | with the size test of lines 260-264 on the output size that `size` reports, returns exactly what the plain conversion returned, whatever that size |
| Cli.ParseInt | generalised_converter.py:355-356 | `int(text)`, None where it raises ValueError; stated by `Cli.ParseIntAccepts` and `Cli.ParseShowInt` |
| Cli.ParseShowInt | generalised_converter.py:355-356 | `int(str(n)) == n` |
| Cli.ParseIntAccepts | generalised_converter.py:355-356 | `int` accepts exactly an optional sign followed by digits, and the sign decides the result's sign |
| Cli.ParseArgs | generalised_converter.py:291-356 | the `Command` the argument vector means; stated by `Cli.ModeSelection`, `Cli.SingleFileArguments` and `Cli.ParseRender` |
| Cli.ModeSelection | generalised_converter.py:291-342 | usage exactly without arguments; "--batch" first means batch mode, with a folder or with the missing-folder error, and an optional output folder |
| Cli.SingleFileArguments | generalised_converter.py:344-356 | the first argument is the input, the second the output unless it starts with "--"; the page range is read after the first "--pages" only when both numbers follow, and a bad number stops the run |
| Cli.PagesComeInPairs | generalised_converter.py:350-356 | without an end page the start page is 0 |
| Cli.ParseRender | generalised_converter.py:333-356 | parsing the arguments that spell out a command gives back that command |
| Cli.Run | generalised_converter.py:285-366 | exit 1 without pdf2docx, for the usage text, a missing batch folder or a bad page number; 0 after a batch; for one file, 0 exactly when the conversion succeeds |
| WebApp.AllowedFile | app.py:48-50 | `allowed_file`; stated by `WebApp.AllowedFileIff` |
| WebApp.LowerIsPdf | app.py:50 | the lower-cased extension is "pdf" exactly for p, d, f in either case |
| WebApp.AllowedFileIff | app.py:48-50 | an upload is accepted exactly when its name ends in "." and "pdf" in any ASCII case |
| WebApp.AcceptedExamples | app.py:48-50 | "Report.PDF", "scan.v2.pdf" and ".pdf" are accepted |
| WebApp.RefusedExamples | app.py:48-50 | "scan.pdf.exe", "pdf" and "scan.pdfx" are refused |
| WebApp.Uploaded | app.py:125 | after the save, the upload path exists and the library is unchanged |
| WebApp.NewAppConverter | app.py:36-42 | the app's converter keeps all features, runs one worker without multi-processing and starts with zero counters |
| WebApp.Respond | app.py:138-150 | how the converter's result becomes the response; stated by `WebApp.ReachedConverter`, `WebApp.DownloadIff` and `WebApp.FailuresPassMessageThrough` |
| WebApp.HandleConvert | app.py:91-157 | the response of `/convert` and the conversion it calls; stated by the route lemmas below |
| WebApp.Convert | app.py:91-157 | the route answers as `HandleConvert` says, and the converter's counters move only when it is called |
| WebApp.ValidationLadder | app.py:95-117 | the 400 answers are exactly the three checks, in order and with their messages, and none of them saves or converts |
| WebApp.SavedUploadIsConverted | app.py:119-136 | conversion happens only after a successful save and with a ".docx" name; the converter then always finds the upload and calls the library for all pages |
| WebApp.ReachedConverter | app.py:128-150 | a request that reaches the converter answers with the attachment or the converter's message |
| WebApp.DownloadIff | app.py:128-150 | the file is sent exactly when the checks pass, the save works, the name is non-empty and the library converts; the download is named by the stem with ".docx", lies in "outputs" and is the sent file's name |
| WebApp.JsonMeansFailure | app.py:96-157 | every JSON answer has `success: false` and status 400 or 500 |
| WebApp.FailuresPassMessageThrough | app.py:138-140 | a failed conversion is a 500 carrying the converter's own non-empty message |
| WebApp.SaveErrorIsServerError | app.py:119-125 | an upload that cannot be saved gives a 500 "Server error: …" and is not converted |
| WebApp.EmptyNameIsServerError | app.py:129 | a sanitised name with no name part gives a 500 with pathlib's ValueError text |
| WebApp.UnconvertedServerError | app.py:119-157 | a 500 without a conversion happens exactly when the upload passes the checks and then cannot be saved or has no name part |

## Left out

- Logging, `print`, `time.time`, `total_time` and the average-time summary (`_print_summary`) are not modelled. They do not affect any returned value or counter this model keeps.
- `os.makedirs`, `Path.mkdir` and `os.path.getsize` are not modelled. A failure of the first two escapes the call in the source. An OSError from `getsize` inside the `try` of `convert_single` appears as a library `Failed` outcome.
- Converter.PdfToDocxConverter.ConvertWithOcrFallback: `os.path.getsize` is the input `size`; the OSError it raises at generalised_converter.py:262 (outside any `try`) when the converted file is gone is not modelled, so the model always returns the plain conversion's result.
- The thread pool is not modelled as concurrency. The workers' calls are taken one after another in completion order. Races on `self.stats['success'] += 1` (not atomic across threads) are not modelled.
- `convert_batch`'s `pattern` and `recursive` parameters are reduced to the glob's result, given as `discovered`.
- Path normalisation by `str(Path(...))` is assumed already done (see `Paths`). Command-line paths are not normalised either: the model turns "./doc.pdf" into "./doc.docx" where pathlib gives "doc.docx", and `--batch ""` asks whether "" exists where `Path("").exists()` checks ".".
- Paths are POSIX paths only: "/" is the only separator, and `EmptyNameMessage` writes pathlib's POSIX class name `PosixPath`. Windows paths are not modelled.
- Only the suffix ".docx" is modelled for `with_suffix`. `Paths.Suffix` follows pathlib up to Python 3.13, where a trailing dot is no suffix; Python 3.14 counts a trailing single dot as a suffix, so for "a." it gives "a.docx" where the model gives "a..docx".
- Cli.ParseInt: Python's `int` also accepts surrounding whitespace, underscores between digits and non-ASCII digits; the model accepts only ASCII digits after an optional sign.
- Cli.ParseIntAccepts: states the acceptance rule of `Cli.ParseInt`, so it leaves out the same whitespace, underscore and non-ASCII digit forms.
- Text.Lower: lowers ASCII letters only; Python's `str.lower` also lowers other Unicode letters.
- `validate_dependencies` is a boolean input of `Cli.Run`. The usage text's content is not modelled.
- The `verbose` flag is not modelled. It only controls logging.
- `secure_filename` and `file.save` are inputs, and `send_file` is the `Attachment` response. The `/` and `/health` routes, the 404/413/500 error handlers, `MAX_CONTENT_LENGTH` and the creation of the upload and output folders are not modelled.
- `cli.py` is not part of this model.
