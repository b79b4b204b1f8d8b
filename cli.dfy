/**
 * The command line of `generalised_converter.py`: how `main` reads
 * `sys.argv` (the program name at index 0) into a batch run or a single-file
 * run with an optional page range, and the exit status each run ends with.
 */
module Cli {
  import opened Wrappers
  import opened Text
  import opened Conversion
  import opened Batch
  import opened Converter

  /** What `main` decides to do with its arguments. */
  datatype Command =
    | ShowUsage                                       // fewer than one argument: usage text, exit 1
    | MissingInputFolder                              // "--batch" without a folder: exit 1
    | BatchMode(inputFolder: string, outputFolder: Option<string>)
    | SingleMode(inputPdf: string, outputDocx: Option<string>, startPage: int, endPage: Option<int>)
    | BadPageNumber(text: string)                     // `int()` raised ValueError on this page argument

  // ---------------------------------------------------------------------------
  // Decimal integers, as `int(text)` reads them

  predicate IsDigit(c: char)
  {
    '0' <= c <= '9'
  }

  predicate AllDigits(s: string)
  {
    forall i :: 0 <= i < |s| ==> IsDigit(s[i])
  }

  /** The value of a run of decimal digits, most significant first. */
  function DigitsValue(s: string): (n: nat)
    requires AllDigits(s)
  {
    if |s| == 0 then 0
    else DigitsValue(s[..|s| - 1]) * 10 + (s[|s| - 1] as int - '0' as int)
  }

  /** `int(text)`: an optional sign followed by at least one digit; None where Python raises ValueError. */
  function ParseInt(text: string): (r: Option<int>)
  {
    if |text| > 0 && (text[0] == '-' || text[0] == '+') then
      var digits := text[1..];
      if |digits| > 0 && AllDigits(digits) then
        var magnitude: int := DigitsValue(digits);
        Some(if text[0] == '-' then -magnitude else magnitude)
      else None
    else if |text| > 0 && AllDigits(text) then Some(DigitsValue(text))
    else None
  }

  /** `str(n)` for a natural number. */
  function ShowNat(n: nat): (s: string)
  {
    if n < 10 then [('0' as int + n) as char]
    else ShowNat(n / 10) + [('0' as int + n % 10) as char]
  }

  /** `str(n)` */
  function ShowInt(n: int): string
  {
    if n < 0 then "-" + ShowNat(-n) else ShowNat(n)
  }

  lemma {:induction false} ShowNatDigits(n: nat)
    ensures var s := ShowNat(n); |s| > 0 && AllDigits(s) && DigitsValue(s) == n
  {
    var s := ShowNat(n);
    if n >= 10 {
      ShowNatDigits(n / 10);
      assert s[..|s| - 1] == ShowNat(n / 10);
    }
  }

  /** Reading back a printed integer gives that integer. */
  lemma ParseShowInt(n: int)
    ensures ParseInt(ShowInt(n)) == Some(n)
  {
    if n < 0 {
      ShowNatDigits(-n);
      assert ShowInt(n)[1..] == ShowNat(-n);
    } else {
      ShowNatDigits(n);
    }
  }

  /** `int` accepts exactly an optional sign followed by digits, and the sign decides the result's sign. */
  lemma ParseIntAccepts(text: string)
    ensures ParseInt(text).Some? <==>
      (|text| > 0 && AllDigits(text)) || (|text| > 1 && (text[0] == '-' || text[0] == '+') && AllDigits(text[1..]))
    ensures ParseInt(text).Some? && |text| > 0 && text[0] == '-' ==> ParseInt(text).value <= 0
    ensures ParseInt(text).Some? && (|text| == 0 || text[0] != '-') ==> ParseInt(text).value >= 0
  {
    if |text| > 0 && AllDigits(text) {
      assert !IsDigit('-') && !IsDigit('+');
      assert IsDigit(text[0]);
    }
  }

  // ---------------------------------------------------------------------------
  // The argument vector

  const BatchFlag := "--batch"
  const PagesFlag := "--pages"

  /** How `main` reads `sys.argv`. */
  function ParseArgs(argv: seq<string>): (c: Command)
  {
    if |argv| < 2 then ShowUsage
    else if argv[1] == BatchFlag then
      if |argv| < 3 then MissingInputFolder
      else BatchMode(argv[2], if |argv| > 3 then Some(argv[3]) else None)
    else
      var output := if |argv| > 2 && !StartsWith(argv[2], "--") then Some(argv[2]) else None;
      if PagesFlag in argv && |argv| > IndexOf(argv, PagesFlag) + 2 then
        var idx := IndexOf(argv, PagesFlag);
        match ParseInt(argv[idx + 1])
        case None => BadPageNumber(argv[idx + 1])
        case Some(start) =>
          match ParseInt(argv[idx + 2])
          case None => BadPageNumber(argv[idx + 2])
          case Some(end) => SingleMode(argv[1], output, start, Some(end))
      else SingleMode(argv[1], output, 0, None)
  }

  /**
   * The usage text is shown exactly when no argument is given; "--batch" as
   * the first argument always selects batch mode, with the folders that follow it.
   */
  lemma ModeSelection(argv: seq<string>)
    ensures ParseArgs(argv) == ShowUsage <==> |argv| < 2
    ensures ParseArgs(argv) == MissingInputFolder <==> |argv| == 2 && argv[1] == BatchFlag
    ensures ParseArgs(argv).BatchMode? <==> |argv| >= 3 && argv[1] == BatchFlag
    ensures ParseArgs(argv).BatchMode? ==>
      ParseArgs(argv).inputFolder == argv[2] &&
      (ParseArgs(argv).outputFolder.Some? <==> |argv| > 3) &&
      (|argv| > 3 ==> ParseArgs(argv).outputFolder.value == argv[3])
  {
  }

  /**
   * Otherwise the first argument is the input, the second is the output unless
   * it looks like a flag, and a page range is read only when both numbers follow
   * the first "--pages"; the start page is read first.
   */
  lemma SingleFileArguments(argv: seq<string>)
    requires |argv| >= 2 && argv[1] != BatchFlag
    ensures var c := ParseArgs(argv); c.SingleMode? || c.BadPageNumber?
    ensures var c := ParseArgs(argv); c.SingleMode? ==>
      && c.inputPdf == argv[1]
      && (c.outputDocx.Some? <==> |argv| > 2 && !StartsWith(argv[2], "--"))
      && (c.outputDocx.Some? ==> c.outputDocx.value == argv[2])
    ensures var c := ParseArgs(argv);
      !(PagesFlag in argv && |argv| > IndexOf(argv, PagesFlag) + 2) ==> c.SingleMode? && c.startPage == 0 && c.endPage.None?
    ensures var c := ParseArgs(argv);
      PagesFlag in argv && |argv| > IndexOf(argv, PagesFlag) + 2 ==>
        var idx := IndexOf(argv, PagesFlag);
        (c.SingleMode? <==> ParseInt(argv[idx + 1]).Some? && ParseInt(argv[idx + 2]).Some?) &&
        (c.SingleMode? ==> Some(c.startPage) == ParseInt(argv[idx + 1]) && c.endPage == ParseInt(argv[idx + 2])) &&
        (c.BadPageNumber? ==>
          c.text == (if ParseInt(argv[idx + 1]).None? then argv[idx + 1] else argv[idx + 2]))
  {
  }

  /** A single-file run without an end page always starts at page 0: the two page numbers come as a pair. */
  lemma PagesComeInPairs(argv: seq<string>)
    ensures var c := ParseArgs(argv); c.SingleMode? && c.endPage.None? ==> c.startPage == 0
  {
  }

  /** The argument vector that asks for `c`, with `prog` as the program name. */
  function Render(prog: string, c: Command): seq<string>
  {
    match c
    case ShowUsage => [prog]
    case MissingInputFolder => [prog, BatchFlag]
    case BatchMode(input, None) => [prog, BatchFlag, input]
    case BatchMode(input, Some(output)) => [prog, BatchFlag, input, output]
    case SingleMode(input, output, start, end) =>
      [prog, input]
      + (if output.Some? then [output.value] else [])
      + (if end.Some? then [PagesFlag, ShowInt(start), ShowInt(end.value)] else [])
    case BadPageNumber(text) => [prog, PagesFlag, text, "0"]
  }

  /** The commands an argument vector can spell out unambiguously. */
  predicate Renderable(prog: string, c: Command)
  {
    prog != PagesFlag &&
    match c
    case SingleMode(input, output, start, end) =>
      input != BatchFlag && input != PagesFlag &&
      (output.Some? ==> !StartsWith(output.value, "--")) &&
      (end.None? ==> start == 0)
    case BadPageNumber(text) => ParseInt(text).None?
    case _ => true
  }

  /** Parsing the arguments that spell out a command gives back that command. */
  lemma ParseRender(prog: string, c: Command)
    requires Renderable(prog, c)
    ensures ParseArgs(Render(prog, c)) == c
  {
    match c
    case SingleMode(input, output, start, end) =>
      if end.Some? {
        ParseRenderPages(prog, input, output, start, end.value);
      } else {
        ParseRenderNoPages(prog, input, output);
      }
    case BadPageNumber(text) =>
      var argv := Render(prog, c);
      assert IndexOf(argv, PagesFlag) == 1;
    case _ =>
  }

  lemma ParseRenderNoPages(prog: string, input: string, output: Option<string>)
    requires Renderable(prog, SingleMode(input, output, 0, None))
    ensures ParseArgs(Render(prog, SingleMode(input, output, 0, None))) == SingleMode(input, output, 0, None)
  {
    var argv := Render(prog, SingleMode(input, output, 0, None));
    assert argv == [prog, input] + (if output.Some? then [output.value] else []);
    assert PagesFlag !in argv by {
      assert forall k :: 0 <= k < |argv| ==> argv[k] != PagesFlag;
    }
  }

  lemma ParseRenderPages(prog: string, input: string, output: Option<string>, start: int, end: int)
    requires Renderable(prog, SingleMode(input, output, start, Some(end)))
    ensures ParseArgs(Render(prog, SingleMode(input, output, start, Some(end)))) == SingleMode(input, output, start, Some(end))
  {
    var argv := Render(prog, SingleMode(input, output, start, Some(end)));
    var pages := [PagesFlag, ShowInt(start), ShowInt(end)];
    var idx := if output.Some? then 3 else 2;
    assert argv == [prog, input] + (if output.Some? then [output.value] else []) + pages;
    assert argv[idx..] == pages;
    ParseShowInt(start);
    ParseShowInt(end);
    assert IndexOf(argv, PagesFlag) == idx by {
      assert argv[idx] == PagesFlag;
      assert forall k :: 0 <= k < idx ==> argv[k] != PagesFlag;
    }
  }

  // ---------------------------------------------------------------------------
  // Running a command

  /**
   * `main`: exit 1 when pdf2docx is missing, for the usage text, for a missing
   * batch folder, for an unreadable page number and for a failed single-file
   * conversion (an escaping exception ends the program with status 1 as well);
   * otherwise 0. `discovered` and `completed` are what a batch run's glob and
   * workers yield for the folder named.
   */
  method Run(installed: bool, world: World, argv: seq<string>,
             discovered: seq<string>, completed: seq<string>) returns (exitCode: int)
    requires Named(discovered) && multiset(completed) == multiset(discovered)
    ensures !installed ==> exitCode == 1
    ensures installed ==> match ParseArgs(argv)
      case BatchMode(_, _) => exitCode == 0
      case SingleMode(input, output, start, end) =>
        exitCode == (if Succeeded(Reply(Attempted(input, output, start, end, world))) then 0 else 1)
      case _ => exitCode == 1
  {
    if !installed {
      return 1;
    }
    if |argv| < 2 {
      return 1;
    }
    var converter := new PdfToDocxConverter(true, true, true, true, 4);
    var command := ParseArgs(argv);
    match command {
      case BatchMode(input, output) =>
        var _ := converter.ConvertBatch(world, input, output, discovered, completed);
        exitCode := 0;
      case SingleMode(input, output, start, end) =>
        var r := converter.ConvertSingle(world, input, output, start, end);
        exitCode := if Succeeded(r) then 0 else 1;
      case _ =>
        exitCode := 1;
    }
  }
}
