/** Command-line parsing of main.c: `config_init` and `parse_arguments`.

    The loop of parse_arguments walks `argv` from index 1, sets fields of
    the configuration and sorts the positional arguments into the pattern
    and the paths; then it applies defaults. The model follows that loop
    and is proved against a second reading of the command line: `Args`
    cuts `argv` into words (an option, a positional, `--threads` with its
    value), and the fields of an accepted configuration are stated
    directly in terms of those words. `atoi` and `isatty(stdout)` are
    parameters; printing and `exit` become outcomes of the parse. */
module Cli {
  import opened Base

  /** The Config struct. Its `int` flags only ever hold 0 or 1 and are
      booleans here, grouped into the flags that shape the search and the
      flags that shape the output; `path_count` is `|paths|`. */
  datatype Config = Config(
    paths: seq<string>,
    pattern: Option<string>,
    matching: Matching,
    display: Display,
    numThreads: nat)

  datatype Matching = Matching(recursive: bool, ignoreCase: bool, useRegex: bool)

  datatype Display = Display(
    color: bool,
    colorSet: bool,
    lineNumbers: bool,
    lineNumbersSet: bool,
    showFilename: bool,
    quiet: bool,
    verbose: bool)

  /** config_init */
  function ConfigInit(): Config
  {
    Config([], None, Matching(false, false, false), Display(false, false, false, false, false, false, false), 1)
  }

  /** What parse_arguments leads to. `Usage`, `MissingThreadsArg`,
      `UnknownOption` and `NoPattern` are its `return 0` paths, `Help` and
      `Version` its `exit(0)` paths, `Parsed` its `return 1`. */
  datatype ParseResult =
    | Usage
    | Help
    | Version
    | MissingThreadsArg
    | UnknownOption(option: string)
    | NoPattern
    | Parsed(config: Config)

  /** The options that set a field. */
  datatype Flag = Recursive | IgnoreCase | Regex | LineNumber | NoLineNumber | Color | NoColor | Quiet | Verbose

  /** One word of the command line. */
  datatype Arg =
    | HelpArg
    | VersionArg
    | Set(flag: Flag)
    | ThreadsArg(value: string)
    | ThreadsMissing
    | UnknownArg(text: string)
    | Positional(text: string)

  /** How one argument reads on its own; `--threads` is a word only
      together with the argument after it (see `Args`). */
  datatype Kind = KHelp | KVersion | KSet(flag: Flag) | KThreads | KUnknown | KPositional

  function Classify(a: string): Kind
  {
    if a == "-h" || a == "--help" then KHelp
    else if a == "--version" then KVersion
    else if a == "-r" || a == "--recursive" then KSet(Recursive)
    else if a == "-i" || a == "--ignore-case" then KSet(IgnoreCase)
    else if a == "-e" || a == "--regex" then KSet(Regex)
    else if a == "-n" || a == "--line-number" then KSet(LineNumber)
    else if a == "--no-line-number" then KSet(NoLineNumber)
    else if a == "--color" then KSet(Color)
    else if a == "--no-color" then KSet(NoColor)
    else if a == "-q" || a == "--quiet" then KSet(Quiet)
    else if a == "-v" || a == "--verbose" then KSet(Verbose)
    else if a == "--threads" then KThreads
    else if |a| > 1 && a[0] == '-' then KUnknown
    else KPositional
  }

  /** Every spelling parse_arguments recognises. */
  function KnownOptions(): set<string>
  {
    {"-h", "--help", "--version", "-r", "--recursive", "-i", "--ignore-case", "-e", "--regex",
     "-n", "--line-number", "--no-line-number", "--color", "--no-color", "-q", "--quiet",
     "-v", "--verbose", "--threads"}
  }

  /** An argument is unknown exactly when it starts with '-', is longer
      than "-" and is none of the recognised spellings; it is positional
      exactly when it is neither of those: "-" itself is positional. */
  lemma ClassifyUnknownOrPositional(a: string)
    ensures Classify(a) == KUnknown <==> |a| > 1 && a[0] == '-' && a !in KnownOptions()
    ensures Classify(a) == KPositional <==> !(|a| > 1 && a[0] == '-') && a !in KnownOptions()
  {
  }

  /** The word an argument other than `--threads` forms on its own. */
  function WordOf(a: string, k: Kind): Arg
  {
    match k
    case KHelp => HelpArg
    case KVersion => VersionArg
    case KSet(f) => Set(f)
    case KThreads => ThreadsMissing
    case KUnknown => UnknownArg(a)
    case KPositional => Positional(a)
  }

  /** The words of `argv[i..]`. */
  function Args(argv: seq<string>, i: nat): seq<Arg>
    decreases |argv| - i
  {
    if i >= |argv| then []
    else if Classify(argv[i]) == KThreads then
      if i + 1 >= |argv| then [ThreadsMissing] else [ThreadsArg(argv[i + 1])] + Args(argv, i + 2)
    else [WordOf(argv[i], Classify(argv[i]))] + Args(argv, i + 1)
  }

  /** `(size_t)` applied to an `int`: a negative value wraps modulo 2^64. */
  function SizeT(v: int): (r: nat)
    ensures r < 0x1_0000_0000_0000_0000
    ensures 0 <= v < 0x1_0000_0000_0000_0000 ==> r == v
    ensures -0x1_0000_0000_0000_0000 <= v < 0 ==> r == v + 0x1_0000_0000_0000_0000
  {
    v % 0x1_0000_0000_0000_0000
  }

  // ---------------------------------------------------------------------
  // The loop of parse_arguments, read word by word

  /** The effect of a flag on the configuration. */
  function ApplyFlag(c: Config, f: Flag): Config
  {
    match f
    case Recursive => c.(matching := c.matching.(recursive := true))
    case IgnoreCase => c.(matching := c.matching.(ignoreCase := true))
    case Regex => c.(matching := c.matching.(useRegex := true))
    case LineNumber => c.(display := c.display.(lineNumbers := true, lineNumbersSet := true))
    case NoLineNumber => c.(display := c.display.(lineNumbers := false, lineNumbersSet := true))
    case Color => c.(display := c.display.(color := true, colorSet := true))
    case NoColor => c.(display := c.display.(color := false, colorSet := true))
    case Quiet => c.(display := c.display.(quiet := true))
    case Verbose => c.(display := c.display.(verbose := true))
  }

  /** The first positional becomes the pattern, later ones are appended to the paths. */
  function AddPositional(c: Config, t: string): Config
  {
    if c.pattern.None? then c.(pattern := Some(t)) else c.(paths := c.paths + [t])
  }

  predicate IsStop(w: Arg)
  {
    w.HelpArg? || w.VersionArg? || w.ThreadsMissing? || w.UnknownArg?
  }

  /** The outcome a stopping word leads to. */
  function StopResult(w: Arg): (r: ParseResult)
    ensures !r.Parsed?
  {
    match w
    case HelpArg => Help
    case VersionArg => Version
    case ThreadsMissing => MissingThreadsArg
    case UnknownArg(t) => UnknownOption(t)
    case _ => NoPattern
  }

  /** The effect of a word that does not stop the parse. */
  function Absorb(c: Config, w: Arg, atoi: string -> int): Config
  {
    match w
    case Set(f) => ApplyFlag(c, f)
    case ThreadsArg(v) => c.(numThreads := SizeT(atoi(v)))
    case Positional(t) => AddPositional(c, t)
    case _ => c
  }

  /** The checks and defaults after the loop. */
  function Finish(c: Config, stdoutTty: bool): ParseResult
  {
    if c.pattern.None? then NoPattern
    else
      var paths := if |c.paths| == 0 then ["-"] else c.paths;
      var d := c.display;
      var color := if d.colorSet then d.color else stdoutTty;
      var lineNumbers := if d.lineNumbersSet then d.lineNumbers else false;
      var showFilename := if |paths| > 1 || c.matching.recursive then true else d.showFilename;
      Parsed(c.(paths := paths, display := d.(color := color, lineNumbers := lineNumbers, showFilename := showFilename)))
  }

  /** The rest of the loop from configuration `c`, over the words `ws`. */
  function Interpret(ws: seq<Arg>, c: Config, atoi: string -> int, stdoutTty: bool): ParseResult
  {
    if ws == [] then Finish(c, stdoutTty)
    else if IsStop(ws[0]) then StopResult(ws[0])
    else Interpret(ws[1..], Absorb(c, ws[0], atoi), atoi, stdoutTty)
  }

  /** parse_arguments, as a function of `argv`, `atoi` and `isatty(stdout)`. */
  function Parse(argv: seq<string>, atoi: string -> int, stdoutTty: bool): ParseResult
  {
    if |argv| < 2 then Usage else Interpret(Args(argv, 1), ConfigInit(), atoi, stdoutTty)
  }

  lemma InterpretCons(w: Arg, ws: seq<Arg>, c: Config, atoi: string -> int, stdoutTty: bool)
    ensures Interpret([w] + ws, c, atoi, stdoutTty) ==
      if IsStop(w) then StopResult(w) else Interpret(ws, Absorb(c, w, atoi), atoi, stdoutTty)
  {
    assert ([w] + ws)[0] == w && ([w] + ws)[1..] == ws;
  }

  /** parse_arguments */
  method ParseArguments(argv: seq<string>, atoi: string -> int, stdoutTty: bool) returns (r: ParseResult)
    ensures r == Parse(argv, atoi, stdoutTty)
    ensures |argv| < 2 ==> r == Usage
    ensures r.Parsed? ==> r.config.pattern.Some? && 1 <= |r.config.paths| <= |argv| - 1
  {
    if Parse(argv, atoi, stdoutTty).Parsed? {
      ParsedPathsFit(argv, atoi, stdoutTty);
    }
    if |argv| < 2 {
      return Usage;
    }
    var c := ConfigInit();
    var i := 1;
    while i < |argv|
      invariant 1 <= i <= |argv| + 1
      invariant Interpret(Args(argv, i), c, atoi, stdoutTty) == Parse(argv, atoi, stdoutTty)
      decreases |argv| - i
    {
      var stop;
      stop, c, i := ParseWord(argv, i, c, atoi, stdoutTty);
      if stop.Some? {
        return stop.value;
      }
    }
    r := Finish(c, stdoutTty);
  }

  /** One round of the loop of parse_arguments at `argv[i]`: the outcome
      the parse stops with, or else the configuration and the index the
      loop goes on with. */
  method ParseWord(argv: seq<string>, i: nat, c: Config, atoi: string -> int, stdoutTty: bool)
    returns (stop: Option<ParseResult>, c': Config, i': nat)
    requires 1 <= i < |argv|
    ensures i < i' <= |argv| + 1
    ensures stop.Some? ==> stop.value == Interpret(Args(argv, i), c, atoi, stdoutTty)
    ensures stop.None? ==> Interpret(Args(argv, i'), c', atoi, stdoutTty) == Interpret(Args(argv, i), c, atoi, stdoutTty)
  {
    var a := argv[i];
    var k := Classify(a);
    c', i' := c, i + 1;
    if k == KThreads {
      if i + 1 >= |argv| {
        return Some(MissingThreadsArg), c', i';
      }
      ArgsThreads(argv, i);
      InterpretCons(ThreadsArg(argv[i + 1]), Args(argv, i + 2), c, atoi, stdoutTty);
      return None, c.(numThreads := SizeT(atoi(argv[i + 1]))), i + 2;
    }
    ArgsWord(argv, i);
    InterpretCons(WordOf(a, k), Args(argv, i + 1), c, atoi, stdoutTty);
    match k {
      case KHelp => stop := Some(Help);
      case KVersion => stop := Some(Version);
      case KSet(f) => stop, c' := None, ApplyFlag(c, f);
      case KUnknown => stop := Some(UnknownOption(a));
      case KPositional => stop, c' := None, AddPositional(c, a);
      case KThreads => stop := None; // handled above
    }
    assert stop == (if IsStop(WordOf(a, k)) then Some(StopResult(WordOf(a, k))) else None);
    assert stop.None? ==> c' == Absorb(c, WordOf(a, k), atoi);
  }

  // ---------------------------------------------------------------------
  // What an accepted command line means

  /** The positional texts among the words, in order. */
  function Positionals(ws: seq<Arg>): seq<string>
  {
    if ws == [] then []
    else Positionals(ws[..|ws| - 1]) + (if ws[|ws| - 1].Positional? then [ws[|ws| - 1].text] else [])
  }

  /** Whether the words hold a stopping word, and the first one. */
  predicate Settled(ws: seq<Arg>)
  {
    forall j :: 0 <= j < |ws| ==> !IsStop(ws[j])
  }

  /** The setting the last of two opposite flags gives, if either occurs. */
  function LastToggle(ws: seq<Arg>, on: Flag, off: Flag): Option<bool>
  {
    if ws == [] then None
    else if ws[|ws| - 1] == Set(on) then Some(true)
    else if ws[|ws| - 1] == Set(off) then Some(false)
    else LastToggle(ws[..|ws| - 1], on, off)
  }

  /** The value of the last `--threads`, if any. */
  function LastThreads(ws: seq<Arg>): Option<string>
  {
    if ws == [] then None
    else if ws[|ws| - 1].ThreadsArg? then Some(ws[|ws| - 1].value)
    else LastThreads(ws[..|ws| - 1])
  }

  /** The flags that, once given, stay set. */
  predicate Sticky(f: Flag)
  {
    f == Recursive || f == IgnoreCase || f == Regex || f == Quiet || f == Verbose
  }

  function StickyField(c: Config, f: Flag): bool
  {
    match f
    case Recursive => c.matching.recursive
    case IgnoreCase => c.matching.ignoreCase
    case Regex => c.matching.useRegex
    case Quiet => c.display.quiet
    case Verbose => c.display.verbose
    case _ => false
  }

  /** All positionals seen so far: the pattern, then the paths. */
  function Seen(c: Config): seq<string>
  {
    if c.pattern.None? then c.paths else [c.pattern.value] + c.paths
  }

  /** The configuration after every word of `ws`, in order. */
  function AbsorbAll(ws: seq<Arg>, c: Config, atoi: string -> int): Config
  {
    if ws == [] then c else AbsorbAll(ws[1..], Absorb(c, ws[0], atoi), atoi)
  }

  lemma {:induction false} AbsorbAllSnoc(ws: seq<Arg>, w: Arg, c: Config, atoi: string -> int)
    ensures AbsorbAll(ws + [w], c, atoi) == Absorb(AbsorbAll(ws, c, atoi), w, atoi)
    decreases |ws|
  {
    if ws == [] {
      assert [w][1..] == [];
    } else {
      assert (ws + [w])[1..] == ws[1..] + [w];
      AbsorbAllSnoc(ws[1..], w, Absorb(c, ws[0], atoi), atoi);
    }
  }

  /** Without a stopping word, the loop ends and the outcome is decided by
      the checks after it; with one, the first decides. */
  lemma {:induction false} InterpretSettled(ws: seq<Arg>, c: Config, atoi: string -> int, stdoutTty: bool)
    ensures Settled(ws) ==> Interpret(ws, c, atoi, stdoutTty) == Finish(AbsorbAll(ws, c, atoi), stdoutTty)
    ensures !Settled(ws) ==>
      exists j :: 0 <= j < |ws| && IsStop(ws[j]) && Settled(ws[..j]) && Interpret(ws, c, atoi, stdoutTty) == StopResult(ws[j])
    decreases |ws|
  {
    if ws != [] && !IsStop(ws[0]) {
      InterpretSettled(ws[1..], Absorb(c, ws[0], atoi), atoi, stdoutTty);
      if !Settled(ws) {
        assert !Settled(ws[1..]) by {
          var j :| 0 <= j < |ws| && IsStop(ws[j]);
          assert ws[1..][j - 1] == ws[j];
        }
        var j :| 0 <= j < |ws[1..]| && IsStop(ws[1..][j]) && Settled(ws[1..][..j]) &&
          Interpret(ws[1..], Absorb(c, ws[0], atoi), atoi, stdoutTty) == StopResult(ws[1..][j]);
        assert ws[..j + 1] == [ws[0]] + ws[1..][..j];
        assert ws[j + 1] == ws[1..][j];
      }
    } else if ws != [] {
      assert ws[..0] == [];
    }
  }

  // One word at a time: each lemma below splits on the word explicitly.

  lemma AbsorbPositionalStep(c: Config, w: Arg, atoi: string -> int)
    requires c.pattern.None? ==> c.paths == []
    ensures var r := Absorb(c, w, atoi);
      Seen(r) == Seen(c) + (if w.Positional? then [w.text] else []) && (r.pattern.None? ==> r.paths == [])
  {
    match w
    case Set(f) => {
      match f
      case Recursive =>
      case IgnoreCase =>
      case Regex =>
      case LineNumber =>
      case NoLineNumber =>
      case Color =>
      case NoColor =>
      case Quiet =>
      case Verbose =>
    }
    case ThreadsArg(_) =>
    case Positional(_) =>
    case _ =>
  }

  lemma AbsorbStickyStep(c: Config, w: Arg, atoi: string -> int, g: Flag)
    requires Sticky(g)
    ensures StickyField(Absorb(c, w, atoi), g) <==> StickyField(c, g) || w == Set(g)
  {
    match w
    case Set(f) => {
      match f
      case Recursive =>
      case IgnoreCase =>
      case Regex =>
      case LineNumber =>
      case NoLineNumber =>
      case Color =>
      case NoColor =>
      case Quiet =>
      case Verbose =>
    }
    case ThreadsArg(_) =>
    case Positional(_) =>
    case _ =>
  }

  lemma AbsorbColorStep(c: Config, w: Arg, atoi: string -> int)
    ensures var d := Absorb(c, w, atoi).display;
      d.colorSet == (c.display.colorSet || w == Set(Color) || w == Set(NoColor)) &&
      d.color == (if w == Set(Color) then true else if w == Set(NoColor) then false else c.display.color)
  {
    match w
    case Set(f) => {
      match f
      case Recursive =>
      case IgnoreCase =>
      case Regex =>
      case LineNumber =>
      case NoLineNumber =>
      case Color =>
      case NoColor =>
      case Quiet =>
      case Verbose =>
    }
    case ThreadsArg(_) =>
    case Positional(_) =>
    case _ =>
  }

  lemma AbsorbLineNumbersStep(c: Config, w: Arg, atoi: string -> int)
    ensures var d := Absorb(c, w, atoi).display;
      d.lineNumbersSet == (c.display.lineNumbersSet || w == Set(LineNumber) || w == Set(NoLineNumber)) &&
      d.lineNumbers == (if w == Set(LineNumber) then true else if w == Set(NoLineNumber) then false else c.display.lineNumbers)
  {
    match w
    case Set(f) => {
      match f
      case Recursive =>
      case IgnoreCase =>
      case Regex =>
      case LineNumber =>
      case NoLineNumber =>
      case Color =>
      case NoColor =>
      case Quiet =>
      case Verbose =>
    }
    case ThreadsArg(_) =>
    case Positional(_) =>
    case _ =>
  }

  lemma AbsorbThreadsStep(c: Config, w: Arg, atoi: string -> int)
    ensures Absorb(c, w, atoi).numThreads == if w.ThreadsArg? then SizeT(atoi(w.value)) else c.numThreads
  {
    match w
    case Set(f) => {
      match f
      case Recursive =>
      case IgnoreCase =>
      case Regex =>
      case LineNumber =>
      case NoLineNumber =>
      case Color =>
      case NoColor =>
      case Quiet =>
      case Verbose =>
    }
    case ThreadsArg(_) =>
    case Positional(_) =>
    case _ =>
  }

  lemma AbsorbShowFilenameStep(c: Config, w: Arg, atoi: string -> int)
    ensures Absorb(c, w, atoi).display.showFilename == c.display.showFilename
  {
    match w
    case Set(f) => {
      match f
      case Recursive =>
      case IgnoreCase =>
      case Regex =>
      case LineNumber =>
      case NoLineNumber =>
      case Color =>
      case NoColor =>
      case Quiet =>
      case Verbose =>
    }
    case ThreadsArg(_) =>
    case Positional(_) =>
    case _ =>
  }

  lemma {:induction false} AbsorbAllPositionals(ws: seq<Arg>, c: Config, atoi: string -> int)
    requires c.pattern.None? ==> c.paths == []
    ensures var r := AbsorbAll(ws, c, atoi); Seen(r) == Seen(c) + Positionals(ws) && (r.pattern.None? ==> r.paths == [])
    decreases |ws|
  {
    if ws != [] {
      var n := |ws| - 1;
      AbsorbAllPositionals(ws[..n], c, atoi);
      assert ws == ws[..n] + [ws[n]];
      AbsorbAllSnoc(ws[..n], ws[n], c, atoi);
      AbsorbPositionalStep(AbsorbAll(ws[..n], c, atoi), ws[n], atoi);
    }
  }

  lemma {:induction false} AbsorbAllSticky(ws: seq<Arg>, c: Config, atoi: string -> int, f: Flag)
    requires Sticky(f)
    ensures StickyField(AbsorbAll(ws, c, atoi), f) <==> StickyField(c, f) || Set(f) in ws
    decreases |ws|
  {
    if ws != [] {
      var n := |ws| - 1;
      AbsorbAllSticky(ws[..n], c, atoi, f);
      assert ws == ws[..n] + [ws[n]];
      AbsorbAllSnoc(ws[..n], ws[n], c, atoi);
      AbsorbStickyStep(AbsorbAll(ws[..n], c, atoi), ws[n], atoi, f);
    }
  }

  lemma {:induction false} AbsorbAllColor(ws: seq<Arg>, c: Config, atoi: string -> int)
    ensures var r := AbsorbAll(ws, c, atoi);
      r.display.colorSet == (c.display.colorSet || LastToggle(ws, Color, NoColor).Some?) &&
      r.display.color ==
        (if LastToggle(ws, Color, NoColor).Some? then LastToggle(ws, Color, NoColor).value else c.display.color)
    decreases |ws|
  {
    if ws != [] {
      var n := |ws| - 1;
      AbsorbAllColor(ws[..n], c, atoi);
      assert ws == ws[..n] + [ws[n]];
      AbsorbAllSnoc(ws[..n], ws[n], c, atoi);
      AbsorbColorStep(AbsorbAll(ws[..n], c, atoi), ws[n], atoi);
    }
  }

  lemma {:induction false} AbsorbAllLineNumbers(ws: seq<Arg>, c: Config, atoi: string -> int)
    ensures var r := AbsorbAll(ws, c, atoi);
      r.display.lineNumbersSet == (c.display.lineNumbersSet || LastToggle(ws, LineNumber, NoLineNumber).Some?) &&
      r.display.lineNumbers ==
        (if LastToggle(ws, LineNumber, NoLineNumber).Some? then LastToggle(ws, LineNumber, NoLineNumber).value
         else c.display.lineNumbers)
    decreases |ws|
  {
    if ws != [] {
      var n := |ws| - 1;
      AbsorbAllLineNumbers(ws[..n], c, atoi);
      assert ws == ws[..n] + [ws[n]];
      AbsorbAllSnoc(ws[..n], ws[n], c, atoi);
      AbsorbLineNumbersStep(AbsorbAll(ws[..n], c, atoi), ws[n], atoi);
    }
  }

  lemma {:induction false} AbsorbAllThreads(ws: seq<Arg>, c: Config, atoi: string -> int)
    ensures AbsorbAll(ws, c, atoi).numThreads ==
      (if LastThreads(ws).Some? then SizeT(atoi(LastThreads(ws).value)) else c.numThreads)
    decreases |ws|
  {
    if ws != [] {
      var n := |ws| - 1;
      AbsorbAllThreads(ws[..n], c, atoi);
      assert ws == ws[..n] + [ws[n]];
      AbsorbAllSnoc(ws[..n], ws[n], c, atoi);
      AbsorbThreadsStep(AbsorbAll(ws[..n], c, atoi), ws[n], atoi);
    }
  }

  lemma {:induction false} AbsorbAllKeepsShowFilename(ws: seq<Arg>, c: Config, atoi: string -> int)
    ensures AbsorbAll(ws, c, atoi).display.showFilename == c.display.showFilename
    decreases |ws|
  {
    if ws != [] {
      AbsorbShowFilenameStep(c, ws[0], atoi);
      AbsorbAllKeepsShowFilename(ws[1..], Absorb(c, ws[0], atoi), atoi);
    }
  }

  /** The outcome of parse_arguments: fewer than two arguments print the
      usage; otherwise the first stopping word (help, version, an unknown
      option, `--threads` without a value) decides; without one, a command
      line with no positional has no pattern, and any other is accepted. */
  lemma ParseOutcome(argv: seq<string>, atoi: string -> int, stdoutTty: bool)
    ensures |argv| < 2 ==> Parse(argv, atoi, stdoutTty) == Usage
    ensures |argv| >= 2 ==>
      var ws := Args(argv, 1);
      (Settled(ws) ==>
        (Parse(argv, atoi, stdoutTty) == NoPattern <==> Positionals(ws) == []) &&
        (Parse(argv, atoi, stdoutTty).Parsed? <==> Positionals(ws) != [])) &&
      (!Settled(ws) ==>
        exists j :: 0 <= j < |ws| && IsStop(ws[j]) && Settled(ws[..j]) && Parse(argv, atoi, stdoutTty) == StopResult(ws[j]))
  {
    if |argv| >= 2 {
      var ws := Args(argv, 1);
      InterpretSettled(ws, ConfigInit(), atoi, stdoutTty);
      AbsorbAllPositionals(ws, ConfigInit(), atoi);
    }
  }

  /** An accepted command line held no stopping word, and its
      configuration is what the words leave `config_init`'s defaults as,
      after the checks and defaults that follow the loop. */
  lemma ParsedIsAbsorbed(argv: seq<string>, atoi: string -> int, stdoutTty: bool)
    requires Parse(argv, atoi, stdoutTty).Parsed?
    ensures |argv| >= 2 && Settled(Args(argv, 1))
    ensures Parse(argv, atoi, stdoutTty) == Finish(AbsorbAll(Args(argv, 1), ConfigInit(), atoi), stdoutTty)
  {
    assert |argv| >= 2;
    var ws := Args(argv, 1);
    assert Parse(argv, atoi, stdoutTty) == Interpret(ws, ConfigInit(), atoi, stdoutTty);
    InterpretSettled(ws, ConfigInit(), atoi, stdoutTty);
  }

  /** An accepted command line: the pattern is the first positional and
      the paths are the later ones in order, or `["-"]` when there are none. */
  lemma ParsedPositionals(argv: seq<string>, atoi: string -> int, stdoutTty: bool)
    requires Parse(argv, atoi, stdoutTty).Parsed?
    ensures var c := Parse(argv, atoi, stdoutTty).config; var pos := Positionals(Args(argv, 1));
      |pos| >= 1 && c.pattern == Some(pos[0]) && c.paths == (if |pos| == 1 then ["-"] else pos[1..])
  {
    ParsedIsAbsorbed(argv, atoi, stdoutTty);
    var a := AbsorbAll(Args(argv, 1), ConfigInit(), atoi);
    AbsorbAllPositionals(Args(argv, 1), ConfigInit(), atoi);
    assert Seen(ConfigInit()) == [];
    assert a.pattern.Some? && Seen(a) == Positionals(Args(argv, 1));
    assert Seen(a) == [a.pattern.value] + a.paths;
  }

  /** `-r`, `-i`, `-e`, `-q` and `-v` are set exactly when given. */
  lemma ParsedStickyFlags(argv: seq<string>, atoi: string -> int, stdoutTty: bool, f: Flag)
    requires Parse(argv, atoi, stdoutTty).Parsed? && Sticky(f)
    ensures StickyField(Parse(argv, atoi, stdoutTty).config, f) <==> Set(f) in Args(argv, 1)
  {
    ParsedIsAbsorbed(argv, atoi, stdoutTty);
    AbsorbAllSticky(Args(argv, 1), ConfigInit(), atoi, f);
  }

  /** Of `--color` and `--no-color` the last one given wins; without
      either, colour is on exactly when stdout is a terminal. */
  lemma ParsedColor(argv: seq<string>, atoi: string -> int, stdoutTty: bool)
    requires Parse(argv, atoi, stdoutTty).Parsed?
    ensures var t := LastToggle(Args(argv, 1), Color, NoColor);
      Parse(argv, atoi, stdoutTty).config.display.color == if t.Some? then t.value else stdoutTty
  {
    ParsedIsAbsorbed(argv, atoi, stdoutTty);
    AbsorbAllColor(Args(argv, 1), ConfigInit(), atoi);
  }

  /** Of `-n` and `--no-line-number` the last one given wins; without
      either, line numbers are off. */
  lemma ParsedLineNumbers(argv: seq<string>, atoi: string -> int, stdoutTty: bool)
    requires Parse(argv, atoi, stdoutTty).Parsed?
    ensures Parse(argv, atoi, stdoutTty).config.display.lineNumbers <==>
      LastToggle(Args(argv, 1), LineNumber, NoLineNumber) == Some(true)
  {
    ParsedIsAbsorbed(argv, atoi, stdoutTty);
    AbsorbAllLineNumbers(Args(argv, 1), ConfigInit(), atoi);
  }

  /** The thread count is the last `--threads` value through `atoi` and
      the cast to `size_t`, and `config_init`'s 1 without one. */
  lemma ParsedThreads(argv: seq<string>, atoi: string -> int, stdoutTty: bool)
    requires Parse(argv, atoi, stdoutTty).Parsed?
    ensures var t := LastThreads(Args(argv, 1));
      Parse(argv, atoi, stdoutTty).config.numThreads == if t.Some? then SizeT(atoi(t.value)) else 1
  {
    ParsedIsAbsorbed(argv, atoi, stdoutTty);
    AbsorbAllThreads(Args(argv, 1), ConfigInit(), atoi);
  }

  /** File names are shown exactly when there are several paths or the
      search is recursive. */
  lemma ParsedShowFilename(argv: seq<string>, atoi: string -> int, stdoutTty: bool)
    requires Parse(argv, atoi, stdoutTty).Parsed?
    ensures var c := Parse(argv, atoi, stdoutTty).config;
      c.display.showFilename <==> |c.paths| > 1 || c.matching.recursive
  {
    ParsedIsAbsorbed(argv, atoi, stdoutTty);
    AbsorbAllKeepsShowFilename(Args(argv, 1), ConfigInit(), atoi);
  }

  lemma {:induction false} PositionalsBound(argv: seq<string>, i: nat)
    requires i <= |argv|
    ensures |Positionals(Args(argv, i))| <= |argv| - i
    decreases |argv| - i
  {
    if i < |argv| {
      if Classify(argv[i]) == KThreads {
        if i + 1 < |argv| {
          PositionalsBound(argv, i + 2);
          PositionalsCons(ThreadsArg(argv[i + 1]), Args(argv, i + 2));
        } else {
          PositionalsCons(ThreadsMissing, []);
        }
      } else {
        PositionalsBound(argv, i + 1);
        PositionalsCons(WordOf(argv[i], Classify(argv[i])), Args(argv, i + 1));
      }
    }
  }

  lemma {:induction false} PositionalsCons(w: Arg, ws: seq<Arg>)
    ensures Positionals([w] + ws) == (if w.Positional? then [w.text] else []) + Positionals(ws)
    decreases |ws|
  {
    if ws != [] {
      var n := |ws| - 1;
      assert ([w] + ws)[..|[w] + ws| - 1] == [w] + ws[..n];
      PositionalsCons(w, ws[..n]);
    } else {
      assert [w][..0] == [];
    }
  }

  /** The paths of an accepted command line fit the `argc - 1` slots
      parse_arguments allocates for them. */
  lemma ParsedPathsFit(argv: seq<string>, atoi: string -> int, stdoutTty: bool)
    requires Parse(argv, atoi, stdoutTty).Parsed?
    ensures var c := Parse(argv, atoi, stdoutTty).config;
      c.pattern.Some? && 1 <= |c.paths| <= |argv| - 1
  {
    ParsedPositionals(argv, atoi, stdoutTty);
    PositionalsBound(argv, 1);
  }

  // ---------------------------------------------------------------------
  // Concrete command lines

  /** An argument not starting with '-' is positional. */
  lemma ClassifyPlain(a: string)
    requires |a| > 0 && a[0] != '-'
    ensures Classify(a) == KPositional
  {
    assert forall o :: o in KnownOptions() ==> |o| > 0 && o[0] == '-';
    ClassifyUnknownOrPositional(a);
  }

  /** The words of `argv[i..]` when `argv[i]` is not `--threads`. */
  lemma ArgsWord(argv: seq<string>, i: nat)
    requires i < |argv| && Classify(argv[i]) != KThreads
    ensures Args(argv, i) == [WordOf(argv[i], Classify(argv[i]))] + Args(argv, i + 1)
  {
  }

  /** The words of `argv[i..]` when `argv[i]` is `--threads` with a value. */
  lemma ArgsThreads(argv: seq<string>, i: nat)
    requires i + 1 < |argv| && Classify(argv[i]) == KThreads
    ensures Args(argv, i) == [ThreadsArg(argv[i + 1])] + Args(argv, i + 2)
  {
  }

  /** A lone "-" is a positional: here it is the pattern. */
  lemma DashIsPositional(atoi: string -> int)
    ensures Parse(["fastgrep", "-", "x"], atoi, false) ==
      Parsed(ConfigInit().(pattern := Some("-"), paths := ["x"]))
  {
    var argv := ["fastgrep", "-", "x"];
    assert Classify("-") == KPositional;
    ClassifyPlain("x");
    ArgsWord(argv, 2);
    ArgsWord(argv, 1);
    InterpretCons(Positional("-"), [Positional("x")], ConfigInit(), atoi, false);
    InterpretCons(Positional("x"), [], AddPositional(ConfigInit(), "-"), atoi, false);
  }

  /** `--threads` as the last argument is an error. */
  lemma ThreadsWithoutValue(atoi: string -> int)
    ensures Parse(["fastgrep", "foo", "--threads"], atoi, true) == MissingThreadsArg
  {
    var argv := ["fastgrep", "foo", "--threads"];
    ClassifyPlain("foo");
    assert Classify("--threads") == KThreads;
    assert Args(argv, 2) == [ThreadsMissing];
    ArgsWord(argv, 1);
    InterpretCons(Positional("foo"), [ThreadsMissing], ConfigInit(), atoi, true);
  }

  /** `--threads` consumes the next argument, even one that looks like an option. */
  lemma ThreadsConsumesValue(atoi: string -> int)
    ensures Parse(["fastgrep", "--threads", "-x", "foo"], atoi, false) ==
      Parsed(ConfigInit().(pattern := Some("foo"), paths := ["-"], numThreads := SizeT(atoi("-x"))))
  {
    var argv := ["fastgrep", "--threads", "-x", "foo"];
    ClassifyPlain("foo");
    assert Classify("--threads") == KThreads;
    ArgsWord(argv, 3);
    ArgsThreads(argv, 1);
    var c1 := ConfigInit().(numThreads := SizeT(atoi("-x")));
    InterpretCons(ThreadsArg("-x"), [Positional("foo")], ConfigInit(), atoi, false);
    InterpretCons(Positional("foo"), [], c1, atoi, false);
  }

  /** An unknown option is rejected, and the words before it are not enough to accept. */
  lemma UnknownOptionRejected(atoi: string -> int)
    ensures Parse(["fastgrep", "foo", "-z", "file"], atoi, false) == UnknownOption("-z")
  {
    var argv := ["fastgrep", "foo", "-z", "file"];
    ClassifyPlain("foo");
    ClassifyPlain("file");
    assert Classify("-z") == KUnknown;
    ArgsWord(argv, 3);
    ArgsWord(argv, 2);
    ArgsWord(argv, 1);
    var rest := Args(argv, 2);
    InterpretCons(Positional("foo"), rest, ConfigInit(), atoi, false);
    InterpretCons(UnknownArg("-z"), Args(argv, 3), AddPositional(ConfigInit(), "foo"), atoi, false);
  }
}
