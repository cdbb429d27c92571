/**
  The command-line example (cli_features/main.cpp): option parsing, the license
  path choice, and the per-feature listing or exercise decision.
 */
module CliFeatures {
  import opened Wrappers
  import opened Licenx
  import opened FeatureCatalog
  import Cli = CliFeatureCatalog

  /** `Options` as filled in by `ParseOptions`. */
  datatype Options = Options(
    licensePath: Option<string>,
    feature1: bool,
    feature2: bool,
    feature3: bool,
    feature4: bool,
    listOnly: bool)

  /** A default-constructed `Options`. */
  const Defaults := Options(None, false, false, false, false, false)

  /** What parsing leads to: the options, or a `std::exit` with the given code. */
  datatype ParseOutcome = Parsed(options: Options) | Exit(code: int)

  /** The seven arguments the parser recognises. */
  const KnownFlags: set<string> :=
    {"--license", "--feature1", "--feature2", "--feature3", "--feature4", "--list", "--help"}

  /** The flags that only set a boolean field. */
  const SwitchFlags: set<string> :=
    {"--feature1", "--feature2", "--feature3", "--feature4", "--list"}

  /** The field a switch flag sets. */
  function SetSwitch(o: Options, flag: string): Options
  {
    if flag == "--feature1" then o.(feature1 := true)
    else if flag == "--feature2" then o.(feature2 := true)
    else if flag == "--feature3" then o.(feature3 := true)
    else if flag == "--feature4" then o.(feature4 := true)
    else if flag == "--list" then o.(listOnly := true)
    else o
  }

  predicate AnyFeature(o: Options)
  {
    o.feature1 || o.feature2 || o.feature3 || o.feature4
  }

  /** Every field set in `o` is still set in `o'`. */
  predicate Extends(o': Options, o: Options)
  {
    && (o.feature1 ==> o'.feature1)
    && (o.feature2 ==> o'.feature2)
    && (o.feature3 ==> o'.feature3)
    && (o.feature4 ==> o'.feature4)
    && (o.listOnly ==> o'.listOnly)
    && (o.licensePath.Some? ==> o'.licensePath.Some?)
  }

  /**
    The left-to-right scan of the loop at lines 43-81 over the arguments after
    the program name, starting from the options `o` built so far.
   */
  function Scan(args: seq<string>, o: Options): (r: ParseOutcome)
    ensures r.Exit? ==> r.code == 0 || r.code == 1
    ensures r.Parsed? ==> Extends(r.options, o)
    decreases |args|
  {
    if args == [] then Parsed(o)
    else if args[0] == "--license" && 1 < |args| then
      Scan(args[2..], o.(licensePath := Some(args[1])))
    else if args[0] in SwitchFlags then Scan(args[1..], SetSwitch(o, args[0]))
    else if args[0] == "--help" then Exit(0)
    else Exit(1)
  }

  /** Lines 83-86: with no feature flag the tool only lists. */
  function ListByDefault(o: Options): (r: Options)
    ensures r.listOnly <==> o.listOnly || !AnyFeature(o)
    ensures r.(listOnly := o.listOnly) == o
  {
    if !AnyFeature(o) then o.(listOnly := true) else o
  }

  /** The arguments after `argv[0]`. */
  function Arguments(argv: seq<string>): seq<string>
  {
    if argv == [] then [] else argv[1..]
  }

  /** What `ParseOptions(argc, argv)` does, as a function of `argv`. */
  function Parse(argv: seq<string>): (r: ParseOutcome)
    ensures r.Exit? ==> r.code == 0 || r.code == 1
    ensures r.Parsed? ==> r.options.listOnly || AnyFeature(r.options)
  {
    match Scan(Arguments(argv), Defaults)
    case Parsed(o) => Parsed(ListByDefault(o))
    case Exit(c) => Exit(c)
  }

  /** `argv[i..]`, and empty once `i` is past the end. */
  function Tail(argv: seq<string>, i: nat): seq<string>
  {
    if i < |argv| then argv[i..] else []
  }

  /** `ParseOptions` (lines 40-89), with `std::exit(code)` returned as `Exit(code)`. */
  method ParseOptions(argv: seq<string>) returns (outcome: ParseOutcome)
    ensures outcome == Parse(argv)
  {
    var opts := Defaults;
    var i: nat := 1;
    while i < |argv|
      invariant argv == [] || i <= |argv|
      invariant Scan(Arguments(argv), Defaults) == Scan(Tail(argv, i), opts)
    {
      var arg := argv[i];
      assert Tail(argv, i)[0] == arg;
      if arg == "--license" && i + 1 < |argv| {
        i := i + 1;
        opts := opts.(licensePath := Some(argv[i]));
        assert Tail(argv, i - 1)[2..] == Tail(argv, i + 1);
      } else if arg == "--feature1" {
        opts := opts.(feature1 := true);
        assert Tail(argv, i)[1..] == Tail(argv, i + 1);
      } else if arg == "--feature2" {
        opts := opts.(feature2 := true);
        assert Tail(argv, i)[1..] == Tail(argv, i + 1);
      } else if arg == "--feature3" {
        opts := opts.(feature3 := true);
        assert Tail(argv, i)[1..] == Tail(argv, i + 1);
      } else if arg == "--feature4" {
        opts := opts.(feature4 := true);
        assert Tail(argv, i)[1..] == Tail(argv, i + 1);
      } else if arg == "--list" {
        opts := opts.(listOnly := true);
        assert Tail(argv, i)[1..] == Tail(argv, i + 1);
      } else if arg == "--help" {
        outcome := Exit(0);
        return;
      } else {
        outcome := Exit(1);
        return;
      }
      i := i + 1;
    }

    if !opts.feature1 && !opts.feature2 && !opts.feature3 && !opts.feature4 {
      opts := opts.(listOnly := true);
    }
    outcome := Parsed(opts);
  }

  // ---------------------------------------------------------------------------
  // Properties of the parser
  // ---------------------------------------------------------------------------

  /** A prefix that scans cleanly leaves the scan at the start of what follows it. */
  lemma {:induction false} ScanAppend(a: seq<string>, b: seq<string>, o: Options)
    requires Scan(a, o).Parsed?
    ensures Scan(a + b, o) == Scan(b, Scan(a, o).options)
    decreases |a|
  {
    if a == [] {
      assert a + b == b;
    } else {
      if a[0] == "--license" && 1 < |a| {
        assert (a + b)[2..] == a[2..] + b;
        ScanAppend(a[2..], b, o.(licensePath := Some(a[1])));
      } else {
        assert (a + b)[1..] == a[1..] + b;
        ScanAppend(a[1..], b, SetSwitch(o, a[0]));
      }
    }
  }

  /** `Parse` on `pre + rest`, split at a prefix that scanned cleanly. */
  lemma ParseAppend(pre: seq<string>, rest: seq<string>)
    requires |pre| >= 1 && Scan(Arguments(pre), Defaults).Parsed?
    ensures Arguments(pre + rest) == Arguments(pre) + rest
    ensures Scan(Arguments(pre + rest), Defaults)
         == Scan(rest, Scan(Arguments(pre), Defaults).options)
  {
    assert (pre + rest)[1..] == pre[1..] + rest;
    ScanAppend(Arguments(pre), rest, Defaults);
  }

  /** `argv[0]` is the program name and is never interpreted as an option. */
  lemma ProgramNameIgnored(a: string, b: string, rest: seq<string>)
    ensures Parse([a] + rest) == Parse([b] + rest)
  {
  }

  /**
    `--license p` appended to a command line that parses sets the license path
    to `p` and changes nothing else.
   */
  lemma AppendedLicenseSetsOnlyPath(pre: seq<string>, p: string)
    requires |pre| >= 1 && Parse(pre).Parsed?
    ensures Parse(pre + ["--license", p])
         == Parsed(Parse(pre).options.(licensePath := Some(p)))
  {
    ParseAppend(pre, ["--license", p]);
    var o := Scan(Arguments(pre), Defaults).options;
    assert ["--license", p][2..] == [];
    assert Scan(["--license", p], o) == Parsed(o.(licensePath := Some(p)));
  }

  /** A scan over arguments that contain no `--license` never touches the license path. */
  lemma {:induction false} ScanKeepsPath(args: seq<string>, o: Options)
    requires "--license" !in args
    requires Scan(args, o).Parsed?
    ensures Scan(args, o).options.licensePath == o.licensePath
    decreases |args|
  {
    if args != [] {
      assert args[0] in SwitchFlags;
      assert "--license" !in args[1..];
      ScanKeepsPath(args[1..], SetSwitch(o, args[0]));
    }
  }

  /**
    The last `--license p` wins, wherever it stands: when no `--license`
    follows it and the whole command line parses, the license path is `p`
    (for example `prog --license a --license b --list` gives `b`).
   */
  lemma LicenseLastWins(pre: seq<string>, p: string, rest: seq<string>)
    requires |pre| >= 1 && Parse(pre).Parsed?
    requires "--license" !in rest
    requires Parse(pre + ["--license", p] + rest).Parsed?
    ensures Parse(pre + ["--license", p] + rest).options.licensePath == Some(p)
  {
    assert pre + ["--license", p] + rest == pre + (["--license", p] + rest);
    ParseAppend(pre, ["--license", p] + rest);
    var o := Scan(Arguments(pre), Defaults).options;
    assert (["--license", p] + rest)[2..] == rest;
    ScanKeepsPath(rest, o.(licensePath := Some(p)));
  }

  /** The two runs agree except, possibly, in `licensePath`. */
  predicate SameExceptLicense(r: ParseOutcome, r': ParseOutcome)
  {
    match r
    case Exit(c) => r' == Exit(c)
    case Parsed(o) => r'.Parsed? && r'.options.(licensePath := o.licensePath) == o
  }

  /** Scanning from options that differ only in the license path ends the same way, up to that path. */
  lemma {:induction false} ScanIgnoresLicense(args: seq<string>, o: Options, o': Options)
    requires o'.(licensePath := o.licensePath) == o
    ensures SameExceptLicense(Scan(args, o), Scan(args, o'))
    decreases |args|
  {
    if args != [] {
      if args[0] == "--license" && 1 < |args| {
        ScanIgnoresLicense(args[2..], o.(licensePath := Some(args[1])), o'.(licensePath := Some(args[1])));
      } else if args[0] in SwitchFlags {
        ScanIgnoresLicense(args[1..], SetSwitch(o, args[0]), SetSwitch(o', args[0]));
      }
    }
  }

  /**
    The argument after `--license` is consumed as its value and never examined
    as an option: replacing it by anything else (even `--help`) changes at most
    the license path.
   */
  lemma LicenseValueSkipped(pre: seq<string>, p: string, q: string, rest: seq<string>)
    requires |pre| >= 1 && Parse(pre).Parsed?
    ensures SameExceptLicense(Parse(pre + ["--license", p] + rest),
                              Parse(pre + ["--license", q] + rest))
  {
    ParseAppend(pre, ["--license", p] + rest);
    ParseAppend(pre, ["--license", q] + rest);
    assert pre + ["--license", p] + rest == pre + (["--license", p] + rest);
    assert pre + ["--license", q] + rest == pre + (["--license", q] + rest);
    var o := Scan(Arguments(pre), Defaults).options;
    assert (["--license", p] + rest)[2..] == rest == (["--license", q] + rest)[2..];
    ScanIgnoresLicense(rest, o.(licensePath := Some(p)), o.(licensePath := Some(q)));
  }

  /** `--help` exits with 0 when reached, whatever follows it. */
  lemma HelpDecides(pre: seq<string>, rest: seq<string>)
    requires |pre| >= 1 && Parse(pre).Parsed?
    ensures Parse(pre + ["--help"] + rest) == Exit(0)
  {
    assert pre + ["--help"] + rest == pre + (["--help"] + rest);
    ParseAppend(pre, ["--help"] + rest);
  }

  /** An unrecognised argument exits with 1 when reached, whatever follows it. */
  lemma UnrecognisedDecides(pre: seq<string>, arg: string, rest: seq<string>)
    requires |pre| >= 1 && Parse(pre).Parsed?
    requires arg !in KnownFlags
    ensures Parse(pre + [arg] + rest) == Exit(1)
  {
    assert pre + [arg] + rest == pre + ([arg] + rest);
    ParseAppend(pre, [arg] + rest);
  }

  /** `--license` as the last argument has no value and is rejected like an unknown one. */
  lemma TrailingLicenseExits(pre: seq<string>)
    requires |pre| >= 1 && Parse(pre).Parsed?
    ensures Parse(pre + ["--license"]) == Exit(1)
  {
    ParseAppend(pre, ["--license"]);
  }

  /** The argument at `k` stops the scan with exit code `code`. */
  predicate Stops(argv: seq<string>, k: nat, code: int)
    requires k < |argv|
  {
    || (argv[k] == "--help" && code == 0)
    || (argv[k] !in KnownFlags && code == 1)
    || (argv[k] == "--license" && k == |argv| - 1 && code == 1)
  }

  /** An exiting scan stops at one argument, after a prefix that scans cleanly. */
  lemma {:induction false} ScanExitHasCause(args: seq<string>, o: Options)
    requires Scan(args, o).Exit?
    ensures exists k: nat :: k < |args| && Scan(args[..k], o).Parsed? && Stops(args, k, Scan(args, o).code)
    decreases |args|
  {
    var c := Scan(args, o).code;
    if args[0] == "--license" && 1 < |args| {
      var o' := o.(licensePath := Some(args[1]));
      ScanExitHasCause(args[2..], o');
      var k: nat :| k < |args[2..]| && Scan(args[2..][..k], o').Parsed? && Stops(args[2..], k, c);
      assert args[..k + 2][2..] == args[2..][..k];
      assert Scan(args[..k + 2], o).Parsed?;
      assert Stops(args, k + 2, c);
    } else if args[0] in SwitchFlags {
      var o' := SetSwitch(o, args[0]);
      ScanExitHasCause(args[1..], o');
      var k: nat :| k < |args[1..]| && Scan(args[1..][..k], o').Parsed? && Stops(args[1..], k, c);
      assert args[..k + 1][1..] == args[1..][..k];
      assert Scan(args[..k + 1], o).Parsed?;
      assert Stops(args, k + 1, c);
    } else {
      assert args[..0] == [];
      assert Stops(args, 0, c);
    }
  }

  /**
    Conversely, every exit has a cause: an argument at some position `k >= 1`,
    reached after `argv[..k]` parsed cleanly, that is `--help` (exit 0), an
    unrecognised argument or a trailing `--license` (exit 1).
   */
  lemma ExitHasCause(argv: seq<string>)
    requires Parse(argv).Exit?
    ensures exists k: nat :: 1 <= k < |argv| && Parse(argv[..k]).Parsed? && Stops(argv, k, Parse(argv).code)
  {
    var args := Arguments(argv);
    ScanExitHasCause(args, Defaults);
    var k: nat :| k < |args| && Scan(args[..k], Defaults).Parsed? && Stops(args, k, Parse(argv).code);
    assert argv[..k + 1][1..] == args[..k];
    assert Stops(argv, k + 1, Parse(argv).code);
  }

  /** A switch that is already set stays as it is when given again. */
  lemma SwitchAlreadySet(o: Options, o': Options, flag: string)
    requires flag in SwitchFlags
    requires Extends(o', SetSwitch(o, flag))
    ensures SetSwitch(o', flag) == o'
  {
  }

  /** The scan-level form of `RepeatedSwitchIdempotent`, from the options before the first occurrence. */
  lemma ScanRepeatedSwitch(flag: string, mid: seq<string>, rest: seq<string>, o: Options)
    requires flag in SwitchFlags
    requires Scan(mid, SetSwitch(o, flag)).Parsed?
    ensures Scan([flag] + (mid + ([flag] + rest)), o) == Scan([flag] + (mid + rest), o)
  {
    var o1 := SetSwitch(o, flag);
    assert ([flag] + (mid + ([flag] + rest)))[1..] == mid + ([flag] + rest);
    assert ([flag] + (mid + rest))[1..] == mid + rest;
    ScanAppend(mid, [flag] + rest, o1);
    ScanAppend(mid, rest, o1);
    var o2 := Scan(mid, o1).options;
    assert ([flag] + rest)[1..] == rest;
    SwitchAlreadySet(o, o2, flag);
  }

  /**
    Giving a switch flag again, with any arguments in between, changes nothing.
    Both prefixes must parse cleanly, so that each occurrence is read as an
    option; `RepeatNeedsCleanPrefix` shows a case where the first one is not.
   */
  lemma RepeatedSwitchIdempotent(pre: seq<string>, flag: string, mid: seq<string>, rest: seq<string>)
    requires |pre| >= 1 && Parse(pre).Parsed?
    requires flag in SwitchFlags
    requires Parse(pre + [flag] + mid).Parsed?
    ensures Parse(pre + [flag] + mid + [flag] + rest) == Parse(pre + [flag] + mid + rest)
  {
    var o := Scan(Arguments(pre), Defaults).options;
    assert pre + [flag] + mid == pre + ([flag] + mid);
    assert pre + [flag] + mid + [flag] + rest == pre + ([flag] + (mid + ([flag] + rest)));
    assert pre + [flag] + mid + rest == pre + ([flag] + (mid + rest));
    ParseAppend(pre, [flag] + mid);
    assert ([flag] + mid)[1..] == mid;
    ScanRepeatedSwitch(flag, mid, rest, o);
    ParseAppend(pre, [flag] + (mid + ([flag] + rest)));
    ParseAppend(pre, [flag] + (mid + rest));
  }

  /** Without a clean prefix a repeat may not be idempotent: here the first `--feature1` is a license path. */
  lemma RepeatNeedsCleanPrefix()
    ensures Parse(["p", "--license", "--feature1", "--feature1"])
         != Parse(["p", "--license", "--feature1"])
  {
    assert ["p", "--license", "--feature1", "--feature1"][1..][2..] == ["--feature1"];
    assert ["--feature1"][1..] == [];
    assert ["p", "--license", "--feature1"][1..][2..] == [];
  }

  // ---------------------------------------------------------------------------
  // License path and per-feature dispatch (main)
  // ---------------------------------------------------------------------------

  /** Line 159: the parsed `--license` value, else the default license path. */
  function ChooseLicensePath(options: Options, defaultPath: string): (path: string)
    ensures options.licensePath.Some? ==> path == options.licensePath.value
    ensures options.licensePath.None? ==> path == defaultPath
  {
    options.licensePath.GetOr(defaultPath)
  }

  /** The path given by the last `--license` argument is the one the tool initialises with. */
  lemma LicenseArgumentIsUsed(pre: seq<string>, p: string, rest: seq<string>, defaultPath: string)
    requires |pre| >= 1 && Parse(pre).Parsed?
    requires "--license" !in rest
    requires Parse(pre + ["--license", p] + rest).Parsed?
    ensures ChooseLicensePath(Parse(pre + ["--license", p] + rest).options, defaultPath) == p
  {
    LicenseLastWins(pre, p, rest);
  }

  /** Lines 173-174: an absent snapshot resolves every feature to Disabled. */
  function SnapshotState(productState: Option<ProductState>, index: nat): (s: FeatureState)
    ensures productState.None? ==> s == Disabled
    ensures productState.Some? ==> s == ResolveFeature(productState.value, index)
  {
    match productState
    case Some(p) => ResolveFeature(p, index)
    case None => Disabled
  }

  /** The three messages of `ExerciseFeature`. */
  datatype Exercise = RestrictedFallback | PremiumMode | StandardMode

  /** `ExerciseFeature` (lines 132-147): exactly one message per state. */
  function ExerciseFeature(s: FeatureState): (m: Exercise)
    ensures m == RestrictedFallback <==> s == Disabled
    ensures m == PremiumMode <==> s == Extended
    ensures m == StandardMode <==> s == Enabled
  {
    match s
    case Disabled => RestrictedFallback
    case Extended => PremiumMode
    case Enabled => StandardMode
  }

  /** What one `resolveAndHandle` call prints, besides its debug line. */
  datatype Output =
    | Listing(name: string, stateText: string)
    | Exercised(name: string, message: Exercise)
    | Silent

  /** The `resolveAndHandle` lambda (lines 171-186). */
  function ResolveAndHandle(productState: Option<ProductState>, listOnly: bool,
                            index: nat, name: string, requested: bool): (out: Output)
    ensures listOnly ==> out == Listing(name, DescribeFeatureState(SnapshotState(productState, index)))
    ensures !listOnly && requested ==> out == Exercised(name, ExerciseFeature(SnapshotState(productState, index)))
    ensures out == Silent <==> !listOnly && !requested
  {
    var state := SnapshotState(productState, index);
    if listOnly then Listing(name, DescribeFeatureState(state))
    else if requested then Exercised(name, ExerciseFeature(state))
    else Silent
  }

  /** Whether the feature at catalog index `k` was requested on the command line. */
  function Requested(options: Options, k: nat): bool
  {
    if k == Cli.Feature1Index then options.feature1
    else if k == Cli.Feature2Index then options.feature2
    else if k == Cli.Feature3Index then options.feature3
    else if k == Cli.Feature4Index then options.feature4
    else false
  }

  /** Lines 188-199: the four calls of `resolveAndHandle`, in catalog order. */
  function Report(productState: Option<ProductState>, options: Options): (lines: seq<Output>)
    ensures |lines| == Cli.FeatureCount
    ensures forall k :: 0 <= k < |lines| ==> (lines[k].Listing? <==> options.listOnly)
    ensures options.listOnly ==>
              forall k :: 0 <= k < |lines| ==>
                lines[k] == Listing(Cli.DescribeName(k), DescribeFeatureState(SnapshotState(productState, k)))
    ensures !options.listOnly ==>
              && (lines[0] != Silent <==> options.feature1)
              && (lines[1] != Silent <==> options.feature2)
              && (lines[2] != Silent <==> options.feature3)
              && (lines[3] != Silent <==> options.feature4)
    ensures forall k :: 0 <= k < |lines| && lines[k].Exercised? ==>
              lines[k] == Exercised(Cli.DescribeName(k), ExerciseFeature(SnapshotState(productState, k)))
  {
    seq(Cli.FeatureCount, k requires 0 <= k =>
      ResolveAndHandle(productState, options.listOnly, k, Cli.DescribeName(k), Requested(options, k)))
  }

  /**
    Fail closed: without a snapshot every listing line says "disabled" and every
    exercised feature takes the restricted fallback.
   */
  lemma NoSnapshotFailsClosed(options: Options)
    ensures forall out :: out in Report(None, options) ==>
              match out
              case Listing(_, text) => text == "disabled"
              case Exercised(_, m) => m == RestrictedFallback
              case Silent => true
  {
  }

  /**
    Every command line that parses makes the tool print something for at least
    one feature: either all four are listed, or a requested one is exercised.
   */
  lemma ParsedRunReports(argv: seq<string>, productState: Option<ProductState>)
    requires Parse(argv).Parsed?
    ensures exists k :: 0 <= k < Cli.FeatureCount && Report(productState, Parse(argv).options)[k] != Silent
  {
    var o := Parse(argv).options;
    var lines := Report(productState, o);
    if o.listOnly {
      assert lines[0] != Silent;
    } else if o.feature1 {
      assert lines[0] != Silent;
    } else if o.feature2 {
      assert lines[1] != Silent;
    } else if o.feature3 {
      assert lines[2] != Silent;
    } else {
      assert lines[3] != Silent;
    }
  }

  /** The observable result of the whole program. */
  datatype Run = Exited(code: int) | Completed(licensePath: string, lines: seq<Output>)

  /**
    `main` (lines 150-203) with the engine abstracted: `defaultPath` is what
    `ResolveDefaultLicense` computes and `productCall` is what
    `licenx::GetProductState` does after initialisation with the chosen path.
   */
  function RunCli(argv: seq<string>, defaultPath: string, productCall: EngineCall<ProductState>): (run: Run)
    ensures run.Exited? <==> Parse(argv).Exit?
    ensures run.Exited? ==> run.code == Parse(argv).code
    ensures run.Completed? ==>
              && run.licensePath == ChooseLicensePath(Parse(argv).options, defaultPath)
              && run.lines == Report(GetProductStateSafe(productCall), Parse(argv).options)
  {
    match Parse(argv)
    case Exit(c) => Exited(c)
    case Parsed(o) =>
      Completed(ChooseLicensePath(o, defaultPath), Report(GetProductStateSafe(productCall), o))
  }

  /** Scenario: snapshot [2, 0, 1, 1] with `--list`. */
  lemma ListingScenario()
    ensures RunCli(["cli", "--list"], "default.licx", Returned(ProductState([2, 0, 1, 1])))
         == Completed("default.licx", [Listing("CLI Feature 1", "extended"),
                                       Listing("CLI Feature 2", "disabled"),
                                       Listing("CLI Feature 3", "enabled"),
                                       Listing("CLI Feature 4", "enabled")])
  {
  }

  /** Scenario: the engine throws, and a requested feature falls back. */
  lemma NoSnapshotScenario()
    ensures RunCli(["cli", "--feature2", "--license", "x.licx"], "default.licx", Threw)
         == Completed("x.licx", [Silent, Exercised("CLI Feature 2", RestrictedFallback), Silent, Silent])
  {
  }
}
