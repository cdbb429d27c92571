/**
  The GPU window example (gui_gpu/main.cpp): the `--license` lookup, the status
  line, and the message and icon shown when a feature button is pressed. Strings
  are the model's own; the UTF-8/UTF-16 conversions are taken as the identity.
 */
module GuiGpu {
  import opened Wrappers
  import opened Licenx
  import opened FeatureCatalog
  import Gpu = GpuFeatureCatalog
  import CliFeatures

  /** `AppState`, as filled in by `wWinMain` before the window is created. */
  datatype AppState = AppState(
    initStatus: Status,
    diagnostics: Diagnostics,
    productState: Option<ProductState>)

  /** `flag` occurs at `i`, a position that has a following value and is not `argv[0]`. */
  predicate FlagAt(argv: seq<string>, flag: string, i: int)
  {
    1 <= i < |argv| - 1 && argv[i] == flag
  }

  /** `i` is the first such position. */
  predicate FirstFlagAt(argv: seq<string>, flag: string, i: int)
  {
    FlagAt(argv, flag, i) && forall j :: 0 <= j < i ==> !FlagAt(argv, flag, j)
  }

  /** There is at most one first position. */
  lemma FirstFlagAtUnique(argv: seq<string>, flag: string, i: int, j: int)
    requires FirstFlagAt(argv, flag, i) && FirstFlagAt(argv, flag, j)
    ensures i == j
  {
  }

  /**
    `FindCommandLineArgument` (lines 90-100): the argument after the first
    occurrence of `flag` among `argv[1..argc-2]`, if there is one.
   */
  method FindCommandLineArgument(argv: seq<string>, flag: string) returns (r: Option<string>)
    ensures r.None? <==> forall i :: 0 <= i < |argv| ==> !FlagAt(argv, flag, i)
    ensures r.Some? ==> exists i :: FirstFlagAt(argv, flag, i) && r.value == argv[i + 1]
    ensures forall i :: FirstFlagAt(argv, flag, i) ==> r == Some(argv[i + 1])
  {
    var i := 1;
    while i < |argv| - 1
      invariant 1 <= i
      invariant forall j :: 0 <= j < i ==> !FlagAt(argv, flag, j)
    {
      if flag == argv[i] {
        assert FirstFlagAt(argv, flag, i);
        forall k | FirstFlagAt(argv, flag, k)
          ensures k == i
        {
          FirstFlagAtUnique(argv, flag, i, k);
        }
        return Some(argv[i + 1]);
      }
      i := i + 1;
    }
    return None;
  }

  /** The flag only at `argv[0]` or only as the last argument is never found. */
  lemma EdgeOccurrencesIgnored(argv: seq<string>, flag: string)
    requires forall i :: 1 <= i < |argv| - 1 ==> argv[i] != flag
    ensures forall i :: 0 <= i < |argv| ==> !FlagAt(argv, flag, i)
  {
  }

  /**
    The license-path lambda of `wWinMain` (lines 206-215). `argv` is `None` when
    `CommandLineToArgvW` fails; `defaultPath` is what `DefaultLicensePath`
    computes from the executable's location.
   */
  method ChooseLicensePath(argv: Option<seq<string>>, defaultPath: string) returns (path: string)
    ensures argv.None? ==> path == defaultPath
    ensures argv.Some? ==>
              (forall i :: 0 <= i < |argv.value| ==> !FlagAt(argv.value, "--license", i)) ==>
              path == defaultPath
    ensures argv.Some? ==>
              forall i :: FirstFlagAt(argv.value, "--license", i) ==> path == argv.value[i + 1]
  {
    if argv.Some? {
      var explicitPath := FindCommandLineArgument(argv.value, "--license");
      if explicitPath.Some? {
        return explicitPath.value;
      }
    }
    return defaultPath;
  }

  const ValidatedText: string := "License validated successfully."
  const RestrictedPrefix: string := "Restricted mode: "

  /** `DescribeStatus` (lines 63-79): the text of the status control. */
  method DescribeStatus(state: AppState) returns (message: string)
    ensures message == ValidatedText <==> state.initStatus == Ok
    ensures state.initStatus != Ok ==>
              message == RestrictedPrefix + state.diagnostics.message
                         + (if state.diagnostics.licensePath == "" then ""
                            else " (" + state.diagnostics.licensePath + ")")
  {
    if state.initStatus == Ok {
      return ValidatedText;
    }

    message := RestrictedPrefix;
    message := message + state.diagnostics.message;
    if state.diagnostics.licensePath != "" {
      message := message + " (";
      message := message + state.diagnostics.licensePath;
      message := message + ")";
    }
    assert message[0] != ValidatedText[0];
  }

  /** The message box icon. */
  datatype Icon = Warning | Information

  /** The message box text, one case per branch of `HandleFeature`. */
  datatype Message =
    | Unavailable(reason: string)
    | DisabledByLicense
    | ExtendedMode
    | StandardMode

  datatype Notice = Notice(icon: Icon, message: Message)

  /** Line 109: a feature can be used only after a successful initialisation with a snapshot. */
  predicate Licensed(state: AppState)
  {
    state.initStatus == Ok && state.productState.Some?
  }

  /** Lines 110-114: the state `HandleFeature` acts on. */
  function EffectiveState(state: AppState, featureIndex: nat): (s: FeatureState)
    ensures !Licensed(state) ==> s == Disabled
    ensures Licensed(state) ==> s == ResolveFeature(state.productState.value, featureIndex)
  {
    if Licensed(state) then ResolveFeature(state.productState.value, featureIndex) else Disabled
  }

  /** The decision part of `HandleFeature` (lines 107-141). */
  function HandleFeature(state: AppState, featureIndex: nat): (n: Notice)
    ensures !Licensed(state) ==> n == Notice(Warning, Unavailable(state.diagnostics.message))
    ensures Licensed(state) ==>
              match EffectiveState(state, featureIndex)
              case Disabled => n == Notice(Warning, DisabledByLicense)
              case Extended => n == Notice(Information, ExtendedMode)
              case Enabled => n == Notice(Information, StandardMode)
    ensures n.icon == Warning <==> EffectiveState(state, featureIndex) == Disabled
  {
    var featureState := EffectiveState(state, featureIndex);
    if !Licensed(state) then Notice(Warning, Unavailable(state.diagnostics.message))
    else if featureState == Disabled then Notice(Warning, DisabledByLicense)
    else if featureState == Extended then Notice(Information, ExtendedMode)
    else Notice(Information, StandardMode)
  }

  /**
    The window never grants more than the command-line tool would from the same
    snapshot: a feature it treats as enabled or extended resolves the same way there.
   */
  lemma GuiNoMorePermissiveThanCli(state: AppState, featureIndex: nat)
    ensures EffectiveState(state, featureIndex) != Disabled ==>
              EffectiveState(state, featureIndex)
              == CliFeatures.SnapshotState(state.productState, featureIndex)
  {
  }

  /**
    Unlike the command-line tool, a snapshot without a successful
    initialisation still leaves the feature unavailable.
   */
  lemma SnapshotWithoutOkIsUnavailable()
    ensures var state := AppState(InternalError, Diagnostics(InternalError, "bad", "", ""),
                                  Some(ProductState([1])));
            && HandleFeature(state, Gpu.RenderPreviewIndex) == Notice(Warning, Unavailable("bad"))
            && CliFeatures.SnapshotState(state.productState, Gpu.RenderPreviewIndex) == Enabled
  {
  }

  /** Scenario: snapshot [0, 2] after a successful initialisation. */
  lemma GpuScenario(d: Diagnostics)
    ensures var state := AppState(Ok, d, Some(ProductState([0, 2])));
            && HandleFeature(state, Gpu.RenderPreviewIndex) == Notice(Warning, DisabledByLicense)
            && HandleFeature(state, Gpu.ModelTrainingIndex) == Notice(Information, ExtendedMode)
  {
  }
}
