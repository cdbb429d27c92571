# Feature entitlement resolution for the LicenX examples

This project models the decision logic of the LicenX example programs. A licence
engine produces a product snapshot: one permission code per feature. The model
covers how that snapshot is read safely, how each code is decoded into a three-tier
state (Disabled, Enabled, Extended), and how a feature index is resolved against
the snapshot, failing closed to Disabled. It also covers the two product catalogs
that name the features. Around that core it models what the two front-ends decide:

- the command-line tool parses its options, chooses a licence path, and for each
  of its four features prints a listing line, exercises the feature, or prints
  nothing;
- the GPU window application finds `--license` on its command line, builds a
  status line, and picks a message and an icon when a feature button is pressed.

Modules:

- `Wrappers`: the `Option` type used for `std::optional`.
- `Licenx`: the data shapes of the engine interface (`Status`, `Diagnostics`,
  `ProductState`, and `EngineCall` for a call that returns or throws).
  `licenx/licenx.h` is not part of this model. The snapshot's codes are `Byte`
  values in 0..255. A wider element type in the engine would be narrowed at the
  `std::uint8_t` parameter of `ToFeatureState`.
- `FeatureCatalog`, `GpuFeatureCatalog`, `CliFeatureCatalog`: common/feature_catalog.h.
- `CliFeatures`: cli_features/main.cpp. `Scan` and `Parse` are the functional
  meaning of the option loop. The method `ParseOptions` keeps the source's loop,
  including the `++i` that consumes the value of `--license`, and is proved equal
  to `Parse`. `std::exit(code)` is the result `Exit(code)`.
- `GuiGpu`: gui_gpu/main.cpp. `FindCommandLineArgument` is a loop with an early
  return. `DescribeStatus` builds its text by successive appends.
  `HandleFeature` returns the message box's icon and message as values.

Three points worth knowing about the code:

- The decoder takes a `std::uint8_t`, so negative codes cannot reach it. The model's
  codes are 0..255.
- The command-line tool resolves features from the snapshot whenever
  `GetProductState` returns one, even after a failed `Initialize`. The window
  application also requires `Status::Ok`. `GuiNoMorePermissiveThanCli` and
  `SnapshotWithoutOkIsUnavailable` state this difference.
- The window application has no listing mode. Its buttons always pass
  hard-coded captions, not the names from `GpuFeatureCatalog`.

## Model

| member | source | states |
|---|---|---|
| `FeatureCatalog.Underlying` | common/feature_catalog.h:13-18 | the enum values are 0, 1, 2, and decoding a state's own value gives that state back |
| `FeatureCatalog.ToFeatureState` | common/feature_catalog.h:20-31 | Extended exactly for 2, Enabled exactly for 1, Disabled for every other byte |
| `FeatureCatalog.DecodeUnderlying` | common/feature_catalog.h:13-31 | a state's underlying value is the only code in 0..2 that decodes to that state |
| `FeatureCatalog.DescribeFeatureState` | common/feature_catalog.h:33-44 | "extended", "enabled" and "disabled" each name exactly their own state |
| `FeatureCatalog.DescribeFeatureStateInjective` | common/feature_catalog.h:33-44 | distinct states have distinct names |
| `FeatureCatalog.GetProductStateSafe` | common/feature_catalog.h:46-56 | `Some(s)` exactly when the engine call returns `s`; any throw becomes `None` |
| `FeatureCatalog.ResolveFeature` | common/feature_catalog.h:58-66 | an index past the end gives Disabled; an index in range decodes that element; a non-Disabled result is witnessed by an in-range element holding the state's own code |
| `FeatureCatalog.ResolveFeatureStable` | common/feature_catalog.h:58-66 | appending codes to a snapshot does not change how existing indices resolve |
| `GpuFeatureCatalog.DescribeName` | common/feature_catalog.h:68-85 | 0 is "GPU Render Preview", 1 is "GPU Model Training", and the placeholder is returned exactly for every other index |
| `GpuFeatureCatalog.DescribeNameInjective` | common/feature_catalog.h:73-84 | reserved names are non-empty and differ from each other and from the placeholder |
| `CliFeatureCatalog.DescribeName` | common/feature_catalog.h:87-110 | index k < 4 is "CLI Feature " followed by digit k+1; the placeholder is returned exactly for indices >= 4 |
| `CliFeatureCatalog.DescribeNameInjective` | common/feature_catalog.h:94-109 | the four reserved names are pairwise distinct and distinct from the placeholder |
| `CliFeatures.Scan` | cli_features/main.cpp:43-81 | the scan exits only with 0 or 1, and a clean scan never clears a field that was already set |
| `CliFeatures.ListByDefault` | cli_features/main.cpp:83-86 | listOnly ends up true exactly when `--list` was given or no feature flag was; nothing else changes |
| `CliFeatures.Parse` | cli_features/main.cpp:40-89 | exit codes are 0 or 1; parsed options always either list or request a feature |
| `CliFeatures.ParseOptions` | cli_features/main.cpp:40-89 | the loop, with its in-body `++i` and early exits, computes exactly `Parse(argv)` |
| `CliFeatures.ScanAppend` | cli_features/main.cpp:43-81 | after a prefix that scans cleanly, the scan of the rest continues from the prefix's options |
| `CliFeatures.ProgramNameIgnored` | cli_features/main.cpp:43 | `argv[0]` never influences the outcome |
| `CliFeatures.ScanKeepsPath` | cli_features/main.cpp:50-69 | a scan over arguments without `--license` leaves the license path as it was |
| `CliFeatures.LicenseLastWins` | cli_features/main.cpp:46-49 | when no `--license` follows `--license p` and the command line parses, the license path is `p`, whatever arguments come after it |
| `CliFeatures.AppendedLicenseSetsOnlyPath` | cli_features/main.cpp:46-49 | appending `--license p` to a command line that parses sets the path to `p` and changes no other option |
| `CliFeatures.LicenseValueSkipped` | cli_features/main.cpp:46-49 | the value after `--license` is never examined as an option, even when it is `--help` |
| `CliFeatures.TrailingLicenseExits` | cli_features/main.cpp:46-80 | `--license` as the last argument gives `Exit(1)` |
| `CliFeatures.HelpDecides` | cli_features/main.cpp:70-74 | reaching `--help` gives `Exit(0)` whatever follows |
| `CliFeatures.UnrecognisedDecides` | cli_features/main.cpp:75-80 | reaching an unrecognised argument gives `Exit(1)` whatever follows |
| `CliFeatures.ExitHasCause` | cli_features/main.cpp:43-81 | every exit is caused by one argument at index >= 1, after a cleanly parsed prefix: `--help` for code 0, or an unrecognised or trailing `--license` for code 1 |
| `CliFeatures.RepeatedSwitchIdempotent` | cli_features/main.cpp:50-69 | giving `--featureN` or `--list` again, after any arguments that parse cleanly, is the same as giving it once |
| `CliFeatures.RepeatNeedsCleanPrefix` | cli_features/main.cpp:46-52 | a repeat is not idempotent when its first occurrence is consumed as the value of `--license` |
| `CliFeatures.ChooseLicensePath` | cli_features/main.cpp:159 | the parsed licence path when present, the default otherwise |
| `CliFeatures.LicenseArgumentIsUsed` | cli_features/main.cpp:159-160 | the tool initialises with the value of the last `--license` |
| `CliFeatures.SnapshotState` | cli_features/main.cpp:173-174 | an absent snapshot resolves to Disabled; a present one goes through `ResolveFeature` |
| `CliFeatures.ExerciseFeature` | cli_features/main.cpp:132-147 | exactly one of three messages: Disabled gives the restricted fallback, Extended gives premium, Enabled gives standard |
| `CliFeatures.ResolveAndHandle` | cli_features/main.cpp:171-186 | listing mode prints the listing line whatever `requested` says; otherwise a requested feature is exercised; output is silent exactly when neither listing nor requested |
| `CliFeatures.Report` | cli_features/main.cpp:188-199 | four outputs; in listing mode every feature gets a listing line with its catalog name and state text, and only then; otherwise feature k prints exactly when `--feature(k+1)` was given, as the exercise message for its resolved state |
| `CliFeatures.NoSnapshotFailsClosed` | cli_features/main.cpp:169-186 | without a snapshot every listing says "disabled" and every exercised feature falls back |
| `CliFeatures.ParsedRunReports` | cli_features/main.cpp:171-199 | every command line that parses makes at least one feature print something |
| `CliFeatures.RunCli` | cli_features/main.cpp:150-203 | the program exits with the parser's code exactly when parsing exits; otherwise it uses the chosen path and reports from the safe snapshot |
| `CliFeatures.ListingScenario` | cli_features/main.cpp:152-199 | with snapshot [2, 0, 1, 1] and `--list`: extended, disabled, enabled, enabled |
| `CliFeatures.NoSnapshotScenario` | cli_features/main.cpp:152-199 | when the engine throws, a requested feature takes the restricted fallback and the `--license` value is used |
| `GuiGpu.FirstFlagAtUnique` | gui_gpu/main.cpp:92-97 | the first matching position is unique |
| `GuiGpu.FindCommandLineArgument` | gui_gpu/main.cpp:90-100 | `None` exactly when no index 1 <= i < argc-1 holds the flag; otherwise the argument after the smallest such index |
| `GuiGpu.EdgeOccurrencesIgnored` | gui_gpu/main.cpp:92 | a flag found only at `argv[0]` or as the last argument does not count |
| `GuiGpu.ChooseLicensePath` | gui_gpu/main.cpp:206-215 | the value after the first `--license` when there is one, else the default; the default also when argv is null |
| `GuiGpu.DescribeStatus` | gui_gpu/main.cpp:63-79 | "License validated successfully." exactly when the status is Ok; otherwise "Restricted mode: " plus the message plus " (path)" only for a non-empty path |
| `GuiGpu.EffectiveState` | gui_gpu/main.cpp:109-114 | the resolved state only when status is Ok and a snapshot is present, Disabled otherwise |
| `GuiGpu.HandleFeature` | gui_gpu/main.cpp:107-141 | unlicensed gives a warning with the unavailable reason; licensed gives Disabled as warning/offline preview, Extended as information/premium, Enabled as information/standard; a warning is shown exactly when the effective state is Disabled |
| `GuiGpu.GuiNoMorePermissiveThanCli` | gui_gpu/main.cpp:109-114 | any feature the window grants resolves the same way in the command-line tool |
| `GuiGpu.SnapshotWithoutOkIsUnavailable` | gui_gpu/main.cpp:109-125 | a snapshot present with a non-Ok status is still unavailable in the window, though the CLI would resolve it to Enabled |
| `GuiGpu.GpuScenario` | gui_gpu/main.cpp:126-134 | with snapshot [0, 2]: render preview is disabled with the offline fallback, and model training is extended |

## Left out

- The licensing engine (`licenx::Initialize`, `GetDiagnostics`, `GetProductState`, `Shutdown`): it is a foreign library. Its results are parameters: an `EngineCall` for the snapshot, a `Status` and `Diagnostics` in `AppState`.
- Win32 plumbing (`CreateWindowExW`, `MessageBoxW`, `MainWindowProc`, the message loop, `RegisterClassW`, `CommandLineToArgvW`, `LocalFree`): operating-system UI calls. This includes the mapping from button ids to feature indices in `MainWindowProc`.
- `Utf16FromUtf8`, `Utf8FromWide`: wrappers over OS text conversion. Strings are treated as already converted, so the conversion is the identity.
- `DefaultLicensePath`, `ResolveDefaultLicense`: filesystem and module-path calls. The default path is a parameter.
- `SetDevOverride`: a process-environment mutation. It does not affect any decision modelled here.
- The "initialisation failed – running in restricted mode" line and the diagnostics printed after a failed `Initialize` (cli_features/main.cpp:163-167): console output that changes no decision.
- `PrintUsage`, `PrintDiagnostics`, `PrintFeatureState` formatting, the `[debug]` lines, and the literal text of the exercise and message-box messages: console and UI output. The outputs are enumerated values. The listing line does carry the feature name and the `DescribeFeatureState` text. The window's extended-mode text at gui_gpu/main.cpp:133 contains a mis-encoded dash; it is not modelled as text.
- `std::size_t` and `int` widths: indices are unbounded naturals. No index the programs use comes near either bound.
