# HelmRelease lifecycle logic (helm-controller `v2alpha1`)

This project models the release-lifecycle core of the `HelmRelease` API type
of the Flux helm-controller, `api/v2alpha1/helmrelease_types.go`, and proves
properties of it in Dafny. It has three parts:

- **Condition store** (`conditions.dfy`, module `Conditions`): the ordered
  list of `Condition{Type, Status, Reason, Message, LastTransitionTime}`.
  `filterOutCondition` is a method with a loop, proved equal to the function
  `WithoutType`. A write (`Upserted`) removes every entry of the written type
  and appends the new entry.
- **Readiness recorder** (`readiness.dfy`, module `Readiness`): the reset to
  one "progressing" Ready condition, and the helpers that take a
  `*HelmRelease`. These are methods on a reference class, `HelmReleaseRef`,
  that holds a release value. `HelmReleaseReady` and `HelmReleaseNotReady`
  take the release by value, as in Go. They allocate a fresh reference to
  their own copy, update it step by step and return it. Their contracts
  state the whole new status. They also state whether an upgrade is then
  decided for the same observed values.
- **Action decision engine** (`decisions.dfy`, module `Decisions`):
  `ShouldUpgrade` is a function. `ShouldTest`, `ShouldRollback` and
  `ShouldUninstall` are read-only methods whose loops mirror the source's
  scans with early return. Each is proved equivalent to an existential
  statement over the condition list.

`helmrelease_types.dfy` (module `HelmReleaseTypes`) holds the release, spec
and status records and the defaulting getters. `strings.dfy` (module
`Strings`) models Go's `strings.Split` and `strings.Join` for a
one-character separator. It proves both round trips.

Modelling choices:

- `LastTransitionTime` is a caller-supplied `Time` (an integer) standing in
  for `metav1.Now()`. Nothing is claimed about clocks.
- The object's generation, name and namespace come from its metadata. They
  are plain fields of `HelmRelease`.
- `Failures`, `ObservedGeneration`, `LastReleaseRevision` and `MaxRetries`
  are unbounded integers. `ValidStatus` requires `failures >= 0` and no two
  conditions of one type. The reset and both recorders preserve it.
- The condition-type and reason constants are defined in
  `api/v2alpha1/condition_types.go`, which is not part of this model. The
  model uses the values `"Ready"`, `"Installed"`, `"Upgraded"` and
  `"Progressing"`.
- The reset's reason is the `ProgressingReason` constant.
- `ShouldTest` reads `hr.Spec.Test.Enable` through the pointer, with no
  default, so the model requires the test configuration to be present.
  `ShouldRollback` goes through `GetRollback` and needs no such requirement.
- `GetHelmChart` indexes the second piece of the split. It therefore
  requires the chart reference to be empty or to contain `/`. Pieces after
  the second are ignored, as `GetHelmChartFirstTwoParts` states.

## Model

| member | source | states |
|---|---|---|
| `Strings.Split` | api/v2alpha1/helmrelease_types.go:434 | at least one piece; two or more exactly when the separator occurs; no piece contains the separator |
| `Strings.Join` | api/v2alpha1/helmrelease_types.go:595 | two pieces are joined as first piece, separator, second piece |
| `Strings.JoinSplit` | api/v2alpha1/helmrelease_types.go:434 | joining the pieces `strings.Split` returns gives back the original string |
| `Strings.SplitJoin` | api/v2alpha1/helmrelease_types.go:434 | splitting a join of separator-free pieces gives back those pieces |
| `Conditions.WithoutType` | api/v2alpha1/helmrelease_types.go:651-660 | the filtered list is no longer than the input and holds no condition of the removed type |
| `Conditions.FilterOutCondition` | api/v2alpha1/helmrelease_types.go:651-660 | the loop that appends each condition of another type builds exactly `WithoutType` of its input |
| `Conditions.WithoutTypeAppend` | api/v2alpha1/helmrelease_types.go:653-658 | filtering distributes over concatenation, so kept conditions keep their relative order |
| `Conditions.WithoutTypeMembership` | api/v2alpha1/helmrelease_types.go:651-660 | a condition is in the filtered list iff it was in the input and has another type |
| `Conditions.WithoutTypeOfAbsent` | api/v2alpha1/helmrelease_types.go:651-660 | filtering a list with no condition of the type returns it unchanged |
| `Conditions.WithoutTypeKeepsUnique` | api/v2alpha1/helmrelease_types.go:651-660 | filtering a list with no duplicate types leaves no duplicate types |
| `Conditions.UpsertedPlacesOneLast` | api/v2alpha1/helmrelease_types.go:455-464 | after a write exactly one condition has the written type; it is the last and carries the given status, reason and message |
| `Conditions.UpsertedKeepsOthers` | api/v2alpha1/helmrelease_types.go:455-464 | a write keeps every condition of another type, in its original relative order, and nothing else |
| `Conditions.UpsertedTwice` | api/v2alpha1/helmrelease_types.go:455-464 | two writes of one type leave what the second alone would: no duplicate, last write wins |
| `Conditions.UpsertedHasCondition` | api/v2alpha1/helmrelease_types.go:455-464 | after a write the written type shows only the written status; every other type shows the same statuses as before |
| `Conditions.UpsertedKeepsUnique` | api/v2alpha1/helmrelease_types.go:455-464 | a write keeps the store free of duplicate types |
| `HelmReleaseTypes.GetUpgrade` | api/v2alpha1/helmrelease_types.go:113-120 | the configured upgrade settings, else the zero value with `maxRetries == 0` |
| `HelmReleaseTypes.GetRollback` | api/v2alpha1/helmrelease_types.go:133-140 | the configured rollback settings, else the zero value with rollback disabled |
| `HelmReleaseTypes.GetHelmChart` | api/v2alpha1/helmrelease_types.go:430-436 | an empty chart reference gives the empty pair; a non-empty one must contain `/` |
| `HelmReleaseTypes.GetHelmChartFirstTwoParts` | api/v2alpha1/helmrelease_types.go:430-436 | for a non-empty reference, the pair is the text before the first `/` and the text between the first and second `/`; neither part contains `/` |
| `HelmReleaseTypes.GetHelmChartRoundTrip` | api/v2alpha1/helmrelease_types.go:430-436 | reading back `<namespace>/<name>` gives the namespace and the name |
| `HelmReleaseTypes.GetReleaseName` | api/v2alpha1/helmrelease_types.go:590-598 | the configured release name; else `<targetNamespace>-<name>`; else the object's name |
| `HelmReleaseTypes.GetReleaseNamespace` | api/v2alpha1/helmrelease_types.go:602-609 | the target namespace if set, else the object's namespace |
| `HelmReleaseTypes.GetHelmChartName` | api/v2alpha1/helmrelease_types.go:612-614 | `<namespace>-<name>` of the release object |
| `HelmReleaseTypes.GetMaxHistory` | api/v2alpha1/helmrelease_types.go:627-634 | the configured history limit, else 10 |
| `HelmReleaseTypes.ReleaseNameFromReleaseNamespace` | api/v2alpha1/helmrelease_types.go:590-609 | with no release name and a target namespace, the release name is the release namespace, `-`, the object's name |
| `Decisions.ShouldUpgrade` | api/v2alpha1/helmrelease_types.go:492-508 | true whenever the attempted revision, release revision, generation or values checksum differs; otherwise true iff failures > 0 and the retry budget is unlimited or not reached |
| `Decisions.ShouldUpgradeSettled` | api/v2alpha1/helmrelease_types.go:492-507 | nothing changed and no failures: no upgrade |
| `Decisions.ShouldUpgradeBudgetExhausted` | api/v2alpha1/helmrelease_types.go:502-506 | nothing changed and `failures >= maxRetries >= 0`: no upgrade |
| `Decisions.ShouldUpgradeWithoutUpgradeConfig` | api/v2alpha1/helmrelease_types.go:502-506 | nothing changed and no upgrade configuration (so `maxRetries` is 0): no upgrade, whatever the failures |
| `Decisions.ShouldUpgradeUnlimitedRetries` | api/v2alpha1/helmrelease_types.go:502-504 | a negative `maxRetries` and a recorded failure: upgrade |
| `Decisions.ShouldTest` | api/v2alpha1/helmrelease_types.go:511-520 | true iff testing is enabled and some Installed or Upgraded condition has status True; reads the release only |
| `Decisions.ShouldRollback` | api/v2alpha1/helmrelease_types.go:523-535 | true iff rollback is enabled, the recorded release revision is greater than the observed one and some Upgraded condition has status False |
| `Decisions.ShouldUninstall` | api/v2alpha1/helmrelease_types.go:538-548 | true iff the observed release revision is positive and some Installed condition has status False |
| `Readiness.HelmReleaseProgressing` | api/v2alpha1/helmrelease_types.go:440-451 | exactly one condition remains (Ready, Unknown, `ProgressingReason`, "reconciliation in progress"); nothing else changes |
| `Readiness.ProgressingForgetsActionOutcomes` | api/v2alpha1/helmrelease_types.go:440-451 | after the reset no condition of any type other than Ready remains |
| `Readiness.ProgressingKeepsValid` | api/v2alpha1/helmrelease_types.go:440-451 | the reset keeps the status valid |
| `Readiness.SetHelmReleaseCondition` | api/v2alpha1/helmrelease_types.go:455-464 | the release's conditions become the upsert of the given condition; nothing else changes; no duplicate types appear |
| `Readiness.SetHelmReleaseReadiness` | api/v2alpha1/helmrelease_types.go:468-474 | writes the Ready condition and sets observed generation, attempted revision, release revision and values checksum; nothing else changes |
| `Readiness.ReadyConditionLookups` | api/v2alpha1/helmrelease_types.go:468-469 | after writing Ready, Ready shows only the written status; other types show the same statuses as before |
| `Readiness.HelmReleaseReady` | api/v2alpha1/helmrelease_types.go:484-489 | records the attempt; Ready is True; failures 0; applied revision is the revision; valid status preserved; no upgrade for the same observed values |
| `Readiness.HelmReleaseNotReady` | api/v2alpha1/helmrelease_types.go:477-481 | records the attempt; Ready is False; failures + 1; applied revision unchanged; valid status preserved; upgrade again iff budget unlimited or failures + 1 below it |
| `Readiness.ProgressingThenReady` | api/v2alpha1/helmrelease_types.go:440-489 | a reset followed by a success leaves exactly one condition, Ready True |

## Left out

- `GetValues` (free-form values unmarshalled by a JSON library, with errors discarded): foreign library call.
- `Spec.Timeout` with its 300-second default, and the `GetTimeout` and `GetInterval` variants: they only pass Go `time` values through.
- `GetInstall`, `GetTest`, `GetUninstall` and `GetNamespace`: no decision in the modelled core reads them.
- Configuration flags with no logic (`DisableWait`, `DisableHooks`, `Force`, `SkipCRDs`, `Replace`, `Recreate`, `KeepHistory` and the like), `Suspend`, `DependsOn`, `ValuesFrom`, `Interval`, the chart template, and the kind, finalizer, annotation and index-key constants: data only.
- The scheme registration in `init` and the code-generation markers: framework wiring.
- `metav1.Now()`: the clock is a parameter, and no claim concerns timestamps.
- Go integer widths: `Failures` is an `int64` and `MaxRetries` an `int`. `Failures + 1` could wrap in Go. The model uses unbounded integers.
- The difference between a nil and an empty Go slice of conditions: both are the empty sequence.
- ShouldTest: a release without a test configuration is excluded by a precondition. The source dereferences it and would panic.
- GetHelmChart: a non-empty reference without `/` is excluded by a precondition. The source indexes a missing second piece and would panic.
- Concurrent writers: the model assumes one writer per release, as the source does.
