/** The action decision engine: read-only gates that compare a release's
    recorded status with freshly observed values and decide whether an
    upgrade, test, rollback or uninstall action should run. */
module Decisions {
  import opened Conditions
  import opened HelmReleaseTypes

  /** Every value observed for this reconciliation equals the one recorded
      by the last attempt, and the spec has not changed since. */
  predicate NothingChanged(hr: HelmRelease, revision: string, releaseRevision: int, valuesChecksum: string)
  {
    && hr.status.lastAttemptedRevision == revision
    && hr.status.lastReleaseRevision == releaseRevision
    && hr.generation == hr.status.observedGeneration
    && hr.status.lastAttemptedValuesChecksum == valuesChecksum
  }

  /** `ShouldUpgrade`: upgrade when the source revision, the release
      revision, the spec generation or the values checksum changed, or when
      the last attempt failed and the retry budget is not used up. */
  function ShouldUpgrade(hr: HelmRelease, revision: string, releaseRevision: int, valuesChecksum: string): (r: bool)
    ensures !NothingChanged(hr, revision, releaseRevision, valuesChecksum) ==> r
    ensures NothingChanged(hr, revision, releaseRevision, valuesChecksum) ==>
      (r <==> hr.status.failures > 0 &&
              (GetUpgrade(hr.spec).maxRetries < 0 || hr.status.failures < GetUpgrade(hr.spec).maxRetries))
  {
    if hr.status.lastAttemptedRevision != revision then true
    else if hr.status.lastReleaseRevision != releaseRevision then true
    else if hr.generation != hr.status.observedGeneration then true
    else if hr.status.lastAttemptedValuesChecksum != valuesChecksum then true
    else
      var maxRetries := GetUpgrade(hr.spec).maxRetries;
      hr.status.failures > 0 && (maxRetries < 0 || hr.status.failures < maxRetries)
  }

  /** `ShouldTest`: test when testing is enabled and an install or upgrade
      is recorded as having succeeded. The spec's test configuration must
      be present: it is read without a default. */
  method ShouldTest(hr: HelmRelease) returns (r: bool)
    requires hr.spec.test.Some?
    ensures r <==> (hr.spec.test.value.enable &&
                    (HasCondition(hr.status.conditions, InstalledCondition, ConditionTrue) ||
                     HasCondition(hr.status.conditions, UpgradedCondition, ConditionTrue)))
  {
    if hr.spec.test.value.enable {
      var conditions := hr.status.conditions;
      for i := 0 to |conditions|
        invariant forall k :: 0 <= k < i ==>
          conditions[k].status != ConditionTrue ||
          (conditions[k].conditionType != InstalledCondition && conditions[k].conditionType != UpgradedCondition)
      {
        var c := conditions[i];
        if c.status == ConditionTrue && (c.conditionType == InstalledCondition || c.conditionType == UpgradedCondition) {
          return true;
        }
      }
    }
    return false;
  }

  /** `ShouldRollback`: roll back when rollback is enabled, the recorded
      release revision is ahead of the observed one, and an upgrade is
      recorded as having failed. */
  method ShouldRollback(hr: HelmRelease, releaseRevision: int) returns (r: bool)
    ensures r <==> (GetRollback(hr.spec).enable &&
                    hr.status.lastReleaseRevision > releaseRevision &&
                    HasCondition(hr.status.conditions, UpgradedCondition, ConditionFalse))
  {
    if GetRollback(hr.spec).enable {
      if hr.status.lastReleaseRevision <= releaseRevision {
        return false;
      }
      var conditions := hr.status.conditions;
      for i := 0 to |conditions|
        invariant forall k :: 0 <= k < i ==>
          conditions[k].conditionType != UpgradedCondition || conditions[k].status != ConditionFalse
      {
        var c := conditions[i];
        if c.conditionType == UpgradedCondition && c.status == ConditionFalse {
          return true;
        }
      }
    }
    return false;
  }

  /** `ShouldUninstall`: uninstall when a release revision exists and an
      install is recorded as having failed. */
  method ShouldUninstall(hr: HelmRelease, releaseRevision: int) returns (r: bool)
    ensures r <==> (releaseRevision > 0 &&
                    HasCondition(hr.status.conditions, InstalledCondition, ConditionFalse))
  {
    if releaseRevision <= 0 {
      return false;
    }
    var conditions := hr.status.conditions;
    for i := 0 to |conditions|
      invariant forall k :: 0 <= k < i ==>
        conditions[k].conditionType != InstalledCondition || conditions[k].status != ConditionFalse
    {
      var c := conditions[i];
      if c.conditionType == InstalledCondition && c.status == ConditionFalse {
        return true;
      }
    }
    return false;
  }

  /** With nothing changed and no recorded failure, no upgrade runs. */
  lemma ShouldUpgradeSettled(hr: HelmRelease, revision: string, releaseRevision: int, valuesChecksum: string)
    requires NothingChanged(hr, revision, releaseRevision, valuesChecksum)
    requires hr.status.failures == 0
    ensures !ShouldUpgrade(hr, revision, releaseRevision, valuesChecksum)
  {
  }

  /** With nothing changed, a finite retry budget that the failures have
      reached stops further upgrades. */
  lemma ShouldUpgradeBudgetExhausted(hr: HelmRelease, revision: string, releaseRevision: int, valuesChecksum: string)
    requires NothingChanged(hr, revision, releaseRevision, valuesChecksum)
    requires 0 <= GetUpgrade(hr.spec).maxRetries <= hr.status.failures
    ensures !ShouldUpgrade(hr, revision, releaseRevision, valuesChecksum)
  {
  }

  /** Without an upgrade configuration the retry budget is zero, so with
      nothing changed a failed attempt is never retried. */
  lemma ShouldUpgradeWithoutUpgradeConfig(hr: HelmRelease, revision: string, releaseRevision: int, valuesChecksum: string)
    requires NothingChanged(hr, revision, releaseRevision, valuesChecksum)
    requires hr.spec.upgrade.None?
    ensures !ShouldUpgrade(hr, revision, releaseRevision, valuesChecksum)
  {
  }

  /** With an unlimited budget (negative `maxRetries`) any recorded failure
      triggers another upgrade. */
  lemma ShouldUpgradeUnlimitedRetries(hr: HelmRelease, revision: string, releaseRevision: int, valuesChecksum: string)
    requires GetUpgrade(hr.spec).maxRetries < 0
    requires hr.status.failures > 0
    ensures ShouldUpgrade(hr, revision, releaseRevision, valuesChecksum)
  {
  }
}
