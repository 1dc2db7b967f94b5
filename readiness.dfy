/** The readiness recorder: resetting the conditions when a reconciliation
    starts, writing one condition through a release reference, and
    recording the outcome of an attempt in the status. */
module Readiness {
  import opened Conditions
  import opened HelmReleaseTypes
  import opened Decisions

  /** The single condition a reconciliation starts from. */
  function ProgressingCondition(now: Time): Condition
  {
    Condition(ReadyCondition, ConditionUnknown, now, ProgressingReason, "reconciliation in progress")
  }

  /** `HelmReleaseProgressing`: the release with its conditions replaced by
      the one progressing Ready condition; nothing else changes. */
  function HelmReleaseProgressing(hr: HelmRelease, now: Time): (r: HelmRelease)
    ensures |r.status.conditions| == 1
    ensures r.status.conditions[0].conditionType == ReadyCondition
    ensures r.status.conditions[0].status == ConditionUnknown
    ensures r.status.conditions[0].reason == ProgressingReason
    ensures r.status.conditions[0].message == "reconciliation in progress"
    ensures r.status.(conditions := hr.status.conditions) == hr.status
    ensures r.(status := hr.status) == hr
  {
    hr.(status := hr.status.(conditions := [ProgressingCondition(now)]))
  }

  /** A `*HelmRelease`: a reference through which a release is updated in place. */
  class HelmReleaseRef {
    var hr: HelmRelease

    constructor (hr: HelmRelease)
      ensures this.hr == hr
    {
      this.hr := hr;
    }
  }

  /** `SetHelmReleaseCondition`: drop every condition of type `condition`,
      then append the new one. */
  method SetHelmReleaseCondition(ref: HelmReleaseRef, condition: string, status: ConditionStatus,
                                 reason: string, message: string, now: Time)
    modifies ref
    ensures ref.hr.status.conditions
         == Upserted(old(ref.hr.status.conditions), condition, status, reason, message, now)
    ensures ref.hr.status.(conditions := old(ref.hr.status.conditions)) == old(ref.hr.status)
    ensures ref.hr.(status := old(ref.hr.status)) == old(ref.hr)
    ensures UniqueTypes(old(ref.hr.status.conditions)) ==> UniqueTypes(ref.hr.status.conditions)
  {
    var filtered := FilterOutCondition(ref.hr.status.conditions, condition);
    ref.hr := ref.hr.(status := ref.hr.status.(conditions := filtered));
    ref.hr := ref.hr.(status := ref.hr.status.(
      conditions := ref.hr.status.conditions + [Condition(condition, status, now, reason, message)]));
    if UniqueTypes(old(ref.hr.status.conditions)) {
      UpsertedKeepsUnique(old(ref.hr.status.conditions), condition, status, reason, message, now);
    }
  }

  /** `SetHelmReleaseReadiness`: write the Ready condition and record the
      attempt: the generation seen, the revision attempted, the release
      revision and the values checksum. */
  method SetHelmReleaseReadiness(ref: HelmReleaseRef, status: ConditionStatus, reason: string, message: string,
                                 revision: string, releaseRevision: int, valuesChecksum: string, now: Time)
    modifies ref
    ensures ref.hr.status == old(ref.hr.status).(
      conditions := Upserted(old(ref.hr.status.conditions), ReadyCondition, status, reason, message, now),
      observedGeneration := old(ref.hr.generation),
      lastAttemptedRevision := revision,
      lastReleaseRevision := releaseRevision,
      lastAttemptedValuesChecksum := valuesChecksum)
    ensures ref.hr.(status := old(ref.hr.status)) == old(ref.hr)
  {
    SetHelmReleaseCondition(ref, ReadyCondition, status, reason, message, now);
    ref.hr := ref.hr.(status := ref.hr.status.(observedGeneration := ref.hr.generation));
    ref.hr := ref.hr.(status := ref.hr.status.(lastAttemptedRevision := revision));
    ref.hr := ref.hr.(status := ref.hr.status.(lastReleaseRevision := releaseRevision));
    ref.hr := ref.hr.(status := ref.hr.status.(lastAttemptedValuesChecksum := valuesChecksum));
  }

  /** The bookkeeping a recorded attempt writes, whatever its outcome: the
      attempt's values are recorded, the chart reference is kept, and
      nothing outside the status changes. */
  predicate RecordsAttempt(before: HelmRelease, after: HelmRelease,
                           revision: string, releaseRevision: int, valuesChecksum: string)
  {
    && after.(status := before.status) == before
    && after.status.observedGeneration == before.generation
    && after.status.lastAttemptedRevision == revision
    && after.status.lastReleaseRevision == releaseRevision
    && after.status.lastAttemptedValuesChecksum == valuesChecksum
    && after.status.helmChart == before.status.helmChart
  }

  /** The lookups by type and status that a write of the Ready condition
      leaves: Ready reads `status` only, every other type reads as before. */
  lemma ReadyConditionLookups(cs: seq<Condition>, status: ConditionStatus, reason: string, message: string, now: Time)
    ensures forall s :: HasCondition(Upserted(cs, ReadyCondition, status, reason, message, now), ReadyCondition, s) <==> s == status
    ensures forall u, s :: u != ReadyCondition ==>
      (HasCondition(Upserted(cs, ReadyCondition, status, reason, message, now), u, s) <==> HasCondition(cs, u, s))
  {
    forall u, s {
      UpsertedHasCondition(cs, ReadyCondition, status, reason, message, now, u, s);
    }
  }

  /** `HelmReleaseReady`: record a successful attempt on a copy of the
      release. Only here is the applied revision advanced and the failure
      counter cleared, so an unchanged release needs no further upgrade. */
  method HelmReleaseReady(hr: HelmRelease, revision: string, releaseRevision: int, valuesChecksum: string,
                          reason: string, message: string, now: Time) returns (r: HelmRelease)
    ensures RecordsAttempt(hr, r, revision, releaseRevision, valuesChecksum)
    ensures r.status.conditions == Upserted(hr.status.conditions, ReadyCondition, ConditionTrue, reason, message, now)
    ensures forall s :: HasCondition(r.status.conditions, ReadyCondition, s) <==> s == ConditionTrue
    ensures forall u, s :: u != ReadyCondition ==>
      (HasCondition(r.status.conditions, u, s) <==> HasCondition(hr.status.conditions, u, s))
    ensures r.status.lastAppliedRevision == revision
    ensures r.status.failures == 0
    ensures ValidStatus(hr.status) ==> ValidStatus(r.status)
    ensures !ShouldUpgrade(r, revision, releaseRevision, valuesChecksum)
  {
    var ref := new HelmReleaseRef(hr);
    SetHelmReleaseReadiness(ref, ConditionTrue, reason, message, revision, releaseRevision, valuesChecksum, now);
    ref.hr := ref.hr.(status := ref.hr.status.(lastAppliedRevision := revision));
    ref.hr := ref.hr.(status := ref.hr.status.(failures := 0));
    r := ref.hr;
    ReadyConditionLookups(hr.status.conditions, ConditionTrue, reason, message, now);
    if ValidStatus(hr.status) {
      UpsertedKeepsUnique(hr.status.conditions, ReadyCondition, ConditionTrue, reason, message, now);
    }
  }

  /** `HelmReleaseNotReady`: record a failed attempt on a copy of the
      release. The applied revision stays, the failure counter grows by one,
      and an unchanged release is upgraded again only while the retry budget
      lasts. */
  method HelmReleaseNotReady(hr: HelmRelease, revision: string, releaseRevision: int, valuesChecksum: string,
                             reason: string, message: string, now: Time) returns (r: HelmRelease)
    ensures RecordsAttempt(hr, r, revision, releaseRevision, valuesChecksum)
    ensures r.status.conditions == Upserted(hr.status.conditions, ReadyCondition, ConditionFalse, reason, message, now)
    ensures forall s :: HasCondition(r.status.conditions, ReadyCondition, s) <==> s == ConditionFalse
    ensures forall u, s :: u != ReadyCondition ==>
      (HasCondition(r.status.conditions, u, s) <==> HasCondition(hr.status.conditions, u, s))
    ensures r.status.lastAppliedRevision == hr.status.lastAppliedRevision
    ensures r.status.failures == hr.status.failures + 1
    ensures ValidStatus(hr.status) ==> ValidStatus(r.status)
    ensures hr.status.failures >= 0 ==>
      (ShouldUpgrade(r, revision, releaseRevision, valuesChecksum) <==>
       (GetUpgrade(hr.spec).maxRetries < 0 || hr.status.failures + 1 < GetUpgrade(hr.spec).maxRetries))
  {
    var ref := new HelmReleaseRef(hr);
    SetHelmReleaseReadiness(ref, ConditionFalse, reason, message, revision, releaseRevision, valuesChecksum, now);
    ref.hr := ref.hr.(status := ref.hr.status.(failures := ref.hr.status.failures + 1));
    r := ref.hr;
    ReadyConditionLookups(hr.status.conditions, ConditionFalse, reason, message, now);
    if ValidStatus(hr.status) {
      UpsertedKeepsUnique(hr.status.conditions, ReadyCondition, ConditionFalse, reason, message, now);
    }
  }

  /** A reset forgets every recorded action outcome: no Installed or
      Upgraded condition remains, so no test, rollback or uninstall is
      decided until one is recorded again. */
  lemma ProgressingForgetsActionOutcomes(hr: HelmRelease, now: Time, t: string, s: ConditionStatus)
    requires t != ReadyCondition
    ensures !HasCondition(HelmReleaseProgressing(hr, now).status.conditions, t, s)
  {
  }

  /** A reset leaves a valid status. */
  lemma ProgressingKeepsValid(hr: HelmRelease, now: Time)
    requires ValidStatus(hr.status)
    ensures ValidStatus(HelmReleaseProgressing(hr, now).status)
  {
  }

  /** A reconciliation that resets the conditions and then succeeds ends
      with exactly one condition: Ready, True. The reset, not the success,
      removes the earlier conditions. */
  method ProgressingThenReady(hr: HelmRelease, start: Time, revision: string, releaseRevision: int,
                              valuesChecksum: string, reason: string, message: string, now: Time)
    returns (r: HelmRelease)
    ensures r.status.conditions == [Condition(ReadyCondition, ConditionTrue, now, reason, message)]
    ensures r.status.failures == 0 && r.status.lastAppliedRevision == revision
  {
    var progressing := HelmReleaseProgressing(hr, start);
    r := HelmReleaseReady(progressing, revision, releaseRevision, valuesChecksum, reason, message, now);
  }
}
