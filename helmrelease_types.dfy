/** The HelmRelease object as far as the lifecycle logic reads it: the
    parts of its spec that steer the decisions, its status, and the
    defaulting getters over them. */
module HelmReleaseTypes {
  import opened Conditions
  import opened Strings

  datatype Option<T> = None | Some(value: T)

  /** Configuration of upgrade actions; a negative `maxRetries` means unlimited. */
  datatype Upgrade = Upgrade(maxRetries: int)

  /** Configuration of test actions. */
  datatype Test = Test(enable: bool)

  /** Configuration of rollback actions. */
  datatype Rollback = Rollback(enable: bool)

  /** The desired state; an absent action configuration is `None`. */
  datatype HelmReleaseSpec = HelmReleaseSpec(
    releaseName: string,
    targetNamespace: string,
    maxHistory: Option<int>,
    upgrade: Option<Upgrade>,
    test: Option<Test>,
    rollback: Option<Rollback>)

  /** The observed state, as recorded by the readiness helpers. */
  datatype HelmReleaseStatus = HelmReleaseStatus(
    observedGeneration: int,
    conditions: seq<Condition>,
    lastAppliedRevision: string,
    lastAttemptedRevision: string,
    lastAttemptedValuesChecksum: string,
    lastReleaseRevision: int,
    helmChart: string,
    failures: int)

  /** A release object: the name, namespace and generation come from its
      object metadata. */
  datatype HelmRelease = HelmRelease(
    name: string,
    namespace: string,
    generation: int,
    spec: HelmReleaseSpec,
    status: HelmReleaseStatus)

  /** What every status written by the helpers satisfies: the failure
      counter is never negative and no two conditions share a type. */
  predicate ValidStatus(status: HelmReleaseStatus)
  {
    status.failures >= 0 && UniqueTypes(status.conditions)
  }

  /** The separator of a namespaced name (`types.Separator`). */
  const Separator: char := '/'

  /** The default number of revisions Helm keeps. */
  const DefaultMaxHistory: int := 10

  /** `GetUpgrade`: the upgrade configuration, or its zero value. */
  function GetUpgrade(spec: HelmReleaseSpec): (u: Upgrade)
    ensures spec.upgrade.Some? ==> u == spec.upgrade.value
    ensures spec.upgrade.None? ==> u.maxRetries == 0
  {
    match spec.upgrade
    case None => Upgrade(0)
    case Some(u) => u
  }

  /** `GetRollback`: the rollback configuration, or its zero value. */
  function GetRollback(spec: HelmReleaseSpec): (r: Rollback)
    ensures spec.rollback.Some? ==> r == spec.rollback.value
    ensures spec.rollback.None? ==> !r.enable
  {
    match spec.rollback
    case None => Rollback(false)
    case Some(r) => r
  }

  /** `GetHelmChart`: the namespace and name in `status.helmChart`, which
      must be empty or contain the separator. */
  function GetHelmChart(status: HelmReleaseStatus): (r: (string, string))
    requires status.helmChart == "" || Separator in status.helmChart
    ensures status.helmChart == "" ==> r == ("", "")
  {
    if status.helmChart == "" then ("", "")
    else
      var split := Split(status.helmChart, Separator);
      (split[0], split[1])
  }

  /** `GetReleaseName`: the configured release name, else
      `<targetNamespace>-<name>`, else the object's name. */
  function GetReleaseName(hr: HelmRelease): (r: string)
    ensures hr.spec.releaseName != "" ==> r == hr.spec.releaseName
    ensures hr.spec.releaseName == "" && hr.spec.targetNamespace != "" ==>
      r == hr.spec.targetNamespace + "-" + hr.name
    ensures hr.spec.releaseName == "" && hr.spec.targetNamespace == "" ==> r == hr.name
  {
    if hr.spec.releaseName != "" then hr.spec.releaseName
    else if hr.spec.targetNamespace != "" then Join([hr.spec.targetNamespace, hr.name], '-')
    else hr.name
  }

  /** `GetReleaseNamespace`: the target namespace, else the object's namespace. */
  function GetReleaseNamespace(hr: HelmRelease): (r: string)
    ensures hr.spec.targetNamespace != "" ==> r == hr.spec.targetNamespace
    ensures hr.spec.targetNamespace == "" ==> r == hr.namespace
  {
    if hr.spec.targetNamespace != "" then hr.spec.targetNamespace else hr.namespace
  }

  /** `GetHelmChartName`: `<namespace>-<name>`. */
  function GetHelmChartName(hr: HelmRelease): (r: string)
    ensures r == hr.namespace + "-" + hr.name
  {
    Join([hr.namespace, hr.name], '-')
  }

  /** `GetMaxHistory`: the configured history limit, else 10. */
  function GetMaxHistory(hr: HelmRelease): (r: int)
    ensures hr.spec.maxHistory.Some? ==> r == hr.spec.maxHistory.value
    ensures hr.spec.maxHistory.None? ==> r == DefaultMaxHistory
  {
    match hr.spec.maxHistory
    case None => DefaultMaxHistory
    case Some(n) => n
  }

  /** The pair read from a non-empty chart reference is the text before its
      first separator and the text between its first and second separator. */
  lemma GetHelmChartFirstTwoParts(status: HelmReleaseStatus)
    requires status.helmChart != "" && Separator in status.helmChart
    ensures var (ns, name) := GetHelmChart(status);
      var hc, n := status.helmChart, |ns| + 1 + |name|;
      Separator !in ns && Separator !in name &&
      n <= |hc| && hc[..n] == ns + [Separator] + name &&
      (n < |hc| ==> hc[n] == Separator)
  {
    var hc := status.helmChart;
    var parts := Split(hc, Separator);
    JoinSplit(hc, Separator);
    var tail := parts[1..];
    assert Join(parts, Separator) == parts[0] + [Separator] + Join(tail, Separator);
    if |tail| >= 2 {
      assert Join(tail, Separator) == tail[0] + [Separator] + Join(tail[1..], Separator);
      assert hc == (parts[0] + [Separator] + parts[1]) + ([Separator] + Join(tail[1..], Separator));
    } else {
      assert hc == parts[0] + [Separator] + parts[1];
    }
  }

  /** Reading a chart reference written as `<namespace>/<name>` gives back
      the namespace and the name. */
  lemma GetHelmChartRoundTrip(status: HelmReleaseStatus, ns: string, name: string)
    requires Separator !in ns && Separator !in name
    requires status.helmChart == ns + [Separator] + name
    ensures GetHelmChart(status) == (ns, name)
  {
    SplitJoin([ns, name], Separator);
    assert Join([name], Separator) == name;
    assert Join([ns, name], Separator) == status.helmChart;
  }

  /** Without an explicit release name and with a target namespace, the
      release name is the release namespace joined to the object's name. */
  lemma ReleaseNameFromReleaseNamespace(hr: HelmRelease)
    requires hr.spec.releaseName == "" && hr.spec.targetNamespace != ""
    ensures GetReleaseName(hr) == GetReleaseNamespace(hr) + "-" + hr.name
  {
  }
}
