/** The condition store of a HelmRelease status: an ordered list of typed
    conditions. A write replaces every entry of its type by one new entry
    appended at the end. */
module Conditions {

  /** `corev1.ConditionStatus`. */
  datatype ConditionStatus = ConditionTrue | ConditionFalse | ConditionUnknown

  /** A timestamp handed in by the caller in place of `metav1.Now()`. */
  type Time = int

  datatype Condition = Condition(
    conditionType: string,
    status: ConditionStatus,
    lastTransitionTime: Time,
    reason: string,
    message: string)

  // Condition types and the reason read by this model.
  const ReadyCondition: string := "Ready"
  const InstalledCondition: string := "Installed"
  const UpgradedCondition: string := "Upgraded"
  const ProgressingReason: string := "Progressing"

  /** The conditions of `cs` whose type is not `t`, in their original order. */
  function WithoutType(cs: seq<Condition>, t: string): (r: seq<Condition>)
    ensures |r| <= |cs|
    ensures forall i :: 0 <= i < |r| ==> r[i].conditionType != t
  {
    if cs == [] then []
    else if cs[0].conditionType == t then WithoutType(cs[1..], t)
    else [cs[0]] + WithoutType(cs[1..], t)
  }

  /** Some condition of type `t` has status `s`. */
  predicate HasCondition(cs: seq<Condition>, t: string, s: ConditionStatus)
  {
    exists i :: 0 <= i < |cs| && cs[i].conditionType == t && cs[i].status == s
  }

  /** No two conditions share a type. */
  predicate UniqueTypes(cs: seq<Condition>)
  {
    forall i, j :: 0 <= i < j < |cs| ==> cs[i].conditionType != cs[j].conditionType
  }

  /** The store after writing condition `t`: the entries of other types,
      then the new entry. */
  function Upserted(cs: seq<Condition>, t: string, status: ConditionStatus,
                    reason: string, message: string, now: Time): seq<Condition>
  {
    WithoutType(cs, t) + [Condition(t, status, now, reason, message)]
  }

  /** `filterOutCondition`: copy every condition whose type is not
      `condition`, one by one. */
  method FilterOutCondition(conditions: seq<Condition>, condition: string)
    returns (newConditions: seq<Condition>)
    ensures newConditions == WithoutType(conditions, condition)
  {
    newConditions := [];
    for i := 0 to |conditions|
      invariant newConditions == WithoutType(conditions[..i], condition)
    {
      assert conditions[..i + 1] == conditions[..i] + [conditions[i]];
      WithoutTypeAppend(conditions[..i], [conditions[i]], condition);
      if conditions[i].conditionType == condition {
        continue;
      }
      newConditions := newConditions + [conditions[i]];
    }
    assert conditions[..|conditions|] == conditions;
  }

  /** Filtering distributes over concatenation: the kept conditions keep
      their relative order. */
  lemma {:induction false} WithoutTypeAppend(a: seq<Condition>, b: seq<Condition>, t: string)
    ensures WithoutType(a + b, t) == WithoutType(a, t) + WithoutType(b, t)
  {
    if a == [] {
      assert a + b == b;
    } else {
      assert (a + b)[1..] == a[1..] + b;
      WithoutTypeAppend(a[1..], b, t);
    }
  }

  /** A condition survives filtering exactly when it was there and has
      another type. */
  lemma {:induction false} WithoutTypeMembership(cs: seq<Condition>, t: string, c: Condition)
    ensures c in WithoutType(cs, t) <==> c in cs && c.conditionType != t
  {
    if cs != [] {
      WithoutTypeMembership(cs[1..], t, c);
      assert cs == [cs[0]] + cs[1..];
    }
  }

  /** Filtering a store that holds no condition of type `t` changes nothing. */
  lemma {:induction false} WithoutTypeOfAbsent(cs: seq<Condition>, t: string)
    requires forall i :: 0 <= i < |cs| ==> cs[i].conditionType != t
    ensures WithoutType(cs, t) == cs
  {
    if cs != [] {
      WithoutTypeOfAbsent(cs[1..], t);
      assert cs == [cs[0]] + cs[1..];
    }
  }

  /** Filtering keeps a store free of duplicate types. */
  lemma {:induction false} WithoutTypeKeepsUnique(cs: seq<Condition>, t: string)
    requires UniqueTypes(cs)
    ensures UniqueTypes(WithoutType(cs, t))
  {
    if cs != [] {
      var tail := cs[1..];
      assert UniqueTypes(tail) by {
        forall i, j | 0 <= i < j < |tail|
          ensures tail[i].conditionType != tail[j].conditionType
        {
          assert tail[i] == cs[i + 1] && tail[j] == cs[j + 1];
        }
      }
      WithoutTypeKeepsUnique(tail, t);
      if cs[0].conditionType != t {
        var rest := WithoutType(tail, t);
        forall k | 0 <= k < |rest|
          ensures rest[k].conditionType != cs[0].conditionType
        {
          WithoutTypeMembership(tail, t, rest[k]);
          var j :| 0 <= j < |tail| && tail[j] == rest[k];
          assert cs[j + 1] == rest[k];
        }
        var r := [cs[0]] + rest;
        forall i, j | 0 <= i < j < |r|
          ensures r[i].conditionType != r[j].conditionType
        {
          if i > 0 {
            assert r[i] == rest[i - 1] && r[j] == rest[j - 1];
          } else {
            assert r[j] == rest[j - 1];
          }
        }
      }
    }
  }

  /** After a write of type `t` exactly one condition has that type: the
      last one, carrying the written status, reason and message. */
  lemma UpsertedPlacesOneLast(cs: seq<Condition>, t: string, status: ConditionStatus,
                              reason: string, message: string, now: Time)
    ensures var r := Upserted(cs, t, status, reason, message, now);
      |r| >= 1 && r[|r| - 1] == Condition(t, status, now, reason, message) &&
      forall i :: 0 <= i < |r| && r[i].conditionType == t ==> i == |r| - 1
  {
  }

  /** A write of type `t` keeps every condition of another type, in its
      original relative order, and nothing else. */
  lemma UpsertedKeepsOthers(cs: seq<Condition>, t: string, status: ConditionStatus,
                            reason: string, message: string, now: Time)
    ensures WithoutType(Upserted(cs, t, status, reason, message, now), t) == WithoutType(cs, t)
  {
    var c := Condition(t, status, now, reason, message);
    WithoutTypeAppend(WithoutType(cs, t), [c], t);
    WithoutTypeOfAbsent(WithoutType(cs, t), t);
  }

  /** Writing the same type twice leaves what the second write alone would:
      the store never holds duplicates of a written type. */
  lemma UpsertedTwice(cs: seq<Condition>, t: string,
                      status1: ConditionStatus, reason1: string, message1: string, now1: Time,
                      status2: ConditionStatus, reason2: string, message2: string, now2: Time)
    ensures Upserted(Upserted(cs, t, status1, reason1, message1, now1), t, status2, reason2, message2, now2)
         == Upserted(cs, t, status2, reason2, message2, now2)
  {
    UpsertedKeepsOthers(cs, t, status1, reason1, message1, now1);
  }

  /** What a write does to the lookup by type and status: type `t` now
      reads the written status only, other types read as before. */
  lemma UpsertedHasCondition(cs: seq<Condition>, t: string, status: ConditionStatus,
                             reason: string, message: string, now: Time,
                             u: string, s: ConditionStatus)
    ensures HasCondition(Upserted(cs, t, status, reason, message, now), u, s)
        <==> if u == t then s == status else HasCondition(cs, u, s)
  {
    var w := WithoutType(cs, t);
    var r := Upserted(cs, t, status, reason, message, now);
    if u != t {
      if HasCondition(r, u, s) {
        var i :| 0 <= i < |r| && r[i].conditionType == u && r[i].status == s;
        assert r[i] == w[i];
        WithoutTypeMembership(cs, t, w[i]);
        var j :| 0 <= j < |cs| && cs[j] == w[i];
      }
      if HasCondition(cs, u, s) {
        var j :| 0 <= j < |cs| && cs[j].conditionType == u && cs[j].status == s;
        WithoutTypeMembership(cs, t, cs[j]);
        var i :| 0 <= i < |w| && w[i] == cs[j];
        assert r[i] == w[i];
      }
    } else if s == status {
      assert r[|r| - 1].conditionType == u && r[|r| - 1].status == s;
    }
  }

  /** A write keeps a store free of duplicate types. */
  lemma UpsertedKeepsUnique(cs: seq<Condition>, t: string, status: ConditionStatus,
                            reason: string, message: string, now: Time)
    requires UniqueTypes(cs)
    ensures UniqueTypes(Upserted(cs, t, status, reason, message, now))
  {
    WithoutTypeKeepsUnique(cs, t);
  }
}
