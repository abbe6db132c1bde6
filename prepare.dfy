/**
 * `prepare_anomalies` of the demo page (test.py): every anomaly object gets
 * a user, an icon, a severity and a list of recommendations before the
 * template renders it.
 */
module Prepare {
  import opened Json

  /** The user shown when an anomaly names none. */
  const DefaultUser: Value := Str("System")
  /** The information sign, U+2139 followed by the emoji presentation selector U+FE0F. */
  const DefaultIcon: Value := Str("\U{2139}\U{FE0F}")
  const DefaultSeverity: Value := Str("medium")
  const NoRecommendations: Value := Arr([])

  /** `d.setdefault(key, v)`: an existing value, even `None`, is kept. */
  function SetDefault(d: Dict, key: string, v: Value): Dict
  {
    if key in d then d else d[key := v]
  }

  /** After `setdefault` the key is present with its old value, or with `v` if it had none; nothing else changes. */
  lemma SetDefaultSpec(d: Dict, key: string, v: Value)
    ensures var r := SetDefault(d, key, v);
      && r.Keys == d.Keys + {key}
      && r[key] == (if key in d then d[key] else v)
      && forall k :: k in d && k != key ==> r[k] == d[k]
  {
  }

  /** The user is missing or `None`. */
  predicate NoUser(d: Dict)
  {
    "user" !in d || d["user"] == Null
  }

  /** The anomaly with a missing or `None` user replaced by "System". */
  function WithUser(d: Dict): Dict
  {
    if NoUser(d) then d["user" := DefaultUser] else d
  }

  /** One anomaly as `prepare_anomalies` leaves it. */
  function Prepared(d: Dict): Dict
  {
    SetDefault(SetDefault(SetDefault(WithUser(d), "icon", DefaultIcon), "severity", DefaultSeverity),
               "recommendations", NoRecommendations)
  }

  /** The four keys are added where missing and no key is dropped. */
  lemma PreparedKeys(d: Dict)
    ensures Prepared(d).Keys == d.Keys + {"user", "icon", "severity", "recommendations"}
  {
  }

  /**
   * A missing or `None` user becomes "System"; icon, severity and
   * recommendations are filled in only where absent.
   */
  lemma PreparedValues(d: Dict)
    ensures var r := Prepared(d);
      && "user" in r && r["user"] == (if NoUser(d) then DefaultUser else d["user"])
      && r["user"] != Null
      && "icon" in r && r["icon"] == (if "icon" in d then d["icon"] else DefaultIcon)
      && "severity" in r && r["severity"] == (if "severity" in d then d["severity"] else DefaultSeverity)
      && "recommendations" in r
      && r["recommendations"] == (if "recommendations" in d then d["recommendations"] else NoRecommendations)
  {
  }

  /** Every other key keeps its value. */
  lemma PreparedKeepsOthers(d: Dict, k: string)
    requires k in d && k !in {"user", "icon", "severity", "recommendations"}
    ensures k in Prepared(d) && Prepared(d)[k] == d[k]
  {
  }

  /** Preparing an already prepared anomaly changes nothing. */
  lemma PreparedIdempotent(d: Dict)
    ensures Prepared(Prepared(d)) == Prepared(d)
  {
    var r := Prepared(d);
    PreparedValues(d);
    assert !NoUser(r);
  }

  /**
   * `prepare_anomalies(anomalies)`: updates every anomaly of the list in
   * place and returns the same list.
   */
  method PrepareAnomalies(anomalies: array<Dict>) returns (prepared: array<Dict>)
    modifies anomalies
    ensures prepared == anomalies
    ensures forall j :: 0 <= j < anomalies.Length ==> anomalies[j] == Prepared(old(anomalies[j]))
  {
    var i := 0;
    while i < anomalies.Length
      invariant 0 <= i <= anomalies.Length
      invariant forall j :: 0 <= j < i ==> anomalies[j] == Prepared(old(anomalies[j]))
      invariant forall j :: i <= j < anomalies.Length ==> anomalies[j] == old(anomalies[j])
    {
      var anomaly := anomalies[i];
      if NoUser(anomaly) {
        anomaly := anomaly["user" := DefaultUser];
      }
      assert anomaly == WithUser(anomalies[i]);
      anomaly := SetDefault(anomaly, "icon", DefaultIcon);
      anomaly := SetDefault(anomaly, "severity", DefaultSeverity);
      anomaly := SetDefault(anomaly, "recommendations", NoRecommendations);
      assert anomaly == Prepared(anomalies[i]);
      anomalies[i] := anomaly;
      i := i + 1;
    }
    return anomalies;
  }
}
