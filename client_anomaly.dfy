/**
 * The anomaly list of the dashboard script (static/js/main.js): the record
 * shape it reads, the severity filter behind the filter buttons
 * (`filterAnomalies`) and the list update of the live stream handler.
 */
module ClientAnomaly {
  import opened Json
  import opened Seqs

  /**
   * An anomaly as the script reads it. A property the server did not send
   * (`undefined` in JavaScript) is `Null` here.
   */
  datatype Anomaly = Anomaly(id: Value, message: Value, source: Value, severity: Value, isThreat: Value)

  /** The record passes the filter button `selector` ("all", "threat" or a severity). */
  predicate Selected(a: Anomaly, selector: string)
  {
    if selector == "all" then true
    else if selector == "threat" then Truthy(a.isThreat)
    else a.severity == Str(selector)
  }

  /** The list `filterAnomalies(selector)` hands to the renderer. */
  function FilterAnomalies(anomalies: seq<Anomaly>, selector: string): (shown: seq<Anomaly>)
    ensures selector == "all" ==> shown == anomalies
    ensures selector == "threat" ==>
              forall a :: a in shown <==> a in anomalies && Truthy(a.isThreat)
    ensures selector != "all" && selector != "threat" ==>
              forall a :: a in shown <==> a in anomalies && a.severity == Str(selector)
    ensures IsSubsequence(shown, anomalies)
    ensures forall a :: multiset(shown)[a] == if Selected(a, selector) then multiset(anomalies)[a] else 0
  {
    if selector == "all" then
      SubsequenceOfItself(anomalies);
      anomalies
    else
      Filter(anomalies, (a: Anomaly) => if selector == "threat" then Truthy(a.isThreat) else a.severity == Str(selector))
  }

  /**
   * `currentAnomalies` after a live batch: an empty batch leaves the list as
   * it is, otherwise the batch goes in front, with no de-duplication by id.
   */
  function MergeBatch(current: seq<Anomaly>, batch: seq<Anomaly>): (merged: seq<Anomaly>)
    ensures |batch| == 0 ==> merged == current
    ensures |merged| == |batch| + |current|
    ensures merged[..|batch|] == batch && merged[|batch|..] == current
    ensures multiset(merged) == multiset(batch) + multiset(current)
  {
    if |batch| > 0 then batch + current else current
  }
}
