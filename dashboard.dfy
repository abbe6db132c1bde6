/**
 * The page state of the dashboard script (static/js/main.js): the list of
 * anomalies currently shown and the network graph, which is absent until the
 * page has created it. Rendering is not modelled; the graph is the data the
 * script hands to the graph widget.
 */
module Dashboard {
  import opened Json
  import opened ClientAnomaly
  import opened NetworkGraph

  /** `updateStats(stats)` reads `stats.sla_compliance`, which throws on `null` and `undefined`. */
  predicate StatsReadable(stats: Value)
  {
    !stats.Null?
  }

  /**
   * `updatePatterns(patterns)` calls `patterns.forEach` and reads `pattern[0]`
   * of each element: it throws unless `patterns` is an array without `null`
   * elements.
   */
  predicate PatternsReadable(patterns: Value)
  {
    patterns.Arr? && forall k :: 0 <= k < |patterns.items| ==> !patterns.items[k].Null?
  }

  class Page {
    /** `currentAnomalies`. */
    var currentAnomalies: seq<Anomaly>
    /** `networkGraph`: `None` while it is still `null`, otherwise the data last handed to it. */
    var graph: Option<Graph>

    constructor()
      ensures currentAnomalies == [] && graph == None
    {
      currentAnomalies := [];
      graph := None;
    }

    /** `initNetworkGraph`: the widget starts with no nodes and no edges. */
    method InitNetworkGraph()
      modifies this
      ensures graph == Some(Graph([], []))
      ensures currentAnomalies == old(currentAnomalies)
    {
      graph := Some(Graph([], []));
    }

    /**
     * `updateNetworkGraph`: a no-op before the widget exists. Otherwise the
     * graph of `anomalies` replaces the old one, unless a message is not a
     * string: then `extractIPs` throws and the old graph stays.
     */
    method UpdateNetworkGraph(anomalies: seq<Anomaly>) returns (thrown: bool)
      modifies this
      ensures thrown <==> old(graph).Some? && !AllText(anomalies)
      ensures graph == if old(graph).Some? && AllText(anomalies) then Some(GraphOf(anomalies)) else old(graph)
      ensures currentAnomalies == old(currentAnomalies)
    {
      thrown := false;
      if graph.Some? {
        var g := BuildGraph(anomalies);
        if g.None? {
          return true;
        }
        graph := g;
      }
    }

    /**
     * The success callback of `fetchAnomalies`. The fetched list replaces the
     * shown one first. `updateStats` and `updatePatterns` throw on a stats or
     * patterns field they cannot read, and then the graph is not updated;
     * otherwise the graph follows the new list. The caller's `.catch` only
     * logs what was thrown.
     */
    method OnAnomaliesFetched(anomalies: seq<Anomaly>, stats: Value, patterns: Value) returns (thrown: bool)
      modifies this
      ensures currentAnomalies == anomalies
      ensures thrown <==> !StatsReadable(stats) || !PatternsReadable(patterns)
                          || (old(graph).Some? && !AllText(anomalies))
      ensures graph == if StatsReadable(stats) && PatternsReadable(patterns) && old(graph).Some? && AllText(anomalies)
                       then Some(GraphOf(anomalies)) else old(graph)
    {
      currentAnomalies := anomalies;
      if !StatsReadable(stats) || !PatternsReadable(patterns) {
        return true;
      }
      thrown := UpdateNetworkGraph(currentAnomalies);
    }

    /**
     * The `onmessage` handler of the live stream. A non-empty batch yields a
     * notification with its size, goes in front of the list and rebuilds the
     * graph from the whole list; an empty batch changes nothing. When a
     * message of the merged list is not a string, the graph pass throws after
     * the list was replaced, and the graph stays as it was.
     */
    method OnStreamMessage(batch: seq<Anomaly>) returns (notice: Option<nat>, thrown: bool)
      modifies this
      ensures |batch| == 0 ==> notice == None && !thrown && currentAnomalies == old(currentAnomalies) && graph == old(graph)
      ensures |batch| > 0 ==> notice == Some(|batch|)
      ensures currentAnomalies == MergeBatch(old(currentAnomalies), batch)
      ensures thrown <==> |batch| > 0 && old(graph).Some? && !AllText(currentAnomalies)
      ensures |batch| > 0 ==>
                graph == if old(graph).Some? && AllText(currentAnomalies) then Some(GraphOf(currentAnomalies)) else old(graph)
    {
      if |batch| > 0 {
        notice := Some(|batch|);
        currentAnomalies := batch + currentAnomalies;
        thrown := UpdateNetworkGraph(currentAnomalies);
      } else {
        notice, thrown := None, false;
      }
    }

    /** `filterAnomalies(selector)`: the list it renders, taken from the current list. */
    method FilterView(selector: string) returns (shown: seq<Anomaly>)
      ensures shown == FilterAnomalies(currentAnomalies, selector)
      ensures selector == "all" ==> shown == currentAnomalies
      ensures |shown| <= |currentAnomalies|
    {
      if selector == "all" {
        shown := currentAnomalies;
        return;
      }
      shown := FilterAnomalies(currentAnomalies, selector);
    }
  }

  /**
   * After a live batch every node carries the colour of the newest anomaly
   * that mentions its address, because the batch is put in front and the
   * graph colours a node by the first anomaly in the list that mentions it.
   */
  lemma {:induction false} NewestMentionColours(current: seq<Anomaly>, batch: seq<Anomaly>, ip: string, k: nat)
    requires k < |batch| && ip in Ips(batch[k])
    requires forall m :: 0 <= m < k ==> ip !in Ips(batch[m])
    ensures var g := GraphOf(MergeBatch(current, batch));
      exists n :: 0 <= n < |g.nodes| && g.nodes[n].id == ip && g.nodes[n].color == NodeColor(batch[k])
  {
    var all := MergeBatch(current, batch);
    assert all[k] == batch[k];
    assert Mentioned(all, ip);
    GraphNodes(all);
    var g := GraphOf(all);
    var n :| 0 <= n < |Ids(g.nodes)| && Ids(g.nodes)[n] == ip;
    assert all[..|batch|] == batch;
    assert FirstMention(all, ip) == k;
  }
}
