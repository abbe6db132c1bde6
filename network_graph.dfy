/**
 * The address relationship graph of static/js/main.js (`updateNetworkGraph`
 * and `getSeverityColor`): one node per distinct address found in the
 * anomalies' messages, coloured by the first anomaly that mentions it, and
 * one edge per pair of addresses of the same anomaly.
 */
module NetworkGraph {
  import opened Json
  import opened Seqs
  import opened IpExtract
  import opened ClientAnomaly

  const ThreatColor := "#ff6b6b"
  const BenignColor := "#74b9ff"
  const HighColor := "#e74c3c"
  const MediumColor := "#f39c12"
  const LowColor := "#2ecc71"
  const OtherColor := "#95a5a6"

  /** `getSeverityColor`: a total map, with every value but the three named severities grey. */
  function SeverityColor(severity: Value): (color: string)
    ensures color == HighColor <==> severity == Str("high")
    ensures color == MediumColor <==> severity == Str("medium")
    ensures color == LowColor <==> severity == Str("low")
    ensures color == OtherColor <==> severity !in {Str("high"), Str("medium"), Str("low")}
  {
    if severity == Str("high") then HighColor
    else if severity == Str("medium") then MediumColor
    else if severity == Str("low") then LowColor
    else OtherColor
  }

  /** Colour of a node introduced by anomaly `a`. */
  function NodeColor(a: Anomaly): string
  {
    if Truthy(a.isThreat) then ThreatColor else BenignColor
  }

  datatype Node = Node(id: string, caption: string, color: string)
  datatype Edge = Edge(from: string, to: string, caption: Value, color: string)
  datatype Graph = Graph(nodes: seq<Node>, edges: seq<Edge>)

  /**
   * `extractIPs(anomaly.message)` for a string message. Any other message
   * makes `text.match` throw, so `BuildGraph` uses these addresses only
   * when every message is a string.
   */
  function Ips(a: Anomaly): seq<string>
  {
    ExtractIps(MessageText(a.message))
  }

  /** The text of a string message; any other message stands for no text. */
  function MessageText(message: Value): string
  {
    if message.Str? then message.s else ""
  }

  /** Every message is a string, so `extractIPs` does not throw on any of them. */
  predicate AllText(anomalies: seq<Anomaly>)
  {
    forall k :: 0 <= k < |anomalies| ==> anomalies[k].message.Str?
  }

  function Ids(nodes: seq<Node>): (ids: seq<string>)
    ensures |ids| == |nodes|
    ensures forall k :: 0 <= k < |nodes| ==> ids[k] == nodes[k].id
  {
    seq(|nodes|, k requires 0 <= k < |nodes| => nodes[k].id)
  }

  /** Some anomaly of the list mentions `ip`. */
  predicate Mentioned(anomalies: seq<Anomaly>, ip: string)
  {
    exists k :: 0 <= k < |anomalies| && ip in Ips(anomalies[k])
  }

  /** Index of the first anomaly that mentions `ip`. */
  function FirstMention(anomalies: seq<Anomaly>, ip: string): (k: nat)
    requires Mentioned(anomalies, ip)
    ensures k < |anomalies| && ip in Ips(anomalies[k])
    ensures forall j :: 0 <= j < k ==> ip !in Ips(anomalies[j])
    decreases |anomalies|
  {
    var n := |anomalies| - 1;
    if Mentioned(anomalies[..n], ip) then
      var k := FirstMention(anomalies[..n], ip);
      SameMentions(anomalies, n, k + 1, ip);
      k
    else
      SameMentions(anomalies, n, n, ip);
      assert forall j :: 0 <= j < n ==> ip !in Ips(anomalies[j]);
      n
  }

  /** A prefix of the list mentions `ip` in the same places as the list. */
  lemma SameMentions(anomalies: seq<Anomaly>, n: nat, m: nat, ip: string)
    requires m <= n <= |anomalies|
    ensures forall j :: 0 <= j < m ==> (ip in Ips(anomalies[..n][j]) <==> ip in Ips(anomalies[j]))
  {
    forall j | 0 <= j < m ensures anomalies[..n][j] == anomalies[j] {
    }
  }

  // ---------------------------------------------------------------------
  // The graph as a function of the anomaly list, in the order the script
  // adds nodes and edges.

  /** The node loop for one anomaly: addresses not seen yet become nodes, in order. */
  function AddNodes(nodes: seq<Node>, ips: seq<string>, color: string): seq<Node>
    decreases |ips|
  {
    if ips == [] then nodes
    else
      var before := AddNodes(nodes, ips[..|ips| - 1], color);
      var ip := ips[|ips| - 1];
      if ip in Ids(before) then before else before + [Node(ip, ip, color)]
  }

  function MkEdge(from: string, to: string, a: Anomaly): Edge
  {
    Edge(from, to, a.source, SeverityColor(a.severity))
  }

  /** The edges of the inner loop for row `i`: from `ips[i]` to every later address. */
  function Row(ips: seq<string>, i: nat, a: Anomaly): seq<Edge>
    requires i < |ips|
  {
    seq(|ips| - i - 1, k requires 0 <= k < |ips| - i - 1 => MkEdge(ips[i], ips[i + 1 + k], a))
  }

  /** The edges of the first `n` rows. */
  function Rows(ips: seq<string>, n: nat, a: Anomaly): seq<Edge>
    requires n <= |ips|
    decreases n
  {
    if n == 0 then [] else Rows(ips, n - 1, a) + Row(ips, n - 1, a)
  }

  /** All edges one anomaly contributes. */
  function PairEdges(ips: seq<string>, a: Anomaly): seq<Edge>
  {
    Rows(ips, |ips|, a)
  }

  function GraphOf(anomalies: seq<Anomaly>): Graph
    decreases |anomalies|
  {
    if anomalies == [] then Graph([], [])
    else
      var g := GraphOf(anomalies[..|anomalies| - 1]);
      var a := anomalies[|anomalies| - 1];
      Graph(AddNodes(g.nodes, Ips(a), NodeColor(a)), g.edges + PairEdges(Ips(a), a))
  }

  // ---------------------------------------------------------------------
  // What the graph pass promises.

  lemma {:induction false} AddNodesFacts(nodes: seq<Node>, ips: seq<string>, color: string)
    ensures var r := AddNodes(nodes, ips, color);
      && |nodes| <= |r| && r[..|nodes|] == nodes
      && (forall k :: |nodes| <= k < |r| ==>
            r[k] == Node(r[k].id, r[k].id, color) && r[k].id in ips && r[k].id !in Ids(nodes))
      && (forall x :: x in Ids(r) <==> x in Ids(nodes) || x in ips)
      && (NoDuplicates(Ids(nodes)) ==> NoDuplicates(Ids(r)))
    decreases |ips|
  {
    if ips != [] {
      var init, ip := ips[..|ips| - 1], ips[|ips| - 1];
      assert ips == init + [ip];
      AddNodesFacts(nodes, init, color);
      var before := AddNodes(nodes, init, color);
      if ip !in Ids(before) {
        var r := before + [Node(ip, ip, color)];
        assert Ids(r) == Ids(before) + [ip];
        assert r[..|before|] == before;
        assert r[..|nodes|] == before[..|nodes|];
      }
    }
  }

  lemma MentionedSnoc(anomalies: seq<Anomaly>, ip: string)
    requires anomalies != []
    ensures Mentioned(anomalies, ip) <==>
              Mentioned(anomalies[..|anomalies| - 1], ip) || ip in Ips(anomalies[|anomalies| - 1])
  {
    var n := |anomalies| - 1;
    if Mentioned(anomalies, ip) && ip !in Ips(anomalies[n]) {
      MentionedBeforeLast(anomalies, ip);
    }
    if Mentioned(anomalies[..n], ip) {
      MentionedInPrefix(anomalies, n, ip);
    }
    if ip in Ips(anomalies[n]) {
      MentionedIn(anomalies, n, ip);
    }
  }

  lemma MentionedBeforeLast(anomalies: seq<Anomaly>, ip: string)
    requires anomalies != [] && Mentioned(anomalies, ip) && ip !in Ips(anomalies[|anomalies| - 1])
    ensures Mentioned(anomalies[..|anomalies| - 1], ip)
  {
    var n := |anomalies| - 1;
    var k :| 0 <= k < |anomalies| && ip in Ips(anomalies[k]);
    assert k != n;
    assert anomalies[..n][k] == anomalies[k];
    MentionedIn(anomalies[..n], k, ip);
  }

  lemma MentionedIn(anomalies: seq<Anomaly>, k: nat, ip: string)
    requires k < |anomalies| && ip in Ips(anomalies[k])
    ensures Mentioned(anomalies, ip)
  {
  }

  lemma MentionedInPrefix(anomalies: seq<Anomaly>, n: nat, ip: string)
    requires n <= |anomalies| && Mentioned(anomalies[..n], ip)
    ensures Mentioned(anomalies, ip)
  {
    var k :| 0 <= k < n && ip in Ips(anomalies[..n][k]);
    assert anomalies[..n][k] == anomalies[k];
    MentionedIn(anomalies, k, ip);
  }

  /**
   * The nodes are exactly the distinct addresses of all messages, each once,
   * and each node has the colour of the first anomaly that mentions it.
   */
  lemma {:induction false} GraphNodes(anomalies: seq<Anomaly>)
    ensures var nodes := GraphOf(anomalies).nodes;
      && NoDuplicates(Ids(nodes))
      && (forall ip :: ip in Ids(nodes) <==> Mentioned(anomalies, ip))
      && (forall k :: 0 <= k < |nodes| ==>
            && nodes[k].caption == nodes[k].id
            && Mentioned(anomalies, nodes[k].id)
            && nodes[k].color == NodeColor(anomalies[FirstMention(anomalies, nodes[k].id)]))
    decreases |anomalies|
  {
    if anomalies != [] {
      var init, a := anomalies[..|anomalies| - 1], anomalies[|anomalies| - 1];
      GraphNodes(init);
      var before := GraphOf(init).nodes;
      AddNodesFacts(before, Ips(a), NodeColor(a));
      var nodes := GraphOf(anomalies).nodes;
      forall ip ensures Mentioned(anomalies, ip) <==> Mentioned(init, ip) || ip in Ips(a) {
        MentionedSnoc(anomalies, ip);
      }
      forall k | 0 <= k < |nodes|
        ensures nodes[k].caption == nodes[k].id
        ensures Mentioned(anomalies, nodes[k].id)
        ensures nodes[k].color == NodeColor(anomalies[FirstMention(anomalies, nodes[k].id)])
      {
        var ip := nodes[k].id;
        if k < |before| {
          assert nodes[k] == nodes[..|before|][k] == before[k];
          assert ip in Ids(before);
          assert FirstMention(anomalies, ip) == FirstMention(init, ip);
          assert anomalies[FirstMention(init, ip)] == init[FirstMention(init, ip)];
        } else {
          assert ip !in Ids(before);
          assert FirstMention(anomalies, ip) == |anomalies| - 1;
        }
      }
    }
  }

  /** `h` extends `g`: the nodes and the edges of `g` are prefixes of those of `h`. */
  predicate GraphPrefix(g: Graph, h: Graph)
  {
    && |g.nodes| <= |h.nodes| && h.nodes[..|g.nodes|] == g.nodes
    && |g.edges| <= |h.edges| && h.edges[..|g.edges|] == g.edges
  }

  lemma GraphPrefixTrans(f: Graph, g: Graph, h: Graph)
    requires GraphPrefix(f, g) && GraphPrefix(g, h)
    ensures GraphPrefix(f, h)
  {
    assert h.nodes[..|f.nodes|] == h.nodes[..|g.nodes|][..|f.nodes|];
    assert h.edges[..|f.edges|] == h.edges[..|g.edges|][..|f.edges|];
  }

  /** The last anomaly only appends nodes and edges. */
  lemma GraphStep(all: seq<Anomaly>)
    requires all != []
    ensures GraphPrefix(GraphOf(all[..|all| - 1]), GraphOf(all))
  {
    var b := all[|all| - 1];
    AddNodesFacts(GraphOf(all[..|all| - 1]).nodes, Ips(b), NodeColor(b));
  }

  lemma {:induction false} GraphPrefixAt(all: seq<Anomaly>, n: nat)
    requires n <= |all|
    ensures GraphPrefix(GraphOf(all[..n]), GraphOf(all))
    decreases |all|
  {
    if n == |all| {
      assert all[..n] == all;
    } else {
      var init := all[..|all| - 1];
      GraphPrefixAt(init, n);
      assert init[..n] == all[..n];
      GraphStep(all);
      GraphPrefixTrans(GraphOf(all[..n]), GraphOf(init), GraphOf(all));
    }
  }

  /** Nodes and edges are only ever appended: later anomalies do not change earlier nodes or edges. */
  lemma GraphExtends(anomalies: seq<Anomaly>, more: seq<Anomaly>)
    ensures var g, h := GraphOf(anomalies), GraphOf(anomalies + more);
      && |g.nodes| <= |h.nodes| && h.nodes[..|g.nodes|] == g.nodes
      && |g.edges| <= |h.edges| && h.edges[..|g.edges|] == g.edges
  {
    var all := anomalies + more;
    GraphPrefixAt(all, |anomalies|);
    assert all[..|anomalies|] == anomalies;
  }

  /** Edge `e` is the one the nested loops create for addresses `i < j`. */
  predicate PairAt(ips: seq<string>, a: Anomaly, e: Edge, i: int, j: int)
  {
    0 <= i < j < |ips| && e == MkEdge(ips[i], ips[j], a)
  }

  lemma RowMembers(ips: seq<string>, i: nat, a: Anomaly, e: Edge)
    requires i < |ips|
    ensures e in Row(ips, i, a) <==> exists j :: PairAt(ips, a, e, i, j)
  {
    var row := Row(ips, i, a);
    if e in row {
      var k :| 0 <= k < |row| && row[k] == e;
      assert PairAt(ips, a, e, i, i + 1 + k);
    }
    if exists j :: PairAt(ips, a, e, i, j) {
      var j :| PairAt(ips, a, e, i, j);
      assert row[j - i - 1] == e;
    }
  }

  lemma {:induction false} RowsCount(ips: seq<string>, n: nat, a: Anomaly)
    requires n <= |ips|
    ensures |Rows(ips, n, a)| * 2 == n * (2 * |ips| - n - 1)
    decreases n
  {
    if n > 0 {
      RowsCount(ips, n - 1, a);
      var L := |ips|;
      assert |Rows(ips, n, a)| == |Rows(ips, n - 1, a)| + (L - n);
      assert (n - 1) * (2 * L - n) == n * (2 * L - n) - (2 * L - n);
    }
  }

  lemma {:induction false} RowsMembers(ips: seq<string>, n: nat, a: Anomaly, e: Edge)
    requires n <= |ips|
    ensures e in Rows(ips, n, a) <==> exists i, j :: i < n && PairAt(ips, a, e, i, j)
    decreases n
  {
    if n > 0 {
      var m := n - 1;
      RowsMembers(ips, m, a, e);
      RowMembers(ips, m, a, e);
      if exists j :: PairAt(ips, a, e, m, j) {
        var j :| PairAt(ips, a, e, m, j);
        assert m < n && PairAt(ips, a, e, m, j);
      }
      if exists i, j :: i < n && PairAt(ips, a, e, i, j) {
        var i, j :| i < n && PairAt(ips, a, e, i, j);
        if i < m {
          assert i < m && PairAt(ips, a, e, i, j);
        } else {
          assert PairAt(ips, a, e, m, j);
        }
      }
    }
  }

  /**
   * An anomaly with k addresses contributes k * (k - 1) / 2 edges: one from
   * `ips[i]` to `ips[j]` for every i < j, labelled with its source and
   * coloured by its severity; none is a loop, as the addresses are distinct.
   */
  lemma PairEdgesSpec(ips: seq<string>, a: Anomaly)
    ensures |PairEdges(ips, a)| * 2 == |ips| * (|ips| - 1)
    ensures forall e :: e in PairEdges(ips, a) <==> exists i, j :: PairAt(ips, a, e, i, j)
    ensures forall e :: e in PairEdges(ips, a) ==> e.caption == a.source && e.color == SeverityColor(a.severity)
    ensures NoDuplicates(ips) ==> forall e :: e in PairEdges(ips, a) ==> e.from != e.to
  {
    RowsCount(ips, |ips|, a);
    forall e ensures e in PairEdges(ips, a) <==> exists i, j :: PairAt(ips, a, e, i, j) {
      RowsMembers(ips, |ips|, a, e);
    }
  }

  // ---------------------------------------------------------------------
  // The graph pass as the script runs it.

  /**
   * The outer loop of `updateNetworkGraph`; `nodeIds` is the set that guards
   * the node data set. A message that is not a string throws, and the data
   * built so far is dropped.
   */
  method BuildGraph(anomalies: seq<Anomaly>) returns (g: Option<Graph>)
    ensures g.None? <==> exists k :: 0 <= k < |anomalies| && !anomalies[k].message.Str?
    ensures g.Some? ==> g.value == GraphOf(anomalies)
  {
    var nodes, edges := [], [];
    var nodeIds: set<string> := {};
    var r := 0;
    while r < |anomalies|
      invariant 0 <= r <= |anomalies|
      invariant AllText(anomalies[..r])
      invariant Graph(nodes, edges) == GraphOf(anomalies[..r])
      invariant forall x :: x in nodeIds <==> x in Ids(nodes)
    {
      var a := anomalies[r];
      if !a.message.Str? {
        return None;
      }
      var ips := ExtractIps(a.message.s);
      assert ips == Ips(a);
      nodes, nodeIds := AddAnomalyNodes(nodes, nodeIds, ips, a);
      edges := AddAnomalyEdges(edges, ips, a);
      GraphOfNext(anomalies, r);
      AllTextNext(anomalies, r);
      r := r + 1;
    }
    assert anomalies[..r] == anomalies;
    return Some(Graph(nodes, edges));
  }

  lemma GraphOfNext(anomalies: seq<Anomaly>, r: nat)
    requires r < |anomalies|
    ensures var g, a := GraphOf(anomalies[..r]), anomalies[r];
      GraphOf(anomalies[..r + 1]) == Graph(AddNodes(g.nodes, Ips(a), NodeColor(a)), g.edges + PairEdges(Ips(a), a))
  {
    assert anomalies[..r + 1][..r] == anomalies[..r];
  }

  lemma AllTextNext(anomalies: seq<Anomaly>, r: nat)
    requires r < |anomalies| && AllText(anomalies[..r]) && anomalies[r].message.Str?
    ensures AllText(anomalies[..r + 1])
  {
  }

  /** The `ips.forEach` loop: an address not in `nodeIds` becomes a node coloured by `a`. */
  method AddAnomalyNodes(nodes0: seq<Node>, nodeIds0: set<string>, ips: seq<string>, a: Anomaly)
    returns (nodes: seq<Node>, nodeIds: set<string>)
    requires forall x :: x in nodeIds0 <==> x in Ids(nodes0)
    ensures nodes == AddNodes(nodes0, ips, NodeColor(a))
    ensures forall x :: x in nodeIds <==> x in Ids(nodes)
  {
    nodes, nodeIds := nodes0, nodeIds0;
    var m := 0;
    while m < |ips|
      invariant 0 <= m <= |ips|
      invariant nodes == AddNodes(nodes0, ips[..m], NodeColor(a))
      invariant forall x :: x in nodeIds <==> x in Ids(nodes)
    {
      var ip := ips[m];
      assert ips[..m + 1][..m] == ips[..m];
      if ip !in nodeIds {
        nodes := nodes + [Node(ip, ip, if Truthy(a.isThreat) then ThreatColor else BenignColor)];
        nodeIds := nodeIds + {ip};
        assert Ids(nodes) == Ids(nodes[..|nodes| - 1]) + [ip];
      }
      m := m + 1;
    }
    assert ips[..m] == ips;
  }

  /** The nested `for` loops: one edge from `ips[i]` to `ips[j]` for every `i < j`. */
  method AddAnomalyEdges(edges0: seq<Edge>, ips: seq<string>, a: Anomaly) returns (edges: seq<Edge>)
    ensures edges == edges0 + PairEdges(ips, a)
  {
    edges := edges0;
    var i := 0;
    while i < |ips|
      invariant 0 <= i <= |ips|
      invariant edges == edges0 + Rows(ips, i, a)
    {
      var j := i + 1;
      while j < |ips|
        invariant i + 1 <= j <= |ips|
        invariant edges == edges0 + Rows(ips, i, a) + Row(ips, i, a)[..j - i - 1]
      {
        edges := edges + [Edge(ips[i], ips[j], a.source, SeverityColor(a.severity))];
        assert Row(ips, i, a)[..j - i] == Row(ips, i, a)[..j - i - 1] + [MkEdge(ips[i], ips[j], a)];
        j := j + 1;
      }
      assert Row(ips, i, a)[..j - i - 1] == Row(ips, i, a);
      i := i + 1;
    }
  }
}
