/**
 * The graph-based coverage of metrics/metrics_reference.py: build_topic_graph,
 * semantic_node_mapping and graph_based_coverage. A topic graph has the distinct topics
 * as nodes, in the order they are first added, and an undirected edge between topics
 * that are adjacent within one section. An edge is the set of its endpoints, a
 * singleton for a self-loop.
 */
module TopicGraph {
  import opened Common
  import opened Parsing

  type Edge = set<string>

  datatype Graph = Graph(nodes: seq<string>, edges: set<Edge>)

  // ---------------------------------------------------------------------------
  // build_topic_graph
  // ---------------------------------------------------------------------------

  /** `G.add_node(topic)` for each topic in turn: a node not yet present goes last. */
  function AddNodes(nodes: seq<string>, topics: seq<string>): (r: seq<string>)
    ensures forall x :: x in r <==> x in nodes || x in topics
    ensures NoDuplicates(nodes) ==> NoDuplicates(r)
  {
    if |topics| == 0 then nodes
    else
      var r := AddNodes(nodes, topics[..|topics| - 1]);
      var t := topics[|topics| - 1];
      assert forall x :: x in topics <==> x in topics[..|topics| - 1] || x == t;
      if t in r then r else r + [t]
  }

  /** The edges `{topics[k], topics[k + 1]}` for k < i. */
  function PathEdges(topics: seq<string>, i: nat): (r: set<Edge>)
    requires i < |topics| || i == 0
    ensures forall e :: e in r <==> exists k :: 0 <= k < i && e == {topics[k], topics[k + 1]}
  {
    if i == 0 then {} else PathEdges(topics, i - 1) + {{topics[i - 1], topics[i]}}
  }

  /** The number of iterations of `range(len(topics) - 1)`. */
  function Steps(topics: seq<string>): nat
  {
    if |topics| == 0 then 0 else |topics| - 1
  }

  /** The graph built from the topic lists of the given sections, in order. */
  function GraphOf(sections: seq<seq<string>>): (g: Graph)
    ensures NoDuplicates(g.nodes)
  {
    if |sections| == 0 then Graph([], {})
    else
      var g := GraphOf(sections[..|sections| - 1]);
      var topics := sections[|sections| - 1];
      Graph(AddNodes(g.nodes, topics), g.edges + PathEdges(topics, Steps(topics)))
  }

  /** build_topic_graph: add the topics of each section as nodes, then its consecutive pairs as edges. */
  method BuildTopicGraph(o: Outline) returns (g: Graph)
    requires o.Valid()
    ensures g == GraphOf(o.Values())
  {
    var values := o.Values();
    var nodes: seq<string> := [];
    var edges: set<Edge> := {};
    for s := 0 to |values|
      invariant Graph(nodes, edges) == GraphOf(values[..s])
    {
      assert values[..s + 1][..s] == values[..s];
      var topics := values[s];
      ghost var nodes0 := nodes;
      ghost var edges0 := edges;
      for k := 0 to |topics|
        invariant nodes == AddNodes(nodes0, topics[..k])
      {
        assert topics[..k + 1][..k] == topics[..k];
        if topics[k] !in nodes {
          nodes := nodes + [topics[k]];
        }
      }
      assert topics[..|topics|] == topics;
      for i := 0 to Steps(topics)
        invariant edges == edges0 + PathEdges(topics, i)
      {
        edges := edges + {{topics[i], topics[i + 1]}};
      }
    }
    assert values[..|values|] == values;
    g := Graph(nodes, edges);
  }

  /** The nodes are exactly the distinct topics of all sections. */
  lemma {:induction false} GraphNodes(sections: seq<seq<string>>, x: string)
    ensures x in GraphOf(sections).nodes <==> x in Flatten(sections)
  {
    if |sections| > 0 {
      GraphNodes(sections[..|sections| - 1], x);
    }
  }

  /** A pair of topics adjacent in section s at position k. */
  ghost predicate AdjacentIn(sections: seq<seq<string>>, e: Edge, s: int, k: int)
  {
    0 <= s < |sections| && 0 <= k && k + 1 < |sections[s]| && e == {sections[s][k], sections[s][k + 1]}
  }

  /**
   * The edges are exactly the pairs of topics adjacent within one section; topics
   * at the end of one section and the start of the next are not joined.
   */
  lemma {:induction false} GraphEdges(sections: seq<seq<string>>, e: Edge)
    ensures e in GraphOf(sections).edges <==> exists s, k :: AdjacentIn(sections, e, s, k)
  {
    if |sections| > 0 {
      var n := |sections|;
      var init := sections[..n - 1];
      var topics := sections[n - 1];
      GraphEdges(init, e);
      if exists s, k :: AdjacentIn(init, e, s, k) {
        var s, k :| AdjacentIn(init, e, s, k);
        assert AdjacentIn(sections, e, s, k);
      }
      if e in PathEdges(topics, Steps(topics)) {
        var k :| 0 <= k < Steps(topics) && e == {topics[k], topics[k + 1]};
        assert AdjacentIn(sections, e, n - 1, k);
      }
      if exists s, k :: AdjacentIn(sections, e, s, k) {
        var s, k :| AdjacentIn(sections, e, s, k);
        if s < n - 1 {
          assert AdjacentIn(init, e, s, k);
        } else {
          assert e in PathEdges(topics, Steps(topics));
        }
      }
    }
  }

  /** Every edge joins one or two nodes of the graph. */
  lemma EdgeEndpoints(sections: seq<seq<string>>, e: Edge)
    requires e in GraphOf(sections).edges
    ensures 1 <= |e| <= 2
    ensures forall x :: x in e ==> x in GraphOf(sections).nodes
  {
    GraphEdges(sections, e);
    var s, k :| AdjacentIn(sections, e, s, k);
    var a, b := sections[s][k], sections[s][k + 1];
    if a == b {
      assert e == {a};
    } else {
      assert e == {a} + {b};
    }
    forall x | x in e
      ensures x in GraphOf(sections).nodes
    {
      FlattenMembership(sections, x);
      GraphNodes(sections, x);
    }
  }

  // ---------------------------------------------------------------------------
  // semantic_node_mapping
  // ---------------------------------------------------------------------------

  /**
   * The inner loop of semantic_node_mapping: starting from similarity 0.0 and no match,
   * a reference node replaces the current best only when its similarity is strictly
   * greater, so the first node to reach the maximum wins.
   */
  function BestMatch(c: string, refs: seq<string>, sim: (string, string) -> real): (best: (real, Option<string>))
    ensures 0.0 <= best.0
    ensures forall j :: 0 <= j < |refs| ==> sim(c, refs[j]) <= best.0
    ensures best.1.None? <==> forall j :: 0 <= j < |refs| ==> sim(c, refs[j]) <= 0.0
    ensures best.1.None? ==> best.0 == 0.0
    ensures best.1.Some? ==> exists k :: (0 <= k < |refs| && refs[k] == best.1.value
      && sim(c, refs[k]) == best.0 && forall j :: 0 <= j < k ==> sim(c, refs[j]) < best.0)
  {
    if |refs| == 0 then (0.0, None)
    else
      var n := |refs|;
      var b := BestMatch(c, refs[..n - 1], sim);
      var s := sim(c, refs[n - 1]);
      if s > b.0 then
        (s, Some(refs[n - 1]))
      else
        assert forall j :: 0 <= j < n - 1 ==> refs[j] == refs[..n - 1][j];
        b
  }

  /** The mapping built by the outer loop over the course nodes. */
  function MappingOf(nodes: seq<string>, refs: seq<string>, threshold: real, sim: (string, string) -> real)
    : (m: map<string, Option<string>>)
    ensures forall c :: c in m <==> c in nodes && BestMatch(c, refs, sim).0 > threshold
    ensures forall c :: c in m ==> m[c] == BestMatch(c, refs, sim).1
  {
    if |nodes| == 0 then map[]
    else
      var n := |nodes|;
      var m := MappingOf(nodes[..n - 1], refs, threshold, sim);
      var c := nodes[n - 1];
      assert forall x :: x in nodes <==> x in nodes[..n - 1] || x == c;
      var best := BestMatch(c, refs, sim);
      if best.0 > threshold then m[c := best.1] else m
  }

  /** semantic_node_mapping as a function: empty when either node list is empty. */
  function SemanticMapping(nodes: seq<string>, refs: seq<string>, threshold: real, sim: (string, string) -> real)
    : map<string, Option<string>>
  {
    if |nodes| == 0 || |refs| == 0 then map[] else MappingOf(nodes, refs, threshold, sim)
  }

  /** semantic_node_mapping: greedy argmax per course node, kept when above the threshold. */
  method SemanticNodeMapping(courseNodes: seq<string>, refNodes: seq<string>, threshold: real,
                             sim: (string, string) -> real)
    returns (mapping: map<string, Option<string>>)
    ensures mapping == SemanticMapping(courseNodes, refNodes, threshold, sim)
  {
    if |courseNodes| == 0 || |refNodes| == 0 {
      return map[];
    }
    mapping := map[];
    for i := 0 to |courseNodes|
      invariant mapping == MappingOf(courseNodes[..i], refNodes, threshold, sim)
    {
      assert courseNodes[..i + 1][..i] == courseNodes[..i];
      var c := courseNodes[i];
      var bestSim, bestRef := 0.0, None;
      for j := 0 to |refNodes|
        invariant (bestSim, bestRef) == BestMatch(c, refNodes[..j], sim)
      {
        assert refNodes[..j + 1][..j] == refNodes[..j];
        var s := sim(c, refNodes[j]);
        if s > bestSim {
          bestSim, bestRef := s, Some(refNodes[j]);
        }
      }
      assert refNodes[..|refNodes|] == refNodes;
      if bestSim > threshold {
        mapping := mapping[c := bestRef];
      }
    }
    assert courseNodes[..|courseNodes|] == courseNodes;
  }

  /**
   * With a non-negative threshold every mapped node has a target, and that target is
   * a reference node; several course nodes may share a target.
   */
  lemma MappingTargets(nodes: seq<string>, refs: seq<string>, threshold: real, sim: (string, string) -> real)
    requires 0.0 <= threshold
    ensures var m := SemanticMapping(nodes, refs, threshold, sim);
      forall c :: c in m ==> c in nodes && m[c].Some? && m[c].value in refs
  {
  }

  // ---------------------------------------------------------------------------
  // graph_based_coverage
  // ---------------------------------------------------------------------------

  /** The threshold graph_based_coverage passes to semantic_node_mapping. */
  const GraphThreshold := 0.75

  /** The node mapping with its null targets dropped. */
  function Targets(m: map<string, Option<string>>): (t: map<string, string>)
    ensures forall c :: c in t <==> c in m && m[c].Some?
  {
    map c | c in m && m[c].Some? :: m[c].value
  }

  /** An edge with both endpoints renamed. */
  function Rename(e: Edge, t: map<string, string>): Edge
    requires e <= t.Keys
  {
    set x | x in e :: t[x]
  }

  /** `{(node_map[a], node_map[b]) for a, b in edges if a in node_map and b in node_map}`. */
  function RenamedEdges(edges: set<Edge>, t: map<string, string>): set<Edge>
  {
    set e | e in edges && e <= t.Keys :: Rename(e, t)
  }

  /** `min(1.0, matched / total)`, or 0.0 when there is nothing to cover. */
  function ClampedRatio(matched: nat, total: nat): (r: real)
    ensures 0.0 <= r <= 1.0
    ensures total == 0 ==> r == 0.0
    ensures 0 < total <= matched ==> r == 1.0
  {
    if total == 0 then 0.0 else Min(1.0, matched as real / total as real)
  }

  /** The coverage of reference graph rg by course graph cg. */
  function Coverage(cg: Graph, rg: Graph, sim: (string, string) -> real): real
  {
    CoverageWith(cg, rg, SemanticMapping(cg.nodes, rg.nodes, GraphThreshold, sim))
  }

  /** The coverage once the node mapping m is known. */
  function CoverageWith(cg: Graph, rg: Graph, m: map<string, Option<string>>): real
  {
    var matchedNodes := |m|;
    var matchedEdges := |RenamedEdges(cg.edges, Targets(m)) * rg.edges|;
    ClampedRatio(matchedNodes + matchedEdges, |rg.nodes| + |rg.edges|)
  }

  /** graph_based_coverage(course_structure, reference_structure) as a function. */
  function GraphCoverage(course: Outline, reference: Outline, sim: (string, string) -> real): real
    requires course.Valid() && reference.Valid()
  {
    Coverage(GraphOf(course.Values()), GraphOf(reference.Values()), sim)
  }

  /** graph_based_coverage: builds both graphs, maps the nodes, then counts the matches. */
  method GraphBasedCoverage(course: Outline, reference: Outline, sim: (string, string) -> real)
    returns (score: real)
    requires course.Valid() && reference.Valid()
    ensures score == GraphCoverage(course, reference, sim)
    ensures 0.0 <= score <= 1.0
  {
    var courseGraph := BuildTopicGraph(course);
    var referenceGraph := BuildTopicGraph(reference);
    var nodeMap := SemanticNodeMapping(courseGraph.nodes, referenceGraph.nodes, GraphThreshold, sim);
    score := CoverageWith(courseGraph, referenceGraph, nodeMap);
  }

  /**
   * The matched counts never exceed what they are drawn from: matched nodes are course
   * nodes, matched edges are reference edges.
   */
  lemma CoverageCounts(cg: Graph, rg: Graph, sim: (string, string) -> real)
    requires NoDuplicates(cg.nodes)
    ensures |SemanticMapping(cg.nodes, rg.nodes, GraphThreshold, sim)| <= |cg.nodes|
    ensures |RenamedEdges(cg.edges, Targets(SemanticMapping(cg.nodes, rg.nodes, GraphThreshold, sim))) * rg.edges| <= |rg.edges|
  {
    var m := SemanticMapping(cg.nodes, rg.nodes, GraphThreshold, sim);
    assert m.Keys <= Elements(cg.nodes);
    SubsetCard(m.Keys, Elements(cg.nodes));
    ElementsBound(cg.nodes);
    var r := RenamedEdges(cg.edges, Targets(m));
    SubsetCard(r * rg.edges, rg.edges);
  }

  /** A reference outline without topics gives a graph without nodes or edges: coverage is 0. */
  lemma CoverageNoReferenceTopics(course: Outline, reference: Outline, sim: (string, string) -> real)
    requires course.Valid() && reference.Valid()
    requires Flatten(reference.Values()) == []
    ensures GraphCoverage(course, reference, sim) == 0.0
  {
    var rg := GraphOf(reference.Values());
    if |rg.nodes| > 0 {
      GraphNodes(reference.Values(), rg.nodes[0]);
    }
    if e :| e in rg.edges {
      EdgeEndpoints(reference.Values(), e);
    }
  }

  /**
   * A similarity that scores every topic against itself above the threshold and
   * strictly above any other topic.
   */
  ghost predicate Discriminating(sim: (string, string) -> real)
  {
    forall x, y :: GraphThreshold < sim(x, x) && (x != y ==> sim(x, y) < sim(x, x))
  }

  lemma {:induction false} BestMatchSelf(c: string, refs: seq<string>, sim: (string, string) -> real)
    requires Discriminating(sim)
    ensures c in refs ==> BestMatch(c, refs, sim) == (sim(c, c), Some(c))
    ensures c !in refs ==> BestMatch(c, refs, sim).0 < sim(c, c)
  {
    if |refs| > 0 {
      var init := refs[..|refs| - 1];
      BestMatchSelf(c, init, sim);
      assert forall x :: x in refs <==> x in init || x == refs[|refs| - 1];
    }
  }

  /** Under a discriminating similarity every node of a graph maps to itself. */
  lemma SelfMapping(nodes: seq<string>, sim: (string, string) -> real)
    requires Discriminating(sim) && |nodes| > 0
    ensures var m := SemanticMapping(nodes, nodes, GraphThreshold, sim);
      m.Keys == Elements(nodes) && forall c :: c in m ==> m[c] == Some(c)
  {
    var m := SemanticMapping(nodes, nodes, GraphThreshold, sim);
    forall c | c in nodes
      ensures c in m && m[c] == Some(c)
    {
      BestMatchSelf(c, nodes, sim);
    }
  }

  /** Renaming by the identity on all endpoints leaves every edge unchanged. */
  lemma RenameIdentity(edges: set<Edge>, t: map<string, string>)
    requires forall e :: e in edges ==> e <= t.Keys
    requires forall c :: c in t ==> t[c] == c
    ensures RenamedEdges(edges, t) == edges
  {
    forall e | e in edges
      ensures Rename(e, t) == e
    {
    }
  }

  /** A graph with at least one node whose mapping is the identity is covered fully. */
  lemma IdentityCoverage(g: Graph, m: map<string, Option<string>>)
    requires NoDuplicates(g.nodes) && |g.nodes| > 0
    requires forall e :: e in g.edges ==> forall x :: x in e ==> x in g.nodes
    requires m.Keys == Elements(g.nodes) && forall c :: c in m ==> m[c] == Some(c)
    ensures CoverageWith(g, g, m) == 1.0
  {
    var t := Targets(m);
    assert |m| == |g.nodes| by {
      ElementsOfDistinct(g.nodes);
      assert |m| == |m.Keys|;
    }
    assert RenamedEdges(g.edges, t) * g.edges == g.edges by {
      assert m.Keys == t.Keys;
      RenameIdentity(g.edges, t);
    }
    var total := |g.nodes| + |g.edges|;
    assert CoverageWith(g, g, m) == ClampedRatio(total, total);
  }

  /** Comparing an outline that has a topic with itself under a discriminating similarity covers it fully. */
  lemma SelfCoverage(o: Outline, sim: (string, string) -> real)
    requires o.Valid() && Discriminating(sim)
    requires |Flatten(o.Values())| > 0
    ensures GraphCoverage(o, o, sim) == 1.0
  {
    var g := GraphOf(o.Values());
    GraphNodes(o.Values(), Flatten(o.Values())[0]);
    forall e | e in g.edges
      ensures forall x :: x in e ==> x in g.nodes
    {
      EdgeEndpoints(o.Values(), e);
    }
    SelfMapping(g.nodes, sim);
    IdentityCoverage(g, SemanticMapping(g.nodes, g.nodes, GraphThreshold, sim));
  }
}
