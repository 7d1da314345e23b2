/**
 The two passes of main.js: the construction loop over the mentions mapping, and the
 size pass over the finished graph.
 */
module GraphBuilder {
  import opened Values
  import opened Sigils
  import opened Graphs
  import opened MentionGraph
  import opened MentionFacts

  /**
   The construction loop. Every source is merged as a node, then each of its mention
   keys is merged as a node and joined to it by an edge; `maxWeight` and `maxDegree`
   are main.js's `MAX_WEIGHT` and `MAX_DEGREE`.
   */
  method BuildGraph(input: Mentions) returns (g: Graph, maxWeight: Extended, maxDegree: Extended)
    ensures fresh(g) && g.Valid()
    ensures g.nodes == SpecNodes(input)
    ensures g.edges == SpecEdges(input)
    ensures IsMaxWeight(input, EdgeKeys(input), maxWeight)
    ensures IsMaxDegree(input, input.Keys, maxDegree)
  {
    g := new Graph();
    maxWeight, maxDegree := NegInfinity, NegInfinity;
    var sources := input.Keys;
    ghost var done: set<string> := {};
    while sources != {}
      invariant sources + done == input.Keys && sources !! done
      invariant g.Valid()
      invariant g.nodes == NodesFor(IdsOf(input, done))
      invariant g.edges == EdgesFor(input, EdgeKeysOf(input, done))
      invariant IsMaxWeight(input, EdgeKeysOf(input, done), maxWeight)
      invariant IsMaxDegree(input, done, maxDegree)
      decreases sources
    {
      var source :| source in sources;
      var degree;
      maxWeight, degree := VisitSource(g, input, done, source, maxWeight);
      MaxDegreeStep(input, done, maxDegree, source);
      if Greater(degree as real, maxDegree) {
        maxDegree := Finite(degree as real);
      }
      EdgeKeysStep(input, done, source);
      IdsStep(input, done, source);
      sources, done := sources - {source}, done + {source};
    }
  }

  /**
   One iteration of the outer loop: merges `source`, then merges each of its mention
   keys and adds the edge to it, counting them in `degree`. `done` is the set of
   sources already visited.
   */
  method VisitSource(g: Graph, input: Mentions, ghost done: set<string>, source: string, maxWeight0: Extended)
    returns (maxWeight: Extended, degree: nat)
    requires source in input && source !in done
    requires g.Valid()
    requires g.nodes == NodesFor(IdsOf(input, done))
    requires g.edges == EdgesFor(input, EdgeKeysOf(input, done))
    requires IsMaxWeight(input, EdgeKeysOf(input, done), maxWeight0)
    modifies g
    ensures g.Valid()
    ensures g.nodes == NodesFor(IdsOf(input, done) + {source} + input[source].mentions.Keys)
    ensures g.edges == EdgesFor(input, EdgeKeysOf(input, done) + RowKeys(source, input[source].mentions.Keys))
    ensures IsMaxWeight(input, EdgeKeysOf(input, done) + RowKeys(source, input[source].mentions.Keys), maxWeight)
    ensures degree == |input[source].mentions|
  {
    var sourceType := TypeOf(source);
    MergeStep(IdsOf(input, done), source);
    g.MergeNode(source, NodeAttrs(sourceType, source, ColorOf(sourceType), None));
    ghost var E := EdgeKeysOf(input, done);
    ghost var ids := IdsOf(input, done) + {source};
    EdgesStartAtVisited(input, done);
    InnerStart(g, input, E, ids, source, maxWeight0);
    maxWeight, degree := VisitMentions(g, input, E, ids, source, maxWeight0);
  }

  /**
   The graph and `MAX_WEIGHT` once the inner loop has visited the mention keys
   `visited` of `source`: `ids` and `E` are the nodes and edges that were there before.
   */
  ghost predicate InnerState(g: Graph, input: Mentions, E: set<EdgeKey>, ids: set<string>,
                             source: string, visited: set<string>, maxWeight: Extended)
    reads g
  {
    && g.Valid()
    && g.nodes == NodesFor(ids + visited)
    && g.edges == EdgesFor(input, E + RowKeys(source, visited))
    && IsMaxWeight(input, E + RowKeys(source, visited), maxWeight)
  }

  /** Before the inner loop nothing of `source`'s row has been visited. */
  lemma InnerStart(g: Graph, input: Mentions, E: set<EdgeKey>, ids: set<string>, source: string, m: Extended)
    requires g.Valid()
    requires g.nodes == NodesFor(ids)
    requires g.edges == EdgesFor(input, E)
    requires IsMaxWeight(input, E, m)
    ensures InnerState(g, input, E, ids, source, {}, m)
  {
    assert ids + {} == ids;
    assert E + RowKeys(source, {}) == E;
  }

  /** The inner loop over the mention keys of `source`. */
  method VisitMentions(g: Graph, input: Mentions, ghost E: set<EdgeKey>, ghost ids: set<string>,
                       source: string, maxWeight0: Extended)
    returns (maxWeight: Extended, degree: nat)
    requires source in input && source in ids
    requires forall e :: e in E ==> e.0 != source
    requires InnerState(g, input, E, ids, source, {}, maxWeight0)
    modifies g
    ensures InnerState(g, input, E, ids, source, input[source].mentions.Keys, maxWeight)
    ensures degree == |input[source].mentions|
  {
    maxWeight := maxWeight0;
    var mentions := input[source].mentions;
    degree := 0;
    var targets := mentions.Keys;
    assert mentions.Keys - targets == {};
    while targets != {}
      invariant targets <= mentions.Keys
      invariant degree + |targets| == |mentions|
      invariant InnerState(g, input, E, ids, source, mentions.Keys - targets, maxWeight)
      decreases targets
    {
      var target :| target in targets;
      maxWeight := VisitTarget(g, input, E, ids, mentions.Keys, targets, source, target, maxWeight);
      degree := degree + 1;
      targets := targets - {target};
    }
    assert mentions.Keys - targets == mentions.Keys;
  }

  /**
   One iteration of the inner loop: merges `target`, adds the edge from `source` with
   the weight read from the source record, and updates `MAX_WEIGHT`. `E` holds the
   edges of the sources visited before `source`, none of which starts at `source`.
   */
  method VisitTarget(g: Graph, input: Mentions, ghost E: set<EdgeKey>, ghost ids: set<string>,
                     ghost T: set<string>, ghost targets: set<string>, source: string, target: string,
                     maxWeight0: Extended)
    returns (maxWeight: Extended)
    requires source in input && target in targets && targets <= T
    requires forall e :: e in E ==> e.0 != source
    requires source in ids
    requires InnerState(g, input, E, ids, source, T - targets, maxWeight0)
    modifies g
    ensures InnerState(g, input, E, ids, source, T - (targets - {target}), maxWeight)
  {
    ghost var visited := T - targets;
    assert T - (targets - {target}) == visited + {target};
    var weight := Weight(input[source], target);
    var targetType := TypeOf(target);
    InnerStep(input, E, ids, source, visited, target, maxWeight0);
    g.MergeNode(target, NodeAttrs(targetType, target, ColorOf(targetType), None));
    var added := g.AddEdge(source, target, EdgeAttrs(weight, weight, EdgeColor));
    assert added;
    maxWeight := maxWeight0;
    if weight.Some? && Greater(weight.value, maxWeight) {
      maxWeight := Finite(weight.value);
    }
  }

  /** What one inner iteration does to the node map, the edge map and `MAX_WEIGHT`, on values. */
  lemma InnerStep(input: Mentions, E: set<EdgeKey>, ids: set<string>, source: string,
                  visited: set<string>, target: string, m: Extended)
    requires source in input && target !in visited
    requires forall e :: e in E ==> e.0 != source
    requires IsMaxWeight(input, E + RowKeys(source, visited), m)
    ensures var N := NodesFor(ids + visited);
      N[target := if target in N then Merge(N[target], NodeFor(target)) else NodeFor(target)]
        == NodesFor(ids + (visited + {target}))
    ensures (source, target) !in E + RowKeys(source, visited)
    ensures EdgesFor(input, E + RowKeys(source, visited))[(source, target) := EdgeFor(input, (source, target))]
         == EdgesFor(input, E + RowKeys(source, visited + {target}))
    ensures var w := Weight(input[source], target);
      IsMaxWeight(input, E + RowKeys(source, visited + {target}),
                  if w.Some? && Greater(w.value, m) then Finite(w.value) else m)
  {
    MergeStep(ids + visited, target);
    assert ids + visited + {target} == ids + (visited + {target});
    ghost var before := E + RowKeys(source, visited);
    AddEdgeStep(input, before, (source, target));
    MaxWeightStep(input, before, m, (source, target));
    assert before + {(source, target)} == E + RowKeys(source, visited + {target});
  }

  /**
   The size pass: every node's size becomes `nodeScale(degree(node))`, then every
   edge's size becomes `edgeScale` of its previous size. Nothing else changes.
   */
  method AssignSizes(g: Graph, nodeScale: Scale, edgeScale: Scale)
    requires g.Valid()
    modifies g
    ensures g.Valid()
    ensures g.nodes == SizedNodes(old(g.nodes), old(g.edges).Keys, nodeScale)
    ensures g.edges == SizedEdges(old(g.edges), edgeScale)
  {
    SizeNodes(g, nodeScale);
    SizeEdges(g, edgeScale);
  }

  /** `graph.nodes().forEach(node => graph.setNodeAttribute(node, 'size', nodeScale(graph.degree(node))))`. */
  method SizeNodes(g: Graph, nodeScale: Scale)
    requires g.Valid()
    modifies g
    ensures g.Valid()
    ensures g.nodes == SizedNodes(old(g.nodes), old(g.edges).Keys, nodeScale)
    ensures g.edges == old(g.edges)
  {
    ghost var N0, E0 := g.nodes, g.edges;
    ghost var sized := SizedNodes(N0, E0.Keys, nodeScale);
    var pending := g.nodes.Keys;
    while pending != {}
      invariant pending <= N0.Keys
      invariant g.Valid() && g.edges == E0
      invariant g.nodes.Keys == N0.Keys
      invariant forall k :: k in N0 ==> g.nodes[k] == if k in pending then N0[k] else sized[k]
      decreases pending
    {
      var node :| node in pending;
      var found := g.SetNodeSize(node, nodeScale(Some(g.Degree(node) as real)));
      assert found;
      pending := pending - {node};
    }
  }

  /** `graph.edges().forEach(edge => graph.updateEdgeAttribute(edge, 'size', edgeScale))`. */
  method SizeEdges(g: Graph, edgeScale: Scale)
    requires g.Valid()
    modifies g
    ensures g.Valid()
    ensures g.edges == SizedEdges(old(g.edges), edgeScale)
    ensures g.nodes == old(g.nodes)
  {
    ghost var N0, E0 := g.nodes, g.edges;
    ghost var sized := SizedEdges(E0, edgeScale);
    var pending := g.edges.Keys;
    while pending != {}
      invariant pending <= E0.Keys
      invariant g.Valid() && g.nodes == N0
      invariant g.edges.Keys == E0.Keys
      invariant forall e :: e in E0 ==> g.edges[e] == if e in pending then E0[e] else sized[e]
      decreases pending
    {
      var edge :| edge in pending;
      var found := g.UpdateEdgeSize(edge, edgeScale);
      assert found;
      pending := pending - {edge};
    }
  }

  /**
   The processing section of main.js: build the graph, make the node scale with
   domain [0, MAX_DEGREE] and range [2, 10] and the edge scale with domain
   [1, MAX_WEIGHT] and range [0.5, 5], then run the size pass. `scaleLinear` stands
   for `d3-scale`'s `scaleLinear().domain([d0, d1]).range([r0, r1])`.
   */
  method Process(input: Mentions, scaleLinear: (Extended, Extended, real, real) -> Scale)
    returns (g: Graph, maxWeight: Extended, maxDegree: Extended)
    ensures fresh(g) && g.Valid()
    ensures IsMaxWeight(input, EdgeKeys(input), maxWeight)
    ensures IsMaxDegree(input, input.Keys, maxDegree)
    ensures g.nodes == SizedNodes(SpecNodes(input), EdgeKeys(input), scaleLinear(Finite(0.0), maxDegree, 2.0, 10.0))
    ensures g.edges == SizedEdges(SpecEdges(input), scaleLinear(Finite(1.0), maxWeight, 0.5, 5.0))
  {
    g, maxWeight, maxDegree := BuildGraph(input);
    SpecKeys(input);
    var nodeSizeScale := scaleLinear(Finite(0.0), maxDegree, 2.0, 10.0);
    var edgeSizeScale := scaleLinear(Finite(1.0), maxWeight, 0.5, 5.0);
    AssignSizes(g, nodeSizeScale, edgeSizeScale);
  }
}
