/**
 Properties of the graph that main.js builds from a mentions mapping: which nodes
 and edges it holds, how many edges there are, the out-degree of each node, and what
 the two running maxima are.
 */
module MentionFacts {
  import opened Values
  import opened Sigils
  import opened Graphs
  import opened MentionGraph

  /** Visiting one more source adds its row of edges. */
  lemma EdgeKeysStep(input: Mentions, S: set<string>, s: string)
    requires s in input
    ensures EdgeKeysOf(input, S + {s}) == EdgeKeysOf(input, S) + RowKeys(s, input[s].mentions.Keys)
  {
  }

  /** Visiting one more source adds it and its mention keys to the identifiers. */
  lemma IdsStep(input: Mentions, S: set<string>, s: string)
    requires s in input
    ensures IdsOf(input, S + {s}) == IdsOf(input, S) + {s} + input[s].mentions.Keys
  {
  }

  /** The edges met while visiting `S` all start at a source in `S`. */
  lemma EdgesStartAtVisited(input: Mentions, S: set<string>)
    ensures forall e :: e in EdgeKeysOf(input, S) ==> e.0 in S
  {
  }

  /** Merging the attributes of `id` into a graph whose nodes are `NodesFor(ids)`. */
  lemma MergeStep(ids: set<string>, id: string)
    ensures NodesFor(ids)[id := if id in NodesFor(ids) then Merge(NodesFor(ids)[id], NodeFor(id)) else NodeFor(id)]
         == NodesFor(ids + {id})
  {
  }

  /** Adding the edge `e` to a graph whose edges are `EdgesFor(input, E)`. */
  lemma AddEdgeStep(input: Mentions, E: set<EdgeKey>, e: EdgeKey)
    ensures EdgesFor(input, E)[e := EdgeFor(input, e)] == EdgesFor(input, E + {e})
  {
  }

  /** The running-maximum update of `MAX_WEIGHT` for one more edge. */
  lemma MaxWeightStep(input: Mentions, E: set<EdgeKey>, m: Extended, e: EdgeKey)
    requires IsMaxWeight(input, E, m)
    ensures IsMaxWeight(input, E + {e},
              if WeightAt(input, e).Some? && Greater(WeightAt(input, e).value, m)
              then Finite(WeightAt(input, e).value) else m)
  {
  }

  /** The running-maximum update of `MAX_DEGREE` for one more source. */
  lemma MaxDegreeStep(input: Mentions, S: set<string>, m: Extended, s: string)
    requires s in input
    requires IsMaxDegree(input, S, m)
    ensures IsMaxDegree(input, S + {s},
              if Greater(|input[s].mentions| as real, m)
              then Finite(|input[s].mentions| as real) else m)
  {
  }

  /** The built maps hold exactly the identifiers and pairs met. */
  lemma SpecKeys(input: Mentions)
    ensures SpecNodes(input).Keys == Identifiers(input)
    ensures SpecEdges(input).Keys == EdgeKeys(input)
  {
  }

  /**
   Nodes: every source and every mention key is a node, and nothing else is; each
   identifier is one node whose label is the identifier and whose colour is the
   palette colour of its type.
   */
  lemma NodesAreSourcesAndTargets(input: Mentions)
    ensures forall id :: id in SpecNodes(input) <==>
      id in input || exists s :: s in input && id in input[s].mentions
    ensures forall id :: id in SpecNodes(input) ==>
      && SpecNodes(input)[id].nodeType == TypeOf(id)
      && SpecNodes(input)[id].nodeLabel == id
      && SpecNodes(input)[id].color == ColorOf(TypeOf(id))
      && SpecNodes(input)[id].size.None?
  {
  }

  /**
   Edges: one edge source -> target for each key of `map[source].mentions`, and no
   other; its weight and initial size are `map[source][target]`, its colour `#ccc`.
   */
  lemma EdgesAreMentions(input: Mentions)
    ensures forall s, t :: (s, t) in SpecEdges(input) <==> s in input && t in input[s].mentions
    ensures forall s, t :: (s, t) in SpecEdges(input) ==>
      && SpecEdges(input)[(s, t)].weight == Weight(input[s], t)
      && SpecEdges(input)[(s, t)].size == Weight(input[s], t)
      && SpecEdges(input)[(s, t)].color == "#ccc"
  {
  }

  /** Pairing one source with distinct targets gives distinct edges. */
  lemma {:induction false} RowKeysCount(source: string, T: set<string>)
    ensures |RowKeys(source, T)| == |T|
    decreases T
  {
    if T != {} {
      var t := Pick(T);
      RowKeysCount(source, T - {t});
      assert RowKeys(source, T) == RowKeys(source, T - {t}) + {(source, t)};
    }
  }

  /** The edges of the sources `S` number the mention keys of `S`. */
  lemma {:induction false} EdgeCountOf(input: Mentions, S: set<string>)
    requires S <= input.Keys
    ensures |EdgeKeysOf(input, S)| == SumMentions(input, S)
    decreases S
  {
    if S == {} {
      assert EdgeKeysOf(input, S) == {};
    } else {
      var s := Pick(S);
      var rest := S - {s};
      EdgeCountOf(input, rest);
      EdgeKeysStep(input, rest, s);
      assert rest + {s} == S;
      assert EdgeKeysOf(input, rest) !! RowKeys(s, input[s].mentions.Keys);
      RowKeysCount(s, input[s].mentions.Keys);
    }
  }

  /** `addEdge` is called once per (source, mention key) pair and never twice for one pair. */
  lemma EdgeCount(input: Mentions)
    ensures |SpecEdges(input)| == TotalMentions(input)
  {
    SpecKeys(input);
    EdgeCountOf(input, input.Keys);
  }

  /** The identifiers of the sources `S` are at most the sources plus their mention keys. */
  lemma {:induction false} NodeCountOf(input: Mentions, S: set<string>)
    requires S <= input.Keys
    ensures |S| <= |IdsOf(input, S)| <= |S| + SumMentions(input, S)
    decreases S
  {
    if S == {} {
      assert IdsOf(input, S) == {};
    } else {
      var s := Pick(S);
      var rest := S - {s};
      NodeCountOf(input, rest);
      IdsStep(input, rest, s);
      assert rest + {s} == S;
      var before := IdsOf(input, rest);
      assert |before + {s}| <= |before| + 1;
      assert |before + {s} + input[s].mentions.Keys| <= |before + {s}| + |input[s].mentions.Keys|;
    }
    var extra := TargetsOf(input, S) - S;
    assert IdsOf(input, S) == S + extra && S !! extra;
  }

  /** Merging makes one node per identifier: as many nodes as sources, at most one more per mention. */
  lemma NodeCount(input: Mentions)
    ensures |input| <= |SpecNodes(input)| <= |input| + TotalMentions(input)
  {
    SpecKeys(input);
    NodeCountOf(input, input.Keys);
  }

  /** The out-degree of a node in the built graph is its mention-key count (none for a non-source). */
  lemma OutDegreeIsMentionCount(input: Mentions, id: string)
    ensures |OutEdges(EdgeKeys(input), id)| == if id in input then |input[id].mentions| else 0
  {
    if id in input {
      assert OutEdges(EdgeKeys(input), id) == RowKeys(id, input[id].mentions.Keys);
      RowKeysCount(id, input[id].mentions.Keys);
    } else {
      assert OutEdges(EdgeKeys(input), id) == {};
    }
  }

  /**
   `MAX_DEGREE` is the largest out-degree of a node of the built graph, reached by a
   source; it stays `-Infinity` exactly when the input is empty.
   */
  lemma MaxDegreeIsMaxOutDegree(input: Mentions, m: Extended)
    requires IsMaxDegree(input, input.Keys, m)
    ensures m.NegInfinity? <==> input == map[]
    ensures forall id :: id in SpecNodes(input) ==> Bounds(m, |OutEdges(EdgeKeys(input), id)| as real)
    ensures m.Finite? ==> exists s :: s in input && |OutEdges(EdgeKeys(input), s)| as real == m.value
  {
    if input != map[] {
      var s :| s in input;
      assert Bounds(m, |input[s].mentions| as real);
    }
    forall id | id in SpecNodes(input)
      ensures Bounds(m, |OutEdges(EdgeKeys(input), id)| as real)
    {
      OutDegreeIsMentionCount(input, id);
      if id !in input {
        NodesAreSourcesAndTargets(input);
        var s :| s in input && id in input[s].mentions;
        assert Bounds(m, |input[s].mentions| as real);
      }
    }
    if m.Finite? {
      var s :| s in input.Keys && s in input && |input[s].mentions| as real == m.value;
      OutDegreeIsMentionCount(input, s);
    }
  }

  /**
   `MAX_WEIGHT` bounds every defined edge weight of the built graph and is the weight
   of one of its edges; it stays `-Infinity` exactly when no edge has a defined weight.
   */
  lemma MaxWeightIsMaxEdgeWeight(input: Mentions, m: Extended)
    requires IsMaxWeight(input, EdgeKeys(input), m)
    ensures forall e :: e in SpecEdges(input) && SpecEdges(input)[e].weight.Some? ==>
      Bounds(m, SpecEdges(input)[e].weight.value)
    ensures m.Finite? ==> exists e :: e in SpecEdges(input) && SpecEdges(input)[e].weight == Some(m.value)
    ensures m.NegInfinity? <==> forall e :: e in SpecEdges(input) ==> SpecEdges(input)[e].weight.None?
  {
    SpecKeys(input);
    if m.Finite? {
      var e :| e in EdgeKeys(input) && WeightAt(input, e) == Some(m.value);
      assert SpecEdges(input)[e].weight == Some(m.value);
    }
  }

  /** The running maxima are determined by the input: whatever order the loops take. */
  lemma MaxWeightUnique(input: Mentions, E: set<EdgeKey>, m1: Extended, m2: Extended)
    requires IsMaxWeight(input, E, m1) && IsMaxWeight(input, E, m2)
    ensures m1 == m2
  {
  }

  lemma MaxDegreeUnique(input: Mentions, S: set<string>, m1: Extended, m2: Extended)
    requires IsMaxDegree(input, S, m1) && IsMaxDegree(input, S, m2)
    ensures m1 == m2
  {
  }

  /**
   The size pass writes `size` and nothing else: the node and edge sets and every other
   attribute stay; a node's size is `nodeScale` of its degree, an edge's size is
   `edgeScale` of its weight, because the edge's size started equal to its weight.
   */
  lemma SizePassChangesOnlySize(input: Mentions, nodeScale: Scale, edgeScale: Scale)
    ensures SizedNodes(SpecNodes(input), EdgeKeys(input), nodeScale).Keys == SpecNodes(input).Keys
    ensures SizedEdges(SpecEdges(input), edgeScale).Keys == SpecEdges(input).Keys
    ensures forall id :: id in SpecNodes(input) ==>
      && SizedNodes(SpecNodes(input), EdgeKeys(input), nodeScale)[id].(size := None) == SpecNodes(input)[id]
      && SizedNodes(SpecNodes(input), EdgeKeys(input), nodeScale)[id].size
           == nodeScale(Some(DegreeIn(EdgeKeys(input), id) as real))
    ensures forall e :: e in SpecEdges(input) ==>
      && SizedEdges(SpecEdges(input), edgeScale)[e].weight == SpecEdges(input)[e].weight
      && SizedEdges(SpecEdges(input), edgeScale)[e].color == SpecEdges(input)[e].color
      && SizedEdges(SpecEdges(input), edgeScale)[e].size == edgeScale(SpecEdges(input)[e].weight)
  {
  }

  /** Two sources, `@a` mentioning `@b` three times and `#c` mentioning `@b` once and `@a` twice. */
  function SmallExample(): Mentions
  {
    map[
      "@a" := Record(map["@b" := 3.0], map["@b" := 3.0]),
      "#c" := Record(map["@b" := 1.0, "@a" := 2.0], map["@b" := 1.0, "@a" := 2.0])]
  }

  /** The small example builds three nodes and three edges. */
  lemma SmallExampleGraph()
    ensures Identifiers(SmallExample()) == {"@a", "@b", "#c"}
    ensures EdgeKeys(SmallExample()) == {("@a", "@b"), ("#c", "@b"), ("#c", "@a")}
    ensures SpecEdges(SmallExample()).Keys == EdgeKeys(SmallExample())
    ensures SpecEdges(SmallExample())[("@a", "@b")].weight == Some(3.0)
    ensures SpecEdges(SmallExample())[("#c", "@b")].weight == Some(1.0)
    ensures SpecEdges(SmallExample())[("#c", "@a")].weight == Some(2.0)
  {
    var ex := SmallExample();
    assert ex.Keys == {"@a"} + {"#c"};
    assert ex["@a"].mentions.Keys == {"@b"};
    assert ex["#c"].mentions.Keys == {"@b", "@a"};
    EdgeKeysStep(ex, {}, "@a");
    EdgeKeysStep(ex, {"@a"}, "#c");
    IdsStep(ex, {}, "@a");
    IdsStep(ex, {"@a"}, "#c");
    assert EdgeKeysOf(ex, {}) == {} && IdsOf(ex, {}) == {};
    assert RowKeys("#c", {"@b", "@a"}) == {("#c", "@b"), ("#c", "@a")};
    SpecKeys(ex);
  }

  /** Its `MAX_WEIGHT` is 3, the weight of `@a -> @b`. */
  lemma SmallExampleMaxWeight()
    ensures IsMaxWeight(SmallExample(), EdgeKeys(SmallExample()), Finite(3.0))
  {
    var ex := SmallExample();
    SmallExampleGraph();
    assert WeightAt(ex, ("@a", "@b")) == Some(3.0);
    assert WeightAt(ex, ("#c", "@b")) == Some(1.0);
    assert WeightAt(ex, ("#c", "@a")) == Some(2.0);
  }

  /** Its `MAX_DEGREE` is 2, the mention count of `#c`. */
  lemma SmallExampleMaxDegree()
    ensures IsMaxDegree(SmallExample(), SmallExample().Keys, Finite(2.0))
  {
    var ex := SmallExample();
    assert ex.Keys == {"@a", "#c"};
    assert |ex["@a"].mentions| == 1 by {
      assert ex["@a"].mentions.Keys == {"@b"};
    }
    assert |ex["#c"].mentions| == 2 by {
      assert ex["#c"].mentions.Keys == {"@b", "@a"};
    }
  }
}
