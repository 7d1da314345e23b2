# Mention graph construction (scuttlebutt-sigma)

This project models the graph-construction pass of `main.js`. The pass turns a mentions
mapping into a directed graph of users, channels, files and messages. Every source
identifier of the mapping, and every key of each source's `mentions` sub-map, becomes a
node. The node's type is read from the identifier's first character (`@` user, `#`
channel, `&` file, `%` message). The type selects a palette colour. One directed edge
is added per (source, mention key) pair, weighted by the number stored on the source
record under the target's name. Two running maxima, `MAX_WEIGHT` and `MAX_DEGREE`, are
kept along the way. A final pass writes a `size` attribute onto every node and edge
through two linear scales whose domains use those maxima.

Layout of the Dafny project:

- `values.dfy` (`Values`): JavaScript `undefined` as `Option.None`; a running maximum
  that starts at `-Infinity` as `Extended`; the `>` comparison main.js makes against it.
- `sigils.dfy` (`Sigils`): the `TYPE_MAPPING` and `PALETTE` tables and the lookups
  `TYPE_MAPPING[id[0]]` and `PALETTE[type]`.
- `graph.dfy` (`Graphs`): a `Graph` class with `nodes` and `edges` map fields. It stands
  for graphology's `DirectedGraph` as main.js uses it: `mergeNode`, `addEdge`, `degree`,
  `setNodeAttribute` and `updateEdgeAttribute`.
- `mentions.dfy` (`MentionGraph`): the input records. It also defines, as ghost functions
  of the input, the node map, the edge map and the two maxima the construction must
  produce, and the sized maps the size pass must leave.
- `facts.dfy` (`MentionFacts`): lemmas about those functions. They cover the node set,
  the edge set, the edge count, node out-degrees, the maxima, the size pass and a small
  worked example.
- `builder.dfy` (`GraphBuilder`): the construction loop, split into the outer loop over
  sources (`BuildGraph`), the inner loop over one source's mention keys (`VisitSource`,
  `VisitMentions`) and its body (`VisitTarget`, with `InnerStep` stating its effect on values). It also holds the size pass
  (`AssignSizes`) and the whole processing section (`Process`). Each method is proved
  against the functions of `MentionGraph`.

Modelling choices:

- `for…in` visits integer-like keys first, in ascending order, and then the other keys
  in insertion order. The loops here pick any key not yet visited, and the results are
  proved to be the same whatever the order.
- A weight is read as `map[source][target]`, the record's own flat field, not
  `mentions[target]`. When the record has no such field, the weight is `undefined`
  (`None`) whatever count `mentions` holds for the target.
  `undefined > MAX_WEIGHT` is false in JavaScript, so such an edge never moves
  `MAX_WEIGHT`.
- An identifier whose first character is not a sigil, or the empty identifier, has
  `undefined` type and colour. No error is raised; the node is still added, with type
  and colour `undefined`.
- `addEdge` in graphology throws when an endpoint is missing or when the edge already
  exists. `Graph.AddEdge` reports that case as `added == false`. The builder proves
  `added` is always true: source keys and mention keys are unique, so no pair is met
  twice. The code can never reach a duplicate edge.
- `graph.degree(node)` on a directed graph is in-degree plus out-degree, with a
  self-loop counted twice, and the node size pass uses it. `MAX_DEGREE` is an
  out-degree: `MentionFacts.MaxDegreeIsMaxOutDegree` shows that it is the largest
  *out*-degree. So the node size uses in+out degree against an out-degree domain.
- `d3-scale`'s `scaleLinear().domain([d0, d1]).range([r0, r1])` is the opaque parameter
  `scaleLinear` of `Process`. It returns an opaque `Scale` from a number-or-undefined to
  a number-or-undefined. The constants main.js passes (`[0, MAX_DEGREE]`→`[2, 10]` and
  `[1, MAX_WEIGHT]`→`[0.5, 5]`) appear in `Process`'s contract.
- Numbers are exact `real`s, and the pass only compares weights, so no rounding is
  involved. A weight that does not fit in a double is left out (see below).

## Model

| member | source | states |
|---|---|---|
| Sigils.TypeOf | main.js:19-24 | a type is returned only for an identifier that starts with that type's sigil; an empty identifier or any other first character gives no type |
| Sigils.TypeOfSigil | main.js:37 | an identifier gets type `t` exactly when it is non-empty and starts with `t`'s sigil (both directions) |
| Sigils.TypeOfExhaustive | main.js:52 | the type lookup is defined exactly for the four sigils `@ # & %`; an identifier without a type has no palette colour |
| Sigils.ColorOfSigil | main.js:12-17 | an identifier gets type `t`'s palette colour exactly when it is non-empty and starts with `t`'s sigil (both directions, through the two tables) |
| Sigils.TablesInjective | main.js:12-24 | distinct types have distinct sigils and distinct colours |
| Graphs.DegreeInIncidence | main.js:85 | graphology's degree of a node is zero exactly when no edge touches it, and a self-loop adds exactly two to the degree the other edges give |
| Graphs.Graph.Degree | main.js:85 | `graph.degree(node)` of a node the graph holds (graphology throws otherwise; main.js passes only keys of `graph.nodes()`) is the number of edges touching it, with a self-loop counted twice |
| Graphs.DegreeCountsIncident | main.js:85 | in+out degree equals the number of incident edges plus one for a self-loop, because only the self-loop is both outgoing and incoming |
| MentionGraph.WeightIgnoresMentions | main.js:50 | `map[source][target]` reads the record's own flat field: replacing the record's `mentions` sub-map leaves the weight unchanged |
| MentionGraph.WeightAtIgnoresMentions | main.js:45-50 | the weight of any edge is unchanged when a source's `mentions` sub-map is replaced: `mentions` chooses which edges exist, never their weights |
| MentionGraph.NodeFor | main.js:37-58 | the attribute bag passed to `mergeNode`: the label is the identifier, no size, type `t` and colour `PALETTE[t]` exactly when the identifier starts with `t`'s sigil, and colour `undefined` exactly when the type is |
| Graphs.Graph.constructor | main.js:29 | a new directed graph has no nodes and no edges |
| Graphs.Graph.MergeNode | main.js:39-43 | `mergeNode` adds a missing node or merges the attributes into the existing one; edges are untouched |
| Graphs.MergeIdempotent | main.js:39-58 | merging the same attributes again changes nothing, so re-meeting an identifier keeps one unchanged node |
| Graphs.Graph.AddEdge | main.js:60-64 | `addEdge` succeeds exactly when both endpoints exist and the pair has no edge yet, and then adds only that edge |
| Graphs.Graph.SetNodeSize | main.js:85 | `setNodeAttribute(node, 'size', v)` replaces the size of an existing node and nothing else |
| Graphs.Graph.UpdateEdgeSize | main.js:86 | `updateEdgeAttribute(edge, 'size', f)` replaces an existing edge's size by `f` of its old size and nothing else |
| GraphBuilder.BuildGraph | main.js:29-74 | after the loops the node map is one node per source or mention key, the edge map is one edge per (source, mention key), `MAX_WEIGHT` is the largest defined weight (or `-Infinity`), and `MAX_DEGREE` is the largest mention-key count (or `-Infinity`) |
| GraphBuilder.VisitSource | main.js:36-70 | one outer iteration merges the source and its mention keys, adds the source's row of edges, and leaves `degree` equal to the source's mention-key count |
| GraphBuilder.VisitMentions | main.js:47-70 | the inner loop adds exactly the edges from the source to its mention keys, none of them already present, and counts them in `degree` |
| GraphBuilder.VisitTarget | main.js:50-67 | one inner iteration merges the target, adds the edge with weight and size `map[source][target]` and colour `#ccc`, and updates `MAX_WEIGHT` |
| MentionFacts.MaxWeightStep | main.js:66-67 | the `MAX_WEIGHT` update keeps it the largest defined weight among the edges seen |
| MentionFacts.MaxDegreeStep | main.js:72-73 | the `MAX_DEGREE` update keeps it the largest mention-key count among the sources seen |
| GraphBuilder.AssignSizes | main.js:85-86 | the size pass sets every node's size to `nodeScale(degree)` and every edge's size to `edgeScale(previous size)`; nothing else changes |
| GraphBuilder.SizeNodes | main.js:85 | every node's size becomes `nodeScale` of its degree in the unchanged edge set |
| GraphBuilder.SizeEdges | main.js:86 | every edge's size becomes `edgeScale` of its previous size; nodes are unchanged |
| GraphBuilder.Process | main.js:29-86 | the final graph is the constructed graph with sizes from the scales with domain [0, `MAX_DEGREE`] and range [2, 10] for nodes, and domain [1, `MAX_WEIGHT`] and range [0.5, 5] for edges |
| MentionFacts.NodesAreSourcesAndTargets | main.js:36-58 | an identifier is a node exactly when it is a source or a mention key; its type comes from its sigil, its label is the identifier and its colour is `PALETTE[type]` |
| MentionFacts.EdgesAreMentions | main.js:49-64 | an edge source→target exists exactly when target is a key of `map[source].mentions`; its weight and initial size are `map[source][target]` and its colour is `#ccc`, exactly the attribute bag main.js passes to `addEdge` |
| MentionFacts.EdgeCount | main.js:49-64 | the number of edges equals the total number of mention keys over all sources |
| MentionFacts.NodeCount | main.js:39-58 | there are at least as many nodes as sources and at most sources plus mention keys, because merging gives one node per identifier |
| MentionFacts.OutDegreeIsMentionCount | main.js:47-70 | a node's out-degree in the built graph is its mention-key count as a source, and zero for a non-source |
| MentionFacts.MaxDegreeIsMaxOutDegree | main.js:33-73 | `MAX_DEGREE` bounds every node's out-degree and equals some source's; it is `-Infinity` exactly when the input is empty |
| MentionFacts.MaxWeightIsMaxEdgeWeight | main.js:32-67 | `MAX_WEIGHT` bounds every defined edge weight and equals one of them; it is `-Infinity` exactly when no edge has a defined weight |
| MentionFacts.MaxWeightUnique | main.js:66-67 | the `MAX_WEIGHT` property has one solution, so the result does not depend on visiting order |
| MentionFacts.MaxDegreeUnique | main.js:72-73 | the `MAX_DEGREE` property has one solution, so the result does not depend on visiting order |
| MentionFacts.SizePassChangesOnlySize | main.js:85-86 | the size pass keeps the node and edge sets and every other attribute; an edge's new size is `edgeScale(weight)` because its size started as its weight |
| MentionFacts.SmallExampleGraph | main.js:36-64 | `{@a: {mentions: {@b: 3}, @b: 3}, #c: {mentions: {@b: 1, @a: 2}, @b: 1, @a: 2}}` yields nodes `@a`, `@b`, `#c` and edges `@a→@b`, `#c→@b`, `#c→@a` with weights 3, 1 and 2 |
| MentionFacts.SmallExampleMaxWeight | main.js:66-67 | for that input `MAX_WEIGHT` is 3 |
| MentionFacts.SmallExampleMaxDegree | main.js:72-73 | for that input `MAX_DEGREE` is 2 |

## Left out

- The numeric behaviour of `d3-scale`'s `scaleLinear` (main.js:77-83) is not modelled. It is a foreign, floating-point library. The scale is an opaque function, so the [2, 10] and [0.5, 5] ranges, monotonicity and the degenerate domain when a maximum is `-Infinity` are not stated. The node size also uses in+out degree against an out-degree domain, so the range bound need not hold in any case.
- Graphology internals are not modelled: only the map-like behaviour of the five calls main.js makes is. Node and edge keys, attribute bags and a self-loop counted once as outgoing and once as incoming in `degree` are assumed as graphology documents them.
- The random initial layout (main.js:89) is left out: it is randomness inside a foreign call.
- Sigma and its WebGL renderer (main.js:94-95) are left out: they are rendering.
- The ForceAtlas2 worker layout and its settings (main.js:100-109) are left out: background concurrency and floating point (`Math.log`).
- The start/stop button handler (main.js:111-122) is left out: DOM wiring around the foreign `layout.running` flag.
- The legend HTML (main.js:127-132) is left out: DOM output.
- The debug globals (main.js:137-138) and the loading of `data.json` (main.js:7) are left out: plumbing and I/O. The input is a parameter.
- Input records whose fields are not numbers are not modelled: a weight is a finite number or `undefined`. A target named after an `Object.prototype` member (`constructor`, `toString`, …) would read an inherited function instead of `undefined`; the model reads `undefined`. This includes a mention key spelled `mentions`, whose `map[source][target]` would be the `mentions` object itself. A record without a `mentions` field reads as one with an empty `mentions` map, as `for…in` over `undefined` visits nothing. A `null` record, for which `map[source].mentions` throws, is not modelled: every record is an object.
- A JSON number too large for a double (such as `1e400`) parses to `Infinity`; `Infinity > MAX_WEIGHT` would then make `MAX_WEIGHT` `+Infinity`, which `Extended` cannot represent. Weights are finite reals here. `NaN` cannot appear in JSON.
- Iteration order is not modelled: each loop may visit the keys in any order. The results are proved independent of it.
