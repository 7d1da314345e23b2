/**
 The directed graph that main.js fills in, described by the behaviour of the
 `mergeNode`, `addEdge`, `degree`, `setNodeAttribute` and `updateEdgeAttribute`
 calls it makes on graphology's `DirectedGraph`: a map of node attribute bags keyed
 by identifier and a map of edge attribute bags keyed by (source, target).
 */
module Graphs {
  import opened Values
  import opened Sigils

  /** A node's attribute bag; `size` is `None` until the size pass writes it. */
  datatype NodeAttrs = NodeAttrs(
    nodeType: Option<NodeType>,
    nodeLabel: string,
    color: Option<string>,
    size: Option<real>)

  /** An edge's attribute bag. */
  datatype EdgeAttrs = EdgeAttrs(weight: Option<real>, size: Option<real>, color: string)

  type EdgeKey = (string, string)

  /** An opaque number-to-number function, as a `d3-scale` linear scale is called. */
  type Scale = Option<real> -> Option<real>

  /**
   `mergeNode` on a node that exists copies the given attributes over the old ones
   (`Object.assign`). main.js never passes `size`, so an absent `size` keeps the old one.
   */
  function Merge(existing: NodeAttrs, attrs: NodeAttrs): NodeAttrs
  {
    NodeAttrs(attrs.nodeType, attrs.nodeLabel, attrs.color,
              if attrs.size.None? then existing.size else attrs.size)
  }

  /**
   Merging is idempotent, and merging a bag without `size` into a node that carries the
   same type, label and colour changes nothing: re-meeting an identifier leaves its node as it was.
   */
  lemma MergeIdempotent(existing: NodeAttrs, attrs: NodeAttrs)
    ensures Merge(Merge(existing, attrs), attrs) == Merge(existing, attrs)
    ensures attrs.size.None? && attrs == existing.(size := None) ==> Merge(existing, attrs) == existing
  {
  }

  /** Outgoing edges of `node` among the edge keys `E`. */
  function OutEdges(E: set<EdgeKey>, node: string): set<EdgeKey>
  {
    set e | e in E && e.0 == node
  }

  /** Incoming edges of `node` among the edge keys `E`. */
  function InEdges(E: set<EdgeKey>, node: string): set<EdgeKey>
  {
    set e | e in E && e.1 == node
  }

  /** graphology's `degree` on a directed graph: in-degree plus out-degree. */
  function DegreeIn(E: set<EdgeKey>, node: string): nat
  {
    |OutEdges(E, node)| + |InEdges(E, node)|
  }

  /**
   The degree is zero exactly for a node no edge touches, and a self-loop is counted
   twice, once as outgoing and once as incoming.
   */
  lemma DegreeInIncidence(E: set<EdgeKey>, node: string)
    ensures DegreeIn(E, node) == 0 <==> forall e :: e in E ==> e.0 != node && e.1 != node
    ensures (node, node) in E ==> DegreeIn(E, node) == DegreeIn(E - {(node, node)}, node) + 2
  {
    if (node, node) in E {
      assert OutEdges(E, node) == OutEdges(E - {(node, node)}, node) + {(node, node)};
      assert InEdges(E, node) == InEdges(E - {(node, node)}, node) + {(node, node)};
    }
    if e :| e in E && (e.0 == node || e.1 == node) {
      assert e in OutEdges(E, node) || e in InEdges(E, node);
    }
  }

  /** The degree counts every edge touching the node once, and a self-loop once more. */
  lemma DegreeCountsIncident(E: set<EdgeKey>, node: string)
    ensures DegreeIn(E, node) == |set e | e in E && (e.0 == node || e.1 == node)| + (if (node, node) in E then 1 else 0)
  {
    var incident := set e | e in E && (e.0 == node || e.1 == node);
    assert incident == OutEdges(E, node) + InEdges(E, node);
    if (node, node) in E {
      assert OutEdges(E, node) * InEdges(E, node) == {(node, node)};
    } else {
      assert OutEdges(E, node) * InEdges(E, node) == {};
    }
  }

  class Graph {
    var nodes: map<string, NodeAttrs>
    var edges: map<EdgeKey, EdgeAttrs>

    /** Every edge joins two nodes of the graph. */
    ghost predicate Valid()
      reads this
    {
      forall e :: e in edges ==> e.0 in nodes && e.1 in nodes
    }

    constructor ()
      ensures Valid()
      ensures nodes == map[] && edges == map[]
    {
      nodes := map[];
      edges := map[];
    }

    /** `mergeNode(key, attrs)`: adds the node, or merges `attrs` into the existing one. */
    method MergeNode(key: string, attrs: NodeAttrs)
      requires Valid()
      modifies this
      ensures Valid()
      ensures nodes == old(nodes)[key := if key in old(nodes) then Merge(old(nodes)[key], attrs) else attrs]
      ensures edges == old(edges)
    {
      if key in nodes {
        nodes := nodes[key := Merge(nodes[key], attrs)];
      } else {
        nodes := nodes[key := attrs];
      }
    }

    /**
     `addEdge(source, target, attrs)`. graphology throws when an endpoint is missing or
     when the graph already has an edge from `source` to `target`; here that is
     `added == false` with nothing changed.
     */
    method AddEdge(source: string, target: string, attrs: EdgeAttrs) returns (added: bool)
      requires Valid()
      modifies this
      ensures Valid()
      ensures added <==> source in old(nodes) && target in old(nodes) && (source, target) !in old(edges)
      ensures nodes == old(nodes)
      ensures edges == if added then old(edges)[(source, target) := attrs] else old(edges)
    {
      added := source in nodes && target in nodes && (source, target) !in edges;
      if added {
        edges := edges[(source, target) := attrs];
      }
    }

    /**
     `degree(node)`: the in+out degree over the current edge set. graphology throws for a
     node it does not hold; main.js calls it only on keys from `graph.nodes()`.
     */
    function Degree(node: string): (d: nat)
      requires node in nodes
      reads this
      ensures d == |set e | e in edges && (e.0 == node || e.1 == node)| + (if (node, node) in edges then 1 else 0)
    {
      DegreeCountsIncident(edges.Keys, node);
      DegreeIn(edges.Keys, node)
    }

    /** `setNodeAttribute(node, 'size', size)`; graphology throws on a missing node (`found == false`). */
    method SetNodeSize(node: string, size: Option<real>) returns (found: bool)
      requires Valid()
      modifies this
      ensures Valid()
      ensures found <==> node in old(nodes)
      ensures nodes == if found then old(nodes)[node := old(nodes)[node].(size := size)] else old(nodes)
      ensures edges == old(edges)
    {
      found := node in nodes;
      if found {
        nodes := nodes[node := nodes[node].(size := size)];
      }
    }

    /** `updateEdgeAttribute(edge, 'size', updater)`: the new size is `updater` of the old one. */
    method UpdateEdgeSize(edge: EdgeKey, updater: Scale) returns (found: bool)
      requires Valid()
      modifies this
      ensures Valid()
      ensures found <==> edge in old(edges)
      ensures edges == if found then old(edges)[edge := old(edges)[edge].(size := updater(old(edges)[edge].size))] else old(edges)
      ensures nodes == old(nodes)
    {
      found := edge in edges;
      if found {
        edges := edges[edge := edges[edge].(size := updater(edges[edge].size))];
      }
    }
  }
}
