/**
 What the construction pass of main.js builds from a mentions mapping, stated as
 functions of the input: the node map, the edge map, the two running maxima, and
 the sized graph the size pass leaves behind.
 */
module MentionGraph {
  import opened Values
  import opened Sigils
  import opened Graphs

  /**
   One record of the input: its `mentions` sub-map (only its keys are read) and its
   flat fields, where the weight of each mention is duplicated under the target's name.
   */
  datatype Record = Record(mentions: map<string, real>, fields: map<string, real>)

  /** `DATA.value`: source identifier to record. */
  type Mentions = map<string, Record>

  const EdgeColor: string := "#ccc"

  /** `map[source][target]`: the flat field of the record, `undefined` when absent. */
  function Weight(r: Record, target: string): Option<real>
  {
    if target in r.fields then Some(r.fields[target]) else None
  }

  /** The weight is read from the record itself: the counts in `mentions` play no part. */
  lemma WeightIgnoresMentions(r: Record, m: map<string, real>, target: string)
    ensures Weight(r.(mentions := m), target) == Weight(r, target)
  {
  }

  /** The attributes passed to `mergeNode` for an identifier. */
  function NodeFor(id: string): (n: NodeAttrs)
    ensures n.nodeLabel == id && n.size.None?
    ensures forall t :: n.nodeType == Some(t) <==> |id| > 0 && id[0] == Sigil(t)
    ensures forall t :: n.color == Some(Palette(t)) <==> |id| > 0 && id[0] == Sigil(t)
    ensures n.color.None? <==> n.nodeType.None?
  {
    var t := TypeOf(id);
    NodeAttrs(t, id, ColorOf(t), None)
  }

  /** The weight that main.js reads for the edge `e`. */
  function WeightAt(input: Mentions, e: EdgeKey): Option<real>
  {
    if e.0 in input then Weight(input[e.0], e.1) else None
  }

  /**
   Replacing the `mentions` sub-map of a source record, keys or counts, changes the weight
   of no edge: every weight comes from the records' flat fields.
   */
  lemma WeightAtIgnoresMentions(input: Mentions, s: string, m: map<string, real>, e: EdgeKey)
    requires s in input
    ensures WeightAt(input[s := input[s].(mentions := m)], e) == WeightAt(input, e)
  {
  }

  /** The attributes passed to `addEdge` for the edge `e`: size starts equal to weight. */
  function EdgeFor(input: Mentions, e: EdgeKey): EdgeAttrs
  {
    var w := WeightAt(input, e);
    EdgeAttrs(w, w, EdgeColor)
  }

  /** Every key of the `mentions` of a source in `S`. */
  ghost function TargetsOf(input: Mentions, S: set<string>): set<string>
  {
    set s, t | s in S && s in input && t in input[s].mentions :: t
  }

  /** The identifiers met while visiting the sources `S`. */
  ghost function IdsOf(input: Mentions, S: set<string>): set<string>
  {
    S + TargetsOf(input, S)
  }

  /** The pairs (source, target) met while visiting the sources `S`. */
  ghost function EdgeKeysOf(input: Mentions, S: set<string>): set<EdgeKey>
  {
    set s, t | s in S && s in input && t in input[s].mentions :: (s, t)
  }

  /** The pairs (source, target) for `target` in `T`. */
  ghost function RowKeys(source: string, T: set<string>): set<EdgeKey>
  {
    set t | t in T :: (source, t)
  }

  ghost function NodesFor(ids: set<string>): map<string, NodeAttrs>
  {
    map id | id in ids :: NodeFor(id)
  }

  ghost function EdgesFor(input: Mentions, E: set<EdgeKey>): map<EdgeKey, EdgeAttrs>
  {
    map e | e in E :: EdgeFor(input, e)
  }

  ghost function Identifiers(input: Mentions): set<string>
  {
    IdsOf(input, input.Keys)
  }

  ghost function EdgeKeys(input: Mentions): set<EdgeKey>
  {
    EdgeKeysOf(input, input.Keys)
  }

  /** The node map after the construction loop. */
  ghost function SpecNodes(input: Mentions): map<string, NodeAttrs>
  {
    NodesFor(Identifiers(input))
  }

  /** The edge map after the construction loop. */
  ghost function SpecEdges(input: Mentions): map<EdgeKey, EdgeAttrs>
  {
    EdgesFor(input, EdgeKeys(input))
  }

  /**
   `m` is the largest defined weight of an edge in `E`, or `-Infinity` when none is
   defined (JavaScript's `undefined > m` is false, so undefined weights are skipped).
   */
  ghost predicate IsMaxWeight(input: Mentions, E: set<EdgeKey>, m: Extended)
  {
    && (forall e :: e in E && WeightAt(input, e).Some? ==> Bounds(m, WeightAt(input, e).value))
    && (m.Finite? ==> exists e :: e in E && WeightAt(input, e) == Some(m.value))
  }

  /** `m` is the largest mention-key count of a source in `S`, or `-Infinity` when `S` is empty. */
  ghost predicate IsMaxDegree(input: Mentions, S: set<string>, m: Extended)
  {
    && (forall s :: s in S && s in input ==> Bounds(m, |input[s].mentions| as real))
    && (m.Finite? ==> exists s :: s in S && s in input && |input[s].mentions| as real == m.value)
  }

  /** Node sizes written by the size pass: `nodeScale(degree(node))`, nothing else changed. */
  ghost function SizedNodes(N: map<string, NodeAttrs>, E: set<EdgeKey>, nodeScale: Scale): map<string, NodeAttrs>
  {
    map k | k in N :: N[k].(size := nodeScale(Some(DegreeIn(E, k) as real)))
  }

  /** Edge sizes written by the size pass: `edgeScale(size)`, nothing else changed. */
  ghost function SizedEdges(E: map<EdgeKey, EdgeAttrs>, edgeScale: Scale): map<EdgeKey, EdgeAttrs>
  {
    map e | e in E :: E[e].(size := edgeScale(E[e].size))
  }

  ghost function Pick(S: set<string>): (s: string)
    requires S != {}
    ensures s in S
  {
    var s :| s in S; s
  }

  /** The number of mention keys over the sources `S`. */
  ghost function SumMentions(input: Mentions, S: set<string>): nat
    decreases S
  {
    if S == {} then 0
    else
      var s := Pick(S);
      (if s in input then |input[s].mentions| else 0) + SumMentions(input, S - {s})
  }

  ghost function TotalMentions(input: Mentions): nat
  {
    SumMentions(input, input.Keys)
  }
}
