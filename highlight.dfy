/**
 * The highlighting decisions taken when the global transaction graph is
 * rendered: the fill colour of a node (a block that writes storage first,
 * then one that does arithmetic, then everything else), and, for an
 * internal edge, the kind recovered from its label and the trace number
 * shown on it (0 when the edge was never numbered).
 */
module Highlight {
  import opened CfgGraph
  import opened Trace
  import opened GlobalGraph

  const SstoreColor: string := "#f7768e"
  const AddSubColor: string := "#ff9e64"
  const DefaultColor: string := "#9ece6a"

  /** The fill colour of a node: SSTORE before ADD/SUB before the default. */
  function FillColor(node: TransactionNode): (c: string)
    ensures c == SstoreColor <==> node.containsSstore
    ensures c == AddSubColor <==> !node.containsSstore && node.containsAddOrSub
    ensures c == DefaultColor <==> !node.containsSstore && !node.containsAddOrSub
  {
    if node.containsSstore then SstoreColor
    else if node.containsAddOrSub then AddSubColor
    else DefaultColor
  }

  /** The colour of the node made from a block, in terms of the block's opcodes. */
  lemma FillColorOfBlock(a: Address, b: InstructionBlock)
    ensures FillColor(MakeNode(a, b)) == SstoreColor
        <==> exists k :: 0 <= k < |b.ops| && b.ops[k].opcode == SSTORE
    ensures FillColor(MakeNode(a, b)) == AddSubColor
        <==> (forall k | 0 <= k < |b.ops| :: b.ops[k].opcode != SSTORE)
             && exists k :: 0 <= k < |b.ops| && (b.ops[k].opcode == ADD || b.ops[k].opcode == SUB)
    ensures FillColor(MakeNode(a, b)) == DefaultColor
        <==> forall k | 0 <= k < |b.ops| :: b.ops[k].opcode !in {SSTORE, ADD, SUB}
  {
  }

  /** The edge kind an internal edge's label names; any other label reads as `Jump`. */
  function KindOfLabel(name: string): (k: EdgeKind)
    ensures name == "ConditionTrue" ==> k == ConditionTrue
    ensures name == "ConditionFalse" ==> k == ConditionFalse
    ensures name == "SymbolicJump" ==> k == SymbolicJump
    ensures name !in {"ConditionTrue", "ConditionFalse", "SymbolicJump"} ==> k == Jump
  {
    if name == "ConditionTrue" then ConditionTrue
    else if name == "ConditionFalse" then ConditionFalse
    else if name == "SymbolicJump" then SymbolicJump
    else Jump
  }

  /** Reading back the label an internal edge was given recovers its kind. */
  lemma KindOfLabelRoundTrip(k: EdgeKind)
    ensures KindOfLabel(LabelOf(k)) == k
  {
    match k
    case Jump =>
      assert LabelOf(k) != "ConditionTrue" && LabelOf(k) != "ConditionFalse" && LabelOf(k) != "SymbolicJump" by {
        assert LabelOf(k)[0] == 'J';
      }
    case ConditionTrue =>
    case ConditionFalse =>
    case SymbolicJump =>
  }

  /** The number shown for an edge key: its trace number, or 0 when it was never numbered. */
  function EdgeNumber(numbering: map<EdgeKey, nat>, key: EdgeKey): (n: nat)
    ensures key in numbering ==> n == numbering[key]
    ensures key !in numbering ==> n == 0
  {
    if key in numbering then numbering[key] else 0
  }

  /**
   * The number rendered on an internal edge of the global graph: the
   * edge's two nodes are looked up, their pcs mapped back to blocks in the
   * source node's contract, and the key (from, to, kind of label) numbered.
   */
  function InternalEdgeNumber(cfgs: map<Address, ContractCfg>, nodes: seq<TransactionNode>, e: GraphEdge): (n: nat)
    requires e.weight.Internal? && e.source < |nodes| && e.target < |nodes|
    requires nodes[e.source].contractAddress in cfgs
    ensures var cfg := cfgs[nodes[e.source].contractAddress];
            var key := EdgeKey(cfg.nodeOf(nodes[e.source].pc), cfg.nodeOf(nodes[e.target].pc), KindOfLabel(e.weight.edgeType));
            && (key in cfg.edgeNumbering ==> n == cfg.edgeNumbering[key])
            && (key !in cfg.edgeNumbering ==> n == 0)
  {
    var fromNode := nodes[e.source];
    var toNode := nodes[e.target];
    var cfg := cfgs[fromNode.contractAddress];
    EdgeNumber(cfg.edgeNumbering, EdgeKey(cfg.nodeOf(fromNode.pc), cfg.nodeOf(toNode.pc), KindOfLabel(e.weight.edgeType)))
  }

  /**
   * In a valid global graph, the number rendered on the internal edge made
   * from CFG edge (from, to) of the contract at `a` is the trace number of
   * that CFG edge under its own kind, or 0 when the replay never took it,
   * provided the contract maps each block's start pc back to the block.
   */
  lemma {:induction false} InternalEdgeNumberOfCfgEdge(
    cfgs: map<Address, ContractCfg>, nodes: seq<TransactionNode>, edges: seq<GraphEdge>,
    mapping: map<(Address, Pc), nat>, a: Address, from: Block, to: Block)
    requires GraphValid(cfgs, nodes, edges, mapping)
    requires InternalCandidate(cfgs, mapping, (a, (from, to)))
    requires cfgs[a].nodeOf(from.start) == from && cfgs[a].nodeOf(to.start) == to
    ensures var e := InternalEdge(cfgs, mapping, (a, (from, to)));
            && e.source < |nodes| && e.target < |nodes| && nodes[e.source].contractAddress in cfgs
            && InternalEdgeNumber(cfgs, nodes, e)
               == EdgeNumber(cfgs[a].edgeNumbering, EdgeKey(from, to, cfgs[a].dag.edges[(from, to)]))
  {
    var e := InternalEdge(cfgs, mapping, (a, (from, to)));
    assert e.source == mapping[(a, from.start)] && e.target == mapping[(a, to.start)];
    assert nodes[e.source].contractAddress == a && nodes[e.source].pc == from.start;
    assert nodes[e.target].pc == to.start;
    KindOfLabelRoundTrip(cfgs[a].dag.edges[(from, to)]);
  }
}
