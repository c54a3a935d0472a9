/**
 * The global transaction graph (`build_global_transaction_graph`): one node
 * per executed block of every contract CFG, keyed by (address, pc); the CFG
 * edges whose two ends were executed and mapped, labelled with their kind;
 * and the cross-contract call edges whose caller site and callee entry
 * (pc 0) were both mapped, labelled with the call type.
 *
 * The graph is an arena: nodes are a sequence addressed by index, edges
 * are (source index, target index, weight) triples. The contracts are
 * visited in an unspecified order (hash-map iteration), modelled as an
 * arbitrary choice; the contracts show that each executed block and each
 * eligible edge is added exactly once, whatever the order.
 */
module GlobalGraph {
  import opened Wrappers
  import opened CfgGraph
  import opened Trace

  /** One decoded instruction of a block: offset, opcode byte and optional immediate. */
  datatype Instruction = Instruction(offset: Pc, opcode: bv8, immediate: Option<seq<bv8>>)

  /** An instruction block with its rendered text (`InstructionBlock::to_string`, not modelled). */
  datatype InstructionBlock = InstructionBlock(startPc: Pc, endPc: Pc, ops: seq<Instruction>, text: string)

  /** A contract's analysed CFG: the result of CFG construction and trace replay. */
  datatype ContractCfg = ContractCfg(
    nodeOf: Pc -> Block,
    dag: Dag,
    blocks: map<Block, InstructionBlock>,
    executedPcs: set<Pc>,
    edgeNumbering: map<EdgeKey, nat>)

  datatype TransactionNode = TransactionNode(
    contractAddress: Address,
    pc: Pc,
    instruction: string,
    containsSstore: bool,
    containsAddOrSub: bool)

  datatype TransactionEdge = Internal(edgeType: string) | External(callType: string)

  datatype GraphEdge = GraphEdge(source: nat, target: nat, weight: TransactionEdge)

  const SSTORE: bv8 := 0x55
  const ADD: bv8 := 0x01
  const SUB: bv8 := 0x03

  /** Whether some instruction of `ops` is SSTORE (`iter().any`). */
  function ContainsSstore(ops: seq<Instruction>): (r: bool)
    ensures r <==> exists k :: 0 <= k < |ops| && ops[k].opcode == SSTORE
    decreases |ops|
  {
    if ops == [] then false
    else if ops[0].opcode == SSTORE then true
    else
      var r := ContainsSstore(ops[1..]);
      assert forall k | 1 <= k < |ops| :: ops[k] == ops[1..][k - 1];
      r
  }

  /** Whether some instruction of `ops` is ADD or SUB. */
  function ContainsAddOrSub(ops: seq<Instruction>): (r: bool)
    ensures r <==> exists k :: 0 <= k < |ops| && (ops[k].opcode == ADD || ops[k].opcode == SUB)
    decreases |ops|
  {
    if ops == [] then false
    else if ops[0].opcode == ADD || ops[0].opcode == SUB then true
    else
      var r := ContainsAddOrSub(ops[1..]);
      assert forall k | 1 <= k < |ops| :: ops[k] == ops[1..][k - 1];
      r
  }

  /** The global node created for block `b` of the contract at `a`. */
  function MakeNode(a: Address, b: InstructionBlock): (n: TransactionNode)
    ensures n.contractAddress == a && n.pc == b.startPc && n.instruction == b.text
    ensures n.containsSstore <==> exists k :: 0 <= k < |b.ops| && b.ops[k].opcode == SSTORE
    ensures n.containsAddOrSub <==> exists k :: 0 <= k < |b.ops| && (b.ops[k].opcode == ADD || b.ops[k].opcode == SUB)
  {
    TransactionNode(a, b.startPc, b.text, ContainsSstore(b.ops), ContainsAddOrSub(b.ops))
  }

  /**
   * What CFG construction guarantees and the assembler relies on: each
   * block is stored under its own (start, end) key, and every executed
   * node has a block (the `unwrap` on the block lookup does not panic).
   */
  ghost predicate CfgWellFormed(c: ContractCfg) {
    && (forall n | n in c.blocks :: c.blocks[n].startPc == n.start && c.blocks[n].endPc == n.end)
    && (forall n | n in c.dag.nodes && n.start in c.executedPcs :: n in c.blocks)
  }

  ghost predicate AllWellFormed(cfgs: map<Address, ContractCfg>) {
    forall a | a in cfgs :: CfgWellFormed(cfgs[a])
  }

  /** Node `n` of the contract at `a` was executed, so it gets a global node. */
  ghost predicate ExecutedBlock(cfgs: map<Address, ContractCfg>, p: (Address, Block)) {
    p.0 in cfgs && p.1 in cfgs[p.0].dag.nodes && p.1.start in cfgs[p.0].executedPcs
  }

  /** The CFG edge `e` of the contract at `a` has both ends executed and mapped, so it gets an internal edge. */
  ghost predicate InternalCandidate(cfgs: map<Address, ContractCfg>, mapping: map<(Address, Pc), nat>, p: (Address, (Block, Block))) {
    var (a, e) := p;
    && a in cfgs && e in cfgs[a].dag.edges
    && e.0.start in cfgs[a].executedPcs && e.1.start in cfgs[a].executedPcs
    && (a, e.0.start) in mapping && (a, e.1.start) in mapping
  }

  /** The internal edge added for an eligible CFG edge. */
  function InternalEdge(cfgs: map<Address, ContractCfg>, mapping: map<(Address, Pc), nat>, p: (Address, (Block, Block))): GraphEdge
    requires InternalCandidate(cfgs, mapping, p)
  {
    var (a, e) := p;
    GraphEdge(mapping[(a, e.0.start)], mapping[(a, e.1.start)], Internal(LabelOf(cfgs[a].dag.edges[e])))
  }

  /** Both the caller site and the callee's entry (pc 0) are mapped. */
  predicate CallMapped(c: CallEdge, mapping: map<(Address, Pc), nat>) {
    (c.fromAddr, c.fromPc) in mapping && (c.toAddr, 0) in mapping
  }

  /** The external edges added for `calls`, in order, skipping calls whose ends are not mapped. */
  function CallGraphEdges(calls: seq<CallEdge>, mapping: map<(Address, Pc), nat>): (r: seq<GraphEdge>)
    ensures forall e :: e in r <==>
              exists k :: 0 <= k < |calls| && CallMapped(calls[k], mapping)
                       && e == GraphEdge(mapping[(calls[k].fromAddr, calls[k].fromPc)], mapping[(calls[k].toAddr, 0)], External(calls[k].callType))
    ensures |r| <= |calls|
    decreases |calls|
  {
    if calls == [] then []
    else
      var init := calls[..|calls| - 1];
      var c := calls[|calls| - 1];
      var prev := CallGraphEdges(init, mapping);
      assert forall k | 0 <= k < |init| :: init[k] == calls[k];
      if CallMapped(c, mapping) then
        prev + [GraphEdge(mapping[(c.fromAddr, c.fromPc)], mapping[(c.toAddr, 0)], External(c.callType))]
      else prev
  }

  predicate Distinct<T(==)>(s: seq<T>) {
    forall j, k | 0 <= j < k < |s| :: s[j] != s[k]
  }

  /**
   * The global graph invariant over values: edges join existing nodes, the
   * mapping sends (a, pc) to a node of address a and pc pc, and every node
   * stands for an executed pc of its contract.
   */
  ghost predicate GraphValid(cfgs: map<Address, ContractCfg>, nodes: seq<TransactionNode>, edges: seq<GraphEdge>, mapping: map<(Address, Pc), nat>) {
    && (forall e | e in edges :: e.source < |nodes| && e.target < |nodes|)
    && (forall key | key in mapping ::
          && mapping[key] < |nodes|
          && nodes[mapping[key]].contractAddress == key.0
          && nodes[mapping[key]].pc == key.1)
    && (forall k | 0 <= k < |nodes| ::
          && nodes[k].contractAddress in cfgs
          && nodes[k].pc in cfgs[nodes[k].contractAddress].executedPcs)
  }

  /** The mapping key a block of the contract at `p.0` is inserted under. */
  function NodeKey(p: (Address, Block)): (Address, Pc) {
    (p.0, p.1.start)
  }

  /**
   * Each key used by an entry of `origin` maps to the node of the last
   * entry under that key, the nodes of `origin` being numbered from `base`.
   */
  ghost predicate KeysMapToLast(base: nat, mapping: map<(Address, Pc), nat>, origin: seq<(Address, Block)>) {
    forall k | 0 <= k < |origin| ::
      && NodeKey(origin[k]) in mapping
      && base + k <= mapping[NodeKey(origin[k])] < base + |origin|
      && NodeKey(origin[mapping[NodeKey(origin[k])] - base]) == NodeKey(origin[k])
      && forall j | mapping[NodeKey(origin[k])] - base < j < |origin| :: NodeKey(origin[j]) != NodeKey(origin[k])
  }

  /**
   * `nodes` and `mapping` are `oldNodes` and `oldMapping` after adding one
   * node per entry of `origin`, in order: the node made from that block,
   * with its key mapped to the node of the last entry under that key; a
   * key no entry uses keeps its old node, and no other key is new.
   */
  ghost predicate NodesAdded(
    cfgs: map<Address, ContractCfg>, oldNodes: seq<TransactionNode>, oldMapping: map<(Address, Pc), nat>,
    nodes: seq<TransactionNode>, mapping: map<(Address, Pc), nat>, origin: seq<(Address, Block)>)
  {
    NodesAppended(cfgs, oldNodes, nodes, origin) && MappingUpdated(|oldNodes|, oldMapping, mapping, origin)
  }

  /** `nodes` is `oldNodes` followed by the node made from each block of `origin`, in order. */
  ghost predicate NodesAppended(
    cfgs: map<Address, ContractCfg>, oldNodes: seq<TransactionNode>, nodes: seq<TransactionNode>, origin: seq<(Address, Block)>)
  {
    && |nodes| == |oldNodes| + |origin|
    && nodes[..|oldNodes|] == oldNodes
    && (forall k | 0 <= k < |origin| ::
          && origin[k].0 in cfgs && origin[k].1 in cfgs[origin[k].0].blocks
          && nodes[|oldNodes| + k] == MakeNode(origin[k].0, cfgs[origin[k].0].blocks[origin[k].1]))
  }

  /**
   * `mapping` is `oldMapping` after inserting, for each entry of `origin`
   * in order, its key mapped to its node (numbered from `base`).
   */
  ghost predicate MappingUpdated(
    base: nat, oldMapping: map<(Address, Pc), nat>, mapping: map<(Address, Pc), nat>, origin: seq<(Address, Block)>)
  {
    && KeysMapToLast(base, mapping, origin)
    && oldMapping.Keys <= mapping.Keys
    && (forall key | key in oldMapping && (forall k | 0 <= k < |origin| :: NodeKey(origin[k]) != key) ::
          mapping[key] == oldMapping[key])
    && (forall key | key in mapping && key !in oldMapping ::
          exists k :: 0 <= k < |origin| && key == NodeKey(origin[k]))
  }

  /** Appending a node for an executed pc, mapped under its own key, keeps the graph invariant. */
  lemma AddNodeKeepsValid(
    cfgs: map<Address, ContractCfg>, nodes: seq<TransactionNode>, edges: seq<GraphEdge>, mapping: map<(Address, Pc), nat>,
    v: TransactionNode)
    requires GraphValid(cfgs, nodes, edges, mapping)
    requires v.contractAddress in cfgs && v.pc in cfgs[v.contractAddress].executedPcs
    ensures GraphValid(cfgs, nodes + [v], edges, mapping[(v.contractAddress, v.pc) := |nodes|])
  {
    var nodes' := nodes + [v];
    assert forall k | 0 <= k < |nodes| :: nodes'[k] == nodes[k];
  }

  /** After adding `(a, n)`, every new mapping key still comes from some recorded block. */
  lemma AddNodeKeysRecorded(
    oldMapping: map<(Address, Pc), nat>, mapping: map<(Address, Pc), nat>, origin: seq<(Address, Block)>,
    a: Address, n: Block, idx: nat)
    requires forall key | key in mapping && key !in oldMapping :: exists k :: 0 <= k < |origin| && key == NodeKey(origin[k])
    ensures var origin' := origin + [(a, n)];
            forall key | key in mapping[(a, n.start) := idx] && key !in oldMapping ::
              exists k :: 0 <= k < |origin'| && key == NodeKey(origin'[k])
  {
    var origin' := origin + [(a, n)];
    forall key | key in mapping[(a, n.start) := idx] && key !in oldMapping
      ensures exists k :: 0 <= k < |origin'| && key == NodeKey(origin'[k])
    {
      if key == (a, n.start) {
        assert key == NodeKey(origin'[|origin|]);
      } else {
        var k :| 0 <= k < |origin| && key == NodeKey(origin[k]);
        assert origin'[k] == origin[k];
      }
    }
  }

  /** After adding `(a, n)`, each recorded key maps to the node of the last entry under it. */
  lemma AddNodeKeysLast(base: nat, mapping: map<(Address, Pc), nat>, origin: seq<(Address, Block)>, a: Address, n: Block)
    requires KeysMapToLast(base, mapping, origin)
    ensures KeysMapToLast(base, mapping[(a, n.start) := base + |origin|], origin + [(a, n)])
  {
    var origin', mapping' := origin + [(a, n)], mapping[(a, n.start) := base + |origin|];
    forall k | 0 <= k < |origin'|
      ensures && NodeKey(origin'[k]) in mapping'
              && base + k <= mapping'[NodeKey(origin'[k])] < base + |origin'|
              && NodeKey(origin'[mapping'[NodeKey(origin'[k])] - base]) == NodeKey(origin'[k])
              && forall j | mapping'[NodeKey(origin'[k])] - base < j < |origin'| :: NodeKey(origin'[j]) != NodeKey(origin'[k])
    {
      var key := NodeKey(origin'[k]);
      if key == (a, n.start) {
        assert mapping'[key] - base == |origin|;
        assert origin'[|origin|] == (a, n);
      } else {
        assert k < |origin| && origin'[k] == origin[k];
        var m := mapping[key] - base;
        assert mapping'[key] == mapping[key];
        assert origin'[m] == origin[m];
        forall j | m < j < |origin'| ensures NodeKey(origin'[j]) != key {
          if j < |origin| {
            assert origin'[j] == origin[j];
          }
        }
      }
    }
  }

  /** Appending the node of block `n` of the contract at `a` extends the record by `(a, n)`. */
  lemma AddNodeExtends(
    cfgs: map<Address, ContractCfg>, oldNodes: seq<TransactionNode>, oldMapping: map<(Address, Pc), nat>,
    nodes: seq<TransactionNode>, mapping: map<(Address, Pc), nat>, origin: seq<(Address, Block)>,
    a: Address, n: Block, v: TransactionNode)
    requires a in cfgs && n in cfgs[a].blocks && v == MakeNode(a, cfgs[a].blocks[n])
    requires NodesAdded(cfgs, oldNodes, oldMapping, nodes, mapping, origin)
    ensures NodesAdded(cfgs, oldNodes, oldMapping, nodes + [v], mapping[(a, n.start) := |nodes|], origin + [(a, n)])
  {
    AppendNodeExtends(cfgs, oldNodes, nodes, origin, a, n, v);
    MapNodeExtends(|oldNodes|, oldMapping, mapping, origin, a, n);
    assert |nodes| == |oldNodes| + |origin|;
  }

  /** Inserting the key of `(a, n)`, mapped to the next node, extends the mapping record by `(a, n)`. */
  lemma MapNodeExtends(
    base: nat, oldMapping: map<(Address, Pc), nat>, mapping: map<(Address, Pc), nat>, origin: seq<(Address, Block)>,
    a: Address, n: Block)
    requires MappingUpdated(base, oldMapping, mapping, origin)
    ensures MappingUpdated(base, oldMapping, mapping[(a, n.start) := base + |origin|], origin + [(a, n)])
  {
    AddNodeKeysRecorded(oldMapping, mapping, origin, a, n, base + |origin|);
    AddNodeKeysLast(base, mapping, origin, a, n);
    AddNodeKeepsOthers(oldMapping, mapping, origin, a, n, base + |origin|);
  }

  /** Appending the node of block `n` of the contract at `a` extends the node list by `(a, n)`. */
  lemma AppendNodeExtends(
    cfgs: map<Address, ContractCfg>, oldNodes: seq<TransactionNode>, nodes: seq<TransactionNode>, origin: seq<(Address, Block)>,
    a: Address, n: Block, v: TransactionNode)
    requires a in cfgs && n in cfgs[a].blocks && v == MakeNode(a, cfgs[a].blocks[n])
    requires NodesAppended(cfgs, oldNodes, nodes, origin)
    ensures NodesAppended(cfgs, oldNodes, nodes + [v], origin + [(a, n)])
  {
    var nodes' := nodes + [v];
    var origin' := origin + [(a, n)];
    assert nodes'[..|oldNodes|] == nodes[..|oldNodes|];
    assert forall k | 0 <= k < |origin| :: origin'[k] == origin[k] && nodes'[|oldNodes| + k] == nodes[|oldNodes| + k];
  }

  /** After adding `(a, n)`, an old key no entry uses still maps to its old node. */
  lemma AddNodeKeepsOthers(
    oldMapping: map<(Address, Pc), nat>, mapping: map<(Address, Pc), nat>, origin: seq<(Address, Block)>,
    a: Address, n: Block, idx: nat)
    requires oldMapping.Keys <= mapping.Keys
    requires forall key | key in oldMapping && (forall k | 0 <= k < |origin| :: NodeKey(origin[k]) != key) ::
               mapping[key] == oldMapping[key]
    ensures var origin' := origin + [(a, n)];
            forall key | key in oldMapping && (forall k | 0 <= k < |origin'| :: NodeKey(origin'[k]) != key) ::
              mapping[(a, n.start) := idx][key] == oldMapping[key]
  {
    var origin' := origin + [(a, n)];
    forall key | key in oldMapping && (forall k | 0 <= k < |origin'| :: NodeKey(origin'[k]) != key)
      ensures mapping[(a, n.start) := idx][key] == oldMapping[key]
    {
      assert NodeKey(origin'[|origin|]) != key;
      forall k | 0 <= k < |origin| ensures NodeKey(origin[k]) != key {
        assert NodeKey(origin'[k]) != key;
      }
    }
  }

  /**
   * Nodes are added without checking the key first, so the graph is free of
   * duplicate (address, pc) nodes only because no two blocks of one
   * contract's CFG start at the same pc: under that condition the nodes
   * added for distinct executed blocks have distinct keys.
   */
  lemma {:induction false} NoDuplicateNodes(
    cfgs: map<Address, ContractCfg>, oldNodes: seq<TransactionNode>, oldMapping: map<(Address, Pc), nat>,
    nodes: seq<TransactionNode>, mapping: map<(Address, Pc), nat>, origin: seq<(Address, Block)>)
    requires AllWellFormed(cfgs) && NodesAdded(cfgs, oldNodes, oldMapping, nodes, mapping, origin) && Distinct(origin)
    requires forall p | p in origin :: ExecutedBlock(cfgs, p)
    requires forall a, n1, n2 | a in cfgs && n1 in cfgs[a].dag.nodes && n2 in cfgs[a].dag.nodes && n1.start == n2.start :: n1 == n2
    ensures forall j, k | |oldNodes| <= j < k < |nodes| ::
              (nodes[j].contractAddress, nodes[j].pc) != (nodes[k].contractAddress, nodes[k].pc)
  {
    forall j, k | |oldNodes| <= j < k < |nodes|
      ensures (nodes[j].contractAddress, nodes[j].pc) != (nodes[k].contractAddress, nodes[k].pc)
    {
      var p, q := origin[j - |oldNodes|], origin[k - |oldNodes|];
      assert p in origin && q in origin && p != q;
      assert CfgWellFormed(cfgs[p.0]) && CfgWellFormed(cfgs[q.0]);
      assert nodes[j].pc == p.1.start && nodes[k].pc == q.1.start;
    }
  }

  /** Appending an element that is not yet there keeps a sequence free of repeats. */
  lemma DistinctSnoc<T>(s: seq<T>, x: T)
    requires Distinct(s) && x !in s
    ensures Distinct(s + [x])
  {
  }

  /**
   * `origin` holds exactly the executed blocks of the contracts in `doneAddresses`
   * and those among `doneNodes` of the contract at `address`.
   */
  ghost predicate CoversNodes(cfgs: map<Address, ContractCfg>, origin: seq<(Address, Block)>,
                              doneAddresses: set<Address>, address: Address, doneNodes: set<Block>) {
    forall p :: p in origin <==> (p.0 in doneAddresses || (p.0 == address && p.1 in doneNodes)) && ExecutedBlock(cfgs, p)
  }

  /** Visiting one more node of the contract at `address` (recording it if executed) keeps the cover exact. */
  lemma VisitNodeCovers(cfgs: map<Address, ContractCfg>, origin: seq<(Address, Block)>,
                        doneAddresses: set<Address>, address: Address, doneNodes: set<Block>, node: Block)
    requires Distinct(origin) && CoversNodes(cfgs, origin, doneAddresses, address, doneNodes)
    requires address !in doneAddresses && node !in doneNodes
    ensures ExecutedBlock(cfgs, (address, node)) ==> (address, node) !in origin && Distinct(origin + [(address, node)])
    ensures ExecutedBlock(cfgs, (address, node)) ==> CoversNodes(cfgs, origin + [(address, node)], doneAddresses, address, doneNodes + {node})
    ensures !ExecutedBlock(cfgs, (address, node)) ==> CoversNodes(cfgs, origin, doneAddresses, address, doneNodes + {node})
  {
    if ExecutedBlock(cfgs, (address, node)) {
      DistinctSnoc(origin, (address, node));
    }
  }

  /** Moving on from the contract at `address` once all its nodes are visited. */
  lemma FinishContractNodes(cfgs: map<Address, ContractCfg>, origin: seq<(Address, Block)>,
                            doneAddresses: set<Address>, address: Address)
    requires address in cfgs && CoversNodes(cfgs, origin, doneAddresses, address, cfgs[address].dag.nodes)
    ensures forall p :: p in origin <==> p.0 in doneAddresses + {address} && ExecutedBlock(cfgs, p)
  {
  }

  /**
   * `origin` holds exactly the eligible CFG edges of the contracts in
   * `doneAddresses` and those among `doneEdges` of the contract at `address`.
   */
  ghost predicate CoversEdges(cfgs: map<Address, ContractCfg>, mapping: map<(Address, Pc), nat>,
                              origin: seq<(Address, (Block, Block))>,
                              doneAddresses: set<Address>, address: Address, doneEdges: set<(Block, Block)>) {
    forall p :: p in origin <==> (p.0 in doneAddresses || (p.0 == address && p.1 in doneEdges)) && InternalCandidate(cfgs, mapping, p)
  }

  /** Visiting one more CFG edge of the contract at `address` (recording it if eligible) keeps the cover exact. */
  lemma VisitEdgeCovers(cfgs: map<Address, ContractCfg>, mapping: map<(Address, Pc), nat>,
                        origin: seq<(Address, (Block, Block))>,
                        doneAddresses: set<Address>, address: Address, doneEdges: set<(Block, Block)>, edge: (Block, Block))
    requires Distinct(origin) && CoversEdges(cfgs, mapping, origin, doneAddresses, address, doneEdges)
    requires address !in doneAddresses && edge !in doneEdges
    ensures InternalCandidate(cfgs, mapping, (address, edge)) ==>
              (address, edge) !in origin && Distinct(origin + [(address, edge)])
    ensures InternalCandidate(cfgs, mapping, (address, edge)) ==>
              CoversEdges(cfgs, mapping, origin + [(address, edge)], doneAddresses, address, doneEdges + {edge})
    ensures !InternalCandidate(cfgs, mapping, (address, edge)) ==>
              CoversEdges(cfgs, mapping, origin, doneAddresses, address, doneEdges + {edge})
  {
    if InternalCandidate(cfgs, mapping, (address, edge)) {
      DistinctSnoc(origin, (address, edge));
    }
  }

  /** Moving on from the contract at `address` once all its CFG edges are visited. */
  lemma FinishContractEdges(cfgs: map<Address, ContractCfg>, mapping: map<(Address, Pc), nat>,
                            origin: seq<(Address, (Block, Block))>, doneAddresses: set<Address>, address: Address)
    requires address in cfgs && CoversEdges(cfgs, mapping, origin, doneAddresses, address, cfgs[address].dag.edges.Keys)
    ensures forall p :: p in origin <==> p.0 in doneAddresses + {address} && InternalCandidate(cfgs, mapping, p)
  {
  }

  /** The internal edges added for the eligible CFG edges `origin`, in order. */
  function InternalEdges(cfgs: map<Address, ContractCfg>, mapping: map<(Address, Pc), nat>, origin: seq<(Address, (Block, Block))>): seq<GraphEdge>
    requires forall p | p in origin :: InternalCandidate(cfgs, mapping, p)
    decreases |origin|
  {
    if origin == [] then []
    else InternalEdges(cfgs, mapping, origin[..|origin| - 1]) + [InternalEdge(cfgs, mapping, origin[|origin| - 1])]
  }

  /** Every internal edge joins two mapped nodes of one contract, under the label of its CFG kind. */
  lemma {:induction false} InternalEdgesShape(cfgs: map<Address, ContractCfg>, mapping: map<(Address, Pc), nat>, origin: seq<(Address, (Block, Block))>)
    requires forall p | p in origin :: InternalCandidate(cfgs, mapping, p)
    ensures |InternalEdges(cfgs, mapping, origin)| == |origin|
    ensures forall k | 0 <= k < |origin| :: InternalEdges(cfgs, mapping, origin)[k] == InternalEdge(cfgs, mapping, origin[k])
    decreases |origin|
  {
    if origin != [] {
      var init := origin[..|origin| - 1];
      InternalEdgesShape(cfgs, mapping, init);
      assert forall k | 0 <= k < |init| :: init[k] == origin[k];
    }
  }

  /** Edges added by the node mapping's lookups point at mapped nodes, so the graph invariant is kept. */
  lemma AddEdgesKeepValid(
    cfgs: map<Address, ContractCfg>, nodes: seq<TransactionNode>, edges: seq<GraphEdge>, mapping: map<(Address, Pc), nat>,
    extra: seq<GraphEdge>)
    requires GraphValid(cfgs, nodes, edges, mapping)
    requires forall e | e in extra :: e.source in mapping.Values && e.target in mapping.Values
    ensures GraphValid(cfgs, nodes, edges + extra, mapping)
  {
    forall e | e in edges + extra ensures e.source < |nodes| && e.target < |nodes| {
      if e in extra {
        var ks :| ks in mapping && mapping[ks] == e.source;
        var kt :| kt in mapping && mapping[kt] == e.target;
      }
    }
  }

  class TransactionAnalyzer {
    var contractCfgs: map<Address, ContractCfg>
    var callEdges: seq<CallEdge>
    var globalGraphNodes: seq<TransactionNode>
    var globalGraphEdges: seq<GraphEdge>
    var nodeMapping: map<(Address, Pc), nat>

    /**
     * The analyzer's invariant: the CFGs are well formed; edges join
     * existing nodes; the mapping sends (a, pc) to a node of address a and
     * pc pc; and every global node stands for an executed pc of its contract.
     */
    ghost predicate Valid()
      reads this
    {
      && AllWellFormed(contractCfgs)
      && GraphValid(contractCfgs, globalGraphNodes, globalGraphEdges, nodeMapping)
    }

    /** `TransactionAnalyzer::new` with the extracted contract CFGs and call edges: an empty global graph. */
    constructor (contractCfgs: map<Address, ContractCfg>, callEdges: seq<CallEdge>)
      requires AllWellFormed(contractCfgs)
      ensures Valid()
      ensures this.contractCfgs == contractCfgs && this.callEdges == callEdges
      ensures globalGraphNodes == [] && globalGraphEdges == [] && nodeMapping == map[]
    {
      this.contractCfgs := contractCfgs;
      this.callEdges := callEdges;
      globalGraphNodes := [];
      globalGraphEdges := [];
      nodeMapping := map[];
    }

    /** The body of the first loop nest for one executed block: add its node and map its start pc to it. */
    method AddBlockNode(address: Address, node: Block, ghost nodes0: seq<TransactionNode>,
                        ghost mapping0: map<(Address, Pc), nat>, ghost origin: seq<(Address, Block)>)
      requires Valid() && ExecutedBlock(contractCfgs, (address, node))
      requires NodesAdded(contractCfgs, nodes0, mapping0, globalGraphNodes, nodeMapping, origin)
      modifies this`globalGraphNodes, this`nodeMapping
      ensures Valid()
      ensures NodesAdded(contractCfgs, nodes0, mapping0, globalGraphNodes, nodeMapping, origin + [(address, node)])
      ensures globalGraphNodes == old(globalGraphNodes) + [MakeNode(address, contractCfgs[address].blocks[node])]
      ensures nodeMapping == old(nodeMapping)[(address, node.start) := |old(globalGraphNodes)|]
    {
      var contractCfg := contractCfgs[address];
      assert CfgWellFormed(contractCfg);
      var instructionBlock := contractCfg.blocks[node];
      var pc := instructionBlock.startPc;
      var txNode := MakeNode(address, instructionBlock);
      AddNodeKeepsValid(contractCfgs, globalGraphNodes, globalGraphEdges, nodeMapping, txNode);
      AddNodeExtends(contractCfgs, nodes0, mapping0, globalGraphNodes, nodeMapping, origin, address, node, txNode);
      var nodeIdx := |globalGraphNodes|;
      globalGraphNodes := globalGraphNodes + [txNode];
      nodeMapping := nodeMapping[(address, pc) := nodeIdx];
    }

    /**
     * One pass of the first loop nest, over the CFG nodes of the contract at
     * `address`: a node for every executed one, in the order visited.
     */
    method AddContractNodes(address: Address, ghost nodes0: seq<TransactionNode>, ghost mapping0: map<(Address, Pc), nat>,
                            ghost origin0: seq<(Address, Block)>, ghost doneAddresses: set<Address>)
      returns (ghost origin: seq<(Address, Block)>)
      requires Valid() && address in contractCfgs && address !in doneAddresses
      requires Distinct(origin0)
      requires forall p :: p in origin0 <==> p.0 in doneAddresses && ExecutedBlock(contractCfgs, p)
      requires NodesAdded(contractCfgs, nodes0, mapping0, globalGraphNodes, nodeMapping, origin0)
      modifies this`globalGraphNodes, this`nodeMapping
      ensures Valid()
      ensures Distinct(origin)
      ensures forall p :: p in origin <==> p.0 in doneAddresses + {address} && ExecutedBlock(contractCfgs, p)
      ensures NodesAdded(contractCfgs, nodes0, mapping0, globalGraphNodes, nodeMapping, origin)
      ensures origin0 <= origin
      ensures old(globalGraphNodes) <= globalGraphNodes
    {
      ghost var entryNodes := globalGraphNodes;
      origin := origin0;
      var contractCfg := contractCfgs[address];
      var nodes := contractCfg.dag.nodes;
      ghost var doneNodes: set<Block> := {};
      while nodes != {}
        invariant nodes + doneNodes == contractCfg.dag.nodes && nodes !! doneNodes
        invariant Valid()
        invariant Distinct(origin)
        invariant CoversNodes(contractCfgs, origin, doneAddresses, address, doneNodes)
        invariant NodesAdded(contractCfgs, nodes0, mapping0, globalGraphNodes, nodeMapping, origin)
        invariant origin0 <= origin
        invariant entryNodes <= globalGraphNodes
        decreases nodes
      {
        var node :| node in nodes;
        VisitNodeCovers(contractCfgs, origin, doneAddresses, address, doneNodes, node);
        if node.start in contractCfg.executedPcs {
          AddBlockNode(address, node, nodes0, mapping0, origin);
          origin := origin + [(address, node)];
        }
        nodes := nodes - {node};
        doneNodes := doneNodes + {node};
      }
      FinishContractNodes(contractCfgs, origin, doneAddresses, address);
    }

    /**
     * The first loop nest: a node for every executed block of every
     * contract, mapped under (address, block start pc). `origin` lists, in
     * insertion order, the (address, block) each new node came from: each
     * executed block exactly once, and nothing else.
     */
    method AddExecutedNodes() returns (ghost origin: seq<(Address, Block)>)
      requires Valid()
      modifies this`globalGraphNodes, this`nodeMapping
      ensures Valid()
      ensures Distinct(origin)
      ensures forall p :: p in origin <==> ExecutedBlock(contractCfgs, p)
      ensures NodesAdded(contractCfgs, old(globalGraphNodes), old(nodeMapping), globalGraphNodes, nodeMapping, origin)
    {
      ghost var nodes0, mapping0 := globalGraphNodes, nodeMapping;
      origin := [];
      var addresses := contractCfgs.Keys;
      ghost var doneAddresses: set<Address> := {};
      assert globalGraphNodes[..|globalGraphNodes|] == globalGraphNodes;
      while addresses != {}
        invariant addresses + doneAddresses == contractCfgs.Keys && addresses !! doneAddresses
        invariant Valid()
        invariant Distinct(origin)
        invariant forall p :: p in origin <==> p.0 in doneAddresses && ExecutedBlock(contractCfgs, p)
        invariant NodesAdded(contractCfgs, nodes0, mapping0, globalGraphNodes, nodeMapping, origin)
        decreases addresses
      {
        var address :| address in addresses;
        origin := AddContractNodes(address, nodes0, mapping0, origin, doneAddresses);
        addresses := addresses - {address};
        doneAddresses := doneAddresses + {address};
      }
    }

    /** The body of the second loop nest for one eligible CFG edge: add it as an internal edge. */
    method AddInternalEdge(address: Address, edge: (Block, Block), ghost edges0: seq<GraphEdge>,
                           ghost origin: seq<(Address, (Block, Block))>)
      requires Valid() && InternalCandidate(contractCfgs, nodeMapping, (address, edge))
      requires forall p | p in origin :: InternalCandidate(contractCfgs, nodeMapping, p)
      requires globalGraphEdges == edges0 + InternalEdges(contractCfgs, nodeMapping, origin)
      modifies this`globalGraphEdges
      ensures Valid()
      ensures globalGraphEdges == edges0 + InternalEdges(contractCfgs, nodeMapping, origin + [(address, edge)])
    {
      var edgeType := contractCfgs[address].dag.edges[edge];
      var fromIdx := nodeMapping[(address, edge.0.start)];
      var toIdx := nodeMapping[(address, edge.1.start)];
      var newEdge := GraphEdge(fromIdx, toIdx, Internal(LabelOf(edgeType)));
      AddEdgesKeepValid(contractCfgs, globalGraphNodes, globalGraphEdges, nodeMapping, [newEdge]);
      assert (origin + [(address, edge)])[..|origin|] == origin;
      globalGraphEdges := globalGraphEdges + [newEdge];
    }

    /**
     * One pass of the second loop nest, over the CFG edges of the contract
     * at `address`: every eligible one is added, in the order visited.
     */
    method AddContractInternalEdges(address: Address, ghost edges0: seq<GraphEdge>,
                                    ghost origin0: seq<(Address, (Block, Block))>, ghost doneAddresses: set<Address>)
      returns (ghost origin: seq<(Address, (Block, Block))>)
      requires Valid() && address in contractCfgs && address !in doneAddresses
      requires Distinct(origin0)
      requires forall p :: p in origin0 <==> p.0 in doneAddresses && InternalCandidate(contractCfgs, nodeMapping, p)
      requires globalGraphEdges == edges0 + InternalEdges(contractCfgs, nodeMapping, origin0)
      modifies this`globalGraphEdges
      ensures Valid()
      ensures Distinct(origin)
      ensures forall p :: p in origin <==> p.0 in doneAddresses + {address} && InternalCandidate(contractCfgs, nodeMapping, p)
      ensures globalGraphEdges == edges0 + InternalEdges(contractCfgs, nodeMapping, origin)
      ensures origin0 <= origin
      ensures old(globalGraphEdges) <= globalGraphEdges
    {
      ghost var entryEdges := globalGraphEdges;
      origin := origin0;
      var contractCfg := contractCfgs[address];
      var edges := contractCfg.dag.edges.Keys;
      ghost var doneEdges: set<(Block, Block)> := {};
      while edges != {}
        invariant edges + doneEdges == contractCfg.dag.edges.Keys && edges !! doneEdges
        invariant Valid()
        invariant Distinct(origin)
        invariant CoversEdges(contractCfgs, nodeMapping, origin, doneAddresses, address, doneEdges)
        invariant globalGraphEdges == edges0 + InternalEdges(contractCfgs, nodeMapping, origin)
        invariant origin0 <= origin
        invariant entryEdges <= globalGraphEdges
        decreases edges
      {
        var edge :| edge in edges;
        VisitEdgeCovers(contractCfgs, nodeMapping, origin, doneAddresses, address, doneEdges, edge);
        var fromPc, toPc := edge.0.start, edge.1.start;
        if fromPc in contractCfg.executedPcs && toPc in contractCfg.executedPcs {
          if (address, fromPc) in nodeMapping && (address, toPc) in nodeMapping {
            AddInternalEdge(address, edge, edges0, origin);
            origin := origin + [(address, edge)];
          }
        }
        edges := edges - {edge};
        doneEdges := doneEdges + {edge};
      }
      FinishContractEdges(contractCfgs, nodeMapping, origin, doneAddresses, address);
    }

    /**
     * The second loop nest: an internal edge, labelled with the CFG edge's
     * kind, for every CFG edge whose two ends were executed and are mapped.
     * `origin` lists, in insertion order, the (address, CFG edge) each new
     * edge came from: each eligible CFG edge exactly once, and nothing else.
     */
    method AddInternalEdges() returns (ghost origin: seq<(Address, (Block, Block))>)
      requires Valid()
      modifies this`globalGraphEdges
      ensures Valid()
      ensures Distinct(origin)
      ensures forall p :: p in origin <==> InternalCandidate(contractCfgs, nodeMapping, p)
      ensures globalGraphEdges == old(globalGraphEdges) + InternalEdges(contractCfgs, nodeMapping, origin)
    {
      ghost var edges0 := globalGraphEdges;
      origin := [];
      var addresses := contractCfgs.Keys;
      ghost var doneAddresses: set<Address> := {};
      while addresses != {}
        invariant addresses + doneAddresses == contractCfgs.Keys && addresses !! doneAddresses
        invariant Valid()
        invariant Distinct(origin)
        invariant forall p :: p in origin <==> p.0 in doneAddresses && InternalCandidate(contractCfgs, nodeMapping, p)
        invariant globalGraphEdges == edges0 + InternalEdges(contractCfgs, nodeMapping, origin)
        decreases addresses
      {
        var address :| address in addresses;
        origin := AddContractInternalEdges(address, edges0, origin, doneAddresses);
        addresses := addresses - {address};
        doneAddresses := doneAddresses + {address};
      }
    }

    /** The body of the third loop for call record `k`: add its external edge when both ends are mapped. */
    method AddCallEdge(k: nat, ghost edges0: seq<GraphEdge>)
      requires Valid() && k < |callEdges|
      requires globalGraphEdges == edges0 + CallGraphEdges(callEdges[..k], nodeMapping)
      modifies this`globalGraphEdges
      ensures Valid()
      ensures globalGraphEdges == edges0 + CallGraphEdges(callEdges[..k + 1], nodeMapping)
    {
      var edge := callEdges[k];
      assert callEdges[..k + 1][..k] == callEdges[..k] && callEdges[..k + 1][k] == edge;
      if (edge.fromAddr, edge.fromPc) in nodeMapping && (edge.toAddr, 0) in nodeMapping {
        var fromIdx := nodeMapping[(edge.fromAddr, edge.fromPc)];
        var toIdx := nodeMapping[(edge.toAddr, 0)];
        var newEdge := GraphEdge(fromIdx, toIdx, External(edge.callType));
        AddEdgesKeepValid(contractCfgs, globalGraphNodes, globalGraphEdges, nodeMapping, [newEdge]);
        globalGraphEdges := globalGraphEdges + [newEdge];
      }
    }

    /**
     * The third loop: for each call record in order, an external edge
     * labelled with the call type from the caller's node at the call-site
     * pc to the callee's node at pc 0, when both are mapped.
     */
    method AddCallEdges()
      requires Valid()
      modifies this`globalGraphEdges
      ensures Valid()
      ensures globalGraphEdges == old(globalGraphEdges) + CallGraphEdges(callEdges, nodeMapping)
    {
      ghost var edges0 := globalGraphEdges;
      assert globalGraphEdges == edges0 + [];
      for k := 0 to |callEdges|
        invariant Valid()
        invariant globalGraphEdges == edges0 + CallGraphEdges(callEdges[..k], nodeMapping)
      {
        AddCallEdge(k, edges0);
      }
      assert callEdges[..|callEdges|] == callEdges;
    }

    /**
     * `build_global_transaction_graph`: the three phases in order. Every
     * executed block of every contract gets one node; every CFG edge with
     * both ends executed and mapped gets one internal edge; then the call
     * records whose two ends are mapped get external edges, in order.
     */
    method BuildGlobalTransactionGraph()
      returns (ghost nodeOrigin: seq<(Address, Block)>, ghost edgeOrigin: seq<(Address, (Block, Block))>)
      requires Valid()
      modifies this`globalGraphNodes, this`nodeMapping, this`globalGraphEdges
      ensures Valid()
      ensures Distinct(nodeOrigin) && forall p :: p in nodeOrigin <==> ExecutedBlock(contractCfgs, p)
      ensures NodesAdded(contractCfgs, old(globalGraphNodes), old(nodeMapping), globalGraphNodes, nodeMapping, nodeOrigin)
      ensures Distinct(edgeOrigin) && forall p :: p in edgeOrigin <==> InternalCandidate(contractCfgs, nodeMapping, p)
      ensures globalGraphEdges
           == old(globalGraphEdges) + InternalEdges(contractCfgs, nodeMapping, edgeOrigin) + CallGraphEdges(callEdges, nodeMapping)
    {
      nodeOrigin := AddExecutedNodes();
      edgeOrigin := AddInternalEdges();
      AddCallEdges();
    }
  }
}
