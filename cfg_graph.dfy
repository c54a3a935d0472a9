/**
 * The control-flow-graph vocabulary the analyzer works with: program
 * counters, basic-block keys, the four edge kinds, and the per-contract
 * CFG (`CFGRunner::cfg_dag`, a graph map keyed by block) as a value.
 * `CFGRunner` itself is not part of this model beyond the two things the
 * analyzer uses: its pc-to-block lookup and its mutable edge graph.
 */
module CfgGraph {

  /** A program counter: a 16-bit offset into a contract's bytecode. */
  type Pc = x: int | 0 <= x < 0x1_0000

  const MaxPc: Pc := 0xFFFF

  /** A basic block, keyed by its (start pc, end pc) pair. */
  datatype Block = Block(start: Pc, end: Pc)

  /** `Edges`: the closed set of CFG edge kinds. */
  datatype EdgeKind = Jump | ConditionTrue | ConditionFalse | SymbolicJump

  /** The key under which an edge is numbered: (from block, to block, kind). */
  datatype EdgeKey = EdgeKey(from: Block, to: Block, kind: EdgeKind)

  /**
   * The CFG as a graph map: a node set and at most one kind per ordered
   * (from, to) pair, as a graph map keyed by its endpoints stores it.
   */
  datatype Dag = Dag(nodes: set<Block>, edges: map<(Block, Block), EdgeKind>) {

    /** Every edge's endpoints are nodes of the graph. */
    ghost predicate Valid() {
      forall p | p in edges :: p.0 in nodes && p.1 in nodes
    }

    /** `contains_edge(from, to)`: some edge, of any kind, joins the pair. */
    predicate ContainsEdge(from: Block, to: Block) {
      (from, to) in edges
    }
  }

  /** The `Debug` text of an edge kind, used as the label of internal edges. */
  function LabelOf(k: EdgeKind): string {
    match k
    case Jump => "Jump"
    case ConditionTrue => "ConditionTrue"
    case ConditionFalse => "ConditionFalse"
    case SymbolicJump => "SymbolicJump"
  }

  /** `add_edge` on a graph map: inserts both endpoints and sets the pair's kind. */
  function WithEdge(d: Dag, from: Block, to: Block, kind: EdgeKind): Dag {
    Dag(d.nodes + {from, to}, d.edges[(from, to) := kind])
  }

  /** One replay step's effect on the CFG: add the edge unless the pair is already joined. */
  function AddIfAbsent(d: Dag, k: EdgeKey): (r: Dag)
    ensures d.Valid() ==> r.Valid()
    ensures PairOf(k) in d.edges ==> r == d
    ensures PairOf(k) !in d.edges ==> r.edges == d.edges[PairOf(k) := k.kind] && r.nodes == d.nodes + {k.from, k.to}
  {
    if d.ContainsEdge(k.from, k.to) then d else WithEdge(d, k.from, k.to, k.kind)
  }

  /** The CFG after a replay has met `keys`, in order. */
  function AddEdges(d: Dag, keys: seq<EdgeKey>): Dag
    decreases |keys|
  {
    if keys == [] then d else AddEdges(AddIfAbsent(d, keys[0]), keys[1..])
  }

  function PairOf(k: EdgeKey): (Block, Block) {
    (k.from, k.to)
  }

  /** The (from, to) pairs met in `keys`. */
  function Pairs(keys: seq<EdgeKey>): set<(Block, Block)> {
    set k | k in keys :: PairOf(k)
  }

  /** The blocks at either end of some key in `keys`. */
  function Endpoints(keys: seq<EdgeKey>): set<Block> {
    (set k | k in keys :: k.from) + (set k | k in keys :: k.to)
  }

  /**
   * What replaying `keys` does to the CFG's shape: it stays well formed, the
   * pairs joined afterwards are the old ones plus those met, and the node
   * set grows by exactly the endpoints met.
   */
  lemma {:induction false} AddEdgesShape(d: Dag, keys: seq<EdgeKey>)
    requires d.Valid()
    ensures AddEdges(d, keys).Valid()
    ensures AddEdges(d, keys).edges.Keys == d.edges.Keys + Pairs(keys)
    ensures AddEdges(d, keys).nodes == d.nodes + Endpoints(keys)
    decreases |keys|
  {
    if keys != [] {
      var k0, rest := keys[0], keys[1..];
      var d' := AddIfAbsent(d, k0);
      AddEdgesShape(d', rest);
      PairsEndpointsCons(keys);
    }
  }

  /** The pairs and endpoints of a non-empty key sequence: those of its head, then of its tail. */
  lemma PairsEndpointsCons(keys: seq<EdgeKey>)
    requires keys != []
    ensures Pairs(keys) == {PairOf(keys[0])} + Pairs(keys[1..])
    ensures Endpoints(keys) == {keys[0].from, keys[0].to} + Endpoints(keys[1..])
  {
    assert keys == [keys[0]] + keys[1..];
  }

  /** A replay never overwrites the kind of a pair that was already joined. */
  lemma {:induction false} AddEdgesKeepsKinds(d: Dag, keys: seq<EdgeKey>)
    ensures forall p | p in d.edges :: p in AddEdges(d, keys).edges && AddEdges(d, keys).edges[p] == d.edges[p]
    decreases |keys|
  {
    if keys != [] {
      AddEdgesKeepsKinds(AddIfAbsent(d, keys[0]), keys[1..]);
    }
  }

  /** A pair that was absent ends up with the kind of the first key that met it. */
  lemma {:induction false} AddEdgesFirstKind(d: Dag, keys: seq<EdgeKey>, j: nat)
    requires j < |keys|
    requires PairOf(keys[j]) !in d.edges && PairOf(keys[j]) !in Pairs(keys[..j])
    ensures PairOf(keys[j]) in AddEdges(d, keys).edges
    ensures AddEdges(d, keys).edges[PairOf(keys[j])] == keys[j].kind
    decreases |keys|
  {
    var k0, rest := keys[0], keys[1..];
    var d' := AddIfAbsent(d, k0);
    if j == 0 {
      AddEdgesKeepsKinds(d', rest);
    } else {
      assert keys[j] == rest[j - 1];
      assert k0 in keys[..j];
      assert PairOf(keys[j]) != PairOf(k0);
      forall p | p in Pairs(rest[..j - 1]) ensures p in Pairs(keys[..j]) {
        var k :| k in rest[..j - 1] && PairOf(k) == p;
        assert k in keys[..j];
      }
      AddEdgesFirstKind(d', rest, j - 1);
    }
  }

  /**
   * A pair met in `keys` and absent before the replay ends up joined, under
   * the kind of a key the replay met for it (the first one).
   */
  lemma {:induction false} AddEdgesMetPair(d: Dag, keys: seq<EdgeKey>, p: (Block, Block))
    requires p in Pairs(keys) && p !in d.edges
    ensures p in AddEdges(d, keys).edges
    ensures EdgeKey(p.0, p.1, AddEdges(d, keys).edges[p]) in keys
  {
    var j := FirstMeeting(keys, p);
    AddEdgesFirstKind(d, keys, j);
    assert EdgeKey(p.0, p.1, AddEdges(d, keys).edges[p]) == keys[j];
  }

  /** The index of the first key in `keys` that meets pair `p`. */
  lemma {:induction false} FirstMeeting(keys: seq<EdgeKey>, p: (Block, Block)) returns (j: nat)
    requires p in Pairs(keys)
    ensures j < |keys| && PairOf(keys[j]) == p && p !in Pairs(keys[..j])
    decreases |keys|
  {
    PairsEndpointsCons(keys);
    if PairOf(keys[0]) == p {
      j := 0;
      assert keys[..0] == [];
    } else {
      var j' := FirstMeeting(keys[1..], p);
      j := j' + 1;
      assert keys[..j] == [keys[0]] + keys[1..][..j'];
      PairsEndpointsCons(keys[..j]);
      assert keys[..j][1..] == keys[1..][..j'];
    }
  }

  /**
   * The part of `CFGRunner` the replayer uses: the pc-to-block lookup
   * (`get_node_from_pc`, a total function whose definition lives outside
   * this model) and the mutable graph `cfg_dag`.
   */
  class CfgRunner {
    const nodeOf: Pc -> Block
    var cfgDag: Dag

    constructor (nodeOf: Pc -> Block, cfgDag: Dag)
      ensures this.nodeOf == nodeOf && this.cfgDag == cfgDag
    {
      this.nodeOf := nodeOf;
      this.cfgDag := cfgDag;
    }

    /** `get_node_from_pc`: the block the lookup assigns to `pc`. */
    function GetNodeFromPc(pc: Pc): Block {
      nodeOf(pc)
    }
  }
}
