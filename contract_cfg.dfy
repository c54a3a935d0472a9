/**
 * The last step of building one contract's CFG: the replay of the
 * contract's own trace steps runs against the `CFGRunner`, and the runner,
 * the executed pcs and the edge numbering the replay hands back are stored
 * together as the contract's `ContractCFG`. This ties the graph and the
 * numbering the global graph assembler reads to what the replay produced.
 */
module ContractCfgGen {
  import opened CfgGraph
  import opened Trace
  import opened EdgeNumbering
  import opened Replay
  import opened GlobalGraph

  /** The contract CFG recorded after replaying `steps` on a CFG that started as `dag0`. */
  function ReplayedCfg(nodeOf: Pc -> Block, dag0: Dag, blocks: map<Block, InstructionBlock>,
                       executedPcs: set<Pc>, steps: seq<TraceStep>): (c: ContractCfg)
    requires Replayable(steps, 0)
    ensures c.nodeOf == nodeOf && c.blocks == blocks && c.executedPcs == executedPcs
    ensures c.dag == AddEdges(dag0, ReplayKeys(nodeOf, steps, 0))
    ensures c.edgeNumbering.Keys == Elems(ReplayKeys(nodeOf, steps, 0))
  {
    var keys := ReplayKeys(nodeOf, steps, 0);
    ContractCfg(nodeOf, AddEdges(dag0, keys), blocks, executedPcs, Numbering(keys))
  }

  /**
   * The tail of `generate_single_contract_cfg`: replay the contract's steps
   * on `cfg`, then record the runner's lookup and graph, the executed pcs
   * and the numbering.
   */
  method FinishContractCfg(cfg: CfgRunner, blocks: map<Block, InstructionBlock>,
                           executedPcs: set<Pc>, steps: seq<TraceStep>) returns (c: ContractCfg)
    requires Replayable(steps, 0)
    modifies cfg
    ensures c == ReplayedCfg(cfg.nodeOf, old(cfg.cfgDag), blocks, executedPcs, steps)
    ensures cfg.cfgDag == c.dag
  {
    var edgeNumbering := ProcessTraceAndNumberEdges(cfg, steps);
    c := ContractCfg(cfg.nodeOf, cfg.cfgDag, blocks, executedPcs, edgeNumbering);
  }

  /**
   * Every key the replay numbered joins a pair of the recorded CFG, and
   * each pair the replay joined for the first time carries the kind of a
   * numbered key, so the edge drawn for it finds its number.
   */
  lemma ReplayedEdgesNumbered(nodeOf: Pc -> Block, dag0: Dag, blocks: map<Block, InstructionBlock>,
                              executedPcs: set<Pc>, steps: seq<TraceStep>)
    requires dag0.Valid() && Replayable(steps, 0)
    ensures var c := ReplayedCfg(nodeOf, dag0, blocks, executedPcs, steps);
            && c.dag.Valid()
            && (forall k | k in c.edgeNumbering :: PairOf(k) in c.dag.edges)
            && (forall p | p in c.dag.edges && p !in dag0.edges ::
                  EdgeKey(p.0, p.1, c.dag.edges[p]) in c.edgeNumbering)
  {
    var keys := ReplayKeys(nodeOf, steps, 0);
    var c := ReplayedCfg(nodeOf, dag0, blocks, executedPcs, steps);
    AddEdgesShape(dag0, keys);
    forall k | k in c.edgeNumbering
      ensures PairOf(k) in c.dag.edges
    {
      assert PairOf(k) in Pairs(keys);
    }
    forall p | p in c.dag.edges && p !in dag0.edges
      ensures EdgeKey(p.0, p.1, c.dag.edges[p]) in c.edgeNumbering
    {
      AddEdgesMetPair(dag0, keys, p);
    }
  }
}
