# Dynamic CFG analysis of MEV transactions: trace replay and global graph

This project models, in Dafny, the core of the analyzer in `mev-cfg-dynamic`
(`src/analyzer.rs`). That analyzer builds a static control-flow graph (CFG)
for each contract touched by a transaction. It then replays the execution
trace to find and number the jump edges that were actually taken. Finally it
merges the executed parts of all contracts into one global transaction graph
and renders that graph with highlighting. The modelled pieces are:

- **Jump-destination bitmap decode** (`jump_table.dfy`). Bit `b` of byte `i`
  of the jump table marks pc `8*i + b`, cast to 16 bits, as a valid jump
  destination.
- **Trace replay and edge numbering** (`replay.dfy`, `edge_numbering.dfy`,
  `hex_word.dfy`, `cfg_graph.dfy`). This is `process_trace_and_number_edges`.
  It walks one contract's trace. At every JUMP or JUMPI it works out the
  destination and the edge kind. It adds the (from block, to block) edge to
  the CFG unless that pair is already joined, and numbers the edge key the
  first time it is met. Then it moves to the first later trace position at
  the destination pc.
  - The replay is specified by functions: `Destination`, `KindAt`,
    `NextIndex`, and `ReplayKeys`, which gives the sequence of edge keys met.
  - The imperative loop is proved to return `Numbering(ReplayKeys(..))` and
    to leave `AddEdges(old CFG, ReplayKeys(..))` in the CFG runner.
  - Lemmas prove the properties of those functions: a dense numbering in
    first-occurrence order, a strictly increasing index, and which kind a
    CFG pair keeps.
- **Global transaction graph** (`global_graph.dfy`). This is
  `build_global_transaction_graph`, written as a class whose methods update
  the node list, the edge list and the (address, pc) → node mapping in
  place.
  - Hash-map iteration is modelled as an arbitrary choice.
  - Ghost `origin` results record which block or CFG edge each new node or
    edge came from. The contracts show that each executed block and each
    eligible CFG edge is added exactly once, whatever the order.
- **Highlighting decisions** (`highlight.dfy`, and the opcode flags in
  `global_graph.dfy`): the SSTORE and ADD/SUB flags, the fill-colour
  priority, the label → kind mapping, and the rendered edge number, which
  defaults to 0.

`CFGRunner` is abstract. `get_node_from_pc` is a total function `nodeOf`
from a 16-bit pc to a block key. `cfg_dag`, a petgraph `GraphMap`, is a set
of nodes plus a map from (from, to) pairs to their edge kind.

Three operations in the replay fail on some traces. The slice panics in
every build. The two arithmetic operations overflow: they panic in a debug
build and wrap in a release build. The model makes all three
preconditions (`StepOk`, `Replayable`):
- the `&val[2..]` slices (src/analyzer.rs:207, :211, :231) panic in every
  build when the word is shorter than two characters;
- `stack.len() - 2` (src/analyzer.rs:211) on a JUMPI with fewer than two
  stack entries. In a release build the index wraps, `get` finds nothing,
  and the condition reads as 0;
- `current_pc + 1` (src/analyzer.rs:226, :242) on a JUMPI at pc 65535. In a
  release build it wraps to 0. A zero-condition JUMPI there goes to pc 0
  and is labelled `ConditionFalse`.

Points where the code does something its own comments or names do not
suggest. The model follows the code:
- **JUMPI kind.** The comment at src/analyzer.rs:213 says a zero-condition
  JUMPI goes to the nearest next pc. The kind test at :242 then labels it
  `ConditionFalse` only when that destination is exactly `current_pc + 1`.
  The destination is the smallest later pc above the current one. So the
  fall-through branch is labelled `ConditionTrue` when `current_pc + 1`
  never appears later in the trace but a higher pc does.
  `Replay.ZeroConditionKind` states this.
- **Duplicate nodes.** Global nodes are inserted at src/analyzer.rs:310-313
  without checking whether the (address, pc) key already has a node, so a
  second block starting at the same pc would take over the mapping entry.
  `GlobalGraph.NoDuplicateNodes` shows that no duplicates arise when no two
  blocks of one contract start at the same pc.
- **Replay panics.** The replay stops early only for a repeated index
  (src/analyzer.rs:189-193). The out-of-range cases above panic or wrap
  instead, and the model makes them preconditions.
- **Repeated-index guard.** The comments at src/analyzer.rs:258 and :265
  say the next index must exceed the current one and that the advance is
  forced to prevent a loop. The next index always exceeds the current one
  already: `Replay.ReplayJump` ensures the index it finds is above the
  current one, and `Replay.PathIncreasing` shows the visited indices
  strictly increase. So neither the repeated-index guard nor the forced
  advance ever fires. Both are kept as written: the guard in
  `ProcessTraceAndNumberEdges`, the forced advance in `ReplayStep`.

## Model

| member | source | states |
|---|---|---|
| JumpTable.DecodeJumpTable | src/analyzer.rs:121-130 | the nested bit loops return exactly the set of pcs `(8*byte + bit) mod 65536` whose bit is set |
| JumpTable.JumpDestsExact | src/analyzer.rs:121-130 | for a table of at most 8192 bytes, pc is a valid destination iff pc < 8·len and bit pc mod 8 of byte pc div 8 is set (so no pc ≥ 8·len) |
| JumpTable.JumpDestsWrap | src/analyzer.rs:126 | for a longer table the `as u16` cast wraps: a set bit at position k makes k mod 65536 valid |
| HexWord.ParseHexU16 | src/analyzer.rs:207 | parsing succeeds iff, after an optional leading '+', the text is a non-empty run of hex digits whose value is below 65536, and then yields that value |
| HexWord.ParseStackWord | src/analyzer.rs:207-231 | a word with its two-character prefix dropped parses to the value of its hex digits (an optional '+' aside); a word with no hex digit after the prefix fails to parse |
| HexWord.HexValueOfToHex | src/analyzer.rs:207 | the lowercase hex rendering of n is non-empty, has no sign, is all hex digits and reads back to n |
| HexWord.ParseStackWordRoundTrip | src/analyzer.rs:207 | parsing "0x" followed by the hex of n gives n when n fits in 16 bits and fails otherwise |
| Replay.MinPcAbove | src/analyzer.rs:214-226 | the result is a pc of some later step, above the current pc and no greater than any such pc; none exactly when no later pc is above the current one |
| Replay.PositionOfPc | src/analyzer.rs:259-263 | the result is the first position whose pc (0 if absent) equals the destination; none when no position does |
| Replay.Destination | src/analyzer.rs:204-235 | JUMP, and JUMPI with a non-zero condition, go to the parsed top of stack (0 on failure); a zero-condition JUMPI goes to the least later pc above the current one, or current pc + 1 when there is none |
| Replay.KindAt | src/analyzer.rs:240-246 | a JUMP is labelled Jump and only a JUMP is; a JUMPI is labelled ConditionFalse iff its destination is current pc + 1, otherwise ConditionTrue; the replay never labels SymbolicJump |
| Replay.ZeroConditionKind | src/analyzer.rs:211-246 | a zero-condition JUMPI is labelled ConditionFalse iff current pc + 1 occurs later or no later pc is above the current one; otherwise it is labelled ConditionTrue |
| Replay.WideConditionReadsAsZero | src/analyzer.rs:211 | a JUMPI condition word of 0x10000 or more fails the 16-bit parse and counts as zero |
| Replay.NextIndex | src/analyzer.rs:259-277 | the next index is above i and at most the trace length; i + 1 at a non-jump step; at a jump, the first later index at the destination pc, or i + 1 when none exists |
| Replay.PathIncreasing | src/analyzer.rs:187-198 | the visited indices strictly increase and stay inside the trace, so there are at most len(trace) iterations and no index is seen twice |
| Replay.ReplayKeysBounded | src/analyzer.rs:187-256 | no more edge keys are met than there are trace steps, so the counter is at most the trace length |
| Replay.ReplayNumbering | src/analyzer.rs:181-281 | the numbering covers exactly the keys met; its numbers are exactly 0..k−1 for the k distinct keys; each key's number is the count of distinct keys before its first occurrence, so numbers grow in first-occurrence order |
| Replay.JumpKeepsReplay | src/analyzer.rs:248-263 | a jump step's CFG and numbering updates leave the graph and numbering still owed by the rest of the replay unchanged |
| Replay.SkipKeepsReplay | src/analyzer.rs:272-277 | a step that is not a JUMP or JUMPI meets no key and moves on to the next index |
| Replay.ReplayStep | src/analyzer.rs:196-277 | one pass of the loop body: a step that is not a JUMP or JUMPI leaves the CFG, numbering and counter unchanged; a jump step adds its key's pair to the CFG unless the pair is joined and numbers the key with the counter iff it is new; either way the index moves to `NextIndex`, after the forced advance, and the numbering and CFG still owed by the rest of the replay are unchanged |
| Replay.ReplayJump | src/analyzer.rs:200-263 | one jump step adds its key's pair to the CFG unless the pair is joined, numbers the key with the counter iff it is new, and finds a next index that is above i, so the forced advance never fires, and equals `NextIndex`; the kind is `KindAt` |
| Replay.ProcessTraceAndNumberEdges | src/analyzer.rs:181-281 | the loop returns the numbering of the keys met along the replay and leaves the CFG with each met key's pair added when not yet joined |
| EdgeNumbering.NumberFrom | src/analyzer.rs:252-256 | numbering further keys never lowers the counter |
| EdgeNumbering.NumberFromKeys | src/analyzer.rs:252-256 | the keys numbered afterwards are exactly the ones numbered before plus the keys met |
| EdgeNumbering.Numbering | src/analyzer.rs:252-256 | the numbered keys are exactly the distinct keys met, and every number is below the count of distinct keys |
| EdgeNumbering.NumberFromExtends | src/analyzer.rs:252-256 | numbering further keys never changes or removes a number already given, and never lowers the counter |
| EdgeNumbering.NumberFromDense | src/analyzer.rs:252-256 | a numbering whose values are exactly 0..c−1, each given once, stays so as keys are numbered |
| EdgeNumbering.NumberFromRanks | src/analyzer.rs:252-256 | numbering a key list from the start gives each first occurrence the count of distinct keys before it |
| EdgeNumbering.NumberingSpec | src/analyzer.rs:252-256 | the numbering's keys are the distinct keys; the counter equals their count and is at most the list length; the numbers are dense, by first occurrence, and increasing in first-occurrence order |
| CfgGraph.AddIfAbsent | src/analyzer.rs:248-250 | a pair already joined leaves the graph unchanged; otherwise the pair gets the key's kind and both endpoints become nodes; a well-formed graph stays well formed |
| CfgGraph.AddEdgesShape | src/analyzer.rs:248-250 | adding the met keys keeps every edge's endpoints among the nodes; the joined pairs become the old ones plus the pairs met; the nodes gain the endpoints met |
| CfgGraph.AddEdgesKeepsKinds | src/analyzer.rs:248-250 | a pair already joined keeps its kind: `contains_edge` blocks the update |
| CfgGraph.AddEdgesFirstKind | src/analyzer.rs:248-250 | a pair not joined before gets the kind of the first key met on that pair |
| CfgGraph.AddEdgesMetPair | src/analyzer.rs:248-256 | a pair the replay meets and that was not joined before ends up joined under the kind of a key the replay met for it |
| GlobalGraph.ContainsSstore | src/analyzer.rs:294 | the flag holds iff some instruction's opcode is 0x55 |
| GlobalGraph.ContainsAddOrSub | src/analyzer.rs:297-300 | the flag holds iff some instruction's opcode is 0x01 or 0x03 |
| GlobalGraph.MakeNode | src/analyzer.rs:290-309 | the node carries the contract address, the block's start pc and text, and the SSTORE and ADD/SUB flags hold iff some instruction of the block has that opcode |
| GlobalGraph.CallGraphEdges | src/analyzer.rs:344-357 | an external edge exists iff some call record has its caller (address, pc) and callee (address, 0) both mapped; it is labelled with the call type; at most one per record |
| GlobalGraph.InternalEdgesShape | src/analyzer.rs:319-339 | one internal edge per eligible CFG edge, in order, from the mapped node of its source pc to that of its target pc, labelled with the kind's name |
| GlobalGraph.NoDuplicateNodes | src/analyzer.rs:286-315 | when no two blocks of a contract start at the same pc, the nodes added for distinct executed blocks have distinct (address, pc) keys |
| GlobalGraph.AddNodeKeepsValid | src/analyzer.rs:310-313 | appending a node for an executed pc and mapping its key to it keeps every mapped key pointing at a node with that address and pc |
| GlobalGraph.AddEdgesKeepValid | src/analyzer.rs:331-355 | edges between mapped nodes keep every edge's endpoints inside the node list |
| GlobalGraph.TransactionAnalyzer.constructor | src/analyzer.rs:71-109 | stands for `new` followed by `generate_contract_cfgs`: a new analyzer holds the given contract CFGs and call records, with an empty global graph and an empty node mapping; it satisfies the graph invariants |
| GlobalGraph.TransactionAnalyzer.AddBlockNode | src/analyzer.rs:289-313 | appends exactly the node made from the block and maps (address, start pc) to its index, overwriting any earlier entry; every other node and mapping entry is unchanged, and the graph invariants hold |
| GlobalGraph.TransactionAnalyzer.AddContractNodes | src/analyzer.rs:287-315 | over one contract's CFG nodes, exactly the executed blocks get a node, each once, appended after the nodes already present, which stay in place with their origins |
| GlobalGraph.TransactionAnalyzer.AddExecutedNodes | src/analyzer.rs:286-316 | every executed block of every contract gets exactly one node; each (address, start pc) key maps to the last node added under it, and keys already mapped stay mapped; every global node's pc is executed in its contract |
| GlobalGraph.TransactionAnalyzer.AddInternalEdge | src/analyzer.rs:330-336 | appends the internal edge of one eligible CFG edge |
| GlobalGraph.TransactionAnalyzer.AddContractInternalEdges | src/analyzer.rs:320-338 | over one contract's CFG edges, exactly those with both ends executed and mapped become internal edges, each once, appended after the edges already present, which stay in place with their origins |
| GlobalGraph.TransactionAnalyzer.AddInternalEdges | src/analyzer.rs:319-339 | the edges added are exactly one internal edge per CFG edge whose two ends are executed and mapped |
| GlobalGraph.TransactionAnalyzer.AddCallEdge | src/analyzer.rs:345-356 | handles one call record: an external edge is appended iff both of its ends are mapped |
| GlobalGraph.TransactionAnalyzer.AddCallEdges | src/analyzer.rs:343-357 | the edges added are exactly `CallGraphEdges` of the call records, in record order |
| GlobalGraph.TransactionAnalyzer.BuildGlobalTransactionGraph | src/analyzer.rs:284-360 | the nodes are one per executed block; then one internal edge per eligible CFG edge; then the mapped call edges, in order; the graph invariants hold |
| ContractCfgGen.ReplayedCfg | src/analyzer.rs:170-178 | the recorded contract CFG keeps the runner's lookup, the blocks and the executed pcs; its graph is the replayed graph and its numbered keys are exactly the keys met |
| ContractCfgGen.FinishContractCfg | src/analyzer.rs:170-178 | replaying the contract's steps on the runner and recording the result gives `ReplayedCfg` of the runner's graph before the replay, and the runner is left holding the recorded graph |
| ContractCfgGen.ReplayedEdgesNumbered | src/analyzer.rs:170-178 | in a recorded contract CFG, every numbered key joins a pair of the graph, and every pair the replay joined carries the kind of a numbered key |
| Highlight.FillColor | src/analyzer.rs:379-385 | the colour is #f7768e iff the node contains SSTORE; #ff9e64 iff it contains ADD/SUB but not SSTORE; #9ece6a iff it contains neither |
| Highlight.FillColorOfBlock | src/analyzer.rs:294-300 | the colour of a block's node in terms of its opcodes: SSTORE first, then ADD/SUB, then the default |
| Highlight.KindOfLabel | src/analyzer.rs:409-414 | the three kind names map to their kinds, and any other label maps to Jump |
| Highlight.KindOfLabelRoundTrip | src/analyzer.rs:409-414 | reading back the Debug name an internal edge was labelled with recovers its kind |
| Highlight.EdgeNumber | src/analyzer.rs:416 | the rendered number is the key's number when it has one, else 0 |
| Highlight.InternalEdgeNumber | src/analyzer.rs:400-416 | the number on an internal edge is that of the key built from the blocks of its two nodes' pcs and the kind read from its label, or 0 when that key was never numbered |
| Highlight.InternalEdgeNumberOfCfgEdge | src/analyzer.rs:400-416 | an internal edge renders with the number of its own CFG edge key, or 0 when the replay never took that edge, provided each block's start pc maps back to the block |

## Left out

- Bytecode fetching (`fetch_bytecodes`, network I/O) and trace-file parsing (`from_trace_file`) are not modelled. Nor are the `trace::extract_*`, `filter_steps_by_address` and `get_executed_pcs` helpers, whose code is not part of this model. Their outputs (trace steps, call records, executed pcs, contract CFGs) are inputs.
- The bytecode analysis in `revm` (`to_analysed`, `legacy_jump_table`) is a foreign library. Only the bitmap it returns is modelled, and its error path (no jump table) is left out.
- Disassembly, stack analysis, CFG construction and the symbolic-cycle pass (`generate_single_contract_cfg` beyond the bitmap decode and its final replay-and-record step, and the loop of `generate_contract_cfgs`) are not part of this model. Their modules are not shown. `get_node_from_pc` is an abstract total function, and a contract's CFG, blocks and edge numbering are given values.
- DOT text, edge style strings, `InstructionBlock::to_string` and `H160` Debug formatting are left out as cosmetic. Block text is an uninterpreted string field.
- File writes (`save_global_graph_dot`, `save_contract_highlighted_cfgs`), the `dot` subprocess (`convert_to_image`), `println!` logging and `Box::leak` are I/O or memory-ownership details.
- Hash-map iteration order, and so petgraph node indices, is an arbitrary choice. Nothing is claimed about index values beyond the mapping's consistency.
- Replay.ProcessTraceAndNumberEdges: `edge_counter` is a `u32`. It is a `nat` here because `Replay.ReplayNumbering` bounds it by the trace length.
- Replay.StepOk: stack words are taken to be ASCII, so the `&val[2..]` byte slice is modelled as dropping two characters from a word of at least two characters. For a word with a multi-byte UTF-8 character in its first two bytes the model differs from the code: the code panics on a char boundary or slices mid-word ("é5" reads as "5"), while the model drops two characters ("é5" reads as "", that is 0) or excludes a one-character word such as "é".
- Replay.ProcessTraceAndNumberEdges: a trace that would panic (a short JUMPI stack, a JUMPI at pc 65535, a stack word shorter than two characters) is excluded by the precondition `Replayable`. Its panic is not modelled as an outcome, and neither is the release-build wrap-around: there a JUMPI with fewer than two stack entries reads its condition as 0, and a JUMPI at pc 65535 compares its destination with 0, so a zero-condition one goes to pc 0 as `ConditionFalse`.
- Replay.StepOk: the JUMPI conditions it excludes (fewer than two stack entries, pc 65535) panic only in a debug build. In a release build `stack.len() - 2` wraps and the condition reads as 0, and `current_pc + 1` wraps to 0. These release-build outcomes are not modelled.
- The `address` field of `ContractCFG` (src/analyzer.rs:24, :174) is not stored in the `ContractCfg` datatype; a contract's address is its key in the analyzer's map of contract CFGs.
- GlobalGraph.CfgWellFormed: the `unwrap` on the block lookup at src/analyzer.rs:290 is modelled as this precondition, part of `Valid()`: every executed CFG node has a block. A node that the replay adds to the CFG need not have a block, and a trace that makes that `unwrap` panic is excluded rather than modelled.
- Highlight.InternalEdgeNumberOfCfgEdge: holds only for contracts whose `get_node_from_pc` maps each block's start pc back to that block. CFG construction is not modelled, so this is a hypothesis.
