/**
 * The trace replayer and edge numberer
 * (`TransactionAnalyzer::process_trace_and_number_edges`). It walks one
 * contract's trace, and at every JUMP or JUMPI works out the destination
 * taken, adds the (from block, to block) edge to the CFG unless the pair is
 * already joined, numbers the edge key on its first occurrence and moves
 * on to the next trace position where the destination pc occurs.
 *
 * The replay is specified by the functions below (the destination, kind
 * and next index of a step, and the sequence of edge keys met from a
 * given index), and the method is proved to compute the numbering and the
 * new CFG that those functions determine.
 */
module Replay {
  import opened Wrappers
  import opened CfgGraph
  import opened HexWord
  import opened Trace
  import opened EdgeNumbering

  predicate IsJumpStep(s: TraceStep) {
    s.op == Some("JUMP") || s.op == Some("JUMPI")
  }

  /** A stack word read as a pc, with 0 when it does not parse. */
  function WordOrZero(word: string): Pc
    requires |word| >= 2
  {
    ParseStackWord(word).GetOr(0)
  }

  /** `stack.last()` parsed, or 0: the jump target on top of the stack. */
  function TopTarget(stack: seq<string>): Pc
    requires stack == [] || |stack[|stack| - 1]| >= 2
  {
    if stack == [] then 0 else WordOrZero(stack[|stack| - 1])
  }

  /** `stack.get(stack.len() - 2)` parsed, or 0: the JUMPI condition, read as a 16-bit value. */
  function Condition(stack: seq<string>): Pc
    requires |stack| >= 2 && |stack[|stack| - 2]| >= 2
  {
    WordOrZero(stack[|stack| - 2])
  }

  /**
   * What a step must satisfy for the replay not to panic on it: every word
   * it reads has the two prefix characters that are sliced off, and a JUMPI
   * has two stack entries (`stack.len() - 2` does not underflow) and a pc
   * below 65535 (`current_pc + 1` does not overflow).
   */
  predicate StepOk(s: TraceStep) {
    var stack := StackOf(s);
    && (s.op == Some("JUMP") ==> stack == [] || |stack[|stack| - 1]| >= 2)
    && (s.op == Some("JUMPI") ==>
          && |stack| >= 2 && |stack[|stack| - 2]| >= 2
          && PcOrZero(s) < MaxPc
          && (Condition(stack) != 0 ==> |stack[|stack| - 1]| >= 2))
  }

  /**
   * The smallest pc greater than `cur` among the steps of `rest` that carry
   * a pc (`filter_map`, `filter`, `min_by_key`), if there is one.
   */
  function MinPcAbove(rest: seq<TraceStep>, cur: Pc): (r: Option<Pc>)
    ensures r.Some? ==> r.value > cur && exists k :: 0 <= k < |rest| && rest[k].pc == Some(r.value)
    ensures r.Some? ==> forall k | 0 <= k < |rest| && rest[k].pc.Some? && rest[k].pc.value > cur ::
                          r.value <= rest[k].pc.value
    ensures r.None? ==> forall k | 0 <= k < |rest| && rest[k].pc.Some? :: rest[k].pc.value <= cur
    decreases |rest|
  {
    if rest == [] then None
    else
      var tail := MinPcAbove(rest[1..], cur);
      assert forall k | 1 <= k < |rest| :: rest[k] == rest[1..][k - 1];
      match rest[0].pc
      case Some(p) =>
        if p <= cur then tail
        else if tail.Some? && tail.value < p then tail
        else Some(p)
      case None => tail
  }

  /** `position` of the first step of `rest` whose `pc.unwrap_or(0)` is `pc`. */
  function PositionOfPc(rest: seq<TraceStep>, pc: Pc): (r: Option<nat>)
    ensures r.Some? ==> r.value < |rest| && PcOrZero(rest[r.value]) == pc
    ensures r.Some? ==> forall k | 0 <= k < r.value :: PcOrZero(rest[k]) != pc
    ensures r.None? ==> forall k | 0 <= k < |rest| :: PcOrZero(rest[k]) != pc
    decreases |rest|
  {
    if rest == [] then None
    else if PcOrZero(rest[0]) == pc then Some(0)
    else
      var tail := PositionOfPc(rest[1..], pc);
      assert forall k | 1 <= k < |rest| :: rest[k] == rest[1..][k - 1];
      match tail
      case Some(k) => Some(k + 1)
      case None => None
  }

  /**
   * The destination pc of the jump at step `i`: for a JUMP, and for a JUMPI
   * whose condition is non-zero, the target on top of the stack (0 if it
   * does not parse); for a JUMPI whose condition reads as zero, the smallest
   * pc above the current one among the later steps, or the current pc + 1
   * if there is none.
   */
  function Destination(steps: seq<TraceStep>, i: nat): (dest: Pc)
    requires i < |steps| && IsJumpStep(steps[i]) && StepOk(steps[i])
    ensures steps[i].op == Some("JUMPI") && Condition(StackOf(steps[i])) == 0 ==>
              && dest > PcOrZero(steps[i])
              && (forall j | i < j < |steps| && steps[j].pc.Some? && steps[j].pc.value > PcOrZero(steps[i]) ::
                    dest <= steps[j].pc.value)
              && ((exists j :: i < j < |steps| && steps[j].pc.Some? && steps[j].pc.value > PcOrZero(steps[i])) ==>
                    exists j :: i < j < |steps| && steps[j].pc == Some(dest))
              && ((forall j | i < j < |steps| && steps[j].pc.Some? :: steps[j].pc.value <= PcOrZero(steps[i])) ==>
                    dest == PcOrZero(steps[i]) + 1)
    ensures steps[i].op != Some("JUMPI") || Condition(StackOf(steps[i])) != 0 ==>
              dest == TopTarget(StackOf(steps[i]))
  {
    var s := steps[i];
    var stack := StackOf(s);
    var cur := PcOrZero(s);
    if s.op == Some("JUMP") then TopTarget(stack)
    else if Condition(stack) == 0 then
      var rest := steps[i + 1..];
      assert forall j | i < j < |steps| :: steps[j] == rest[j - (i + 1)];
      match MinPcAbove(rest, cur)
      case Some(p) => p
      case None => cur + 1
    else TopTarget(stack)
  }

  /** The edge kind of the jump at step `i`: JUMP gives Jump; a JUMPI gives ConditionFalse exactly when it lands on the next pc. */
  function KindAt(steps: seq<TraceStep>, i: nat): (k: EdgeKind)
    requires i < |steps| && IsJumpStep(steps[i]) && StepOk(steps[i])
    ensures steps[i].op == Some("JUMP") <==> k == Jump
    ensures steps[i].op == Some("JUMPI") ==> (k == ConditionFalse <==> Destination(steps, i) == PcOrZero(steps[i]) + 1)
    ensures k != SymbolicJump
  {
    if steps[i].op == Some("JUMP") then Jump
    else if Destination(steps, i) == PcOrZero(steps[i]) + 1 then ConditionFalse
    else ConditionTrue
  }

  /**
   * A JUMPI whose condition reads as zero is labelled ConditionFalse
   * exactly when a later step is at the next pc, or no later step is above
   * the current pc. So when the next pc never shows up but a higher one
   * does, a not-taken branch is labelled ConditionTrue.
   */
  lemma {:induction false} ZeroConditionKind(steps: seq<TraceStep>, i: nat)
    requires i < |steps| && steps[i].op == Some("JUMPI") && StepOk(steps[i])
    requires Condition(StackOf(steps[i])) == 0
    ensures KindAt(steps, i) == ConditionFalse
        <==> || (exists j :: i < j < |steps| && steps[j].pc == Some(PcOrZero(steps[i]) + 1))
             || (forall j | i < j < |steps| && steps[j].pc.Some? :: steps[j].pc.value <= PcOrZero(steps[i]))
  {
    var cur := PcOrZero(steps[i]);
    var dest := Destination(steps, i);
    assert KindAt(steps, i) == ConditionFalse <==> dest == cur + 1;
    if exists j :: i < j < |steps| && steps[j].pc == Some(cur + 1) {
      var j :| i < j < |steps| && steps[j].pc == Some(cur + 1);
      assert dest <= cur + 1;
    } else if exists j :: i < j < |steps| && steps[j].pc.Some? && steps[j].pc.value > cur {
      var j :| i < j < |steps| && steps[j].pc == Some(dest);
      assert dest != cur + 1;
    }
  }

  /**
   * The JUMPI condition is parsed as a 16-bit value, so a condition word
   * of 0x10000 or more does not parse and reads as zero (branch not taken).
   */
  lemma WideConditionReadsAsZero(stack: seq<string>, n: nat)
    requires |stack| >= 2 && stack[|stack| - 2] == "0x" + ToHex(n) && n >= 0x1_0000
    ensures Condition(stack) == 0
  {
    ParseStackWordRoundTrip(n);
  }

  /** The key numbered at the jump of step `i`. */
  function EdgeKeyAt(nodeOf: Pc -> Block, steps: seq<TraceStep>, i: nat): EdgeKey
    requires i < |steps| && IsJumpStep(steps[i]) && StepOk(steps[i])
  {
    EdgeKey(nodeOf(PcOrZero(steps[i])), nodeOf(Destination(steps, i)), KindAt(steps, i))
  }

  /**
   * The index the replay moves to after step `i`. It is always greater
   * than `i`: at a jump, the first later index whose pc is the destination,
   * or else `i + 1`; at any other step, `i + 1`.
   */
  function NextIndex(steps: seq<TraceStep>, i: nat): (next: nat)
    requires i < |steps| && StepOk(steps[i])
    ensures i < next <= |steps|
    ensures !IsJumpStep(steps[i]) ==> next == i + 1
    ensures IsJumpStep(steps[i]) ==> forall j | i < j < next :: PcOrZero(steps[j]) != Destination(steps, i)
    ensures IsJumpStep(steps[i]) && next < |steps| && (exists j :: i < j < |steps| && PcOrZero(steps[j]) == Destination(steps, i)) ==>
              PcOrZero(steps[next]) == Destination(steps, i)
    ensures IsJumpStep(steps[i]) && (forall j | i < j < |steps| :: PcOrZero(steps[j]) != Destination(steps, i)) ==>
              next == i + 1
  {
    if IsJumpStep(steps[i]) then
      var rest := steps[i + 1..];
      var found := PositionOfPc(rest, Destination(steps, i));
      assert forall j | i < j < |steps| :: steps[j] == rest[j - (i + 1)];
      var next := if found.Some? then i + 1 + found.value else i + 1;
      if next <= i then i + 1 else next
    else i + 1
  }

  /** Every step the replay visits from index `i` on satisfies `StepOk`. */
  predicate Replayable(steps: seq<TraceStep>, i: nat)
    decreases |steps| - i
  {
    i >= |steps| || (StepOk(steps[i]) && Replayable(steps, NextIndex(steps, i)))
  }

  /** The trace indices the replay visits from index `i` on, in order. */
  function Path(steps: seq<TraceStep>, i: nat): seq<nat>
    requires Replayable(steps, i)
    decreases |steps| - i
  {
    if i >= |steps| then [] else [i] + Path(steps, NextIndex(steps, i))
  }

  /** The edge keys the replay meets from index `i` on, in order. */
  function ReplayKeys(nodeOf: Pc -> Block, steps: seq<TraceStep>, i: nat): seq<EdgeKey>
    requires Replayable(steps, i)
    decreases |steps| - i
  {
    if i >= |steps| then []
    else if IsJumpStep(steps[i]) then [EdgeKeyAt(nodeOf, steps, i)] + ReplayKeys(nodeOf, steps, NextIndex(steps, i))
    else ReplayKeys(nodeOf, steps, NextIndex(steps, i))
  }

  /**
   * The replay index strictly increases and stays inside the trace, so the
   * loop runs at most `|steps| - i` times and never revisits an index.
   */
  lemma {:induction false} PathIncreasing(steps: seq<TraceStep>, i: nat)
    requires i <= |steps| && Replayable(steps, i)
    ensures forall k | 0 <= k < |Path(steps, i)| :: i <= Path(steps, i)[k] < |steps|
    ensures forall k1, k2 | 0 <= k1 < k2 < |Path(steps, i)| :: Path(steps, i)[k1] < Path(steps, i)[k2]
    ensures |Path(steps, i)| <= |steps| - i
    decreases |steps| - i
  {
    if i < |steps| {
      PathIncreasing(steps, NextIndex(steps, i));
    }
  }

  /** No more keys are met than there are trace steps left, so the counter is at most `|steps|`. */
  lemma {:induction false} ReplayKeysBounded(nodeOf: Pc -> Block, steps: seq<TraceStep>, i: nat)
    requires i <= |steps| && Replayable(steps, i)
    ensures |ReplayKeys(nodeOf, steps, i)| <= |steps| - i
    decreases |steps| - i
  {
    if i < |steps| {
      ReplayKeysBounded(nodeOf, steps, NextIndex(steps, i));
    }
  }

  /**
   * The numbering a replay produces: every key met has a number and no
   * other key does; the numbers are exactly 0, ..., k - 1 for the k distinct
   * keys met, with k at most the trace length; a key's number is the count
   * of distinct keys met before its first occurrence, so numbers increase in
   * first-occurrence order along the replay.
   */
  lemma ReplayNumbering(nodeOf: Pc -> Block, steps: seq<TraceStep>)
    requires Replayable(steps, 0)
    ensures var keys := ReplayKeys(nodeOf, steps, 0);
            var (m, c) := NumberFrom(keys, map[], 0);
            && m.Keys == Elems(keys)
            && c == |m.Keys| <= |steps|
            && Dense(m, c)
            && (forall q | 0 <= q < |keys| && keys[q] !in keys[..q] :: m[keys[q]] == |Elems(keys[..q])|)
            && (forall q1, q2 | 0 <= q1 < q2 < |keys| && keys[q1] !in keys[..q1] && keys[q2] !in keys[..q2] ::
                  m[keys[q1]] < m[keys[q2]])
  {
    NumberingSpec(ReplayKeys(nodeOf, steps, 0));
    ReplayKeysBounded(nodeOf, steps, 0);
  }

  /** One loop iteration's view of the keys: the key of step `i`, if it jumps, then those met from the next index. */
  lemma ReplayKeysUnfold(nodeOf: Pc -> Block, steps: seq<TraceStep>, i: nat)
    requires i < |steps| && Replayable(steps, i)
    ensures StepOk(steps[i]) && Replayable(steps, NextIndex(steps, i))
    ensures ReplayKeys(nodeOf, steps, i)
         == (if IsJumpStep(steps[i]) then [EdgeKeyAt(nodeOf, steps, i)] else []) + ReplayKeys(nodeOf, steps, NextIndex(steps, i))
  {
  }

  /** Meeting key `k` first: the numbering and CFG updates of one jump step. */
  lemma MeetKey(k: EdgeKey, rest: seq<EdgeKey>, m: map<EdgeKey, nat>, c: nat, d: Dag)
    ensures NumberFrom([k] + rest, m, c)
         == if k in m then NumberFrom(rest, m, c) else NumberFrom(rest, m[k := c], c + 1)
    ensures AddEdges(d, [k] + rest) == AddEdges(AddIfAbsent(d, k), rest)
  {
    assert ([k] + rest)[1..] == rest;
  }

  /** A jump step's updates carry the numbering and CFG still owed by the replay over to the next index. */
  lemma JumpKeepsReplay(nodeOf: Pc -> Block, steps: seq<TraceStep>, i: nat,
                        m: map<EdgeKey, nat>, c: nat, d: Dag, m': map<EdgeKey, nat>, c': nat, d': Dag)
    requires i < |steps| && Replayable(steps, i) && IsJumpStep(steps[i])
    requires var key := EdgeKeyAt(nodeOf, steps, i);
             && d' == AddIfAbsent(d, key)
             && (m', c') == if key in m then (m, c) else (m[key := c], c + 1)
    ensures Replayable(steps, NextIndex(steps, i))
    ensures NumberFrom(ReplayKeys(nodeOf, steps, NextIndex(steps, i)), m', c') == NumberFrom(ReplayKeys(nodeOf, steps, i), m, c)
    ensures AddEdges(d', ReplayKeys(nodeOf, steps, NextIndex(steps, i))) == AddEdges(d, ReplayKeys(nodeOf, steps, i))
  {
    ReplayKeysUnfold(nodeOf, steps, i);
    MeetKey(EdgeKeyAt(nodeOf, steps, i), ReplayKeys(nodeOf, steps, NextIndex(steps, i)), m, c, d);
  }

  /** A step that is not a jump meets no key: the replay owes the same keys from the next index. */
  lemma SkipKeepsReplay(nodeOf: Pc -> Block, steps: seq<TraceStep>, i: nat)
    requires i < |steps| && Replayable(steps, i) && !IsJumpStep(steps[i])
    ensures Replayable(steps, i + 1)
    ensures ReplayKeys(nodeOf, steps, i + 1) == ReplayKeys(nodeOf, steps, i)
  {
    ReplayKeysUnfold(nodeOf, steps, i);
  }

  /**
   * The body of the replay loop at a jump step `i`: work out the
   * destination and kind, add the edge to the CFG unless its pair is already
   * joined, number the key if it is new, and find the first later index at
   * the destination pc (`i + 1` if there is none).
   */
  method ReplayJump(cfg: CfgRunner, steps: seq<TraceStep>, i: nat, edgeNumbering: map<EdgeKey, nat>, edgeCounter: nat)
    returns (edgeNumbering': map<EdgeKey, nat>, edgeCounter': nat, nextIndex: nat)
    requires i < |steps| && IsJumpStep(steps[i]) && StepOk(steps[i])
    modifies cfg`cfgDag
    ensures var key := EdgeKeyAt(cfg.nodeOf, steps, i);
            && cfg.cfgDag == AddIfAbsent(old(cfg.cfgDag), key)
            && (edgeNumbering', edgeCounter')
               == if key in edgeNumbering then (edgeNumbering, edgeCounter) else (edgeNumbering[key := edgeCounter], edgeCounter + 1)
    ensures nextIndex > i
    ensures nextIndex == NextIndex(steps, i)
  {
    var currentStep := steps[i];
    var currentPc := PcOrZero(currentStep);
    var destinationPc := Destination(steps, i);
    var fromNode := cfg.GetNodeFromPc(currentPc);
    var toNode := cfg.GetNodeFromPc(destinationPc);
    var edgeType := KindAt(steps, i);
    if !cfg.cfgDag.ContainsEdge(fromNode, toNode) {
      cfg.cfgDag := WithEdge(cfg.cfgDag, fromNode, toNode, edgeType);
    }
    var edgeKey := EdgeKey(fromNode, toNode, edgeType);
    assert edgeKey == EdgeKeyAt(cfg.nodeOf, steps, i);
    edgeNumbering', edgeCounter' := edgeNumbering, edgeCounter;
    if edgeKey !in edgeNumbering {
      edgeNumbering' := edgeNumbering[edgeKey := edgeCounter];
      edgeCounter' := edgeCounter + 1;
    }
    var found := PositionOfPc(steps[i + 1..], destinationPc);
    nextIndex := if found.Some? then i + 1 + found.value else i + 1;
  }

  /**
   * One pass of the replay loop at index `i`, after the repeated-index
   * check: a jump step is replayed and the index moves to the one found
   * (forced above `i`); any other step moves to `i + 1`. The numbering and
   * CFG still owed by the replay from the new index are those owed from `i`.
   */
  method ReplayStep(cfg: CfgRunner, steps: seq<TraceStep>, i: nat, edgeNumbering: map<EdgeKey, nat>, edgeCounter: nat)
    returns (edgeNumbering': map<EdgeKey, nat>, edgeCounter': nat, next: nat)
    requires i < |steps| && Replayable(steps, i)
    modifies cfg`cfgDag
    ensures !IsJumpStep(steps[i]) ==>
              cfg.cfgDag == old(cfg.cfgDag) && edgeNumbering' == edgeNumbering && edgeCounter' == edgeCounter
    ensures IsJumpStep(steps[i]) ==>
              && StepOk(steps[i])
              && var key := EdgeKeyAt(cfg.nodeOf, steps, i);
                 && cfg.cfgDag == AddIfAbsent(old(cfg.cfgDag), key)
                 && (edgeNumbering', edgeCounter')
                    == if key in edgeNumbering then (edgeNumbering, edgeCounter) else (edgeNumbering[key := edgeCounter], edgeCounter + 1)
    ensures next == NextIndex(steps, i) && Replayable(steps, next)
    ensures NumberFrom(ReplayKeys(cfg.nodeOf, steps, next), edgeNumbering', edgeCounter')
         == NumberFrom(ReplayKeys(cfg.nodeOf, steps, i), edgeNumbering, edgeCounter)
    ensures AddEdges(cfg.cfgDag, ReplayKeys(cfg.nodeOf, steps, next))
         == AddEdges(old(cfg.cfgDag), ReplayKeys(cfg.nodeOf, steps, i))
  {
    var currentStep := steps[i];
    var currentIndex: int := i;
    if currentStep.op.Some? && (currentStep.op.value == "JUMP" || currentStep.op.value == "JUMPI") {
      var nextIndex;
      edgeNumbering', edgeCounter', nextIndex := ReplayJump(cfg, steps, i, edgeNumbering, edgeCounter);
      JumpKeepsReplay(cfg.nodeOf, steps, i, edgeNumbering, edgeCounter, old(cfg.cfgDag), edgeNumbering', edgeCounter', cfg.cfgDag);
      var advanced: int := if nextIndex <= currentIndex then currentIndex + 1 else nextIndex;
      next := advanced;
    } else {
      SkipKeepsReplay(cfg.nodeOf, steps, i);
      edgeNumbering', edgeCounter', next := edgeNumbering, edgeCounter, i + 1;
    }
  }

  /**
   * `process_trace_and_number_edges`: replays `steps` against `cfg`,
   * returning the edge numbering and leaving in `cfg` the CFG with every
   * edge met added where its pair was not yet joined.
   */
  method ProcessTraceAndNumberEdges(cfg: CfgRunner, steps: seq<TraceStep>) returns (edgeNumbering: map<EdgeKey, nat>)
    requires Replayable(steps, 0)
    modifies cfg
    ensures edgeNumbering == Numbering(ReplayKeys(cfg.nodeOf, steps, 0))
    ensures cfg.cfgDag == AddEdges(old(cfg.cfgDag), ReplayKeys(cfg.nodeOf, steps, 0))
  {
    ghost var keys := ReplayKeys(cfg.nodeOf, steps, 0);
    ghost var numbered := NumberFrom(keys, map[], 0);
    ghost var replayed := AddEdges(cfg.cfgDag, keys);
    edgeNumbering := map[];
    var edgeCounter: nat := 0;
    var seenLineNumbers: set<nat> := {};
    var i: int := 0;
    while i < |steps|
      invariant 0 <= i <= |steps| && Replayable(steps, i)
      invariant forall j | j in seenLineNumbers :: j < i
      invariant NumberFrom(ReplayKeys(cfg.nodeOf, steps, i), edgeNumbering, edgeCounter) == numbered
      invariant AddEdges(cfg.cfgDag, ReplayKeys(cfg.nodeOf, steps, i)) == replayed
      decreases |steps| - i
    {
      if i in seenLineNumbers {
        break;
      }
      seenLineNumbers := seenLineNumbers + {i};
      edgeNumbering, edgeCounter, i := ReplayStep(cfg, steps, i, edgeNumbering, edgeCounter);
    }
  }
}
