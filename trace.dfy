/**
 * The records the analyzer reads from a parsed execution trace. Parsing the
 * trace file, filtering it by contract and extracting the call records are
 * not part of this model; their results are the inputs here.
 */
module Trace {
  import opened Wrappers
  import opened CfgGraph

  /** A 20-byte account address. */
  type Address = a: seq<bv8> | |a| == 20 witness seq(20, _ => 0 as bv8)

  /** One row of the trace: pc, opcode mnemonic and stack snapshot, each possibly absent. */
  datatype TraceStep = TraceStep(pc: Option<Pc>, op: Option<string>, stack: Option<seq<string>>)

  /** A cross-contract call: caller, call-site pc, callee and the call type (`CALL`, `DELEGATECALL`, ...). */
  datatype CallEdge = CallEdge(fromAddr: Address, fromPc: Pc, toAddr: Address, callType: string)

  /** `step.pc.unwrap_or(0)` */
  function PcOrZero(s: TraceStep): Pc {
    s.pc.GetOr(0)
  }

  /** The step's stack, or the empty default stack when the step carries none. */
  function StackOf(s: TraceStep): seq<string> {
    s.stack.GetOr([])
  }
}
