/**
 * Decoding of the valid-jump-destination bitmap that the bytecode analysis
 * returns: bit `b` of byte `i` set means pc `8 * i + b` is a JUMPDEST.
 * The pc is computed in machine integers and cast to u16, so in a table
 * longer than 8192 bytes it wraps modulo 65536.
 */
module JumpTable {
  import opened CfgGraph

  /** `byte & (1 << bit) != 0` */
  predicate BitSet(b: bv8, bit: nat)
    requires bit < 8
  {
    b & (1 << bit) != 0
  }

  /** The pcs produced by the first `n` bits of the table (bit `k` lives in byte `k / 8`). */
  ghost function DestsBelow(table: seq<bv8>, n: nat): set<Pc> {
    set k: nat | k < n && k < 8 * |table| && BitSet(table[k / 8], k % 8) :: k % 0x1_0000
  }

  /** The pcs the whole table marks as valid jump destinations. */
  ghost function JumpDests(table: seq<bv8>): set<Pc> {
    DestsBelow(table, 8 * |table|)
  }

  lemma DestsBelowStep(table: seq<bv8>, n: nat)
    requires n < 8 * |table|
    ensures DestsBelow(table, n + 1)
         == DestsBelow(table, n) + (if BitSet(table[n / 8], n % 8) then {n % 0x1_0000} else {})
  {
  }

  /** One bit of the decode: the bit at `byteIndex`, `bitIndex` adds its pc when set. */
  lemma DecodeStep(table: seq<bv8>, byteIndex: nat, bitIndex: nat)
    requires byteIndex < |table| && bitIndex < 8
    ensures DestsBelow(table, 8 * byteIndex + bitIndex + 1)
         == DestsBelow(table, 8 * byteIndex + bitIndex)
          + (if BitSet(table[byteIndex], bitIndex) then {(byteIndex * 8 + bitIndex) % 0x1_0000} else {})
  {
    var n := 8 * byteIndex + bitIndex;
    assert n / 8 == byteIndex && n % 8 == bitIndex;
    DestsBelowStep(table, n);
  }

  /** The nested loops that fill `set_all_valid_jumpdests`, one bit at a time. */
  method DecodeJumpTable(table: seq<bv8>) returns (dests: set<Pc>)
    ensures dests == JumpDests(table)
  {
    dests := {};
    for byteIndex := 0 to |table|
      invariant dests == DestsBelow(table, 8 * byteIndex)
    {
      var b := table[byteIndex];
      for bitIndex := 0 to 8
        invariant dests == DestsBelow(table, 8 * byteIndex + bitIndex)
      {
        DecodeStep(table, byteIndex, bitIndex);
        if BitSet(b, bitIndex) {
          var pc := (byteIndex * 8 + bitIndex) % 0x1_0000;
          dests := dests + {pc};
        }
      }
    }
  }

  /**
   * For a table of at most 8192 bytes no pc wraps: a pc is a valid jump
   * destination exactly when it is covered by the table and its bit is set.
   * In particular no pc at or beyond `8 * |table|` is ever present.
   */
  lemma JumpDestsExact(table: seq<bv8>, pc: Pc)
    requires |table| <= 0x2000
    ensures pc in JumpDests(table) <==> pc < 8 * |table| && BitSet(table[pc / 8], pc % 8)
  {
    if pc in JumpDests(table) {
      var k: nat :| k < 8 * |table| && BitSet(table[k / 8], k % 8) && k % 0x1_0000 == pc;
      assert k == pc;
    }
  }

  /**
   * For a longer table the cast wraps: a bit set at position `k` makes
   * `k mod 65536` valid, even when the table's own bit for that pc is clear.
   */
  lemma JumpDestsWrap(table: seq<bv8>, k: nat)
    requires k < 8 * |table| && BitSet(table[k / 8], k % 8)
    ensures k % 0x1_0000 in JumpDests(table)
  {
  }
}
