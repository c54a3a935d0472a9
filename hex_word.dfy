/**
 * Parsing of the hexadecimal stack words found in a trace: the analyzer
 * drops a word's first two characters (the `0x` prefix) and reads the rest
 * with `u16::from_str_radix(_, 16)`, turning any failure into 0.
 */
module HexWord {
  import opened Wrappers
  import opened CfgGraph

  /** `char::to_digit(16)`: the value of a hexadecimal digit of either case. */
  function DigitValue(c: char): Option<nat> {
    if '0' <= c <= '9' then Some(c as int - '0' as int)
    else if 'a' <= c <= 'f' then Some(c as int - 'a' as int + 10)
    else if 'A' <= c <= 'F' then Some(c as int - 'A' as int + 10)
    else None
  }

  predicate AllDigits(ds: string) {
    forall k | 0 <= k < |ds| :: DigitValue(ds[k]).Some?
  }

  /** The number a non-empty run of hexadecimal digits denotes (unbounded). */
  function HexValue(ds: string): nat
    requires AllDigits(ds)
    decreases |ds|
  {
    if ds == [] then 0 else HexValue(ds[..|ds| - 1]) * 16 + DigitValue(ds[|ds| - 1]).value
  }

  /**
   * `u16::from_str_radix(s, 16).ok()`: an optional leading `+`, then at
   * least one digit; the value must fit in 16 bits, otherwise the parse
   * fails with an overflow.
   */
  function ParseHexU16(s: string): (r: Option<Pc>)
    ensures r.Some? <==>
              var digits := if s != [] && s[0] == '+' then s[1..] else s;
              digits != [] && AllDigits(digits) && HexValue(digits) < 0x1_0000
    ensures r.Some? ==> r.value == HexValue(if s[0] == '+' then s[1..] else s)
  {
    if s == [] then None
    else
      var digits := if s[0] == '+' then s[1..] else s;
      if digits == [] || !AllDigits(digits) then None
      else if HexValue(digits) < 0x1_0000 then Some(HexValue(digits))
      else None
  }

  /** `u16::from_str_radix(&word[2..], 16).ok()` on a stack word of at least two characters. */
  function ParseStackWord(word: string): (r: Option<Pc>)
    requires |word| >= 2
    ensures r.Some? ==> exists ds :: (word[2..] == ds || word[2..] == "+" + ds) && AllDigits(ds) && r.value == HexValue(ds)
    ensures (forall k | 2 <= k < |word| :: DigitValue(word[k]).None?) ==> r.None?
  {
    ParseHexU16(word[2..])
  }

  /** The lower-case hexadecimal digits of `n`, most significant first. */
  function ToHex(n: nat): string
    decreases n
  {
    if n < 16 then ["0123456789abcdef"[n]] else ToHex(n / 16) + ["0123456789abcdef"[n % 16]]
  }

  lemma DigitOfHexChar(d: nat)
    requires d < 16
    ensures DigitValue("0123456789abcdef"[d]) == Some(d)
  {
  }

  /** `ToHex` writes digits only, never a sign, and `HexValue` reads them back. */
  lemma {:induction false} HexValueOfToHex(n: nat)
    ensures |ToHex(n)| > 0 && ToHex(n)[0] != '+'
    ensures AllDigits(ToHex(n)) && HexValue(ToHex(n)) == n
    decreases n
  {
    DigitOfHexChar(n % 16);
    if n >= 16 {
      HexValueOfToHex(n / 16);
      var s := ToHex(n);
      assert s[..|s| - 1] == ToHex(n / 16);
      assert s[0] == ToHex(n / 16)[0];
    }
  }

  /**
   * A word `0x<digits of n>` parses back to `n` exactly when `n` fits in 16
   * bits; a wider value fails to parse, and the analyzer then uses 0.
   */
  lemma ParseStackWordRoundTrip(n: nat)
    ensures ParseStackWord("0x" + ToHex(n)) == if n < 0x1_0000 then Some(n) else None
  {
    HexValueOfToHex(n);
    assert ("0x" + ToHex(n))[2..] == ToHex(n);
  }
}
