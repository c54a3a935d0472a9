/**
 * First-occurrence numbering of edge keys: `edge_numbering` and
 * `edge_counter` in the trace replayer. A key met for the first time gets
 * the current counter, which then advances; a key met again keeps its
 * number. The fold below is that bookkeeping over the keys a replay meets.
 */
module EdgeNumbering {

  function Elems<K>(s: seq<K>): set<K> {
    set x | x in s
  }

  /** Numbering state `(m, c)` after the keys `keys` have been met, starting from `(m, c)`. */
  function NumberFrom<K>(keys: seq<K>, m: map<K, nat>, c: nat): (r: (map<K, nat>, nat))
    ensures c <= r.1
    decreases |keys|
  {
    if keys == [] then (m, c)
    else if keys[0] in m then NumberFrom(keys[1..], m, c)
    else NumberFrom(keys[1..], m[keys[0] := c], c + 1)
  }

  /** The keys numbered afterwards are those numbered before plus the keys met. */
  lemma {:induction false} NumberFromKeys<K>(keys: seq<K>, m: map<K, nat>, c: nat)
    ensures NumberFrom(keys, m, c).0.Keys == m.Keys + Elems(keys)
    decreases |keys|
  {
    if keys != [] {
      assert Elems(keys) == {keys[0]} + Elems(keys[1..]);
      if keys[0] in m {
        NumberFromKeys(keys[1..], m, c);
      } else {
        NumberFromKeys(keys[1..], m[keys[0] := c], c + 1);
      }
    }
  }

  /** The numbering handed out over `keys` from an empty map and a zero counter. */
  function Numbering<K>(keys: seq<K>): (m: map<K, nat>)
    ensures m.Keys == Elems(keys)
    ensures forall k | k in m :: m[k] < |m.Keys|
  {
    NumberingSpec(keys);
    NumberFrom(keys, map[], 0).0
  }

  /** The numbers in use are exactly 0, ..., c - 1, each used by one key. */
  ghost predicate Dense<K>(m: map<K, nat>, c: nat) {
    && (forall k | k in m :: m[k] < c)
    && (forall n: nat | n < c :: n in m.Values)
    && (forall k1, k2 | k1 in m && k2 in m && k1 != k2 :: m[k1] != m[k2])
  }

  /**
   * `(m, c)` is the numbering of the keys met so far, `p`: the keys of `m`
   * are those met, `c` counts them, and a key first met at position `q`
   * has as its number the count of distinct keys met before `q`.
   */
  ghost predicate RanksFirstOccurrences<K>(m: map<K, nat>, c: nat, p: seq<K>) {
    && m.Keys == Elems(p)
    && c == |Elems(p)|
    && (forall q | 0 <= q < |p| && p[q] !in p[..q] :: m[p[q]] == |Elems(p[..q])|)
  }

  lemma ElemsSnoc<K>(p: seq<K>, x: K)
    ensures Elems(p + [x]) == Elems(p) + {x}
  {
    assert forall y :: y in p + [x] <==> y in p || y == x;
  }

  /** Meeting more keys never changes a number already handed out. */
  lemma {:induction false} NumberFromExtends<K>(keys: seq<K>, m: map<K, nat>, c: nat)
    ensures var r := NumberFrom(keys, m, c).0;
            forall k | k in m :: k in r && r[k] == m[k]
    ensures NumberFrom(keys, m, c).1 >= c
    decreases |keys|
  {
    if keys != [] {
      if keys[0] in m {
        NumberFromExtends(keys[1..], m, c);
      } else {
        NumberFromExtends(keys[1..], m[keys[0] := c], c + 1);
      }
    }
  }

  /** Meeting keys keeps the numbers dense: 0, ..., counter - 1, no number twice. */
  lemma {:induction false} NumberFromDense<K>(keys: seq<K>, m: map<K, nat>, c: nat)
    requires Dense(m, c)
    ensures Dense(NumberFrom(keys, m, c).0, NumberFrom(keys, m, c).1)
    decreases |keys|
  {
    if keys != [] && keys[0] !in m {
      var m' := m[keys[0] := c];
      assert m'[keys[0]] == c;
      forall n: nat | n < c ensures n in m'.Values {
        assert n in m.Values;
        var k :| k in m && m[k] == n;
        assert m'[k] == n;
      }
      NumberFromDense(keys[1..], m', c + 1);
    } else if keys != [] {
      NumberFromDense(keys[1..], m, c);
    }
  }

  /** Meeting a first key: it is numbered with the counter unless it already has a number. */
  lemma NumberFromCons<K>(keys: seq<K>, m: map<K, nat>, c: nat)
    requires keys != []
    ensures NumberFrom(keys, m, c)
         == if keys[0] in m then NumberFrom(keys[1..], m, c) else NumberFrom(keys[1..], m[keys[0] := c], c + 1)
  {
  }

  /** Meeting one more key `x` after `p` keeps the rank description. */
  lemma RanksStep<K>(p: seq<K>, x: K, m: map<K, nat>, c: nat)
    requires RanksFirstOccurrences(m, c, p)
    ensures x in m ==> RanksFirstOccurrences(m, c, p + [x])
    ensures x !in m ==> RanksFirstOccurrences(m[x := c], c + 1, p + [x])
  {
    var p' := p + [x];
    ElemsSnoc(p, x);
    assert forall q | 0 <= q < |p| :: p'[q] == p[q] && p'[..q] == p[..q];
    assert p'[..|p|] == p;
  }

  /** Meeting the rest of `s` after its first `n` keys numbers the first occurrences of `s` by rank. */
  lemma {:induction false} NumberFromRanks<K>(s: seq<K>, n: nat, m: map<K, nat>, c: nat)
    requires n <= |s| && RanksFirstOccurrences(m, c, s[..n])
    ensures RanksFirstOccurrences(NumberFrom(s[n..], m, c).0, NumberFrom(s[n..], m, c).1, s)
    decreases |s| - n
  {
    if n == |s| {
      assert s[..n] == s;
    } else {
      var x := s[n];
      var m', c' := if x in m then m else m[x := c], if x in m then c else c + 1;
      assert s[..n] + [x] == s[..n + 1];
      assert s[n..][1..] == s[n + 1..];
      NumberFromCons(s[n..], m, c);
      RanksStep(s[..n], x, m, c);
      NumberFromRanks(s, n + 1, m', c');
    }
  }

  lemma ElemsPrefixGrows<K>(s: seq<K>, q1: nat, q2: nat)
    requires q1 < q2 <= |s| && s[q1] !in s[..q1]
    ensures |Elems(s[..q1])| < |Elems(s[..q2])|
  {
    var a, b := Elems(s[..q1]), Elems(s[..q2]);
    assert s[q1] in b && s[q1] !in a;
    assert a <= b by {
      forall y | y in a ensures y in b {
        var i :| 0 <= i < q1 && s[i] == y;
        assert s[..q2][i] == y;
      }
    }
    assert b == a + (b - a);
    assert s[q1] in b - a;
  }

  /**
   * The numbering handed out over `keys` from scratch: every key met has a
   * number and nothing else does; the numbers are exactly 0, ..., k - 1 for
   * k distinct keys; a key's number is the count of distinct keys met before
   * its first occurrence, so numbers increase in first-occurrence order; and
   * the counter never exceeds the number of keys met.
   */
  lemma NumberingSpec<K>(keys: seq<K>)
    ensures var (m, c) := NumberFrom(keys, map[], 0);
            && m.Keys == Elems(keys)
            && c == |m.Keys| <= |keys|
            && Dense(m, c)
            && (forall q | 0 <= q < |keys| && keys[q] !in keys[..q] :: m[keys[q]] == |Elems(keys[..q])|)
            && (forall q1, q2 | 0 <= q1 < q2 < |keys| && keys[q1] !in keys[..q1] && keys[q2] !in keys[..q2] ::
                  m[keys[q1]] < m[keys[q2]])
  {
    var empty: map<K, nat> := map[];
    assert Elems<K>([]) == {};
    assert keys[..0] == [] && keys[0..] == keys;
    NumberFromRanks(keys, 0, empty, 0);
    NumberFromDense(keys, empty, 0);
    ElemsBound(keys);
    forall q1, q2 | 0 <= q1 < q2 < |keys| && keys[q1] !in keys[..q1] && keys[q2] !in keys[..q2] {
      ElemsPrefixGrows(keys, q1, q2);
    }
  }

  lemma {:induction false} ElemsBound<K>(s: seq<K>)
    ensures |Elems(s)| <= |s|
    decreases |s|
  {
    if s != [] {
      ElemsBound(s[..|s| - 1]);
      ElemsSnoc(s[..|s| - 1], s[|s| - 1]);
      assert s[..|s| - 1] + [s[|s| - 1]] == s;
    }
  }
}
