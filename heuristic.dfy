/** `_heuristic`: the estimate of the remaining travel time that orders the
    fastest-route search.  It reads a number out of each station key (the part
    after the first character) and charges two minutes per step of difference,
    plus two minutes when the lines differ. */
module Heuristic {
  import opened Stations

  predicate IsDigit(c: char) {
    '0' <= c <= '9'
  }

  /** A key the estimate can read: one leading character, then a non-empty decimal numeral. */
  predicate WellFormedKey(key: string) {
    |key| >= 2 && forall i :: 1 <= i < |key| ==> IsDigit(key[i])
  }

  /** The value of the numeral `key[1..n]`, most significant digit first. */
  function NumeralValue(key: string, n: nat): nat
    requires n <= |key| && forall i :: 1 <= i < n ==> IsDigit(key[i])
  {
    if n <= 1 then 0
    else
      assert IsDigit(key[n - 1]);
      10 * NumeralValue(key, n - 1) + (key[n - 1] as int - '0' as int)
  }

  /** `int(idx[1:])`: a single digit reads as its own value. */
  function KeyIndex(key: string): (r: nat)
    requires WellFormedKey(key)
    ensures |key| == 2 ==> r == key[1] as int - '0' as int
  {
    assert NumeralValue(key, 1) == 0;
    NumeralValue(key, |key|)
  }

  /** Reading a prefix of a numeral does not look past that prefix. */
  lemma {:induction false} NumeralPrefix(key: string, d: char, n: nat)
    requires n <= |key| && forall i :: 1 <= i < n ==> IsDigit(key[i])
    ensures NumeralValue(key + [d], n) == NumeralValue(key, n)
  {
    if n > 1 {
      NumeralPrefix(key, d, n - 1);
    }
  }

  /** Appending a digit to a key multiplies its number by ten and adds the
      digit, as decimal notation requires. */
  lemma KeyIndexAppendDigit(key: string, d: char)
    requires WellFormedKey(key) && IsDigit(d)
    ensures WellFormedKey(key + [d])
    ensures KeyIndex(key + [d]) == 10 * KeyIndex(key) + (d as int - '0' as int)
  {
    var k := key + [d];
    assert k[|k| - 1] == d;
    NumeralPrefix(key, d, |key|);
  }

  function Abs(x: int): nat {
    if x < 0 then -x else x
  }

  /** `_heuristic(mevcut, hedef)`. */
  function Estimate(a: Station, b: Station): (h: int)
    requires WellFormedKey(a.key) && WellFormedKey(b.key)
    ensures h >= 0 && h % 2 == 0
    ensures a.line != b.line ==> h >= 2
    ensures KeyIndex(a.key) == KeyIndex(b.key) ==> h == (if a.line == b.line then 0 else 2)
  {
    if a.line == b.line then 2 * Abs(KeyIndex(a.key) - KeyIndex(b.key))
    else 2 * Abs(KeyIndex(a.key) - KeyIndex(b.key)) + 2
  }

  /** The estimate from a station to itself is zero, and the estimate does not
      depend on the direction. */
  lemma EstimateSelfAndSymmetric(a: Station, b: Station)
    requires WellFormedKey(a.key) && WellFormedKey(b.key)
    ensures Estimate(a, a) == 0
    ensures Estimate(a, b) == Estimate(b, a)
  {
  }

  /** The estimate obeys the triangle inequality: going through an intermediate
      station never lowers the estimate. */
  lemma EstimateTriangle(a: Station, b: Station, c: Station)
    requires WellFormedKey(a.key) && WellFormedKey(b.key) && WellFormedKey(c.key)
    ensures Estimate(a, c) <= Estimate(a, b) + Estimate(b, c)
  {
  }
}
