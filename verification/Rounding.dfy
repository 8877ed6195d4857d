/** Rounding to four decimals, with the tie rule of each language. */
module Rounding {

  /** Python's `round` takes the even neighbour of a tie, JavaScript's `toFixed` the larger. */
  datatype TieRule = HalfEven | HalfUp

  function Nearest(rule: TieRule, y: real): int {
    var f := y.Floor;
    var rest := y - f as real;
    if rest < 0.5 then f
    else if rest > 0.5 then f + 1
    else if rule == HalfUp || f % 2 == 1 then f + 1
    else f
  }

  function Round4(rule: TieRule, x: real): real {
    Nearest(rule, x * 10000.0) as real / 10000.0
  }

  lemma NearestMonotone(rule: TieRule, x: real, y: real)
    requires x <= y
    ensures Nearest(rule, x) <= Nearest(rule, y)
  {
  }

  /** Rounding moves a number by half a unit of the fourth decimal at most. */
  lemma RoundIsNear(rule: TieRule, x: real)
    ensures -0.00005 <= Round4(rule, x) - x <= 0.00005
  {
    assert -0.5 <= Nearest(rule, x * 10000.0) as real - x * 10000.0 <= 0.5;
  }

  /** Half way between two four-decimal numbers, one rule takes the larger and the other the even one. */
  lemma RoundOfTie(rule: TieRule, n: int)
    ensures Round4(rule, (n as real + 0.5) / 10000.0) ==
            (if rule == HalfUp || n % 2 == 1 then n + 1 else n) as real / 10000.0
  {
    var y := n as real + 0.5;
    assert y / 10000.0 * 10000.0 == y && y.Floor == n;
  }

  lemma RoundMonotone(rule: TieRule, x: real, y: real)
    requires x <= y
    ensures Round4(rule, x) <= Round4(rule, y)
  {
    NearestMonotone(rule, x * 10000.0, y * 10000.0);
  }

  /** A number of four decimals is its own rounding. */
  lemma RoundFixed(rule: TieRule, n: int)
    ensures Round4(rule, n as real / 10000.0) == n as real / 10000.0
  {
    assert n as real / 10000.0 * 10000.0 == n as real;
    assert (n as real).Floor == n;
  }

  /** Rounding stays on the same side of a four-decimal bound. */
  lemma RoundKeepsBounds(rule: TieRule, x: real, lo: int, hi: int)
    requires lo as real / 10000.0 <= x <= hi as real / 10000.0
    ensures lo as real / 10000.0 <= Round4(rule, x) <= hi as real / 10000.0
  {
    RoundFixed(rule, lo);
    RoundFixed(rule, hi);
    RoundMonotone(rule, lo as real / 10000.0, x);
    RoundMonotone(rule, x, hi as real / 10000.0);
  }

  lemma RoundIdempotent(rule: TieRule, x: real)
    ensures Round4(rule, Round4(rule, x)) == Round4(rule, x)
  {
    RoundFixed(rule, Nearest(rule, x * 10000.0));
  }
}
