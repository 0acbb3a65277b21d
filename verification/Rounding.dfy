/** Rounding of derived figures. The source keeps money to two decimals and litres to three, and
    rounds with `Math.round`, which is half-up towards positive infinity. Amounts here are counted
    in the smallest unit (halalas, millilitres), so rounding lands on an integer. */
module Rounding {

  /** `Math.round` on an exact value already scaled to the smallest unit. */
  function Round(x: real): (r: int)
    ensures x - 0.5 < r as real <= x + 0.5
  {
    (x + 0.5).Floor
  }

  /** The half-open half-unit interval determines the rounded value. */
  lemma RoundIsUnique(x: real, n: int)
    requires x - 0.5 < n as real <= x + 0.5
    ensures Round(x) == n
  {
    var m := Round(x);
    assert (m as real) - (n as real) < 1.0 && (n as real) - (m as real) < 1.0;
    assert (m - n) as real < 1.0 && (n - m) as real < 1.0;
  }

  lemma RoundOfInteger(n: int)
    ensures Round(n as real) == n
  {
    RoundIsUnique(n as real, n);
  }

  lemma RoundMonotone(x: real, y: real)
    requires x <= y
    ensures Round(x) <= Round(y)
  {
    var m, n := Round(x), Round(y);
    assert (m as real) - (n as real) < 1.0;
    assert (m - n) as real < 1.0;
  }

  /** Rounding can never carry a value past an integer bound it already respects. */
  lemma RoundRespectsIntegerBound(x: real, n: int)
    ensures x <= n as real ==> Round(x) <= n
    ensures n as real <= x ==> n <= Round(x)
  {
    RoundOfInteger(n);
    if x <= n as real { RoundMonotone(x, n as real); }
    if n as real <= x { RoundMonotone(n as real, x); }
  }
}
