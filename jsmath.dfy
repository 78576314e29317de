/** `Math.round` and the percentage the pages show, computed exactly over
    the reals (the source uses binary floating point). */
module JsMath {

  /** `Math.round(x)`: the nearest integer, halves rounded up. */
  function Round(x: real): (r: int)
    ensures r as real - 0.5 <= x < r as real + 0.5
  {
    (x + 0.5).Floor
  }

  /** Rounding is monotone. */
  lemma RoundMonotone(x: real, y: real)
    requires x <= y
    ensures Round(x) <= Round(y)
  {
  }

  /** Rounding a value that is already an integer gives that integer. */
  lemma RoundOfInt(n: int)
    ensures Round(n as real) == n
  {
  }

  /** A value between two integers rounds to a value between them. */
  lemma RoundWithin(x: real, lo: int, hi: int)
    requires lo as real <= x <= hi as real
    ensures lo <= Round(x) <= hi
  {
    RoundMonotone(lo as real, x);
    RoundMonotone(x, hi as real);
    RoundOfInt(lo);
    RoundOfInt(hi);
  }

  /** `Math.round((score / total) * 100)`: the whole percentage nearest to the ratio. */
  function Percent(score: int, total: int): (p: int)
    requires total != 0
    ensures p as real - 0.5 <= score as real / total as real * 100.0 < p as real + 0.5
  {
    Round(score as real / total as real * 100.0)
  }

  /** A score between 0 and the total gives a percentage between 0 and 100. */
  lemma PercentBounds(score: int, total: int)
    requires 0 < total && 0 <= score <= total
    ensures 0 <= Percent(score, total) <= 100
  {
    var q := score as real / total as real;
    assert 0.0 <= q <= 1.0 by {
      assert q * total as real == score as real;
    }
    RoundWithin(q * 100.0, 0, 100);
  }
}
