/** Whole percentages as the pages compute them with
    `Math.round(part / total * 100)`, in exact integer arithmetic. */
module Percent {

  /** `Math.round(part / total * 100)`: the integer nearest to
      `100 * part / total`, halves rounded up. */
  function RoundPercent(part: nat, total: nat): (r: int)
    requires total > 0
    ensures 2 * total * r <= 200 * part + total < 2 * total * (r + 1)
  {
    (200 * part + total) / (2 * total)
  }

  /** A share of a total rounds to a percentage between 0 and 100. */
  lemma RoundPercentBounds(part: nat, total: nat)
    requires 0 < total && part <= total
    ensures 0 <= RoundPercent(part, total) <= 100
    ensures part == total ==> RoundPercent(part, total) == 100
    ensures part == 0 ==> RoundPercent(part, total) == 0
  {
    var r := RoundPercent(part, total);
    var d := 2 * total;
    assert d * r <= 200 * part + total < d * (r + 1);
    if r > 100 {
      ScaleMonotone(d, 101, r);
    }
    if r < 0 {
      ScaleMonotone(d, r + 1, 0);
    }
    if part == total && r < 100 {
      ScaleMonotone(d, r + 1, 100);
    }
    if part == 0 && r > 0 {
      ScaleMonotone(d, 1, r);
    }
  }

  lemma ScaleMonotone(d: int, a: int, b: int)
    requires d > 0 && a <= b
    ensures d * a <= d * b
  {
    assert d * b - d * a == d * (b - a);
  }
}
