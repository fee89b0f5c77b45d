/** The few facts about division and products that the solver needs spelled out. */
module Arithmetic {

  function Min(a: int, b: int): int {
    if a <= b then a else b
  }

  function Max(a: int, b: int): int {
    if a >= b then a else b
  }

  /** The asserts on remainders. */
  predicate Divides(d: nat, n: nat)
    requires d > 0
  {
    n % d == 0
  }

  lemma MulMonotone(a: int, b: int, w: int)
    requires w >= 0 && a <= b
    ensures a * w <= b * w
  {
    assert (b - a) * w >= 0;
  }

  lemma ProductOrder(a: int, b: int, w: int)
    requires w >= 0 && a * w < b * w
    ensures a < b
  {
    assert a >= b ==> (a - b) * w >= 0;
  }

  lemma ProductAtMost(a: int, b: int, w: int)
    requires w > 0 && w * a <= w * b
    ensures a <= b
  {
    assert a > b ==> w * (a - b) > 0;
  }

  lemma LessThanTwice(b: int, m: int, w: int, total: int)
    requires w >= 0 && b * w < 2 * total && total <= m * w
    ensures b < 2 * m
  {
    assert (2 * m) * w == 2 * (m * w);
    ProductOrder(b, 2 * m, w);
  }

  /** Quotient and remainder are the only ones. */
  lemma DivModUnique(n: int, w: int, q: int, r: int)
    requires w > 0 && n == q * w + r && 0 <= r < w
    ensures n / w == q && n % w == r
  {
    var d := q - n / w;
    assert n == (n / w) * w + n % w;
    assert d * w == n % w - r;
    assert d >= 1 ==> d * w >= w;
    assert d <= -1 ==> d * w <= -w;
  }

  lemma DropBlock(n: nat, w: nat)
    requires w > 0 && n > 0 && n % w == 0
    ensures n >= w && (n - w) % w == 0 && n / w == 1 + (n - w) / w
  {
    var q := n / w;
    assert n == q * w;
    assert n - w == (q - 1) * w;
    DivModUnique(n - w, w, q - 1, 0);
  }

  /** `roundup_divisible`: the least multiple of b that is at least a. */
  lemma RoundUp(a: nat, b: nat)
    requires b > 0
    ensures var r := ((a + b - 1) / b) * b;
      a <= r < a + b && r % b == 0
  {
    var q := (a + b - 1) / b;
    assert a + b - 1 == q * b + (a + b - 1) % b;
    DivModUnique(q * b, b, q, 0);
  }
}
