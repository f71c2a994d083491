/** Division with remainder, for a divisor that is not a literal. */
module Modular {

  lemma DivModUnique(a: int, k: nat, q: int, r: nat)
    requires k > 0 && a == k * q + r && r < k
    ensures a / k == q && a % k == r
  {
    var d := q - a / k;
    assert k * d == a % k - r;
    SmallMultiple(k, d);
  }

  lemma SmallMultiple(k: nat, d: int)
    requires 0 - k < k * d < k
    ensures d == 0
  {}

  lemma ModSuccessor(a: nat, k: nat)
    requires k > 0
    ensures (a % k + 1) % k == (a + 1) % k
    ensures (a + 1) % k == if a % k + 1 == k then 0 else a % k + 1
    ensures (a + 1) / k == if a % k + 1 == k then a / k + 1 else a / k
  {
    var q := a / k;
    if a % k + 1 == k {
      DivModUnique(a + 1, k, q + 1, 0);
      DivModUnique(k, k, 1, 0);
    } else {
      DivModUnique(a + 1, k, q, a % k + 1);
      DivModUnique(a % k + 1, k, 0, a % k + 1);
    }
  }

  lemma ModSmall(a: nat, k: nat)
    requires a < k
    ensures a % k == a && a / k == 0
  {
    DivModUnique(a, k, 0, a);
  }

  /** One period further, the remainder is the same and the quotient is one more. */
  lemma ModPeriod(a: nat, k: nat)
    requires k > 0
    ensures (a + k) % k == a % k && (a + k) / k == a / k + 1
  {
    DivModUnique(a + k, k, a / k + 1, a % k);
  }
}
