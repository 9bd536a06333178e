/** Small facts about products and remainders. */
module Arithmetic {

  /** Multiplication by a non-negative number keeps the order. */
  lemma MulMonotone(x: int, y: int, z: int)
    requires x <= y && 0 <= z
    ensures x * z <= y * z
  {
    assert (y - x) * z >= 0;
  }

  /** n times c, as a sum. */
  function Times(n: nat, c: nat): nat {
    if n == 0 then 0 else Times(n - 1, c) + c
  }

  lemma {:induction false} TimesIsProduct(n: nat, c: nat)
    ensures Times(n, c) == n * c
  {
    if n > 0 {
      TimesIsProduct(n - 1, c);
      assert n * c == (n - 1) * c + c;
    }
  }

  /** A quotient and remainder are determined by their defining equation. */
  lemma DivisionUnique(a: nat, c: nat, q: nat, d: nat)
    requires d < c && a == q * c + d
    ensures a / c == q && a % c == d
  {
    var p, r := a / c, a % c;
    assert a == p * c + r;
    if p < q {
      MulMonotone(p + 1, q, c);
    } else if q < p {
      MulMonotone(q + 1, p, c);
    }
  }

  /** Adding multiples of c does not change the remainder. */
  lemma TimesModulo(n: nat, c: nat, d: nat)
    requires d < c
    ensures (Times(n, c) + d) % c == d
  {
    TimesIsProduct(n, c);
    DivisionUnique(Times(n, c) + d, c, n, d);
  }
}
