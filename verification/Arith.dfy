/** The few facts about products and quotients by a variable that the rest relies on. */
module Arith {

  function Min(a: nat, b: nat): (m: nat)
    ensures m <= a && m <= b && (m == a || m == b)
  {
    if a < b then a else b
  }

  lemma Distribute(b: int, x: int, y: int)
    ensures b * (x + y) == b * x + b * y
  {
  }

  lemma StepUp(b: nat, x: nat, y: nat)
    requires x < y
    ensures b * x + b <= b * y
  {
    var m: nat := y - x - 1;
    Distribute(b, x + 1, m);
    Distribute(b, x, 1);
    assert b * m >= 0;
  }

  lemma Divide(a: nat, b: nat)
    requires 0 < b
    ensures a == b * (a / b) + a % b && a % b < b
  {
  }

  lemma QuotientIs(a: nat, b: nat, q: nat, rem: nat)
    requires a == b * q + rem && rem < b
    ensures a / b == q && a % b == rem
  {
    var x := a / b;
    Divide(a, b);
    if x < q {
      StepUp(b, x, q);
    } else if q < x {
      StepUp(b, q, x);
    }
  }

  /** Position p lies below m blocks of n exactly when its block number is below m. */
  lemma BlockOf(n: nat, m: nat, p: nat)
    requires 0 < n
    ensures p < n * m <==> p / n < m
    ensures n * (p / n) + p % n == p
  {
    Divide(p, n);
    if p / n < m {
      StepUp(n, p / n, m);
    } else if m < p / n {
      StepUp(n, m, p / n);
    }
  }

  lemma Associate(a: nat, b: nat, c: nat)
    ensures a * b * c == a * (b * c)
  {
  }

  lemma WholeBlocks(k: nat)
    ensures 512 * k % 32 == 0
  {
  }
}
