/** Arithmetic shared by the number conversion and the card register: powers, and division by products. */
module Arith {

  function Power(b: int, k: nat): int
    decreases k
  {
    if k == 0 then 1 else b * Power(b, k - 1)
  }

  lemma {:induction false} PowerPositive(b: int, k: nat)
    requires b >= 1
    ensures Power(b, k) >= 1
    decreases k
  {
    if k > 0 {
      PowerPositive(b, k - 1);
      MulMonotone(b, 1, Power(b, k - 1));
    }
  }

  lemma {:induction false} PowerAdd(b: int, j: nat, k: nat)
    ensures Power(b, j + k) == Power(b, j) * Power(b, k)
    decreases j
  {
    if j > 0 {
      PowerAdd(b, j - 1, k);
      assert b * (Power(b, j - 1) * Power(b, k)) == (b * Power(b, j - 1)) * Power(b, k);
    }
  }

  lemma MulMonotone(r: int, a: int, b: int)
    requires r >= 0
    ensures a <= b ==> r * a <= r * b
  {
    if a <= b {
      assert r * b - r * a == r * (b - a);
    }
  }

  lemma UniqueRemainder(u: int, n: int, a: int, r: int)
    requires n >= 1 && u == n * a + r && 0 <= r < n
    ensures u % n == r && u / n == a
  {
    var d := a - u / n;
    assert n * d == n * a - n * (u / n);
    MulMonotone(n, 1, d);
    MulMonotone(n, d, -1);
  }
}
