/** Division and remainder with a variable divisor, one small step at a time, and powers of two. */
module Arith {

  lemma QuotientBelow(n: int, m: int, q: int, k: int)
    requires m > 0 && q * m <= n < k * m + m
    ensures q <= k
  {
    var diff := q - k - 1;
    assert diff * m == q * m - k * m - m;
    assert diff * m < 0;
  }

  /** The quotient is the one integer that brackets the dividend. */
  lemma DivIs(n: int, m: int, q: int)
    requires m > 0 && q * m <= n < q * m + m
    ensures n / m == q && n % m == n - q * m
  {
    var k := n / m;
    assert k * m + n % m == n;
    QuotientBelow(n, m, q, k);
    QuotientBelow(n, m, k, q);
  }

  lemma DivStep(n: int, m: int)
    requires m > 0
    ensures (n + m) / m == n / m + 1
  {
    var q := n / m;
    assert q * m + n % m == n;
    assert (q + 1) * m == q * m + m;
    DivIs(n + m, m, q + 1);
  }

  lemma ModBelow(n: int, m: int)
    requires m > 0
    ensures 0 <= n % m < m
  {
  }

  function Pow2(n: nat): nat {
    if n == 0 then 1 else 2 * Pow2(n - 1)
  }

  lemma {:induction false} Pow2Grows(m: nat, n: nat)
    requires m <= n
    ensures 1 <= Pow2(m) <= Pow2(n)
    decreases n
  {
    if m < n { Pow2Grows(m, n - 1); } else if n > 0 { Pow2Grows(m - 1, n - 1); }
  }
}
