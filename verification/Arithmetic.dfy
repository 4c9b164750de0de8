/** The few facts about products and quotients that the layouts rest on. */
module Arithmetic {
  /** The product, built the way the loops build their offsets: one addition of `m` at a time. */
  function Times(n: nat, m: nat): (r: nat)
    ensures n > 0 ==> r >= m
  {
    if n == 0 then 0 else Times(n - 1, m) + m
  }

  lemma {:induction false} TimesIsProduct(n: nat, m: nat)
    ensures Times(n, m) == n * m
  {
    if n > 0 {
      TimesIsProduct(n - 1, m);
      assert n * m == (n - 1) * m + m;
    }
  }

  /** Element `j` of `n` elements of size `m` ends inside. */
  lemma {:induction false} Inside(j: nat, n: nat, m: nat)
    requires j < n
    ensures Times(j, m) + m == Times(j + 1, m) <= Times(n, m)
  {
    if j + 1 < n {
      Inside(j, n - 1, m);
    }
  }

  lemma {:induction false} TimesThrice(n: nat, m: nat)
    ensures Times(n, 3 * m) == Times(3 * n, m)
  {
    if n > 0 {
      TimesThrice(n - 1, m);
      assert Times(3 * n, m) == Times(3 * n - 1, m) + m == Times(3 * n - 2, m) + 2 * m;
    }
  }

  lemma MulAtLeast(a: int, m: nat)
    requires a >= 1
    ensures a * m >= m
  {
  }

  lemma MulMonotone(a: int, b: int, m: nat)
    requires a <= b
    ensures a * m <= b * m
  {
    assert b * m - a * m == (b - a) * m;
  }

  lemma DivisionUnique(q1: int, r1: nat, q2: int, r2: nat, m: nat)
    requires r1 < m && r2 < m && q1 * m + r1 == q2 * m + r2
    ensures q1 == q2 && r1 == r2
  {
    assert (q2 - q1) * m == r1 - r2;
    if q1 < q2 {
      MulAtLeast(q2 - q1, m);
    } else if q2 < q1 {
      MulAtLeast(q1 - q2, m);
    }
  }

  lemma Split(n: nat, m: nat)
    requires m > 0
    ensures n == n / m * m + n % m && 0 <= n % m < m
  {
  }

  lemma Quotient(q: nat, m: nat, r: nat)
    requires r < m
    ensures (q * m + r) / m == q
    ensures (q * m + r) % m == r
  {
    var n := q * m + r;
    Split(n, m);
    DivisionUnique(q, r, n / m, n % m, m);
  }

  lemma SmallMod(a: nat, m: nat)
    requires a < m
    ensures a % m == a
  {
  }
}
