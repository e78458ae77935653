/** Powers of two and the few non-linear facts the other modules rest on. */
module Powers {

  function Pow2(n: nat): (r: nat)
    ensures r >= 1
  {
    if n == 0 then 1 else 2 * Pow2(n - 1)
  }

  /** k * 2^n, by doubling: the kernel's k * (1 << n). */
  function Shl(k: int, n: nat): int {
    if n == 0 then k else 2 * Shl(k, n - 1)
  }

  lemma {:induction false} ShlIsProduct(k: int, n: nat)
    ensures Shl(k, n) == k * Pow2(n)
  {
    if n > 0 {
      ShlIsProduct(k, n - 1);
      assert k * (2 * Pow2(n - 1)) == 2 * (k * Pow2(n - 1));
    }
  }

  lemma {:induction false} ShlOne(n: nat)
    ensures Shl(1, n) == Pow2(n) && Shl(0, n) == 0
  {
    if n > 0 {
      ShlOne(n - 1);
    }
  }

  lemma {:induction false} ShlAdds(j: int, k: int, n: nat)
    ensures Shl(j + k, n) == Shl(j, n) + Shl(k, n)
  {
    if n > 0 {
      ShlAdds(j, k, n - 1);
    }
  }

  lemma {:induction false} ShlTwice(k: int, m: nat, n: nat)
    ensures Shl(Shl(k, m), n) == Shl(k, m + n)
  {
    if n > 0 {
      ShlTwice(k, m, n - 1);
    }
  }

  lemma {:induction false} ShlOrder(j: int, k: int, n: nat)
    ensures j <= k <==> Shl(j, n) <= Shl(k, n)
    ensures j < k ==> Shl(j, n) + Pow2(n) <= Shl(k, n)
  {
    if n > 0 {
      ShlOrder(j, k, n - 1);
    }
  }

  lemma {:induction false} Pow2Shl(m: nat, n: nat)
    ensures Shl(Pow2(m), n) == Pow2(m + n)
  {
    ShlOne(m);
    ShlTwice(1, m, n);
    ShlOne(m + n);
  }

  lemma {:induction false} Pow2Adds(m: nat, n: nat)
    ensures Pow2(m + n) == Pow2(m) * Pow2(n)
  {
    Pow2Shl(m, n);
    ShlIsProduct(Pow2(m), n);
  }

  lemma {:induction false} Pow2Grows(m: nat, n: nat)
    requires m < n
    ensures 2 * Pow2(m) <= Pow2(n)
  {
    if m + 1 < n {
      Pow2Grows(m, n - 1);
    }
  }

  /** A quotient and remainder in range are the Euclidean ones. */
  lemma {:induction false} DivUnique(x: int, m: int, q: int, r: int)
    requires m > 0 && 0 <= r < m && x == q * m + r
    ensures x / m == q && x % m == r
  {
    var d := x / m - q;
    assert x == (x / m) * m + x % m;
    assert d * m == r - x % m;
    assert -m < d * m < m;
    NoMultipleBetween(d, m);
  }

  lemma {:induction false} NoMultipleBetween(d: int, m: int)
    requires m > 0 && -m < d * m < m
    ensures d == 0
  {
  }

  /** Dividing by a power of two undoes the shift. */
  lemma {:induction false} ShlDivides(k: int, n: nat)
    ensures Shl(k, n) % Pow2(n) == 0 && Shl(k, n) / Pow2(n) == k
  {
    ShlIsProduct(k, n);
    DivUnique(Shl(k, n), Pow2(n), k, 0);
  }

  lemma {:induction false} DivideByPow2(x: int, n: nat)
    ensures x == Shl(x / Pow2(n), n) + x % Pow2(n)
    ensures 0 <= x % Pow2(n) < Pow2(n)
  {
    ShlIsProduct(x / Pow2(n), n);
  }

  /** A multiple of a power of two is a multiple of every smaller one. */
  lemma {:induction false} MultipleOfSmaller(x: int, m: nat, n: nat)
    requires m <= n && x % Pow2(n) == 0
    ensures x % Pow2(m) == 0
  {
    DivideByPow2(x, n);
    ShlTwice(x / Pow2(n), n - m, m);
    ShlDivides(Shl(x / Pow2(n), n - m), m);
  }
}
