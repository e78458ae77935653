/** Bits of natural numbers, and the rounding of a buffer size up to a power of two. */
module Bits {
  import opened Powers

  predicate Bit(x: nat, i: nat) {
    if i == 0 then x % 2 == 1 else Bit(x / 2, i - 1)
  }

  function Or(a: nat, b: nat): nat
    decreases a + b
  {
    if a == 0 && b == 0 then 0 else 2 * Or(a / 2, b / 2) + (if a % 2 == 1 || b % 2 == 1 then 1 else 0)
  }

  function Shr(x: nat, m: nat): nat {
    if m == 0 then x else Shr(x / 2, m - 1)
  }

  lemma {:induction false} OrBit(a: nat, b: nat, i: nat)
    ensures Bit(Or(a, b), i) <==> Bit(a, i) || Bit(b, i)
    decreases i
  {
    assert Or(a, b) / 2 == Or(a / 2, b / 2);
    if i > 0 {
      OrBit(a / 2, b / 2, i - 1);
    }
  }

  lemma {:induction false} ShrBit(x: nat, m: nat, i: nat)
    ensures Bit(Shr(x, m), i) <==> Bit(x, i + m)
  {
    if m > 0 {
      ShrBit(x / 2, m - 1, i);
    }
  }

  lemma {:induction false} NoBits(y: nat)
    requires forall i: nat :: !Bit(y, i)
    ensures y == 0
  {
    if y > 0 {
      assert !Bit(y, 0);
      forall i: nat
        ensures !Bit(y / 2, i)
      {
        assert !Bit(y, i + 1);
      }
      NoBits(y / 2);
    }
  }

  lemma {:induction false} LowBits(y: nat, k: nat)
    requires forall i: nat :: Bit(y, i) <==> i < k
    ensures y == Pow2(k) - 1
  {
    if k == 0 {
      NoBits(y);
    } else {
      assert Bit(y, 0);
      forall i: nat
        ensures Bit(y / 2, i) <==> i < k - 1
      {
        assert Bit(y, i + 1) <==> i + 1 < k;
      }
      LowBits(y / 2, k - 1);
    }
  }

  lemma {:induction false} TopBit(x: nat, k: nat, i: nat)
    requires Pow2(k) <= 2 * x && x < Pow2(k) && k > 0
    ensures Bit(x, k - 1) && (i >= k ==> !Bit(x, i))
  {
    if k == 1 {
      assert Pow2(1) == 2 && Pow2(0) == 1;
      assert x == 1;
      if i > 0 {
        ZeroBit(i - 1);
      }
    } else {
      var half := x / 2;
      assert Pow2(k) == 2 * Pow2(k - 1) && Pow2(k - 1) == 2 * Pow2(k - 2);
      assert Pow2(k - 2) <= half && half < Pow2(k - 1);
      TopBit(half, k - 1, if i > 0 then i - 1 else 0);
      assert Bit(x, k - 1) == Bit(half, k - 2);
    }
  }

  lemma {:induction false} ZeroBit(i: nat)
    ensures !Bit(0, i)
  {
    if i > 0 {
      ZeroBit(i - 1);
    }
  }

  ghost predicate AnyBit(x: nat, i: nat, m: nat) {
    exists j :: i <= j < i + m && Bit(x, j)
  }

  /** Every bit of y tells whether x has one among the next m. */
  ghost predicate Smeared(x: nat, y: nat, m: nat) {
    forall i: nat :: Bit(y, i) <==> AnyBit(x, i, m)
  }

  lemma {:induction false} SmearedOnce(x: nat)
    ensures Smeared(x, x, 1)
  {
    forall i: nat
      ensures Bit(x, i) <==> AnyBit(x, i, 1)
    {
    }
  }

  lemma {:induction false} SmearStep(x: nat, y: nat, m: nat)
    requires Smeared(x, y, m)
    ensures Smeared(x, Or(y, Shr(y, m)), 2 * m)
  {
    hide Bit, Or, Shr;
    forall i: nat
      ensures Bit(Or(y, Shr(y, m)), i) <==> AnyBit(x, i, 2 * m)
    {
      OrBit(y, Shr(y, m), i);
      ShrBit(y, m, i);
      assert Bit(y, i) <==> AnyBit(x, i, m);
      assert Bit(y, i + m) <==> AnyBit(x, i + m, m);
    }
  }

  lemma {:induction false} HasTop(x: nat, b: nat) returns (k: nat)
    requires 0 < x < Pow2(b)
    ensures 0 < k <= b && Pow2(k) <= 2 * x && x < Pow2(k)
  {
    if 2 * x < Pow2(b) {
      assert b > 0;
      k := HasTop(x, b - 1);
    } else {
      k := b;
    }
  }

  /** Thirty-two smeared bits of a number below 2^32 are all ones from its top bit down. */
  lemma {:induction false} SmearedFull(x: nat, y: nat) returns (k: nat)
    requires x < Pow2(32) && Smeared(x, y, 32)
    ensures y + 1 == Pow2(k) && k <= 32 && x < Pow2(k) && (k > 0 ==> Pow2(k - 1) <= x)
  {
    if x == 0 {
      k := 0;
      forall i: nat
        ensures !Bit(y, i)
      {
        forall j: nat
          ensures !Bit(x, j)
        {
          ZeroBit(j);
        }
      }
      NoBits(y);
    } else {
      k := HasTop(x, 32);
      TopBit(x, k, 0);
      forall i: nat
        ensures Bit(y, i) <==> i < k
      {
        if i < k {
          assert i <= k - 1 < i + 32 && Bit(x, k - 1);
          assert AnyBit(x, i, 32);
        } else {
          forall j: nat | i <= j
            ensures !Bit(x, j)
          {
            TopBit(x, k, j);
          }
        }
      }
      LowBits(y, k);
    }
  }

  /** round_up_buffer_size: the least power of two that is at least n. */
  method RoundUpBufferSize(n: nat) returns (size: nat)
    requires 1 <= n <= Pow2(32)
    ensures exists k: nat :: size == Pow2(k) && k <= 32
    ensures n <= size && forall j: nat :: n <= Pow2(j) ==> size <= Pow2(j)
  {
    hide Smeared, Or, Shr;
    ghost var x := n - 1;
    size := n - 1;
    SmearedOnce(x);
    SmearStep(x, size, 1);
    size := Or(size, Shr(size, 1));
    SmearStep(x, size, 2);
    size := Or(size, Shr(size, 2));
    SmearStep(x, size, 4);
    size := Or(size, Shr(size, 4));
    SmearStep(x, size, 8);
    size := Or(size, Shr(size, 8));
    SmearStep(x, size, 16);
    size := Or(size, Shr(size, 16));
    ghost var k := SmearedFull(x, size);
    size := size + 1;
    forall j: nat | n <= Pow2(j)
      ensures size <= Pow2(j)
    {
      LeastPow2(n, k, j);
    }
  }

  lemma {:induction false} LeastPow2(n: nat, k: nat, j: nat)
    requires k > 0 ==> Pow2(k - 1) < n
    requires n <= Pow2(j)
    ensures Pow2(k) <= Pow2(j)
  {
    if j < k {
      if j < k - 1 {
        Pow2Grows(j, k - 1);
      }
    } else if k < j {
      Pow2Grows(k, j);
    }
  }
}
