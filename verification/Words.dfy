/** Machine words. */
module Words {

  const UINT32 := 0x1_0000_0000
  const UINT64 := 0x1_0000_0000_0000_0000

  /** An int of 32 bits. C leaves overflow undefined; here it wraps. */
  function Int32(x: int): (r: int)
    ensures -(UINT32 / 2) <= r < UINT32 / 2
  {
    (x + UINT32 / 2) % UINT32 - UINT32 / 2
  }

  lemma {:induction false} Int32Is(x: int, r: int, k: int)
    requires x == r + k * UINT32 && -(UINT32 / 2) <= r < UINT32 / 2
    ensures Int32(x) == r
  {
  }

  lemma {:induction false} Int32Step(x: int, d: int)
    ensures Int32(Int32(x) * 10 + d) == Int32(x * 10 + d)
    ensures Int32(-Int32(x)) == Int32(-x)
  {
    var k := (x + UINT32 / 2) / UINT32;
    assert x == Int32(x) + k * UINT32;
    var y := Int32(x) * 10 + d;
    var j := (y + UINT32 / 2) / UINT32;
    Int32Is(x * 10 + d, Int32(y), j + 10 * k);
    var z := -Int32(x);
    var i := (z + UINT32 / 2) / UINT32;
    Int32Is(-x, Int32(z), i - k);
  }

  /** Truncating on the way does not change where a sum ends. */
  lemma {:induction false} Int32Sum(x: int, d: int)
    ensures Int32(Int32(x) + d) == Int32(x + d)
  {
    var k := (x + UINT32 / 2) / UINT32;
    assert x == Int32(x) + k * UINT32;
    var y := Int32(x) + d;
    var j := (y + UINT32 / 2) / UINT32;
    Int32Is(x + d, Int32(y), j + k);
  }

  lemma {:induction false} Int32Fits(x: int)
    ensures Int32(x) == x <==> -(UINT32 / 2) <= x < UINT32 / 2
  {
    if -(UINT32 / 2) <= x < UINT32 / 2 {
      Int32Is(x, x, 0);
    }
  }
}
