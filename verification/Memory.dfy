/** memcpy, and what it leaves behind. */
module Memory {

  /** A piece of a buffer overwritten. */
  function Splice<T>(buf: seq<T>, at: nat, data: seq<T>): (s: seq<T>)
    requires at + |data| <= |buf|
    ensures |s| == |buf|
  {
    buf[..at] + data + buf[at + |data|..]
  }

  lemma {:induction false} SpliceAt<T>(buf: seq<T>, at: nat, data: seq<T>, k: nat)
    requires at + |data| <= |buf| && k < |buf|
    ensures Splice(buf, at, data)[k] == if at <= k < at + |data| then data[k - at] else buf[k]
  {
  }

  lemma {:induction false} SpliceTwice<T>(buf: seq<T>, at: nat, a: seq<T>, b: seq<T>)
    requires at + |a| + |b| <= |buf|
    ensures Splice(Splice(buf, at, a), at + |a|, b) == Splice(buf, at, a + b)
  {
  }

  lemma {:induction false} SpliceNone<T>(buf: seq<T>, at: nat)
    requires at <= |buf|
    ensures Splice(buf, at, []) == buf
  {
  }

  lemma {:induction false} SpliceOne<T>(buf: seq<T>, at: nat, x: T)
    requires at < |buf|
    ensures Splice(buf, at, [x]) == buf[at := x]
  {
  }

  method Memcpy<T>(dst: array<T>, d: nat, src: array<T>, s: nat, length: nat)
    requires dst != src && d + length <= dst.Length && s + length <= src.Length
    modifies dst
    ensures dst[..] == Splice(old(dst[..]), d, src[s..s + length])
  {
    hide Splice;
    ghost var before := dst[..];
    var i := 0;
    SpliceNone(before, d);
    assert src[s..s + i] == [];
    while i < length
      invariant 0 <= i <= length
      invariant dst[..] == Splice(before, d, src[s..s + i])
    {
      SpliceTwice(before, d, src[s..s + i], [src[s + i]]);
      assert src[s..s + i] + [src[s + i]] == src[s..s + i + 1];
      SpliceOne(dst[..], d + i, src[s + i]);
      dst[d + i] := src[s + i];
      i := i + 1;
    }
  }
}
