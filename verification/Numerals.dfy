/** Printing and parsing numbers: the digit loop with its in-place reversal, and the two parsers. */
module Numerals {
  import opened Powers
  import opened Memory
  import opened Words

  const NUL: char := '\0'

  // ----- digits -----

  function DigitChar(d: nat): char
    requires d < 36
  {
    if d < 10 then d as char + '0' else (d - 10) as char + 'A'
  }

  /** A number in a base, most significant digit first, without leading zeros. */
  function Digits(v: nat, base: nat): (s: string)
    requires 2 <= base <= 36
    ensures |s| > 0
    decreases v
  {
    if v < base then [DigitChar(v)] else
      Smaller(v, base);
      Digits(v / base, base) + [DigitChar(v % base)]
  }

  lemma {:induction false} Smaller(v: nat, base: nat)
    requires base >= 2
    ensures v > 0 ==> v / base < v
    ensures v / base == 0 <==> v < base
    ensures v == (v / base) * base + v % base
  {
    ScaleUp(2, base, v / base);
    if v < base {
      DivUnique(v, base, 0, v);
    }
  }

  lemma {:induction false} ScaleUp(x: nat, y: nat, z: nat)
    requires x <= y
    ensures z * x <= z * y && x * z <= y * z
  {
  }

  function Reversed(s: string): (r: string)
    ensures |r| == |s|
  {
    if s == [] then [] else Reversed(s[1..]) + [s[0]]
  }

  lemma {:induction false} ReversedAt(s: string, k: nat)
    requires k < |s|
    ensures Reversed(s)[k] == s[|s| - 1 - k]
  {
    if k < |s| - 1 {
      ReversedAt(s[1..], k);
    }
  }

  lemma {:induction false} ReversedSnoc(s: string, c: char)
    ensures Reversed(s + [c]) == [c] + Reversed(s)
  {
    if s != [] {
      ReversedSnoc(s[1..], c);
      assert (s + [c])[1..] == s[1..] + [c];
    } else {
      assert s + [c] == [c];
    }
  }

  function Pow(base: nat, k: nat): nat {
    if k == 0 then 1 else Pow(base, k - 1) * base
  }

  lemma {:induction false} Scale(x: nat, y: nat, base: nat, r: nat)
    requires x < y && r < base
    ensures x * base + r < y * base
  {
    assert (x + 1) * base <= y * base;
  }

  /** The count of digits is the least that can hold the number. */
  lemma {:induction false} DigitCountIsMinimal(v: nat, base: nat)
    requires 2 <= base <= 36
    ensures var k := |Digits(v, base)|;
      v < Pow(base, k) && (k > 1 ==> Pow(base, k - 1) <= v)
    decreases v
  {
    Smaller(v, base);
    if v < base {
      assert Pow(base, 1) == base;
    } else {
      var k := |Digits(v / base, base)|;
      DigitCountIsMinimal(v / base, base);
      Scale(v / base, Pow(base, k), base, v % base);
      if k > 1 {
        ScaleUp(Pow(base, k - 1), v / base, base);
      } else {
        assert Pow(base, 1) == base;
      }
    }
  }

  /** What a digit of any base stands for. */
  function DigitOf(c: char): int {
    if '0' <= c <= '9' then c as int - '0' as int
    else if 'A' <= c <= 'Z' then c as int - 'A' as int + 10
    else -1
  }

  /** A string of digits read from the left. */
  function ValueOf(s: string, base: nat): int {
    if s == [] then 0 else ValueOf(s[..|s| - 1], base) * base + DigitOf(s[|s| - 1])
  }

  /** In every base the digits read back as the number, each below the base, the first not 0 unless
      it is the only one. */
  lemma {:induction false} DigitsMean(v: nat, base: nat)
    requires 2 <= base <= 36
    ensures ValueOf(Digits(v, base), base) == v
    ensures forall c :: c in Digits(v, base) ==> 0 <= DigitOf(c) < base
    ensures |Digits(v, base)| > 1 ==> DigitOf(Digits(v, base)[0]) > 0
    decreases v
  {
    var c := DigitChar(v % base);
    Smaller(v, base);
    if v < base {
      DivUnique(v, base, 0, v);
      assert DigitOf(c) == v && [c][..0] == [];
    } else {
      DigitsMean(v / base, base);
      var s := Digits(v / base, base);
      assert (s + [c])[..|s|] == s && DigitOf(c) == v % base;
      if |s| == 1 {
        assert s[..0] == [] && ValueOf(s, base) == DigitOf(s[0]);
      }
    }
  }

  lemma {:induction false} NothingMoved(v: nat, base: nat)
    requires 2 <= base <= 36
    ensures forall low: string :: low == [] ==> Digits(v, base) == Digits(v, base) + Reversed(low)
  {
  }

  /** One turn of the digit loop moves the last digit to the reversed part. */
  lemma {:induction false} MoveDigit(v: nat, base: nat, low: string)
    requires 2 <= base <= 36
    ensures Digits(v, base) + Reversed(low)
         == (if v < base then [] else Digits(v / base, base)) + Reversed(low + [DigitChar(v % base)])
  {
    Smaller(v, base);
    ReversedSnoc(low, DigitChar(v % base));
    if v < base {
      DivUnique(v, base, 0, v);
    } else {
      assert Digits(v, base) + Reversed(low) == Digits(v / base, base) + ([DigitChar(v % base)] + Reversed(low));
    }
  }

  /** The digit loop of uint_to_base: least significant digit first. */
  method WriteDigits(value: nat, buff: array<char>, base: nat) returns (digits: nat)
    requires 2 <= base <= 36 && |Digits(value, base)| < buff.Length
    modifies buff
    ensures digits < buff.Length && Digits(value, base) == Reversed(buff[..digits])
    ensures buff[digits..] == old(buff[digits..])
  {
    hide Digits, Reversed;
    ghost var before := buff[..];
    var v: nat := value;
    NothingMoved(value, base);
    digits := 0;
    var more := true;
    while more
      invariant digits < buff.Length && forall k :: digits <= k < buff.Length ==> buff[k] == before[k]
      invariant more ==> Digits(value, base) == Digits(v, base) + Reversed(buff[..digits])
      invariant !more ==> Digits(value, base) == Reversed(buff[..digits])
      decreases more, v
    {
      var remainder := v % base;
      MoveDigit(v, base, buff[..digits]);
      Smaller(v, base);
      buff[digits] := if remainder < 10 then remainder as char + '0' else (remainder - 10) as char + 'A';
      assert buff[..digits + 1] == buff[..digits] + [DigitChar(remainder)];
      digits := digits + 1;
      v := v / base;
      more := v != 0;
    }
  }

  /** uint_to_base: the digits, then a NUL; the rest of the buffer is untouched. */
  method UintToBase(value: nat, buff: array<char>, base: nat) returns (digits: nat)
    requires 2 <= base <= 36 && |Digits(value, base)| < buff.Length
    modifies buff
    ensures digits == |Digits(value, base)|
    ensures buff[..] == Splice(old(buff[..]), 0, Digits(value, base) + [NUL])
  {
    hide Digits, Reversed;
    ghost var before := buff[..];
    digits := WriteDigits(value, buff, base);
    assert buff[digits + 1..] == before[digits + 1..];
    buff[digits] := NUL;
    Reverse(buff, digits);
    assert buff[..] == buff[..digits] + buff[digits..];
    assert buff[digits..] == [NUL] + before[digits + 1..];
  }

  /** The first n characters, reversed in place from both ends. */
  method Reverse(buff: array<char>, n: nat)
    requires 0 < n <= buff.Length
    modifies buff
    ensures buff[..n] == Reversed(old(buff[..n])) && buff[n..] == old(buff[n..])
  {
    ghost var before := buff[..n];
    var p1, p2 := 0, n - 1;
    while p1 < p2
      invariant 0 <= p1 <= p2 + 1 && p1 + p2 == n - 1
      invariant forall k :: 0 <= k < p1 ==> buff[k] == before[n - 1 - k] && buff[n - 1 - k] == before[k]
      invariant forall k :: p1 <= k <= p2 ==> buff[k] == before[k]
      invariant buff[n..] == old(buff[n..])
    {
      var tmp := buff[p1];
      buff[p1] := buff[p2];
      buff[p2] := tmp;
      p1 := p1 + 1;
      p2 := p2 - 1;
    }
    forall k | 0 <= k < n
      ensures buff[..n][k] == Reversed(before)[k]
    {
      ReversedAt(before, k);
      if k >= p1 && k > p2 {
        assert buff[n - 1 - (n - 1 - k)] == before[n - 1 - k];
      }
    }
  }

  /** A signed number as int_to_str writes it. */
  function IntString(v: int): string {
    if v < 0 then "-" + Digits(-v, 10) else Digits(v, 10)
  }

  /** int_to_str. The work buffer's 64 characters are more than any 64-bit number needs. */
  method IntToStr(value: int, buff: array<char>) returns (n: nat)
    requires -(UINT64 / 2) <= value < UINT64 / 2 && |IntString(value)| < buff.Length
    modifies buff
    ensures n == |IntString(value)|
    ensures buff[..] == Splice(old(buff[..]), 0, IntString(value) + [NUL])
  {
    hide Digits;
    ghost var before := buff[..];
    var buffAux := new char[64];
    var isNeg := value < 0;
    var v: nat := if isNeg then -value else value;
    FitsAux(v);
    var digits := UintToBase(v, buffAux, 10);
    var shift := if isNeg then 1 else 0;
    assert buffAux[0..digits + 1] == Digits(v, 10) + [NUL];
    Memcpy(buff, shift, buffAux, 0, digits + 1);
    if isNeg {
      SignedSplice(before, Digits(v, 10) + [NUL]);
      assert "-" + Digits(v, 10) + [NUL] == ['-'] + (Digits(v, 10) + [NUL]);
      buff[0] := '-';
    }
    n := digits + shift;
  }

  lemma {:induction false} SignedSplice(buf: string, data: string)
    requires 1 + |data| <= |buf|
    ensures Splice(buf, 1, data)[0 := '-'] == Splice(buf, 0, ['-'] + data)
  {
  }

  lemma {:induction false} FitsAux(v: nat)
    requires v <= UINT64 / 2
    ensures |Digits(v, 10)| < 64
  {
    assert Pow2(10) == 1024;
    Pow2Adds(10, 10);
    Pow2Adds(20, 20);
    Pow2Adds(40, 20);
    AtMostBits(v / 10, 60);
  }

  lemma {:induction false} AtMostBits(v: nat, k: nat)
    requires v < Pow2(k) && k > 0
    ensures |Digits(v, 10)| <= k
    decreases k
  {
    if v >= 10 {
      assert k > 1 && v / 10 < Pow2(k - 1);
      AtMostBits(v / 10, k - 1);
    }
  }
}
