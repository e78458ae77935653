/** str_to_int and hex_to_uint on NUL-terminated strings, with the widths of their results, and
    what they make of printed numbers. */
module Parsing {
  import opened Powers
  import opened Bits
  import opened Numerals
  import opened Words

  // ----- strings -----

  /** The characters before the first NUL. */
  function CString(s: string): (t: string)
    requires NUL in s
    ensures |t| < |s| && t == s[..|t|] && s[|t|] == NUL && NUL !in t
  {
    if s[0] == NUL then [] else
      assert s == [s[0]] + s[1..];
      [s[0]] + CString(s[1..])
  }

  lemma {:induction false} CStringIs(s: string, text: string)
    requires |text| < |s| && s[..|text|] == text && s[|text|] == NUL && NUL !in text
    ensures NUL in s && CString(s) == text
  {
    var t := CString(s);
    assert forall i :: 0 <= i < |t| ==> t[i] != NUL && t[i] == s[i];
    assert forall i :: 0 <= i < |text| ==> text[i] != NUL && text[i] == s[i];
  }

  predicate IsDigit(c: char) {
    '0' <= c <= '9'
  }

  function SkipSpaces(s: string): string {
    if s != [] && s[0] == ' ' then SkipSpaces(s[1..]) else s
  }

  /** The digits at the front of s, read after acc. */
  function Magnitude(acc: int, s: string): int
    decreases |s|
  {
    if s == [] || !IsDigit(s[0]) then acc
    else Magnitude(Int32(acc * 10 + (s[0] as int - '0' as int)), s[1..])
  }

  function ParseInt(s: string): int {
    var t := SkipSpaces(s);
    if t != [] && t[0] == '-' then Int32(-Magnitude(0, t[1..]))
    else if t != [] && t[0] == '+' then Magnitude(0, t[1..])
    else Magnitude(0, t)
  }

  method StrToInt(str: array<char>) returns (r: int)
    requires NUL in str[..]
    ensures r == ParseInt(CString(str[..]))
  {
    hide Int32, CString;
    ghost var s := CString(str[..]);
    var i := 0;
    while str[i] == ' '
      invariant 0 <= i <= |s| && SkipSpaces(s) == SkipSpaces(s[i..])
      decreases |s| - i
    {
      i := i + 1;
    }
    ghost var t := s[i..];
    assert SkipSpaces(s) == t;
    var sign := 1;
    if str[i] == '-' {
      sign := -1;
      i := i + 1;
    } else if str[i] == '+' {
      i := i + 1;
    }
    var result := 0;
    ghost var u := s[i..];
    assert sign == if t != [] && t[0] == '-' then -1 else 1;
    assert u == if t != [] && (t[0] == '-' || t[0] == '+') then t[1..] else t;
    while str[i] != NUL && '0' <= str[i] <= '9'
      invariant 0 <= i <= |s| && Magnitude(0, u) == Magnitude(result, s[i..])
      invariant -(UINT32 / 2) <= result < UINT32 / 2
      decreases |s| - i
    {
      result := Int32(result * 10 + (str[i] as int - '0' as int));
      i := i + 1;
    }
    Int32Is(result, result, 0);
    assert result * sign == if sign == -1 then -result else result;
    r := Int32(result * sign);
  }

  lemma {:induction false} DigitsAreDigits(v: nat)
    ensures forall c :: c in Digits(v, 10) ==> IsDigit(c)
    decreases v
  {
    if v >= 10 {
      Smaller(v, 10);
      DigitsAreDigits(v / 10);
    }
  }

  lemma {:induction false} MagnitudeJoins(acc: int, a: string, b: string)
    requires forall c :: c in a ==> IsDigit(c)
    ensures Magnitude(acc, a + b) == Magnitude(Magnitude(acc, a), b)
    decreases |a|
  {
    if a == [] {
      assert a + b == b;
    } else {
      assert (a + b)[1..] == a[1..] + b && a[0] in a;
      MagnitudeJoins(Int32(acc * 10 + (a[0] as int - '0' as int)), a[1..], b);
    }
  }

  lemma {:induction false} MagnitudeOfDigits(v: nat)
    ensures Magnitude(0, Digits(v, 10)) == Int32(v)
    decreases v
  {
    var c := DigitChar(v % 10);
    assert c as int - '0' as int == v % 10;
    assert forall acc: int :: Magnitude(acc, [c]) == Magnitude(Int32(acc * 10 + v % 10), [c][1..]);
    if v < 10 {
      assert Digits(v, 10) == [c] && Magnitude(0, [c]) == Int32(v);
    } else {
      Smaller(v, 10);
      MagnitudeOfDigits(v / 10);
      DigitsAreDigits(v / 10);
      MagnitudeJoins(0, Digits(v / 10, 10), [c]);
      Int32Step(v / 10, v % 10);
    }
  }

  /** Parsing undoes printing up to the width of the result: for every 64-bit number the parser
      gives its low 32 bits, which is the number itself exactly when it fits. */
  lemma {:induction false} ParsePrinted(v: int)
    ensures ParseInt(IntString(v)) == Int32(v)
    ensures ParseInt(IntString(v)) == v <==> -(UINT32 / 2) <= v < UINT32 / 2
  {
    var m: nat := if v < 0 then -v else v;
    MagnitudeOfDigits(m);
    DigitsAreDigits(m);
    var s := IntString(v);
    assert Digits(m, 10)[0] in Digits(m, 10);
    if v < 0 {
      assert s[0] == '-' && s[1..] == Digits(m, 10);
      Int32Step(m, 0);
    } else {
      assert s == Digits(m, 10);
    }
    if -(UINT32 / 2) <= v < UINT32 / 2 {
      Int32Is(v, v, 0);
    }
  }

  lemma {:induction false} LeadingSpaces(n: nat, s: string)
    ensures SkipSpaces(seq(n, _ => ' ') + s) == SkipSpaces(s)
  {
    var t := seq(n, _ => ' ') + s;
    if n == 0 {
      assert t == s;
    } else {
      assert t[1..] == seq(n - 1, _ => ' ') + s;
      LeadingSpaces(n - 1, s);
    }
  }

  lemma {:induction false} DigitsThenTail(v: nat, tail: string)
    requires tail != [] ==> !IsDigit(tail[0])
    ensures Magnitude(0, Digits(v, 10) + tail) == Int32(v)
    ensures var s := Digits(v, 10) + tail;
      s != [] && s[0] != ' ' && s[0] != '-' && s[0] != '+'
  {
    MagnitudeOfDigits(v);
    DigitsAreDigits(v);
    MagnitudeJoins(0, Digits(v, 10), tail);
    assert Digits(v, 10)[0] in Digits(v, 10);
  }

  /** Any number of spaces before the number is skipped, a sign of either kind is taken, and the first
      character that is no digit ends it. */
  lemma {:induction false} ParseInContext(v: nat, spaces: nat, tail: string)
    requires tail != [] ==> !IsDigit(tail[0])
    ensures ParseInt(seq(spaces, _ => ' ') + (Digits(v, 10) + tail)) == Int32(v)
    ensures ParseInt(seq(spaces, _ => ' ') + (['+'] + Digits(v, 10) + tail)) == Int32(v)
    ensures ParseInt(seq(spaces, _ => ' ') + (['-'] + Digits(v, 10) + tail)) == Int32(0 - v)
  {
    hide Int32;
    DigitsThenTail(v, tail);
    var s := Digits(v, 10) + tail;
    var plus, minus := ['+'] + Digits(v, 10) + tail, ['-'] + Digits(v, 10) + tail;
    assert plus[1..] == s && minus[1..] == s;
    LeadingSpaces(spaces, s);
    LeadingSpaces(spaces, plus);
    LeadingSpaces(spaces, minus);
    Int32Step(v, 0);
  }

  /** What starts with neither a digit nor, after a sign, with one, is 0. */
  lemma {:induction false} ParseNoNumber(spaces: nat, s: string)
    requires s != [] ==> s[0] != ' ' && !IsDigit(s[0])
    requires s != [] && (s[0] == '-' || s[0] == '+') ==> |s| == 1 || !IsDigit(s[1])
    ensures ParseInt(seq(spaces, _ => ' ') + s) == 0
  {
    LeadingSpaces(spaces, s);
  }

  // ----- hexadecimal -----

  function HexValue(c: char): (v: int)
    ensures -1 <= v < 16
  {
    if '0' <= c <= '9' then c as int - '0' as int
    else if 'A' <= c <= 'F' then 10 + (c as int - 'A' as int)
    else if 'a' <= c <= 'f' then 10 + (c as int - 'a' as int)
    else -1
  }

  /** Four more bits per digit, in a uint32_t; any other character makes the whole answer 0. */
  function HexFold(acc: nat, s: string): nat
    decreases |s|
  {
    if s == [] then acc
    else if HexValue(s[0]) < 0 then 0
    else HexFold((acc * 16 + HexValue(s[0])) % UINT32, s[1..])
  }

  function ParseHex(s: string): nat {
    if |s| >= 2 && s[0] == '0' && s[1] == 'x' then HexFold(0, s[2..])
    else if s != [] && s[0] == '#' then HexFold(0, s[1..])
    else HexFold(0, s)
  }

  lemma {:induction false} OrZero(a: nat)
    ensures Or(a, 0) == a
  {
    if a > 0 {
      OrZero(a / 2);
    }
  }

  lemma {:induction false} OrDouble(a: nat, y: nat)
    ensures Or(2 * a, y) == 2 * Or(a, y / 2) + y % 2
  {
    assert 2 * a / 2 == a;
  }

  lemma {:induction false} OrLow(q: nat, value: nat)
    requires value < 16
    ensures Or(16 * q, value) == 16 * q + value
  {
    hide Or;
    OrDouble(8 * q, value);
    OrDouble(4 * q, value / 2);
    OrDouble(2 * q, value / 2 / 2);
    OrDouble(q, value / 2 / 2 / 2);
    OrZero(q);
  }

  lemma {:induction false} HexModulo(acc: nat, value: nat)
    requires value < 16
    ensures (acc * 16 + value) % UINT32 == 16 * (acc % (UINT32 / 16)) + value
  {
    var m := UINT32 / 16;
    DivUnique(acc * 16 + value, UINT32, acc / m, 16 * (acc % m) + value);
  }

  /** Shifting left by four and or-ing a digit in adds it. */
  lemma {:induction false} OrIsSum(acc: nat, value: nat)
    requires value < 16
    ensures Or(acc * 16 % UINT32, value) == (acc * 16 + value) % UINT32
  {
    hide Or;
    HexModulo(acc, 0);
    HexModulo(acc, value);
    OrLow(acc % (UINT32 / 16), value);
  }

  lemma {:induction false} HexStep(acc: nat, value: nat)
    requires value < 16
    ensures (acc % UINT32 * 16 + value) % UINT32 == (acc * 16 + value) % UINT32
  {
    var k, low := acc / UINT32, acc % UINT32;
    var x := low * 16 + value;
    DivUnique(acc * 16 + value, UINT32, 16 * k + x / UINT32, x % UINT32);
  }

  method HexToUint(code: array<char>) returns (ret: nat)
    requires NUL in code[..]
    ensures ret == ParseHex(CString(code[..]))
  {
    ghost var s := CString(code[..]);
    var i := 0;
    if code[0] == '0' && code[1] == 'x' {
      i := 2;
    } else if code[0] == '#' {
      i := 1;
    }
    ret := 0;
    ghost var t := s[i..];
    assert ParseHex(s) == HexFold(0, t);
    while code[i] != NUL
      invariant 0 <= i <= |s| && HexFold(0, t) == HexFold(ret, s[i..])
      decreases |s| - i
    {
      var c := code[i];
      var value: nat := 0;
      if '0' <= c <= '9' {
        value := c as int - '0' as int;
      } else if 'A' <= c <= 'F' {
        value := 10 + (c as int - 'A' as int);
      } else if 'a' <= c <= 'f' {
        value := 10 + (c as int - 'a' as int);
      } else {
        return 0;
      }
      OrIsSum(ret, value);
      ret := Or(ret * 16 % UINT32, value);
      i := i + 1;
    }
  }

  predicate IsHexDigit(c: char) {
    '0' <= c <= '9' || 'A' <= c <= 'F'
  }

  lemma {:induction false} DigitsAreHex(v: nat)
    ensures forall c :: c in Digits(v, 16) ==> IsHexDigit(c)
    decreases v
  {
    if v >= 16 {
      Smaller(v, 16);
      DigitsAreHex(v / 16);
    }
  }

  lemma {:induction false} HexJoins(acc: nat, a: string, b: string)
    requires forall c :: c in a ==> IsHexDigit(c)
    ensures HexFold(acc, a + b) == HexFold(HexFold(acc, a), b)
    decreases |a|
  {
    if a == [] {
      assert a + b == b;
    } else {
      assert (a + b)[1..] == a[1..] + b && a[0] in a;
      HexJoins((acc * 16 + HexValue(a[0])) % UINT32, a[1..], b);
    }
  }

  lemma {:induction false} HexOfDigits(v: nat)
    ensures HexFold(0, Digits(v, 16)) == v % UINT32
    decreases v
  {
    var c := DigitChar(v % 16);
    assert HexValue(c) == v % 16;
    assert forall acc: nat :: HexFold(acc, [c]) == HexFold((acc * 16 + v % 16) % UINT32, [c][1..]);
    if v < 16 {
      assert Digits(v, 16) == [c] && HexFold(0, [c]) == v;
    } else {
      Smaller(v, 16);
      HexOfDigits(v / 16);
      DigitsAreHex(v / 16);
      HexJoins(0, Digits(v / 16, 16), [c]);
      HexStep(v / 16, v % 16);
    }
  }

  /** The hexadecimal parser undoes printing in base 16 exactly for the numbers below 2^32. */
  lemma {:induction false} ParsePrintedHex(v: nat)
    ensures ParseHex(Digits(v, 16)) == v % UINT32
    ensures ParseHex(Digits(v, 16)) == v <==> v < UINT32
  {
    var s := Digits(v, 16);
    HexOfDigits(v);
    DigitsAreHex(v);
    assert s[0] in s && (|s| >= 2 ==> s[1] in s);
  }

  /** The letters a to f in upper case, everything else as it is. */
  function Upper(c: char): char {
    if 'a' <= c <= 'f' then (c as int - 32) as char else c
  }

  function UpperAll(s: string): (t: string)
    ensures |t| == |s| && forall i :: 0 <= i < |s| ==> t[i] == Upper(s[i])
  {
    seq(|s|, i requires 0 <= i < |s| => Upper(s[i]))
  }

  lemma {:induction false} FoldIgnoresCase(acc: nat, s: string)
    ensures HexFold(acc, UpperAll(s)) == HexFold(acc, s)
    decreases |s|
  {
    if s != [] {
      assert HexValue(Upper(s[0])) == HexValue(s[0]);
      assert UpperAll(s)[1..] == UpperAll(s[1..]);
      if HexValue(s[0]) >= 0 {
        FoldIgnoresCase((acc * 16 + HexValue(s[0])) % UINT32, s[1..]);
      }
    }
  }

  /** The digits may be in either case. */
  lemma {:induction false} HexIgnoresCase(s: string)
    ensures ParseHex(UpperAll(s)) == ParseHex(s)
  {
    var t := UpperAll(s);
    FoldIgnoresCase(0, s);
    if |s| >= 2 {
      assert t[2..] == UpperAll(s[2..]);
      FoldIgnoresCase(0, s[2..]);
    }
    if |s| >= 1 {
      assert t[1..] == UpperAll(s[1..]);
      FoldIgnoresCase(0, s[1..]);
    }
  }

  /** With or without either prefix, and in either case, a number printed in base 16 is read as its
      low 32 bits. */
  lemma {:induction false} ParsePrefixedHex(v: nat, s: string)
    requires UpperAll(s) == Digits(v, 16)
    ensures ParseHex(s) == ParseHex("#" + s) == ParseHex("0x" + s) == v % UINT32
  {
    ParsePrintedHex(v);
    HexIgnoresCase(s);
    HexOfDigits(v);
    FoldIgnoresCase(0, s);
    assert ("#" + s)[1..] == s && ("0x" + s)[2..] == s;
  }

  /** One character that is no hexadecimal digit, anywhere behind the prefix, or in a string without
      one, and the answer is 0. */
  lemma {:induction false} HexRejects(s: string, i: nat)
    requires i < |s| && Upper(s[i]) !in "0123456789ABCDEF"
    ensures ParseHex("#" + s) == ParseHex("0x" + s) == 0
    ensures s[0] != '#' && !("0x" <= s) ==> ParseHex(s) == 0
  {
    RejectsAt(0, s, i);
    assert ("#" + s)[1..] == s && ("0x" + s)[2..] == s;
  }

  lemma {:induction false} RejectsAt(acc: nat, s: string, i: nat)
    requires i < |s| && Upper(s[i]) !in "0123456789ABCDEF"
    ensures HexFold(acc, s) == 0
    decreases i
  {
    HexDigitsListed(s[i]);
    if i > 0 && HexValue(s[0]) >= 0 {
      RejectsAt((acc * 16 + HexValue(s[0])) % UINT32, s[1..], i - 1);
    }
  }

  lemma {:induction false} HexDigitsListed(c: char)
    ensures HexValue(c) >= 0 ==> Upper(c) in "0123456789ABCDEF"
  {
    var all := "0123456789ABCDEF";
    if HexValue(c) >= 0 {
      assert Upper(c) == all[HexValue(c)];
    }
  }

  // ----- through a buffer -----

  /** int_to_str and then str_to_int on the same buffer. */
  method PrintThenParse(v: int, buff: array<char>) returns (r: int)
    requires -(UINT64 / 2) <= v < UINT64 / 2 && |IntString(v)| < buff.Length
    modifies buff
    ensures r == Int32(v)
    ensures r == v <==> -(UINT32 / 2) <= v < UINT32 / 2
  {
    var n := IntToStr(v, buff);
    PrintedString(buff[..], IntString(v), v);
    r := StrToInt(buff);
    ParsePrinted(v);
  }

  lemma {:induction false} PrintedString(buf: string, text: string, v: int)
    requires text == IntString(v) && |text| < |buf| && buf[..|text| + 1] == text + [NUL]
    ensures NUL in buf && CString(buf) == text
  {
    DigitsAreDigits(if v < 0 then -v else v);
    assert buf[..|text|] == buf[..|text| + 1][..|text|];
    assert buf[|text|] == buf[..|text| + 1][|text|];
    CStringIs(buf, text);
  }
}
