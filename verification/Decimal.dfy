/** Bytes, and integers written in decimal as ll2string and strtoll do. */
module Decimal {

  type Byte = x: int | 0 <= x < 256
  type Bytes = seq<Byte>

  function Digits(n: nat): (r: Bytes)
    ensures |r| >= 1 && forall i | 0 <= i < |r| :: IsDigit(r[i])
    ensures n > 0 ==> r[0] != 48
  {
    if n < 10 then [48 + n] else Digits(n / 10) + [48 + n % 10]
  }

  predicate IsDigit(b: Byte) { 48 <= b <= 57 }

  predicate IsSpace(b: Byte) { b == 32 || 9 <= b <= 13 }

  /** ll2string. */
  function Print(n: int): Bytes { if n < 0 then [45] + Digits(-n) else Digits(n) }

  /** The value of a run of digits, most significant first. */
  function Value(s: Bytes): nat
    requires forall i | 0 <= i < |s| :: IsDigit(s[i])
  {
    if s == [] then 0
    else
      var last := s[|s| - 1];
      assert IsDigit(last);
      Value(s[..|s| - 1]) * 10 + (last as int - 48)
  }

  /** The longest prefix made of digits. */
  function DigitPrefix(s: Bytes): (r: Bytes)
    ensures forall i | 0 <= i < |r| :: IsDigit(r[i])
  {
    if s == [] || !IsDigit(s[0]) then [] else [s[0]] + DigitPrefix(s[1..])
  }

  function Magnitude(s: Bytes): nat { Value(DigitPrefix(s)) }

  /** strtoll and atoi without their range limits: blanks, a sign, then digits up to the
      first byte that is none. */
  function Parse(s: Bytes): int {
    if s == [] then 0
    else if IsSpace(s[0]) then Parse(s[1..])
    else if s[0] == 45 then -(Magnitude(s[1..]) as int)
    else if s[0] == 43 then Magnitude(s[1..])
    else Magnitude(s)
  }

  lemma {:induction false} ValueOfDigits(n: nat)
    ensures Value(Digits(n)) == n
  {
    if n >= 10 {
      ValueOfDigits(n / 10);
      var d := Digits(n);
      assert d[..|d| - 1] == Digits(n / 10);
    } else {
      assert Digits(n)[..0] == [];
    }
  }

  lemma {:induction false} DigitPrefixOf(d: Bytes, rest: Bytes)
    requires forall i | 0 <= i < |d| :: IsDigit(d[i])
    requires rest != [] ==> !IsDigit(rest[0])
    ensures DigitPrefix(d + rest) == d
  {
    if d == [] {
      assert d + rest == rest;
    } else {
      DigitPrefixOf(d[1..], rest);
      assert (d + rest)[1..] == d[1..] + rest;
    }
  }

  lemma {:induction false} MagnitudeOfDigits(n: nat, rest: Bytes)
    requires rest != [] ==> !IsDigit(rest[0])
    ensures Magnitude(Digits(n) + rest) == n
  {
    DigitPrefixOf(Digits(n), rest);
    ValueOfDigits(n);
  }

  lemma {:induction false} ParseDigits(n: nat, rest: Bytes)
    requires rest != [] ==> !IsDigit(rest[0])
    ensures Parse(Digits(n) + rest) == n
  {
    MagnitudeOfDigits(n, rest);
    assert IsDigit((Digits(n) + rest)[0]) by { assert (Digits(n) + rest)[0] == Digits(n)[0]; }
  }

  lemma {:induction false} ParseMinus(s: Bytes, m: nat)
    requires Magnitude(s) == m
    ensures Parse([45] + s) == -(m as int)
  {
    assert ([45] + s)[1..] == s;
  }

  /** Reading back a printed number, whatever follows it. */
  lemma {:induction false} ParsePrint(n: int, rest: Bytes)
    requires rest != [] ==> !IsDigit(rest[0])
    ensures Parse(Print(n) + rest) == n
  {
    if n < 0 {
      MagnitudeOfDigits(-n, rest);
      ParseMinus(Digits(-n) + rest, -n);
      assert Print(n) + rest == [45] + (Digits(-n) + rest);
    } else {
      ParseDigits(n, rest);
    }
  }

  /** How strtoll begins: six kinds of blanks are skipped, then there may be one sign; anything but a digit
      ends the number. */
  lemma {:induction false} ParseFirst(b: Byte, s: Bytes)
    ensures b in [32, 9, 10, 11, 12, 13] ==> Parse([b] + s) == Parse(s)
    ensures b == 43 ==> Parse([b] + s) == Magnitude(s)
    ensures b == 45 ==> Parse([b] + s) == -(Magnitude(s) as int)
    ensures 48 <= b <= 57 ==> Parse([b] + s) == Magnitude([b] + s)
    ensures b !in [32, 9, 10, 11, 12, 13, 43, 45] && !(48 <= b <= 57) ==> Parse([b] + s) == 0
  {
    assert ([b] + s)[1..] == s;
  }

  function Pow10(k: nat): nat { if k == 0 then 1 else 10 * Pow10(k - 1) }

  lemma {:induction false} DigitsShort(n: nat, k: nat)
    requires k >= 1 && n < Pow10(k)
    ensures |Digits(n)| <= k
  {
    if n >= 10 {
      assert k > 1;
      DigitsShort(n / 10, k - 1);
    }
  }

  const INT_MAX := 0x7fff_ffff
  const LONG_MAX := 0x7fff_ffff_ffff_ffff

  lemma {:induction false} LongDigits(n: nat)
    requires n <= LONG_MAX
    ensures |Digits(n)| <= 19
  {
    assert Pow10(5) == 100000;
    assert Pow10(10) == 10000000000;
    assert Pow10(15) == 1000000000000000;
    assert Pow10(19) == 10000000000000000000;
    DigitsShort(n, 19);
  }

  /** A non-empty prefix of a printed number starts with its first digit. */
  lemma {:induction false} DigitsFirst(n: nat, p: nat)
    requires n > 0 && 1 <= p <= |Digits(n)|
    ensures Magnitude(Digits(n)[..p]) >= 1
  {
    var d := Digits(n)[..p];
    DigitPrefixOf(d, []);
    assert d + [] == d;
    LeadingDigit(d);
  }

  lemma {:induction false} LeadingDigit(d: Bytes)
    requires |d| >= 1 && (forall i | 0 <= i < |d| :: IsDigit(d[i])) && d[0] != 48
    ensures Value(d) >= 1
  {
    if |d| > 1 { LeadingDigit(d[..|d| - 1]); } else { assert Value(d[..0]) == 0; }
  }
}
