/** string2ll of util.c: the texts accepted as 64-bit integers are exactly those ll2string writes. */
module StringToLong {
  import opened Basics
  import opened Decimal
  import opened Dataset

  const ULLONG_MAX := 0xffff_ffff_ffff_ffff

  predicate AllDigits(s: Bytes) { forall i | 0 <= i < |s| :: IsDigit(s[i]) }

  /** Digits that do not start with zero are how their value is written. */
  lemma {:induction false} DigitsOfValue(s: Bytes)
    requires s != [] && AllDigits(s) && s[0] != 48
    ensures Decimal.Value(s) >= 1 && Digits(Decimal.Value(s)) == s
    decreases |s|
  {
    var init, last := s[..|s| - 1], s[|s| - 1];
    if init == [] {
      assert s == [last];
    } else {
      DigitsOfValue(init);
      var n := Decimal.Value(s);
      assert n / 10 == Decimal.Value(init) && n % 10 == last as int - 48;
      assert s == init + [last];
    }
  }

  lemma {:induction false} ValueGrows(s: Bytes, k: nat)
    requires AllDigits(s) && k <= |s|
    ensures Decimal.Value(s[..k]) <= Decimal.Value(s)
    decreases |s|
  {
    if k == |s| {
      assert s[..k] == s;
    } else {
      ValueGrows(s[..|s| - 1], k);
      assert s[..|s| - 1][..k] == s[..k];
    }
  }

  /** What ParseLong makes of an optional sign and digits. */
  lemma {:induction false} SignedDigits(digits: Bytes, negative: bool)
    requires digits != [] && AllDigits(digits) && digits[0] != 48
    ensures var s := if negative then [45] + digits else digits;
            var v := if negative then -(Decimal.Value(digits) as int) else Decimal.Value(digits);
            ParseLong(s) == if -LONG_MAX - 1 <= v <= LONG_MAX then Some(v) else None
  {
    var v := if negative then -(Decimal.Value(digits) as int) else Decimal.Value(digits);
    DigitsOfValue(digits);
    ParsePrint(v, []);
    assert Print(v) == if negative then [45] + digits else digits;
    assert Print(v) + [] == Print(v);
  }

  lemma ParsesToNothing(s: Bytes)
    requires s != [48]
    requires s == [] || (s[0] == 45 && (|s| == 1 || !IsDigit(s[1]) || s[1] == 48)) ||
             (s[0] != 45 && (!IsDigit(s[0]) || s[0] == 48))
    ensures ParseLong(s) == None
  {
    assert Digits(0) == [48];
  }

  /** A byte that is no digit after the first one. */
  lemma {:induction false} StrayByte(s: Bytes, i: nat)
    requires 0 < i < |s| && !IsDigit(s[i])
    ensures ParseLong(s) == None
  {}

  method String2ll(s: Bytes) returns (r: Option<Long>)
    ensures r == ParseLong(s)
  {
    hide ParseLong, Decimal.Value;
    if |s| == 0 {
      ParsesToNothing(s);
      return None;
    }
    if s == [48] {
      ParseExact(0);
      return Some(0);
    }
    var negative := s[0] == 45;
    var start := if negative then 1 else 0;
    if |s| == start || !(49 <= s[start] <= 57) {
      ParsesToNothing(s);
      return None;
    }
    var v := s[start] - 48;
    var p := start + 1;
    OneDigit(s, start);
    while p < |s| && IsDigit(s[p])
      invariant start < p <= |s| && AllDigits(s[start..p]) && v == Decimal.Value(s[start..p]) && v <= ULLONG_MAX
      decreases |s| - p
    {
      NextDigit(s, start, p);
      if v > ULLONG_MAX / 10 || v * 10 > ULLONG_MAX - (s[p] as int - 48) {
        TooLarge(s, start, p + 1);
        return None;
      }
      v := v * 10 + (s[p] as int - 48);
      p := p + 1;
    }
    if p < |s| {
      StrayByte(s, p);
      return None;
    }
    assert s[start..p] == s[start..];
    assert negative ==> s == [45] + s[start..];
    SignedDigits(s[start..], negative);
    if negative {
      if v > LONG_MAX + 1 { return None; }
      r := Some(-(v as int));
    } else {
      if v > LONG_MAX { return None; }
      r := Some(v);
    }
  }

  lemma OneDigit(s: Bytes, i: nat)
    requires i < |s| && IsDigit(s[i])
    ensures AllDigits(s[i..i + 1]) && Decimal.Value(s[i..i + 1]) == s[i] - 48
  {
    var one := s[i..i + 1];
    assert one[..0] == [] && one[0] == s[i];
  }

  lemma NextDigit(s: Bytes, i: nat, p: nat)
    requires i < p < |s| && AllDigits(s[i..p]) && IsDigit(s[p])
    ensures AllDigits(s[i..p + 1]) && Decimal.Value(s[i..p + 1]) == Decimal.Value(s[i..p]) * 10 + (s[p] as int - 48)
  {
    var more := s[i..p + 1];
    var init := more[..|more| - 1];
    assert |init| == p - i && forall k | 0 <= k < p - i :: init[k] == s[i..p][k];
    assert init == s[i..p] && more[|more| - 1] == s[p];
  }

  /** A number out of range already is out of range whatever follows. */
  lemma {:induction false} TooLarge(s: Bytes, start: nat, p: nat)
    requires start < p <= |s| && AllDigits(s[start..p]) && s[start] != 48 && Decimal.Value(s[start..p]) > ULLONG_MAX
    requires start == 0 || (start == 1 && s[0] == 45)
    ensures ParseLong(s) == None
  {
    if AllDigits(s[start..]) {
      ValueGrows(s[start..], p - start);
      assert s[start..][..p - start] == s[start..p];
      SignedDigits(s[start..], start == 1);
      assert start == 1 ==> s == [45] + s[1..];
      assert start == 0 ==> s == s[0..];
    } else {
      var i :| 0 <= i < |s[start..]| && !IsDigit(s[start..][i]);
      assert s[start..p][0] == s[start] && IsDigit(s[start]);
      StrayByte(s, start + i);
    }
  }

  /** Reading back what ll2string writes gives the number, and nothing else reads as that number. */
  lemma {:induction false} LongRoundTrip(s: Bytes, n: Long)
    ensures ParseLong(s) == Some(n) <==> s == Print(n)
  {
    ParseExact(n);
  }
}
