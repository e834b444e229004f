/** redisPopcount of bitops.c: twenty-eight bytes at a time, counting in parallel in the four byte
    lanes of a 32-bit word. */
module Popcount {
  import opened Bits

  // ---------------------------------------------------------------- what is counted

  function One(b: bv8, bit: nat): nat
    requires bit < 8
  {
    if BitOf(b, bit) then 1 else 0
  }

  /** The set bits of a byte (the table bitsinbyte). */
  function BitsInByte(b: bv8): nat {
    One(b, 0) + One(b, 1) + One(b, 2) + One(b, 3) + One(b, 4) + One(b, 5) + One(b, 6) + One(b, 7)
  }

  function Total(s: seq<bv8>): nat { if s == [] then 0 else Total(s[..|s| - 1]) + BitsInByte(s[|s| - 1]) }

  lemma {:induction false} TotalConcat(a: seq<bv8>, b: seq<bv8>)
    ensures Total(a + b) == Total(a) + Total(b)
    decreases |b|
  {
    hide BitsInByte;
    if b == [] {
      assert a + b == a;
    } else {
      TotalConcat(a, b[..|b| - 1]);
      assert (a + b)[..|a + b| - 1] == a + b[..|b| - 1];
    }
  }

  lemma {:induction false} TotalWord(s: seq<bv8>)
    requires |s| == 4
    ensures Total(s) == BitsInByte(s[0]) + BitsInByte(s[1]) + BitsInByte(s[2]) + BitsInByte(s[3])
  {
    hide BitsInByte, Total;
    Nothing();
    OneMore(s, 0);
    OneMore(s, 1);
    OneMore(s, 2);
    OneMore(s, 3);
    assert s[..0] == [] && s[..4] == s;
  }

  // ---------------------------------------------------------------- words

  /** The byte lanes of a word. */
  function L0(x: bv32): bv32 { x & 0xFF }
  function L1(x: bv32): bv32 { (x >> 8) & 0xFF }
  function L2(x: bv32): bv32 { (x >> 16) & 0xFF }
  function L3(x: bv32): bv32 { x >> 24 }

  /** Four bytes as loaded from memory. */
  function Load(s: seq<bv8>): bv32
    requires |s| == 4
  {
    (s[0] as bv32) | ((s[1] as bv32) << 8) | ((s[2] as bv32) << 16) | ((s[3] as bv32) << 24)
  }

  lemma LoadLanes(s: seq<bv8>)
    requires |s| == 4
    ensures L0(Load(s)) == s[0] as bv32 && L1(Load(s)) == s[1] as bv32 && L2(Load(s)) == s[2] as bv32 &&
            L3(Load(s)) == s[3] as bv32
  {}

  /** 32-bit addition. */
  function Add32(a: bv32, b: bv32): bv32 { a + b }

  /** What is done to every word: pairs, then nibbles, then bytes. */
  function Counted(x: bv32): bv32 {
    var a := x - ((x >> 1) & 0x55555555);
    var b := (a & 0x33333333) + ((a >> 2) & 0x33333333);
    (b + (b >> 4)) & 0x0F0F0F0F
  }

  function Spread(x: bv32): bv32 { (x * 0x01010101) >> 24 }

  /** The lanes of seven words of counts, added up and gathered in the top lane. */
  function Gather(a: bv32, b: bv32, c: bv32, d: bv32, e: bv32, f: bv32, g: bv32): bv32 {
    Spread(Add32(Add32(Add32(Add32(Add32(Add32(a, b), c), d), e), f), g))
  }

  predicate AtMost(x: bv32, n: bv32) { L0(x) <= n && L1(x) <= n && L2(x) <= n && L3(x) <= n }

  // ---------------------------------------------------------------- every lane counts its byte

  function Ones(b: bv32): bv32 {
    (b & 1) + ((b >> 1) & 1) + ((b >> 2) & 1) + ((b >> 3) & 1) +
    ((b >> 4) & 1) + ((b >> 5) & 1) + ((b >> 6) & 1) + ((b >> 7) & 1)
  }

  lemma Counted0(x: bv32)
    ensures L0(Counted(x)) == Ones(L0(x))
  {}

  lemma Counted1(x: bv32)
    ensures L1(Counted(x)) == Ones(L1(x))
  {}

  lemma Counted2(x: bv32)
    ensures L2(Counted(x)) == Ones(L2(x))
  {}

  lemma Counted3(x: bv32)
    ensures L3(Counted(x)) == Ones(L3(x))
  {}

  lemma CountedSmall(x: bv32)
    ensures AtMost(Counted(x), 8)
  {}

  function N(x: bv32): nat { x as nat }

  lemma UpToEight(v: bv32)
    requires v <= 8
    ensures v == 0 || v == 1 || v == 2 || v == 3 || v == 4 || v == 5 || v == 6 || v == 7 || v == 8
  {}

  lemma OnesNat(b: bv8)
    ensures N(Ones(b as bv32)) == BitsInByte(b)
  {
    var v := Ones(b as bv32);
    assert v <= 8;
    UpToEight(v);
  }

  /** The sum of the lanes, as a number. */
  function Lanes(x: bv32): nat { N(L0(x)) + N(L1(x)) + N(L2(x)) + N(L3(x)) }

  /** Every lane of a word counts the bits of its byte. */
  lemma {:induction false} CountedTotal(s: seq<bv8>)
    requires |s| == 4
    ensures var c := Counted(Load(s));
            && N(L0(c)) == BitsInByte(s[0]) && N(L1(c)) == BitsInByte(s[1])
            && N(L2(c)) == BitsInByte(s[2]) && N(L3(c)) == BitsInByte(s[3])
    ensures Lanes(Counted(Load(s))) == Total(s)
  {
    hide L0, L1, L2, L3, Load, Counted, Ones, N, BitsInByte, Total;
    var x := Load(s);
    LoadLanes(s);
    Counted0(x);
    Counted1(x);
    Counted2(x);
    Counted3(x);
    OnesNat(s[0]);
    OnesNat(s[1]);
    OnesNat(s[2]);
    OnesNat(s[3]);
    TotalWord(s);
  }

  // ---------------------------------------------------------------- lanes add up without carries

  lemma Sum0(u: bv32, v: bv32)
    requires AtMost(u, 48) && AtMost(v, 8)
    ensures L0(u + v) == L0(u) + L0(v)
  {}

  lemma Sum1(u: bv32, v: bv32)
    requires AtMost(u, 48) && AtMost(v, 8)
    ensures L1(u + v) == L1(u) + L1(v)
  {}

  lemma Sum2(u: bv32, v: bv32)
    requires AtMost(u, 48) && AtMost(v, 8)
    ensures L2(u + v) == L2(u) + L2(v)
  {}

  lemma Sum3(u: bv32, v: bv32)
    requires AtMost(u, 48) && AtMost(v, 8)
    ensures L3(u + v) == L3(u) + L3(v)
  {}

  lemma SumBound(u: bv32, v: bv32, n: bv32)
    requires n <= 48 && AtMost(u, n) && AtMost(v, 8)
    ensures AtMost(u + v, n + 8)
  {}

  lemma Weaken(u: bv32, n: bv32)
    requires n <= 48 && AtMost(u, n)
    ensures AtMost(u, 48)
  {}

  predicate Le(a: bv32, b: bv32) { a <= b }

  function Pred(b: bv32): bv32 { b - 1 }

  lemma Succ(v: bv32)
    requires Le(v, 255)
    ensures N(Add32(v, 1)) == N(v) + 1
  {}

  lemma Zero(a: bv32)
    ensures Add32(a, 0) == a && N(0) == 0
  {}

  lemma {:induction false} AddNat(a: bv32, b: bv32)
    requires Le(a, 112) && Le(b, 112)
    ensures N(Add32(a, b)) == N(a) + N(b)
    decreases b
  {
    hide N, Add32, Le, Pred;
    if b == 0 {
      Zero(a);
    } else {
      StepDown(a, b);
      AddNat(a, Pred(b));
      Succ(Pred(b));
      Succ(Add32(a, Pred(b)));
    }
  }

  lemma StepDown(a: bv32, b: bv32)
    requires b != 0 && Le(a, 112) && Le(b, 112)
    ensures Add32(a, b) == Add32(Add32(a, Pred(b)), 1) && b == Add32(Pred(b), 1) && Pred(b) < b
    ensures Le(Add32(a, Pred(b)), 255) && Le(Pred(b), 255) && Le(Pred(b), 112)
  {}

  lemma LanesLe(u: bv32)
    requires AtMost(u, 56)
    ensures Le(L0(u), 112) && Le(L1(u), 112) && Le(L2(u), 112) && Le(L3(u), 112)
  {}

  lemma Widen(u: bv32)
    ensures AtMost(u, 8) ==> AtMost(u, 56)
    ensures AtMost(u, 48) ==> AtMost(u, 56)
  {}

  lemma Added0(u: bv32, v: bv32)
    requires AtMost(u, 48) && AtMost(v, 8)
    ensures L0(Add32(u, v)) == Add32(L0(u), L0(v))
  {
    hide L0, L1, L2, L3, AtMost;
    Sum0(u, v);
  }

  lemma Added1(u: bv32, v: bv32)
    requires AtMost(u, 48) && AtMost(v, 8)
    ensures L1(Add32(u, v)) == Add32(L1(u), L1(v))
  {
    hide L0, L1, L2, L3, AtMost;
    Sum1(u, v);
  }

  lemma Added2(u: bv32, v: bv32)
    requires AtMost(u, 48) && AtMost(v, 8)
    ensures L2(Add32(u, v)) == Add32(L2(u), L2(v))
  {
    hide L0, L1, L2, L3, AtMost;
    Sum2(u, v);
  }

  lemma Added3(u: bv32, v: bv32)
    requires AtMost(u, 48) && AtMost(v, 8)
    ensures L3(Add32(u, v)) == Add32(L3(u), L3(v))
  {
    hide L0, L1, L2, L3, AtMost;
    Sum3(u, v);
  }

  lemma AddedBound(u: bv32, v: bv32, n: bv32)
    requires n <= 48 && AtMost(u, n) && AtMost(v, 8)
    ensures AtMost(Add32(u, v), n + 8)
  {
    hide L0, L1, L2, L3, AtMost;
    SumBound(u, v, n);
  }

  /** Adding one more word of counts adds its lanes. */
  lemma {:induction false} Accumulate(u: bv32, v: bv32, n: bv32)
    requires n <= 48 && AtMost(u, n) && AtMost(v, 8)
    ensures Lanes(Add32(u, v)) == Lanes(u) + Lanes(v) && AtMost(Add32(u, v), n + 8)
  {
    hide L0, L1, L2, L3, AtMost, Add32, N, Le;
    Weaken(u, n);
    Widen(u);
    Widen(v);
    LanesLe(u);
    LanesLe(v);
    Added0(u, v);
    Added1(u, v);
    Added2(u, v);
    Added3(u, v);
    AddedBound(u, v, n);
    AddNat(L0(u), L0(v));
    AddNat(L1(u), L1(v));
    AddNat(L2(u), L2(v));
    AddNat(L3(u), L3(v));
  }

  // ---------------------------------------------------------------- the multiplication gathers the lanes

  function High(x: bv32): bv32 { (x * 0x0101) >> 24 }
  function Low(x: bv32): bv32 { ((x * 0x0101) >> 8) & 0xFF }

  lemma HighLanes(x: bv32)
    requires AtMost(x, 56)
    ensures High(x) == L3(x) + L2(x) && High(x) <= 112
  {}

  lemma LowLanes(x: bv32)
    requires AtMost(x, 56)
    ensures Low(x) == L1(x) + L0(x) && Low(x) <= 112
  {}

  lemma SpreadHalves(x: bv32)
    requires AtMost(x, 56)
    ensures Spread(x) == High(x) + Low(x)
  {}

  lemma HighSum(x: bv32)
    requires AtMost(x, 56)
    ensures High(x) == Add32(L3(x), L2(x)) && Le(High(x), 112)
  {
    hide L0, L1, L2, L3, AtMost, High;
    HighLanes(x);
  }

  lemma LowSum(x: bv32)
    requires AtMost(x, 56)
    ensures Low(x) == Add32(L1(x), L0(x)) && Le(Low(x), 112)
  {
    hide L0, L1, L2, L3, AtMost, Low;
    LowLanes(x);
  }

  lemma SpreadSum(x: bv32)
    requires AtMost(x, 56)
    ensures Spread(x) == Add32(High(x), Low(x))
  {
    hide AtMost, High, Low, Spread;
    SpreadHalves(x);
  }

  /** The multiplied total stays below 256, so the top byte is the sum of the lanes. */
  lemma {:induction false} GatherLanes(x: bv32)
    requires AtMost(x, 56)
    ensures N(Spread(x)) == Lanes(x)
  {
    hide L0, L1, L2, L3, AtMost, Add32, N, Le, Spread, High, Low;
    LanesLe(x);
    HighSum(x);
    LowSum(x);
    SpreadSum(x);
    AddNat(L3(x), L2(x));
    AddNat(L1(x), L0(x));
    AddNat(High(x), Low(x));
  }

  /** Seven words at once are counted exactly. */
  lemma {:induction false} GatherCounts(a: bv32, b: bv32, c: bv32, d: bv32, e: bv32, f: bv32, g: bv32)
    requires AtMost(a, 8) && AtMost(b, 8) && AtMost(c, 8) && AtMost(d, 8) && AtMost(e, 8) && AtMost(f, 8) &&
             AtMost(g, 8)
    ensures N(Gather(a, b, c, d, e, f, g)) == Lanes(a) + Lanes(b) + Lanes(c) + Lanes(d) + Lanes(e) + Lanes(f) + Lanes(g)
  {
    hide L0, L1, L2, L3, AtMost, Add32, N, Lanes, Spread;
    var ab := Add32(a, b);
    var ac := Add32(ab, c);
    var ad := Add32(ac, d);
    var ae := Add32(ad, e);
    var af := Add32(ae, f);
    Accumulate(a, b, 8);
    Accumulate(ab, c, 16);
    Accumulate(ac, d, 24);
    Accumulate(ad, e, 32);
    Accumulate(ae, f, 40);
    Accumulate(af, g, 48);
    GatherLanes(Add32(af, g));
  }

  lemma {:induction false} SevenWords(s: seq<bv8>)
    requires |s| == 28
    ensures N(Gather(Counted(Load(s[..4])), Counted(Load(s[4..8])), Counted(Load(s[8..12])), Counted(Load(s[12..16])),
                     Counted(Load(s[16..20])), Counted(Load(s[20..24])), Counted(Load(s[24..])))) == Total(s)
  {
    hide Load, Counted, Gather, N, Lanes, Total, AtMost;
    var a, b, c, d, e, f, g := s[..4], s[4..8], s[8..12], s[12..16], s[16..20], s[20..24], s[24..];
    CountedTotal(a);
    CountedTotal(b);
    CountedTotal(c);
    CountedTotal(d);
    CountedTotal(e);
    CountedTotal(f);
    CountedTotal(g);
    CountedSmall(Load(a));
    CountedSmall(Load(b));
    CountedSmall(Load(c));
    CountedSmall(Load(d));
    CountedSmall(Load(e));
    CountedSmall(Load(f));
    CountedSmall(Load(g));
    GatherCounts(Counted(Load(a)), Counted(Load(b)), Counted(Load(c)), Counted(Load(d)), Counted(Load(e)),
                 Counted(Load(f)), Counted(Load(g)));
    TotalConcat(a, b);
    TotalConcat(a + b, c);
    TotalConcat(a + b + c, d);
    TotalConcat(a + b + c + d, e);
    TotalConcat(a + b + c + d + e, f);
    TotalConcat(a + b + c + d + e + f, g);
    assert a + b + c + d + e + f + g == s;
  }

  // ---------------------------------------------------------------- the function

  /** redisPopcount on the bytes `s` starting at an address with remainder `align` modulo 4. */
  method RedisPopcount(s: seq<bv8>, align: nat) returns (bits: nat)
    ensures bits == Total(s)
  {
    hide Load, Counted, Gather, Total, BitsInByte;
    Nothing();
    bits := 0;
    var p, count := 0, |s|;
    while (align + p) % 4 != 0 && count > 0
      invariant 0 <= p <= |s| && count == |s| - p && bits == Total(s[..p])
      decreases count
    {
      OneMore(s, p);
      bits := bits + BitsInByte(s[p]);
      p, count := p + 1, count - 1;
    }
    while count >= 28
      invariant 0 <= p <= |s| && count == |s| - p && bits == Total(s[..p])
      invariant count > 0 ==> (align + p) % 4 == 0
      decreases count
    {
      assert (align + p) % 4 == 0;     // words are loaded from aligned addresses only
      var a, b, c := Load(s[p..p + 4]), Load(s[p + 4..p + 8]), Load(s[p + 8..p + 12]);
      var d, e := Load(s[p + 12..p + 16]), Load(s[p + 16..p + 20]);
      var f, g := Load(s[p + 20..p + 24]), Load(s[p + 24..p + 28]);
      Block(s, p);
      bits := bits + N(Gather(Counted(a), Counted(b), Counted(c), Counted(d), Counted(e), Counted(f), Counted(g)));
      p, count := p + 28, count - 28;
    }
    while count > 0
      invariant 0 <= p <= |s| && count == |s| - p && bits == Total(s[..p])
      decreases count
    {
      OneMore(s, p);
      bits := bits + BitsInByte(s[p]);
      p, count := p + 1, count - 1;
    }
    assert s[..p] == s;
  }

  lemma Nothing()
    ensures Total([]) == 0
  {}

  lemma OneMore(s: seq<bv8>, p: nat)
    requires p < |s|
    ensures Total(s[..p + 1]) == Total(s[..p]) + BitsInByte(s[p])
  {
    assert s[..p + 1][..p] == s[..p];
  }

  lemma {:induction false} Block(s: seq<bv8>, p: nat)
    requires p + 28 <= |s|
    ensures Total(s[..p + 28]) == Total(s[..p]) +
              N(Gather(Counted(Load(s[p..p + 4])), Counted(Load(s[p + 4..p + 8])), Counted(Load(s[p + 8..p + 12])),
                       Counted(Load(s[p + 12..p + 16])), Counted(Load(s[p + 16..p + 20])),
                       Counted(Load(s[p + 20..p + 24])), Counted(Load(s[p + 24..p + 28]))))
  {
    hide Load, Counted, Gather, N, Total;
    var t := s[p..p + 28];
    SevenWords(t);
    TotalConcat(s[..p], t);
    assert s[..p] + t == s[..p + 28];
    Slice(s, p, 0, 4);
    Slice(s, p, 4, 8);
    Slice(s, p, 8, 12);
    Slice(s, p, 12, 16);
    Slice(s, p, 16, 20);
    Slice(s, p, 20, 24);
    Slice(s, p, 24, 28);
    assert t[..4] == t[0..4] && t[24..] == t[24..28];
  }

  lemma Slice(s: seq<bv8>, p: nat, i: nat, j: nat)
    requires p + 28 <= |s| && i <= j <= 28
    ensures s[p..p + 28][i..j] == s[p + i..p + j]
  {
    var t := s[p..p + 28];
    assert forall k | 0 <= k < j - i :: t[i..j][k] == s[p + i..p + j][k];
  }
}
