/** Integers of any width at any bit offset of a string (bitops.c): getting, setting, and the three
    overflow policies of BITFIELD.  Bit 0 of a string is the most significant bit of its first byte. */
module Bitfield {
  import opened Basics
  import opened Bits

  // ---------------------------------------------------------------- numbers as bits

  function Pow2(n: nat): (r: int)
    ensures r >= 1
  {
    if n == 0 then 1 else 2 * Pow2(n - 1)
  }

  /** Bit `k` of `v` in two's complement. */
  predicate Bit(v: int, k: nat)
    decreases k
  {
    if k == 0 then v % 2 == 1 else Bit(v / 2, k - 1)
  }

  lemma {:induction false} ModStep(v: int, n: nat)
    requires n > 0
    ensures v % Pow2(n) == 2 * ((v / 2) % Pow2(n - 1)) + v % 2 && v / Pow2(n) == (v / 2) / Pow2(n - 1)
  {
    var p := Pow2(n - 1);
    var q, r := (v / 2) / p, (v / 2) % p;
    assert v / 2 == q * p + r;
    assert q * (2 * p) == 2 * (q * p);
    DivisionIsUnique(v, 2 * p, q, 2 * r + v % 2);
  }

  /** Reducing modulo a larger power first changes nothing. */
  lemma {:induction false} ModMod(v: int, n: nat, m: nat)
    requires n <= m
    ensures (v % Pow2(m)) % Pow2(n) == v % Pow2(n)
    decreases n
  {
    if n > 0 {
      ModStep(v, m);
      ModStep(v, n);
      var w := v % Pow2(m);
      ModStep(w, n);
      ModMod(v / 2, n - 1, m - 1);
      assert w / 2 == (v / 2) % Pow2(m - 1) && w % 2 == v % 2;
    }
  }

  lemma {:induction false} BitOfMod(v: int, n: nat, k: nat)
    requires k < n
    ensures Bit(v % Pow2(n), k) == Bit(v, k)
    decreases n
  {
    ModStep(v, n);
    var w := v % Pow2(n);
    assert w / 2 == (v / 2) % Pow2(n - 1) && w % 2 == v % 2;
    if k > 0 { BitOfMod(v / 2, n - 1, k - 1); }
  }

  lemma {:induction false} TopBit(u: int, n: nat)
    requires n > 0 && 0 <= u < Pow2(n)
    ensures Bit(u, n - 1) <==> u >= Pow2(n - 1)
    decreases n
  {
    if n > 1 { TopBit(u / 2, n - 1); }
  }

  // ---------------------------------------------------------------- fields

  predicate BitAt(s: seq<bv8>, i: nat)
    requires i < 8 * |s|
  {
    BitOf(s[i / 8], 7 - i % 8)
  }

  /** Bit 8 i + k of a string is bit 7 - k of byte i: the most significant comes first. */
  lemma {:induction false} BitLayout(s: seq<bv8>, i: nat, k: nat)
    requires i < |s| && k < 8
    ensures BitAt(s, 8 * i + k) == BitOf(s[i], 7 - k)
  {
    assert (8 * i + k) / 8 == i && (8 * i + k) % 8 == k;
  }

  /** Strings read as zero beyond their end. */
  predicate Reads(s: seq<bv8>, i: nat) { i < 8 * |s| && BitAt(s, i) }

  predicate ReadsAt(s: seq<bv8>, offset: nat, j: nat) { Reads(s, offset + j) }

  /** The unsigned number in `bits` bits from `offset`. */
  function Field(s: seq<bv8>, offset: nat, bits: nat): (r: int)
    ensures 0 <= r < Pow2(bits)
  {
    if bits == 0 then 0 else 2 * Field(s, offset, bits - 1) + if ReadsAt(s, offset, bits - 1) then 1 else 0
  }

  function SignedOf(u: int, bits: nat): int
    requires bits > 0
  {
    if u >= Pow2(bits - 1) then u - Pow2(bits) else u
  }

  /** The field holding `v` and nothing else of the string changed. */
  ghost predicate Stored(before: seq<bv8>, after: seq<bv8>, offset: nat, bits: nat, v: int) {
    |after| == |before| && offset + bits <= 8 * |before| &&
    forall i: nat | i < 8 * |before| ::
      BitAt(after, i) == if offset <= i < offset + bits then Bit(v, offset + bits - 1 - i) else BitAt(before, i)
  }

  /** Getting what was set gives the value modulo two to the width. */
  lemma {:induction false} GetAfterSet(before: seq<bv8>, after: seq<bv8>, offset: nat, bits: nat, v: int)
    requires Stored(before, after, offset, bits, v)
    ensures Field(after, offset, bits) == v % Pow2(bits)
  {
    hide BitAt;
    FieldOfBits(after, offset, bits, v);
  }

  lemma {:induction false} FieldOfBits(s: seq<bv8>, offset: nat, bits: nat, v: int)
    requires forall j: nat | j < bits :: ReadsAt(s, offset, j) == Bit(v, bits - 1 - j)
    ensures Field(s, offset, bits) == v % Pow2(bits)
    decreases bits
  {
    hide ReadsAt, Pow2;
    if bits == 0 {
      PowZero();
    } else {
      forall j: nat | j < bits - 1 ensures ReadsAt(s, offset, j) == Bit(v / 2, bits - 2 - j) {
        assert ReadsAt(s, offset, j) == Bit(v, bits - 1 - j);
      }
      FieldOfBits(s, offset, bits - 1, v / 2);
      ModStep(v, bits);
      assert ReadsAt(s, offset, bits - 1) == Bit(v, 0);
    }
  }

  lemma PowZero()
    ensures Pow2(0) == 1
  {}

  lemma {:induction false} SameField(s: seq<bv8>, t: seq<bv8>, offset: nat, shift: nat, bits: nat)
    requires forall j: nat | j < bits :: ReadsAt(s, offset, j) == ReadsAt(t, shift, j)
    ensures Field(s, offset, bits) == Field(t, shift, bits)
    decreases bits
  {
    hide ReadsAt;
    if bits > 0 {
      SameField(s, t, offset, shift, bits - 1);
      assert ReadsAt(s, offset, bits - 1) == ReadsAt(t, shift, bits - 1);
    }
  }

  /** Other fields that do not overlap keep their value. */
  lemma {:induction false} OtherFieldsKept(before: seq<bv8>, after: seq<bv8>, offset: nat, bits: nat, v: int, o: nat,
                                           b: nat)
    requires Stored(before, after, offset, bits, v) && (o + b <= offset || offset + bits <= o)
    ensures Field(after, o, b) == Field(before, o, b)
  {
    hide BitAt;
    SameField(after, before, o, o, b);
  }

  /** A value within range comes back with its sign. */
  lemma {:induction false} SignedRoundTrip(v: int, bits: nat)
    requires bits > 0 && -Pow2(bits - 1) <= v < Pow2(bits - 1)
    ensures SignedOf(v % Pow2(bits), bits) == v
  {
    if v >= 0 {
      DivisionIsUnique(v, Pow2(bits), 0, v);
    } else {
      DivisionIsUnique(v, Pow2(bits), -1, v + Pow2(bits));
    }
  }

  // ---------------------------------------------------------------- the loops

  /** setUnsignedBitfield, one bit at a time in place. */
  method SetUnsignedBitfield(p: array<bv8>, offset: nat, bits: nat, value: int)
    requires offset + bits <= 8 * p.Length
    modifies p
    ensures Stored(old(p[..]), p[..], offset, bits, value)
  {
    hide Bit, BitOf, With, Without;
    ghost var before := p[..];
    for j := 0 to bits
      invariant forall i: nat | i < 8 * p.Length ::
                  BitAt(p[..], i) ==
                  if offset <= i < offset + j then Bit(value, offset + bits - 1 - i) else BitAt(before, i)
    {
      var pos := offset + j;
      var byte, bit := pos / 8, 7 - pos % 8;
      var bitval := Bit(value, bits - 1 - j);
      var cleared := Without(p[byte], bit);
      ghost var now := p[..];
      p[byte] := if bitval then With(cleared, bit) else cleared;
      assert p[..] == now[byte := if bitval then With(Without(now[byte], bit), bit) else Without(now[byte], bit)];
      OneBitChanged(now, p[..], pos, bitval);
    }
  }

  lemma {:induction false} OneBitChanged(now: seq<bv8>, next: seq<bv8>, pos: nat, bitval: bool)
    requires pos < 8 * |now|
    requires next == var byte, bit := pos / 8, 7 - pos % 8;
                     now[byte := if bitval then With(Without(now[byte], bit), bit) else Without(now[byte], bit)]
    ensures forall i: nat | i < 8 * |now| :: BitAt(next, i) == if i == pos then bitval else BitAt(now, i)
  {
    hide BitOf, With, Without;
    var byte, bit := pos / 8, 7 - pos % 8;
    forall i: nat | i < 8 * |now| ensures BitAt(next, i) == if i == pos then bitval else BitAt(now, i) {
      var k := 7 - i % 8;
      OneByte(now[byte], bit, k);
      OneByte(Without(now[byte], bit), bit, k);
    }
  }

  /** getUnsignedBitfield. */
  method GetUnsignedBitfield(s: seq<bv8>, offset: nat, bits: nat) returns (value: int)
    requires bits <= 64 && offset + bits <= 8 * |s|
    ensures value == Field(s, offset, bits)
  {
    hide BitOf;
    value := 0;
    for j := 0 to bits
      invariant value == Field(s, offset, j)
    {
      var bitval := if BitOf(s[(offset + j) / 8], 7 - (offset + j) % 8) then 1 else 0;
      value := 2 * value + bitval;
    }
  }

  /** getSignedBitfield: the top bit is propagated, by a shift that is undefined at width 64. */
  method GetSignedBitfield(s: seq<bv8>, offset: nat, bits: nat) returns (value: int)
    requires 0 < bits <= 63 && offset + bits <= 8 * |s|
    ensures value == SignedOf(Field(s, offset, bits), bits)
    ensures -Pow2(bits - 1) <= value < Pow2(bits - 1)
  {
    value := GetUnsignedBitfield(s, offset, bits);
    TopBit(value, bits);
    if Bit(value, bits - 1) { value := value - Pow2(bits); }
  }

  /** The GET operation: up to nine bytes are copied to a zeroed buffer first. */
  method GetPadded(src: seq<bv8>, offset: nat, bits: nat, sign: bool) returns (value: int)
    requires 1 <= bits <= if sign then 63 else 64
    ensures value == if sign then SignedOf(Field(src, offset, bits), bits) else Field(src, offset, bits)
  {
    var buf: seq<bv8> := seq(9, i => 0);
    var byte := offset / 8;
    for i := 0 to 9
      invariant |buf| == 9 && forall k | 0 <= k < 9 :: buf[k] == if k < i && byte + k < |src| then src[byte + k] else 0
    {
      if i + byte >= |src| { break; }
      buf := buf[i := src[i + byte]];
    }
    assert forall k | 0 <= k < 9 :: buf[k] == if byte + k < |src| then src[byte + k] else 0;
    PaddedReads(src, buf, byte, offset, bits);
    if sign {
      value := GetSignedBitfield(buf, offset - byte * 8, bits);
    } else {
      value := GetUnsignedBitfield(buf, offset - byte * 8, bits);
    }
  }

  lemma ZeroByte(bit: nat)
    requires bit < 8
    ensures !BitOf(0, bit)
  {}

  lemma {:induction false} PaddedReads(src: seq<bv8>, buf: seq<bv8>, byte: nat, offset: nat, bits: nat)
    requires |buf| == 9 && byte == offset / 8 && bits <= 64
    requires forall k | 0 <= k < 9 :: buf[k] == if byte + k < |src| then src[byte + k] else 0
    ensures Field(buf, offset - byte * 8, bits) == Field(src, offset, bits)
  {
    hide BitOf;
    var low := offset - byte * 8;
    forall j: nat | j < bits ensures ReadsAt(buf, low, j) == ReadsAt(src, offset, j) {
      var k := (low + j) / 8;
      assert (offset + j) / 8 == byte + k && (offset + j) % 8 == (low + j) % 8;
      ZeroByte(7 - (low + j) % 8);
    }
    SameField(buf, src, low, offset, bits);
  }
}
