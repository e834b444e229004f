/** Single bits of a byte; bit 0 is the least significant. */
module Bits {

  function Mask(bit: nat): bv8
    requires bit < 8
  {
    if bit == 0 then 1 else if bit == 1 then 2 else if bit == 2 then 4 else if bit == 3 then 8
    else if bit == 4 then 16 else if bit == 5 then 32 else if bit == 6 then 64 else 128
  }

  predicate BitOf(b: bv8, bit: nat)
    requires bit < 8
  {
    b & Mask(bit) != 0
  }

  function With(b: bv8, bit: nat): bv8
    requires bit < 8
  {
    b | Mask(bit)
  }

  function Without(b: bv8, bit: nat): bv8
    requires bit < 8
  {
    b & !Mask(bit)
  }

  /** The masks are the powers of two in order. */
  lemma MasksDouble(bit: nat)
    requires bit < 7
    ensures Mask(0) == 1 && Mask(bit + 1) == Mask(bit) + Mask(bit)
  {}

  lemma WithBit(b: bv8, i: nat, j: nat)
    requires i < 8 && j < 8
    ensures BitOf(With(b, i), j) == (i == j || BitOf(b, j))
  {}

  lemma WithoutBit(b: bv8, i: nat, j: nat)
    requires i < 8 && j < 8
    ensures BitOf(Without(b, i), j) == (i != j && BitOf(b, j))
  {}

  lemma OneByte(b: bv8, i: nat, j: nat)
    requires i < 8 && j < 8
    ensures BitOf(With(b, i), j) == (i == j || BitOf(b, j))
    ensures BitOf(Without(b, i), j) == (i != j && BitOf(b, j))
  {
    hide Mask, BitOf, With, Without;
    WithBit(b, i, j);
    WithoutBit(b, i, j);
  }
}
