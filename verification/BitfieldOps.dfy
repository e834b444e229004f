/** BITFIELD SET and INCRBY (bitops.c): the overflow checks with their 64-bit arithmetic, and the
    execution of one operation in place.  Widths are 1 to 63. */
module BitfieldOps {
  import opened Basics
  import opened Bits
  import opened Bitfield

  datatype Policy = Wrap | Sat | Fail

  datatype Op = Set | IncrBy

  /** What a check returns, and the value left in *limit (0 where none is). */
  datatype Verdict = Verdict(code: int, limit: int)

  predicate Int64(x: int) { -Pow2(63) <= x < Pow2(63) }

  /** Conversion to uint64_t and to int64_t. */
  function U64(x: int): int { x % Pow2(64) }

  function I64(x: int): int {
    var u := U64(x);
    if u >= Pow2(63) then u - Pow2(64) else u
  }

  lemma {:induction false} PowMono(a: nat, b: nat)
    requires a <= b
    ensures Pow2(a) <= Pow2(b)
    decreases b
  {
    if a < b { PowMono(a, b - 1); }
  }

  lemma PowSteps(bits: nat)
    requires 1 <= bits <= 63
    ensures Pow2(64) == 2 * Pow2(63) && Pow2(bits) == 2 * Pow2(bits - 1) && Pow2(bits) <= Pow2(63)
  {
    PowMono(bits, 63);
  }

  lemma {:induction false} U64Small(x: int)
    requires 0 <= x < Pow2(64)
    ensures U64(x) == x
  {
    DivisionIsUnique(x, Pow2(64), 0, x);
  }

  lemma {:induction false} U64Negative(x: int)
    requires -Pow2(64) <= x < 0
    ensures U64(x) == x + Pow2(64)
  {
    DivisionIsUnique(x, Pow2(64), -1, x + Pow2(64));
  }

  /** A number that fits is unchanged; one that is too large by less than 2^64 wraps once. */
  lemma {:induction false} I64Cases(x: int)
    requires -Pow2(64) < x < Pow2(64)
    ensures I64(x) == if Int64(x) then x else if x >= Pow2(63) then x - Pow2(64) else x + Pow2(64)
  {
    PowSteps(1);
    if x >= 0 { U64Small(x); } else { U64Negative(x); }
  }

  // ---------------------------------------------------------------- unsigned

  function UMax(bits: nat): int { Pow2(bits) - 1 }

  /** checkUnsignedBitfieldOverflow; wrapping always answers 1. */
  function CheckUnsigned(value: int, incr: int, bits: nat, ow: Policy): Verdict {
    var max := UMax(bits);
    var maxincr, minincr := I64(max - value), I64(-value);
    var wrapped := Verdict(1, U64(value + incr) % Pow2(bits));
    if value > max || (incr > 0 && incr > maxincr) then
      match ow case Wrap => wrapped case Sat => Verdict(1, max) case Fail => Verdict(1, 0)
    else if incr < 0 && incr < minincr then
      match ow case Wrap => wrapped case Sat => Verdict(-1, 0) case Fail => Verdict(-1, 0)
    else Verdict(0, 0)
  }

  /** Two different numbers with the same remainder are the same field. */
  lemma {:induction false} WrappedExactly(s: int, bits: nat)
    requires bits <= 63
    ensures U64(s) % Pow2(bits) == s % Pow2(bits)
  {
    ModMod(s, bits, 64);
  }

  lemma {:induction false} UnsignedCheck(value: int, incr: int, bits: nat, ow: Policy)
    requires 1 <= bits <= 63 && 0 <= value < Pow2(64) && Int64(incr)
    ensures var v, s, max := CheckUnsigned(value, incr, bits, ow), value + incr, UMax(bits);
            (v.code == 0 <==> value <= max && 0 <= s <= max) &&
            (v.code != 0 && ow.Wrap? ==> v.limit == s % Pow2(bits)) &&
            (v.code != 0 && ow.Sat? ==> v.limit == if value > max || s > max then max else 0)
  {
    hide Pow2;
    PowSteps(bits);
    WrappedExactly(value + incr, bits);
    if value <= UMax(bits) {
      I64Cases(UMax(bits) - value);
      I64Cases(-value);
    }
  }

  // ---------------------------------------------------------------- signed

  function SMax(bits: nat): int
    requires bits >= 1
  {
    Pow2(bits - 1) - 1
  }

  function SMin(bits: nat): int
    requires bits >= 1
  {
    -SMax(bits) - 1
  }

  /** checkSignedBitfieldOverflow. */
  function CheckSigned(value: int, incr: int, bits: nat, ow: Policy): Verdict
    requires bits >= 1
  {
    var max, min := SMax(bits), SMin(bits);
    var maxincr, minincr := I64(max - value), I64(min - value);
    var wrapped := Verdict(1, SignedOf(U64(value + incr) % Pow2(bits), bits));
    if value > max || incr > maxincr || (value >= 0 && incr > 0 && incr > maxincr) then
      match ow case Wrap => wrapped case Sat => Verdict(1, max) case Fail => Verdict(1, 0)
    else if value < min || incr < minincr || (value < 0 && incr < 0 && incr < minincr) then
      match ow case Wrap => wrapped case Sat => Verdict(-1, min) case Fail => Verdict(-1, 0)
    else Verdict(0, 0)
  }

  /** For a value within range the check is exact. */
  lemma {:induction false} SignedCheck(value: int, incr: int, bits: nat, ow: Policy)
    requires 1 <= bits <= 63 && SMin(bits) <= value <= SMax(bits) && Int64(incr)
    ensures var v, s := CheckSigned(value, incr, bits, ow), value + incr;
            (v.code == 0 <==> SMin(bits) <= s <= SMax(bits)) &&
            (v.code != 0 && ow.Wrap? ==> v.limit == SignedOf(s % Pow2(bits), bits)) &&
            (v.code != 0 && ow.Sat? ==> v.limit == if s > SMax(bits) then SMax(bits) else SMin(bits))
  {
    hide Pow2;
    PowSteps(bits);
    WrappedExactly(value + incr, bits);
    I64Cases(SMax(bits) - value);
    I64Cases(SMin(bits) - value);
  }

  /** The distance from `value` up to the maximum does not fit a signed 64-bit integer. */
  predicate DistanceOverflows(value: int, bits: nat)
    requires bits >= 1
  {
    SMax(bits) - value >= Pow2(63)
  }

  /** For any other value it still recognizes what does not fit, but takes a far too small value for
      a too large one when the distance to the maximum overflows. */
  lemma {:induction false} SignedCheckOfValue(value: int, bits: nat, ow: Policy)
    requires 1 <= bits <= 63 && Int64(value)
    ensures var v := CheckSigned(value, 0, bits, ow);
            (v.code == 0 <==> SMin(bits) <= value <= SMax(bits)) &&
            (v.code != 0 && ow.Wrap? ==> v.limit == SignedOf(value % Pow2(bits), bits)) &&
            (v.code != 0 && ow.Sat? ==>
               v.limit == if value > SMax(bits) || DistanceOverflows(value, bits) then SMax(bits) else SMin(bits))
  {
    hide Pow2;
    PowSteps(bits);
    WrappedExactly(value, bits);
    I64Cases(SMax(bits) - value);
    I64Cases(SMin(bits) - value);
  }

  // ---------------------------------------------------------------- what is stored

  /** The number the operation asks for. */
  function Asked(op: Op, prev: int, arg: int): int { if op.IncrBy? then prev + arg else arg }

  /** What the policies promise for a range of representable numbers. */
  function Ideal(s: int, lo: int, hi: int, represent: int, ow: Policy): Option<int> {
    if lo <= s <= hi then Some(s)
    else match ow case Wrap => Some(represent) case Sat => Some(if s > hi then hi else lo) case Fail => None
  }

  function IdealUnsigned(op: Op, prev: int, arg: int, bits: nat, ow: Policy): Option<int> {
    var s := Asked(op, prev, arg);
    Ideal(s, 0, UMax(bits), s % Pow2(bits), ow)
  }

  function IdealSigned(op: Op, prev: int, arg: int, bits: nat, ow: Policy): Option<int>
    requires bits >= 1
  {
    var s := Asked(op, prev, arg);
    Ideal(s, SMin(bits), SMax(bits), SignedOf(s % Pow2(bits), bits), ow)
  }

  function Chosen(v: Verdict, newval: int, ow: Policy): Option<int> {
    if v.code == 0 then Some(newval) else if ow.Fail? then None else Some(v.limit)
  }

  /** The branches of bitfieldCommand. */
  function NewUnsigned(op: Op, prev: int, arg: int, bits: nat, ow: Policy): Option<int> {
    if op.IncrBy? then Chosen(CheckUnsigned(prev, arg, bits, ow), U64(prev + arg), ow)
    else Chosen(CheckUnsigned(U64(arg), 0, bits, ow), U64(arg), ow)
  }

  function NewSigned(op: Op, prev: int, arg: int, bits: nat, ow: Policy): Option<int>
    requires bits >= 1
  {
    if op.IncrBy? then Chosen(CheckSigned(prev, arg, bits, ow), I64(prev + arg), ow)
    else Chosen(CheckSigned(arg, 0, bits, ow), arg, ow)
  }

  /** Unsigned fields store what the policy promises, except when SET saturates a negative argument:
      converted to an unsigned number it is above every maximum, and the maximum is stored instead of 0. */
  lemma {:induction false} UnsignedIsIdealExactly(op: Op, prev: int, arg: int, bits: nat, ow: Policy)
    requires 1 <= bits <= 63 && 0 <= prev <= UMax(bits) && Int64(arg)
    ensures NewUnsigned(op, prev, arg, bits, ow) == IdealUnsigned(op, prev, arg, bits, ow) <==>
            !(op.Set? && ow.Sat? && arg < 0)
  {
    hide Pow2, CheckUnsigned;
    PowSteps(bits);
    if op.IncrBy? {
      UnsignedCheck(prev, arg, bits, ow);
      if 0 <= prev + arg <= UMax(bits) { U64Small(prev + arg); }
    } else {
      Zero64();
      UnsignedCheck(U64(arg), 0, bits, ow);
      WrappedExactly(arg, bits);
      if arg >= 0 { U64Small(arg); } else { U64Negative(arg); }
    }
  }

  /** SET u8 to -1 with OVERFLOW SAT stores 255. */
  lemma {:induction false} SaturatesUpwards()
    ensures NewUnsigned(Set, 0, -1, 8, Sat) == Some(255) && IdealUnsigned(Set, 0, -1, 8, Sat) == Some(0)
  {
    hide CheckUnsigned;
    Small();
    Zero64();
    PowMono(8, 64);
    PowSteps(8);
    U64Negative(-1);
    UnsignedCheck(U64(-1), 0, 8, Sat);
  }

  lemma Zero64()
    ensures Int64(0)
  {}

  /** Signed fields store what the policy promises, except when SET saturates and the distance of its
      argument from the maximum overflows: then the maximum is stored instead of the minimum. */
  lemma {:induction false} SignedIsIdealExactly(op: Op, prev: int, arg: int, bits: nat, ow: Policy)
    requires 1 <= bits <= 63 && SMin(bits) <= prev <= SMax(bits) && Int64(arg)
    ensures NewSigned(op, prev, arg, bits, ow) == IdealSigned(op, prev, arg, bits, ow) <==>
            !(op.Set? && ow.Sat? && DistanceOverflows(arg, bits))
  {
    hide Pow2, CheckSigned;
    PowSteps(bits);
    if op.IncrBy? {
      SignedCheck(prev, arg, bits, ow);
      if SMin(bits) <= prev + arg <= SMax(bits) { I64Cases(prev + arg); }
    } else {
      SignedCheckOfValue(arg, bits, ow);
    }
  }

  /** SET i8 to the smallest 64-bit number with OVERFLOW SAT stores 127. */
  lemma {:induction false} SaturatesTheWrongWay()
    ensures NewSigned(Set, 0, -Pow2(63), 8, Sat) == Some(127) && IdealSigned(Set, 0, -Pow2(63), 8, Sat) == Some(-128)
  {
    hide CheckSigned;
    Small();
    PowMono(8, 63);
    SignedCheckOfValue(-Pow2(63), 8, Sat);
  }

  lemma Small()
    ensures Pow2(7) == 128 && Pow2(8) == 256
  {
    assert Pow2(3) == 8 && Pow2(5) == 32;
  }

  // ---------------------------------------------------------------- execution

  /** SET and INCRBY on an unsigned field; the reply is the value before SET and after INCRBY. */
  method ExecuteUnsigned(p: array<bv8>, op: Op, offset: nat, bits: nat, arg: int, ow: Policy)
      returns (reply: Option<int>)
    requires 1 <= bits <= 63 && offset + bits <= 8 * p.Length && Int64(arg)
    modifies p
    ensures var prev := Field(old(p[..]), offset, bits);
            var new' := NewUnsigned(op, prev, arg, bits, ow);
            if new'.None? then p[..] == old(p[..]) && reply == None
            else
              Stored(old(p[..]), p[..], offset, bits, new'.value) &&
              reply == Some(if op.IncrBy? then new'.value else prev)
  {
    hide Pow2, Field, Stored, CheckUnsigned;
    var prev := GetUnsignedBitfield(p[..], offset, bits);
    var newval, verdict;
    if op.IncrBy? {
      newval := U64(prev + arg);
      verdict := CheckUnsigned(prev, arg, bits, ow);
    } else {
      newval := U64(arg);
      verdict := CheckUnsigned(newval, 0, bits, ow);
    }
    if verdict.code != 0 { newval := verdict.limit; }
    if verdict.code != 0 && ow.Fail? { return None; }
    SetUnsignedBitfield(p, offset, bits, newval);
    reply := Some(if op.IncrBy? then newval else prev);
  }

  method ExecuteSigned(p: array<bv8>, op: Op, offset: nat, bits: nat, arg: int, ow: Policy) returns (reply: Option<int>)
    requires 1 <= bits <= 63 && offset + bits <= 8 * p.Length && Int64(arg)
    modifies p
    ensures var prev := SignedOf(Field(old(p[..]), offset, bits), bits);
            var new' := NewSigned(op, prev, arg, bits, ow);
            if new'.None? then p[..] == old(p[..]) && reply == None
            else
              Stored(old(p[..]), p[..], offset, bits, new'.value) &&
              reply == Some(if op.IncrBy? then new'.value else prev)
  {
    hide Pow2, Field, Stored, CheckSigned, SignedOf;
    var prev := GetSignedBitfield(p[..], offset, bits);
    var newval, verdict;
    if op.IncrBy? {
      newval := I64(prev + arg);
      verdict := CheckSigned(prev, arg, bits, ow);
    } else {
      newval := arg;
      verdict := CheckSigned(newval, 0, bits, ow);
    }
    if verdict.code != 0 { newval := verdict.limit; }
    if verdict.code != 0 && ow.Fail? { return None; }
    SetSignedBitfield(p, offset, bits, newval);
    reply := Some(if op.IncrBy? then newval else prev);
  }

  /** setSignedBitfield: the conversion to uint64_t keeps the low bits. */
  method SetSignedBitfield(p: array<bv8>, offset: nat, bits: nat, value: int)
    requires bits <= 64 && offset + bits <= 8 * p.Length
    modifies p
    ensures Stored(old(p[..]), p[..], offset, bits, value)
  {
    SetUnsignedBitfield(p, offset, bits, U64(value));
    SameBits(old(p[..]), p[..], offset, bits, value);
  }

  lemma {:induction false} SameBits(before: seq<bv8>, after: seq<bv8>, offset: nat, bits: nat, v: int)
    requires bits <= 64 && Stored(before, after, offset, bits, U64(v))
    ensures Stored(before, after, offset, bits, v)
  {
    hide BitAt, Bit, Pow2;
    forall k: nat | k < bits ensures Bit(U64(v), k) == Bit(v, k) { BitOfMod(v, 64, k); }
  }

  /** What was stored for `op` is read back as what the policy promises of the number asked for. */
  lemma {:induction false} ReadsBack(before: seq<bv8>, after: seq<bv8>, op: Op, offset: nat, bits: nat, arg: int,
                                     ow: Policy, sign: bool)
    requires 1 <= bits <= 63 && Int64(arg) && offset + bits <= 8 * |before|
    requires !(op.Set? && ow.Sat? && if sign then DistanceOverflows(arg, bits) else arg < 0)
    requires var new' := New(op, Value(before, offset, bits, sign), arg, bits, ow, sign);
             new'.Some? && Stored(before, after, offset, bits, new'.value)
    ensures Some(Value(after, offset, bits, sign)) ==
            IdealOf(op, Value(before, offset, bits, sign), arg, bits, ow, sign)
  {
    hide Stored, Pow2, Field, CheckSigned, CheckUnsigned;
    var prev := Value(before, offset, bits, sign);
    PowSteps(bits);
    var v := New(op, prev, arg, bits, ow, sign).value;
    GetAfterSet(before, after, offset, bits, v);
    if sign {
      SignedIsIdealExactly(op, prev, arg, bits, ow);
      Representable(Asked(op, prev, arg), bits);
      SignedRoundTrip(v, bits);
    } else {
      UnsignedIsIdealExactly(op, prev, arg, bits, ow);
      DivisionIsUnique(v, Pow2(bits), 0, v);
    }
  }

  /** The number in a field of either sign, what an operation stores in it, and what it promises. */
  function Value(s: seq<bv8>, offset: nat, bits: nat, sign: bool): int
    requires bits >= 1
  {
    if sign then SignedOf(Field(s, offset, bits), bits) else Field(s, offset, bits)
  }

  function New(op: Op, prev: int, arg: int, bits: nat, ow: Policy, sign: bool): Option<int>
    requires bits >= 1
  {
    if sign then NewSigned(op, prev, arg, bits, ow) else NewUnsigned(op, prev, arg, bits, ow)
  }

  function IdealOf(op: Op, prev: int, arg: int, bits: nat, ow: Policy, sign: bool): Option<int>
    requires bits >= 1
  {
    if sign then IdealSigned(op, prev, arg, bits, ow) else IdealUnsigned(op, prev, arg, bits, ow)
  }

  lemma {:induction false} Representable(s: int, bits: nat)
    requires bits >= 1
    ensures SMin(bits) <= SignedOf(s % Pow2(bits), bits) <= SMax(bits)
  {
    assert Pow2(bits) == 2 * Pow2(bits - 1);
  }
}
