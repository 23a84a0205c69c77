/**
 Truncation of floating point numbers to integers: the eight opcodes with their range checks as the
 interpreter makes them, against section 4.3.3 of WebAssembly Core 1.0. Bit patterns are read as
 the real numbers they stand for.
 */
module Conversions {
  import opened Leb
  import opened Wasm
  import opened Integers

  datatype Float = NaN | Infinity(negative: bool) | Finite(v: real)

  /** m times 2^k. */
  function Scaled(m: nat, k: int): real {
    if k >= 0 then (m * Pow2(k)) as real else m as real / Pow2(-k) as real
  }

  /** The binary interchange formats of IEEE 754 with 32 and 64 bits. */
  function FloatOf(bits: nat, w: nat): Float
    requires w in {32, 64}
  {
    var fractions := if w == 32 then 0x80_0000 else 0x10_0000_0000_0000;
    var exponents, lowest := if w == 32 then 256 else 2048, if w == 32 then -149 else -1074;
    var f, e, negative := bits % fractions, bits / fractions % exponents, bits / fractions / exponents % 2 == 1;
    if e == exponents - 1 then if f == 0 then Infinity(negative) else NaN
    else
      var size := if e == 0 then Scaled(f, lowest) else Scaled(f + fractions, lowest + e - 1);
      Finite(if negative then -size else size)
  }

  lemma {:induction false} ScaledDoubles(m: nat, k: int)
    ensures Scaled(m, 0) == m as real && Scaled(m, k + 1) == 2.0 * Scaled(m, k)
  {
    assert Pow2(0) == 1;
    if k >= 0 {
      assert Pow2(k + 1) == 2 * Pow2(k);
      Twice(m, Pow2(k));
    } else {
      assert Pow2(-k) == 2 * Pow2(-k - 1);
      Half(m as real, Pow2(-k - 1) as real);
    }
  }

  lemma Twice(m: nat, p: nat)
    ensures (m * (2 * p)) as real == 2.0 * (m * p) as real
  {}

  lemma Half(x: real, p: real)
    requires p > 0.0
    ensures x / p == 2.0 * (x / (2.0 * p))
  {
    var q := x / (2.0 * p);
    assert q * (2.0 * p) == x;
    assert 2.0 * q * p == x;
    DivisionUnique(2.0 * q, x, p);
  }

  lemma DivisionUnique(q: real, x: real, p: real)
    requires p > 0.0 && q * p == x
    ensures q == x / p
  {}

  /** Sign, exponent and fraction of the 32-bit format, and the number they stand for. */
  lemma Fields32(negative: bool, e: nat, f: nat)
    requires e < 256 && f < 0x80_0000
    ensures FloatOf((if negative then 0x8000_0000 else 0) + e * 0x80_0000 + f, 32)
         == if e == 255 then (if f == 0 then Infinity(negative) else NaN)
            else
              var v := if e == 0 then Scaled(f, -149) else Scaled(0x80_0000 + f, e - 150);
              Finite(if negative then -v else v)
  {
    hide Scaled;
    var bits := (if negative then 0x8000_0000 else 0) + e * 0x80_0000 + f;
    var high := (if negative then 256 else 0) + e;
    DivModUnique(bits, 0x80_0000, high, f);
    DivModUnique(high, 256, if negative then 1 else 0, e);
  }

  /** The same for the 64-bit format. */
  lemma Fields64(negative: bool, e: nat, f: nat)
    requires e < 2048 && f < 0x10_0000_0000_0000
    ensures FloatOf((if negative then 0x8000_0000_0000_0000 else 0) + e * 0x10_0000_0000_0000 + f, 64)
         == if e == 2047 then (if f == 0 then Infinity(negative) else NaN)
            else
              var v := if e == 0 then Scaled(f, -1074) else Scaled(0x10_0000_0000_0000 + f, e - 1075);
              Finite(if negative then -v else v)
  {
    hide Scaled;
    var bits := (if negative then 0x8000_0000_0000_0000 else 0) + e * 0x10_0000_0000_0000 + f;
    var high := (if negative then 2048 else 0) + e;
    DivModUnique(bits, 0x10_0000_0000_0000, high, f);
    DivModUnique(high, 2048, if negative then 1 else 0, e);
  }

  /** Some numbers in both formats. */
  lemma KnownFloats()
    ensures FloatOf(0x3f80_0000, 32) == Finite(1.0) && FloatOf(0xbf80_0000, 32) == Finite(-1.0)
    ensures FloatOf(0x4000_0000, 32) == Finite(2.0) && FloatOf(0x3fc0_0000, 32) == Finite(1.5)
    ensures FloatOf(0x3ff0_0000_0000_0000, 64) == Finite(1.0) && FloatOf(0xbff0_0000_0000_0000, 64) == Finite(-1.0)
    ensures FloatOf(0x4000_0000_0000_0000, 64) == Finite(2.0) && FloatOf(0x3ff8_0000_0000_0000, 64) == Finite(1.5)
    ensures FloatOf(0, 32) == FloatOf(0, 64) == Finite(0.0)
  {
    KnownSingles();
    KnownDoubles();
  }

  lemma KnownSingles()
    ensures FloatOf(0x3f80_0000, 32) == Finite(1.0) && FloatOf(0xbf80_0000, 32) == Finite(-1.0)
    ensures FloatOf(0x4000_0000, 32) == Finite(2.0) && FloatOf(0x3fc0_0000, 32) == Finite(1.5)
    ensures FloatOf(0, 32) == Finite(0.0)
  {
    hide FloatOf;
    Fields32(false, 127, 0);
    Fields32(true, 127, 0);
    Fields32(false, 128, 0);
    Fields32(false, 127, 0x40_0000);
    Fields32(false, 0, 0);
    PowersOf23();
    ZeroScaled(-149);
  }

  lemma KnownDoubles()
    ensures FloatOf(0x3ff0_0000_0000_0000, 64) == Finite(1.0) && FloatOf(0xbff0_0000_0000_0000, 64) == Finite(-1.0)
    ensures FloatOf(0x4000_0000_0000_0000, 64) == Finite(2.0) && FloatOf(0x3ff8_0000_0000_0000, 64) == Finite(1.5)
    ensures FloatOf(0, 64) == Finite(0.0)
  {
    hide FloatOf;
    Fields64(false, 1023, 0);
    Fields64(true, 1023, 0);
    Fields64(false, 1024, 0);
    Fields64(false, 1023, 0x8_0000_0000_0000);
    Fields64(false, 0, 0);
    PowersOf52();
    ZeroScaled(-1074);
  }

  lemma PowersOf23()
    ensures Pow2(22) == 0x40_0000 && Pow2(23) == 0x80_0000
  {
    assert Pow2(21) == 0x20_0000 by { Pow2Known(); }
  }

  lemma PowersOf52()
    ensures Pow2(51) == 0x8_0000_0000_0000 && Pow2(52) == 0x10_0000_0000_0000
  {
    assert Pow2(56) == 0x100_0000_0000_0000 by { Pow2Known(); }
    assert Pow2(56) == 2 * Pow2(55) && Pow2(55) == 2 * Pow2(54) && Pow2(54) == 2 * Pow2(53);
    assert Pow2(53) == 2 * Pow2(52) && Pow2(52) == 2 * Pow2(51);
  }

  lemma ZeroScaled(k: int)
    ensures Scaled(0, k) == 0.0
  {}

  predicate IsTrunc(code: byte) { 0xa8 <= code <= 0xab || 0xae <= code <= 0xb1 }

  function SourceWidth(code: byte): (w: nat)
    requires IsTrunc(code)
    ensures w in {32, 64} && (w == 64 <==> Wide(NumSig(code).arg))
  {
    if code in {0xaa, 0xab, 0xb0, 0xb1} then 64 else 32
  }

  function TargetWidth(code: byte): (w: nat)
    requires IsTrunc(code)
    ensures w in {32, 64} && (w == 64 <==> Wide(NumSig(code).res))
  {
    if code <= 0xab then 32 else 64
  }

  predicate IsSigned(code: byte) { code % 2 == 0 }

  // ---------- as the switch makes them ----------

  /** INT32_MAX and its siblings, converted to the type they are compared with: only a double holds
      the 32-bit ones, the others are rounded up to a power of two. */
  predicate TooHigh(code: byte, v: real)
    requires IsTrunc(code)
  {
    if code == 0xaa then v > 2147483647.0
    else if code == 0xab then v > 4294967295.0
    else if code == 0xa8 then v >= 2147483648.0
    else if code == 0xa9 then v >= 4294967296.0
    else if IsSigned(code) then v >= 9223372036854775808.0
    else v >= 18446744073709551616.0
  }

  predicate TooLow(code: byte, v: real)
    requires IsTrunc(code)
  {
    if !IsSigned(code) then v <= -1.0
    else if TargetWidth(code) == 32 then v < -2147483648.0
    else v < -9223372036854775808.0
  }

  function SwitchTrunc(code: byte, bits: u64): NumOutcome
    requires IsTrunc(code)
  {
    match FloatOf(bits, SourceWidth(code))
    case NaN => Traps(Conversion)
    case Infinity(_) => Traps(IntegerOverflow)
    case Finite(v) =>
      if TooHigh(code, v) || TooLow(code, v) then Traps(IntegerOverflow)
      else Gives(Word(Trunc(v), TargetWidth(code)))
  }

  // ---------- the standard ----------

  /** t is in the range of the target type. */
  predicate InRange(code: byte, t: int)
    requires IsTrunc(code)
  {
    var m: int := Modulus(TargetWidth(code));
    if IsSigned(code) then -m <= 2 * t < m else 0 <= t < m
  }

  /** Round towards zero, and trap unless the result is a number in range. */
  function StandardTrunc(code: byte, bits: u64): (r: NumOutcome)
    requires IsTrunc(code)
    ensures !r.NoValue?
  {
    match FloatOf(bits, SourceWidth(code))
    case NaN => Traps(Conversion)
    case Infinity(_) => Traps(IntegerOverflow)
    case Finite(v) =>
      if InRange(code, Trunc(v)) then Gives(Word(Trunc(v), TargetWidth(code))) else Traps(IntegerOverflow)
  }

  // ---------- agreement ----------

  /** A double strictly between the last 32-bit integer and the next one: it truncates into the
      range, but the comparison refuses it. */
  predicate TooEarly(code: byte, bits: u64)
    requires IsTrunc(code)
  {
    match FloatOf(bits, SourceWidth(code))
    case Finite(v) =>
      (code == 0xaa && (2147483647.0 < v < 2147483648.0 || -2147483649.0 < v < -2147483648.0))
      || (code == 0xab && 4294967295.0 < v < 4294967296.0)
    case _ => false
  }

  lemma TruncAbove(v: real, n: int)
    requires n > 0
    ensures Trunc(v) < n <==> v < n as real
  {
    if v < 0.0 { assert (-v).Floor >= 0; }
  }

  lemma TruncBelow(v: real, n: int)
    requires n >= 0
    ensures Trunc(v) >= -n <==> v > (-n - 1) as real
  {
    if v < 0.0 { assert (-v).Floor <= n <==> -v < (n + 1) as real; }
  }

  lemma BelowHalf(m: nat, k: nat, n: nat)
    requires k > 0 && m < 2 * n
    ensures m as real / Pow2(k) as real < n as real
  {
    var p := Pow2(k);
    assert p >= 2;
    HalfOf(m as real, p as real);
  }

  lemma HalfOf(x: real, p: real)
    requires x >= 0.0 && p >= 2.0
    ensures x / p <= x / 2.0
  {
    var q := x / p;
    assert q * p == x;
    assert q >= 0.0 by { if q < 0.0 { NegativeProduct(q, p); } }
    LargerFactor(q, 2.0, p);
  }

  lemma NegativeProduct(q: real, p: real)
    requires q < 0.0 && p > 0.0
    ensures q * p < 0.0
  {}

  lemma LargerFactor(q: real, a: real, b: real)
    requires q >= 0.0 && a <= b
    ensures q * a <= q * b
  {}

  /** The significand and exponent of a number. */
  lemma Parts(bits: u64, w: nat, v: real) returns (m: nat, k: int)
    requires w in {32, 64} && FloatOf(bits, w) == Finite(v)
    ensures m < 2 * (if w == 32 then 0x80_0000 else 0x10_0000_0000_0000) && (v == Scaled(m, k) || v == -Scaled(m, k))
  {
    hide Scaled;
    var fractions := if w == 32 then 0x80_0000 else 0x10_0000_0000_0000;
    var exponents, lowest := if w == 32 then 256 else 2048, if w == 32 then -149 else -1074;
    var f, e := bits % fractions, bits / fractions % exponents;
    m, k := if e == 0 then f else f + fractions, if e == 0 then lowest else lowest + e - 1;
  }

  lemma ScaledSmall(m: nat, k: int, n: nat)
    requires k < 0 && m < 2 * n
    ensures 0.0 <= Scaled(m, k) < n as real
  {
    hide Pow2;
    BelowHalf(m, -k, n);
    var q, p := Scaled(m, k), Pow2(-k) as real;
    assert q * p == m as real;
    if q < 0.0 { NegativeProduct(q, p); }
  }

  lemma ScaledWhole(m: nat, k: int) returns (n: nat)
    requires k >= 0
    ensures Scaled(m, k) == n as real
  {
    n := m * Pow2(k);
  }

  /** The number whose significand is that large has no fraction. */
  lemma WholeBelow(m: nat, k: int, n: nat, v: real)
    requires m < 2 * n && (v == Scaled(m, k) || v == -Scaled(m, k)) && v <= -(n as real)
    ensures v == v.Floor as real
  {
    hide Scaled;
    if k < 0 {
      ScaledSmall(m, k, n);
    } else {
      var i: int := ScaledWhole(m, k);
      assert v == i as real || v == (-i) as real;
    }
  }

  /** A number as large as 2^23 or 2^52, respectively, has no fraction. */
  lemma LargeIsWhole(bits: u64, w: nat, v: real)
    requires w in {32, 64} && FloatOf(bits, w) == Finite(v)
    requires v <= if w == 32 then -8388608.0 else -4503599627370496.0
    ensures v == v.Floor as real
  {
    hide Scaled, FloatOf;
    var m, k := Parts(bits, w, v);
    if w == 32 { WholeBelow(m, k, 0x80_0000, v); } else { WholeBelow(m, k, 0x10_0000_0000_0000, v); }
  }

  /** The comparisons decide as the range of the result does, except on the doubles TooEarly. */
  lemma RangeExact(code: byte, bits: u64, v: real)
    requires IsTrunc(code) && FloatOf(bits, SourceWidth(code)) == Finite(v)
    ensures TooHigh(code, v) || TooLow(code, v) <==> TooEarly(code, bits) || !InRange(code, Trunc(v))
    ensures TooEarly(code, bits) ==> InRange(code, Trunc(v))
  {
    hide FloatOf, Trunc;
    if IsSigned(code) {
      var half := if TargetWidth(code) == 32 then 0x8000_0000 else 0x8000_0000_0000_0000;
      TruncAbove(v, half);
      TruncBelow(v, half);
      if v < -(half as real) && code != 0xaa { LargeIsWhole(bits, SourceWidth(code), v); }
    } else {
      TruncAbove(v, Modulus(TargetWidth(code)));
      TruncBelow(v, 0);
    }
  }

  /** All eight opcodes compute the standard's result and trap exactly when it does, if and only if
      the operand is none of the doubles TooEarly, on which they trap and the standard does not. */
  lemma TruncExact(code: byte, bits: u64)
    requires IsTrunc(code)
    ensures SwitchTrunc(code, bits)
         == if TooEarly(code, bits) then Traps(IntegerOverflow) else StandardTrunc(code, bits)
    ensures TooEarly(code, bits) ==> StandardTrunc(code, bits).Gives?
  {
    hide FloatOf, Trunc, TooHigh, TooLow, InRange;
    match FloatOf(bits, SourceWidth(code))
    case Finite(v) => RangeExact(code, bits, v);
    case _ =>
  }

  lemma HalfAbove()
    ensures FloatOf(0x41DF_FFFF_FFE0_0000, 64) == Finite(2147483647.5)
  {
    var f := 0xF_FFFF_FFE0_0000;
    assert 0x41DF_FFFF_FFE0_0000 == 0x41D * 0x10_0000_0000_0000 + f;
    assert Pow2(22) == 2 * Pow2(21) == 0x40_0000 by { Pow2Known(); }
    assert Scaled(f + 0x10_0000_0000_0000, -22) == 2147483647.5;
  }

  /** i32.trunc_s/f64 of 2147483647.5: the standard returns 2147483647, the interpreter traps. */
  lemma HalfAboveDiffers()
    ensures StandardTrunc(0xaa, 0x41DF_FFFF_FFE0_0000) == Gives(0x7fff_ffff)
    ensures SwitchTrunc(0xaa, 0x41DF_FFFF_FFE0_0000) == Traps(IntegerOverflow)
  {
    hide FloatOf;
    HalfAbove();
    assert Trunc(2147483647.5) == 2147483647;
  }
}
