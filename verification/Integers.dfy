/**
 Integer arithmetic: the opcodes of interpret's switch as C computes them, and the functions of
 section 4.3.2 of WebAssembly Core 1.0 they have to agree with, traps included.
 */
module Integers {
  import opened Leb
  import opened Wasm
  import opened Bits
  import opened Rotation

  predicate IsInt(code: byte) { 0x45 <= code <= 0x5a || 0x67 <= code <= 0x8a || code == 0xac || code == 0xad }

  /** Width of the operands. */
  function WidthOf(code: byte): (w: nat)
    requires IsInt(code)
    ensures w in {32, 64} && (w == 64 <==> Wide(NumSig(code).arg))
  {
    if 0x50 <= code <= 0x5a || 0x79 <= code <= 0x8a then 64 else 32
  }

  function Modulus(w: nat): (m: nat)
    requires w in {32, 64}
    ensures m == Pow2(w)
  {
    Pow2Known();
    if w == 32 then 0x1_0000_0000 else 0x1_0000_0000_0000_0000
  }

  /** Conversion of an integer to uint32_t or uint64_t. */
  function Word(x: int, w: nat): (r: u64)
    requires w in {32, 64}
    ensures r < Modulus(w)
  {
    if w == 32 then x % 0x1_0000_0000 else x % 0x1_0000_0000_0000_0000
  }

  /** `(int32_t)x` and `(int64_t)x`, and the signed interpretation of the standard. */
  function Signed(x: nat, w: nat): int
    requires w in {32, 64}
  {
    TwosComplement(x, Modulus(w))
  }

  datatype NumOutcome = Gives(v: u64) | Traps(e: Exception) | NoValue

  // ---------- as C computes them ----------

  function Abs(x: int): nat { if x < 0 then -x else x }

  /** `/` and `%` on signed integers: the quotient is rounded towards zero. */
  function CDiv(x: int, y: int): int
    requires y != 0
  {
    var q := Abs(x) / Abs(y);
    if (x < 0) == (y < 0) then q else -q
  }

  function CRem(x: int, y: int): int
    requires y != 0
  {
    var r := Abs(x) % Abs(y);
    if x < 0 then -r else r
  }

  /** `>>` on a signed integer. */
  function ArithShift(x: int, k: nat): int
    decreases k
  {
    if k == 0 then x else ArithShift(x / 2, k - 1)
  }

  /** Number of significant digits: the width less __builtin_clz. */
  function Digits(x: nat): nat { if x == 0 then 0 else 1 + Digits(x / 2) }

  /** __builtin_ctz */
  function Ctz2(x: nat): nat
    requires x > 0
  {
    if x % 2 == 1 then 0 else 1 + Ctz2(x / 2)
  }

  /** __builtin_popcount */
  function Ones(x: nat): nat { if x == 0 then 0 else x % 2 + Ones(x / 2) }

  /** The comparisons, by their offset in the switch. */
  function SwitchRel(k: nat, w: nat, x: u64, y: u64): bool
    requires w in {32, 64} && k < 10
  {
    if k == 0 then x == y
    else if k == 1 then x != y
    else if k == 2 then Signed(x, w) < Signed(y, w)
    else if k == 3 then x < y
    else if k == 4 then Signed(x, w) > Signed(y, w)
    else if k == 5 then x > y
    else if k == 6 then Signed(x, w) <= Signed(y, w)
    else if k == 7 then x <= y
    else if k == 8 then Signed(x, w) >= Signed(y, w)
    else x >= y
  }

  function SwitchUn(k: nat, w: nat, x: u64): u64
    requires w in {32, 64} && k < 3
  {
    if k == 0 then (if x == 0 then w else Word(w - Digits(x), 64))
    else if k == 1 then (if x == 0 then w else Word(Ctz2(x), 64))
    else Word(Ones(x), 64)
  }

  /** The binary operators, by their offset in the switch, behind its check for a zero divisor.
      NoValue: a shift by the width or more is undefined in C. */
  function SwitchBin(k: nat, w: nat, x: u64, y: u64): NumOutcome
    requires w in {32, 64} && k < 15 && x < Modulus(w) && y < Modulus(w)
  {
    if 3 <= k <= 6 && y == 0 then Traps(DivideByZero)
    else if k == 0 then Gives(Word(x + y, w))
    else if k == 1 then Gives(Word(x - y, w))
    else if k == 2 then Gives(Word(x * y, w))
    else if k == 3 then
      if 2 * x == Modulus(w) && y == Modulus(w) - 1 then Traps(IntegerOverflow)
      else Gives(Word(CDiv(Signed(x, w), Signed(y, w)), w))
    else if k == 4 then Gives(Word(x / y, w))
    else if k == 5 then
      if 2 * x == Modulus(w) && y == Modulus(w) - 1 then Gives(0)
      else Gives(Word(CRem(Signed(x, w), Signed(y, w)), w))
    else if k == 6 then Gives(Word(x % y, w))
    else if k == 7 then Gives(Word(BitAnd(x, y), w))
    else if k == 8 then Gives(Word(BitOr(x, y), w))
    else if k == 9 then Gives(Word(BitXor(x, y), w))
    else if k == 10 then if y >= w then NoValue else Gives(Word(ShiftLeft(x, y, w), w))
    else if k == 11 then if y >= w then NoValue else Gives(Word(ArithShift(Signed(x, w), y), w))
    else if k == 12 then if y >= w then NoValue else Gives(Word(ShiftRight(x, y), w))
    else if k == 13 then Gives(Word(RotateLeft(x, y % 0x1_0000_0000, w), w))
    else Gives(Word(RotateRight(x, y % 0x1_0000_0000, w), w))
  }

  /** sext_32_64, or nothing. */
  function SwitchExtend(signed: bool, x: u64): u64
    requires x < 0x1_0000_0000
  {
    if signed && x >= 0x8000_0000 then x + 0xffff_ffff_0000_0000 else x
  }

  predicate IntArgs(code: byte, args: seq<u64>)
    requires IsInt(code)
  {
    |args| == NumSig(code).arity && forall i :: 0 <= i < |args| ==> args[i] < Modulus(WidthOf(code))
  }

  /** The switch of interpret on an integer opcode. */
  function Switch(code: byte, args: seq<u64>): NumOutcome
    requires IsInt(code) && IntArgs(code, args)
  {
    if code == 0x45 || code == 0x50 then Gives(if args[0] == 0 then 1 else 0)
    else if code <= 0x4f then Gives(if SwitchRel(code - 0x46, 32, args[0], args[1]) then 1 else 0)
    else if code <= 0x5a then Gives(if SwitchRel(code - 0x51, 64, args[0], args[1]) then 1 else 0)
    else if code <= 0x69 then Gives(SwitchUn(code - 0x67, 32, args[0]))
    else if code <= 0x78 then SwitchBin(code - 0x6a, 32, args[0], args[1])
    else if code <= 0x7b then Gives(SwitchUn(code - 0x79, 64, args[0]))
    else if code <= 0x8a then SwitchBin(code - 0x7c, 64, args[0], args[1])
    else Gives(SwitchExtend(code == 0xac, args[0]))
  }

  // ---------- as section 4.3.2 of WebAssembly Core 1.0 defines them ----------

  datatype BinOp = Add | Sub | Mul | DivS | DivU | RemS | RemU | And | Or | Xor | Shl | ShrS | ShrU | RotL | RotR

  datatype RelOp = Eq | Ne | LtS | LtU | GtS | GtU | LeS | LeU | GeS | GeU

  datatype UnOp = Clz | Ctz | Popcnt

  datatype IntOp = Test | Rel(r: RelOp) | Un(u: UnOp) | Bin(b: BinOp) | Widen(signed: bool)

  /** Section 5.4.5: the operations in the order of their opcodes. */
  function BinAt(k: nat): BinOp
    requires k < 15
  {
    [Add, Sub, Mul, DivS, DivU, RemS, RemU, And, Or, Xor, Shl, ShrS, ShrU, RotL, RotR][k]
  }

  function RelAt(k: nat): RelOp
    requires k < 10
  {
    [Eq, Ne, LtS, LtU, GtS, GtU, LeS, LeU, GeS, GeU][k]
  }

  function IntOpOf(code: byte): IntOp
    requires IsInt(code)
  {
    if code == 0x45 || code == 0x50 then Test
    else if code <= 0x4f then Rel(RelAt(code - 0x46))
    else if code <= 0x5a then Rel(RelAt(code - 0x51))
    else if code <= 0x69 then Un(if code == 0x67 then Clz else if code == 0x68 then Ctz else Popcnt)
    else if code <= 0x78 then Bin(BinAt(code - 0x6a))
    else if code <= 0x7b then Un(if code == 0x79 then Clz else if code == 0x7a then Ctz else Popcnt)
    else if code <= 0x8a then Bin(BinAt(code - 0x7c))
    else Widen(code == 0xac)
  }

  /** trunc: rounding towards zero. */
  function Trunc(q: real): int { if q >= 0.0 then q.Floor else -((-q).Floor) }

  function Quot(x: int, y: int): int
    requires y != 0
  {
    Trunc(x as real / y as real)
  }

  /** Zeros from digit i - 1 downwards, from digit i upwards, and ones below digit n. */
  function LeadingZeros(x: nat, i: nat): nat {
    if i == 0 || Bit(x, i - 1) == 1 then 0 else 1 + LeadingZeros(x, i - 1)
  }

  function TrailingZeros(x: nat, i: nat, n: nat): nat
    decreases n - i
  {
    if i >= n || Bit(x, i) == 1 then 0 else 1 + TrailingZeros(x, i + 1, n)
  }

  function Count(x: nat, n: nat): nat { if n == 0 then 0 else Bit(x, n - 1) + Count(x, n - 1) }

  function StandardUn(u: UnOp, w: nat, x: u64): int
    requires w in {32, 64}
  {
    match u
    case Clz => LeadingZeros(x, w)
    case Ctz => TrailingZeros(x, 0, w)
    case Popcnt => Count(x, w)
  }

  /** Digit i of the result of a bitwise operation, shift or rotation. */
  predicate Digit(b: BinOp, w: nat, x: u64, y: u64, i: nat)
    requires w in {32, 64}
  {
    var k := y % w;
    match b
    case And => Bit(x, i) == 1 && Bit(y, i) == 1
    case Or => Bit(x, i) == 1 || Bit(y, i) == 1
    case Xor => Bit(x, i) != Bit(y, i)
    case Shl => i >= k && Bit(x, i - k) == 1
    case ShrU => i + k < w && Bit(x, i + k) == 1
    case ShrS => Bit(x, if i + k < w then i + k else w - 1) == 1
    case RotL => Bit(x, (i - k) % w) == 1
    case RotR => Bit(x, (i + k) % w) == 1
    case _ => false
  }

  function StandardBin(b: BinOp, w: nat, x: u64, y: u64): NumOutcome
    requires w in {32, 64}
  {
    var m := Modulus(w);
    match b
    case Add => Gives(Word(x + y, w))
    case Sub => Gives(Word(x - y + m, w))
    case Mul => Gives(Word(x * y, w))
    case DivU => if y == 0 then Traps(DivideByZero) else Gives(Word(Quot(x, y), w))
    case RemU => if y == 0 then Traps(DivideByZero) else Gives(Word(x - y * Quot(x, y), w))
    case DivS =>
      var i, j := Signed(x, w), Signed(y, w);
      if j == 0 then Traps(DivideByZero)
      else if 2 * Quot(i, j) == m then Traps(IntegerOverflow)
      else Gives(Word(Quot(i, j), w))
    case RemS =>
      var i, j := Signed(x, w), Signed(y, w);
      if j == 0 then Traps(DivideByZero) else Gives(Word(i - j * Quot(i, j), w))
    case _ => Gives(Word(FromBits((i: nat) => Digit(b, w, x, y, i), w), w))
  }

  function StandardRel(r: RelOp, w: nat, x: u64, y: u64): bool
    requires w in {32, 64}
  {
    var i, j := Signed(x, w), Signed(y, w);
    match r
    case Eq => x == y
    case Ne => x != y
    case LtS => i < j
    case LtU => x < y
    case GtS => i > j
    case GtU => x > y
    case LeS => i <= j
    case LeU => x <= y
    case GeS => i >= j
    case GeU => x >= y
  }

  /** The result the standard prescribes for an integer opcode. */
  function Standard(code: byte, args: seq<u64>): (r: NumOutcome)
    requires IsInt(code) && IntArgs(code, args)
    ensures !r.NoValue?
  {
    var w := WidthOf(code);
    match IntOpOf(code)
    case Test => if args[0] == 0 then Gives(1) else Gives(0)
    case Rel(r) => if StandardRel(r, w, args[0], args[1]) then Gives(1) else Gives(0)
    case Un(u) => Gives(Word(StandardUn(u, w, args[0]), 64))
    case Bin(b) => StandardBin(b, w, args[0], args[1])
    case Widen(signed) => Gives(Word(if signed then Signed(args[0], 32) else args[0], 64))
  }

  /** The shifts C leaves undefined; the standard takes the count modulo the width. */
  predicate ShiftsTooFar(code: byte, args: seq<u64>)
    requires IsInt(code) && IntArgs(code, args)
  {
    IntOpOf(code) in {Bin(Shl), Bin(ShrS), Bin(ShrU)} && args[1] >= WidthOf(code)
  }

  // ---------- division ----------

  lemma ScaleLess(a: real, b: real, y: real)
    requires a < b && y > 0.0
    ensures a * y < b * y
  {}

  lemma TimesBack(x: real, y: real)
    requires y != 0.0
    ensures x / y * y == x
  {}

  lemma QuotientUnique(t: real, x: real, y: real)
    requires y > 0.0 && t * y == x
    ensures t == x / y
  {
    var u := x / y;
    TimesBack(x, y);
    if t < u { ScaleLess(t, u, y); }
    if t > u { ScaleLess(u, t, y); }
  }

  lemma Between(x: real, y: real, q: real)
    requires y > 0.0 && q * y <= x < q * y + y
    ensures q <= x / y < q + 1.0
  {
    var t := x / y;
    TimesBack(x, y);
    assert (q + 1.0) * y == q * y + y;
    if t < q { ScaleLess(t, q, y); }
    if t > q + 1.0 { ScaleLess(q + 1.0, t, y); }
    assert t == q + 1.0 ==> t * y == (q + 1.0) * y;
  }

  lemma RealProduct(q: int, y: int)
    ensures q as real * y as real == (q * y) as real
  {}

  lemma NatQuot(x: nat, y: nat)
    requires y > 0
    ensures x as real / y as real >= 0.0 && (x as real / y as real).Floor == x / y
  {
    var q := x / y;
    assert x == y * q + x % y;
    assert y * q == q * y;
    QuotientIsNat(x, y);
    RealProduct(q, y);
    Between(x as real, y as real, q as real);
  }

  lemma QuotientIsNat(n: nat, d: nat)
    requires d > 0
    ensures n / d >= 0
  {
    var q := n / d;
    assert n == d * q + n % d;
  }

  lemma NegativeQuotient(x: real, y: real)
    requires y > 0.0
    ensures -x / y == -(x / y) && x / -y == -(x / y) && -x / -y == x / y
  {
    TimesBack(x, y);
    var t := x / y;
    assert -t * y == -(t * y);
    QuotientUnique(-t, -x, y);
    TimesBack(x, -y);
    var u := x / -y;
    assert -u * y == u * -y;
    QuotientUnique(-u, x, y);
    TimesBack(-x, -y);
    var v := -x / -y;
    assert -v * y == v * -y;
    assert v * y == -(-v * y);
    QuotientUnique(v, x, y);
  }

  /** C rounds as the standard does. */
  lemma DivIsQuot(x: int, y: int)
    requires y != 0
    ensures CDiv(x, y) == Quot(x, y)
  {
    var a, b := Abs(x), Abs(y);
    NatQuot(a, b);
    NegativeQuotient(a as real, b as real);
    var t := a as real / b as real;
    assert x as real == if x < 0 then -(a as real) else a as real;
    assert y as real == if y < 0 then -(b as real) else b as real;
    if (x < 0) == (y < 0) {
      assert x as real / y as real == t;
    } else {
      assert x as real / y as real == -t;
      assert -(-t) == t;
    }
  }

  lemma Negated(y: int, q: int)
    ensures -y * q == -(y * q) && y * -q == -(y * q) && -y * -q == y * q
  {}

  /** The C remainder is what the standard's definition leaves. */
  lemma RemIsRest(x: int, y: int)
    requires y != 0
    ensures CRem(x, y) == x - y * CDiv(x, y)
  {
    var a, b := Abs(x), Abs(y);
    var q: int := a / b;
    assert a == b * q + a % b;
    Negated(b, q);
  }

  // ---------- each operation ----------

  lemma HalfQuotient(a: nat, b: nat)
    requires b >= 2
    ensures 2 * (a / b) <= a
  {
    var q := a / b;
    assert a == b * q + a % b;
    QuotientIsNat(a, b);
    assert b * q == 2 * q + (b - 2) * q && (b - 2) * q >= 0;
  }

  /** The only quotient that does not fit is that of the least number by -1. */
  lemma OverflowIsUnique(i: int, j: int, m: int)
    requires m % 2 == 0 && -m <= 2 * i < m && -m <= 2 * j < m && j != 0 && m >= 4
    ensures 2 * CDiv(i, j) == m <==> 2 * i == -m && j == -1
  {
    var a, b := Abs(i), Abs(j);
    if b == 1 { assert a / 1 == a; } else { HalfQuotient(a, b); QuotientIsNat(a, b); }
  }

  lemma DivExact(w: nat, x: u64, y: u64)
    requires w in {32, 64} && x < Modulus(w) && y < Modulus(w)
    ensures SwitchBin(3, w, x, y) == StandardBin(DivS, w, x, y) && SwitchBin(4, w, x, y) == StandardBin(DivU, w, x, y)
  {
    hide CDiv, Quot, Pow2;
    var i, j := Signed(x, w), Signed(y, w);
    if y != 0 {
      DivIsQuot(i, j);
      OverflowIsUnique(i, j, Modulus(w));
      DivIsQuot(x, y);
      assert CDiv(x, y) == x / y by { NatDiv(x, y); }
    }
  }

  lemma NatDiv(x: nat, y: nat)
    requires y > 0
    ensures CDiv(x, y) == x / y && x % y == x - y * (x / y)
  {
    if x == 0 { assert x / y == 0; }
  }

  lemma RemExact(w: nat, x: u64, y: u64)
    requires w in {32, 64} && x < Modulus(w) && y < Modulus(w)
    ensures SwitchBin(5, w, x, y) == StandardBin(RemS, w, x, y) && SwitchBin(6, w, x, y) == StandardBin(RemU, w, x, y)
  {
    hide CDiv, CRem, Quot, Pow2;
    var i, j := Signed(x, w), Signed(y, w);
    if y != 0 {
      DivIsQuot(i, j);
      RemIsRest(i, j);
      OverflowIsUnique(i, j, Modulus(w));
      DivIsQuot(x, y);
      NatDiv(x, y);
      if 2 * i + Modulus(w) == 0 && j == -1 { assert i - j * CDiv(i, j) == 0; }
    }
  }

  /** A word with the digits the standard asks for is the standard's result. */
  lemma ByDigits(b: BinOp, w: nat, x: u64, y: u64, r: nat)
    requires w in {32, 64} && r < Pow2(w)
    requires (b.And? || b.Or? || b.Xor? || b.Shl? || b.ShrS? || b.ShrU? || b.RotL? || b.RotR?)
    requires forall i :: 0 <= i < w ==> Bit(r, i) == if Digit(b, w, x, y, i) then 1 else 0
    ensures StandardBin(b, w, x, y) == Gives(Word(r, w))
  {
    hide Pow2, Bit, FromBits, Digit;
    var f := (i: nat) => Digit(b, w, x, y, i);
    IsFromBits(r, f, w);
    assert StandardBin(b, w, x, y) == Gives(Word(FromBits(f, w), w));
  }

  lemma AndDigits(w: nat, x: u64, y: u64)
    requires w in {32, 64} && x < Pow2(w) && y < Pow2(w)
    ensures StandardBin(And, w, x, y) == Gives(Word(BitAnd(x, y), w))
  {
    hide Pow2, Bit, BitAnd, Word, StandardBin;
    WordOps(x, y, w);
    forall i | 0 <= i < w ensures Bit(BitAnd(x, y), i) == if Digit(And, w, x, y, i) then 1 else 0 {
      BitOfAnd(x, y, i);
    }
    ByDigits(And, w, x, y, BitAnd(x, y));
  }

  lemma OrDigits(w: nat, x: u64, y: u64)
    requires w in {32, 64} && x < Pow2(w) && y < Pow2(w)
    ensures StandardBin(Or, w, x, y) == Gives(Word(BitOr(x, y), w))
  {
    hide Pow2, Bit, BitOr, Word, StandardBin;
    WordOps(x, y, w);
    forall i | 0 <= i < w ensures Bit(BitOr(x, y), i) == if Digit(Or, w, x, y, i) then 1 else 0 {
      BitOfOr(x, y, i);
    }
    ByDigits(Or, w, x, y, BitOr(x, y));
  }

  lemma XorDigits(w: nat, x: u64, y: u64)
    requires w in {32, 64} && x < Pow2(w) && y < Pow2(w)
    ensures StandardBin(Xor, w, x, y) == Gives(Word(BitXor(x, y), w))
  {
    hide Pow2, Bit, BitXor, Word, StandardBin;
    WordOps(x, y, w);
    forall i | 0 <= i < w ensures Bit(BitXor(x, y), i) == if Digit(Xor, w, x, y, i) then 1 else 0 {
      BitOfXor(x, y, i);
    }
    ByDigits(Xor, w, x, y, BitXor(x, y));
  }

  lemma {:induction false} HighBits(x: nat, n: nat, i: nat)
    requires x < Pow2(n) && n <= i
    ensures Bit(x, i) == 0
    decreases n
  {
    if n == 0 { BitZero(i); } else { HighBits(x / 2, n - 1, i - 1); }
  }

  lemma {:induction false} TopBit(x: nat, n: nat)
    requires x < Pow2(n) && n > 0
    ensures Bit(x, n - 1) == if 2 * x >= Pow2(n) then 1 else 0
    decreases n
  {
    if n > 1 { TopBit(x / 2, n - 1); }
  }

  lemma {:induction false} AllOnes(k: nat, i: nat)
    requires i < k
    ensures Bit(Pow2(k) - 1, i) == 1
    decreases k
  {
    assert (Pow2(k) - 1) / 2 == Pow2(k - 1) - 1;
    if i > 0 { AllOnes(k - 1, i - 1); }
  }

  lemma {:induction false} ShiftRightBound(x: nat, k: nat, n: nat)
    requires k <= n && x < Pow2(n)
    ensures ShiftRight(x, k) < Pow2(n - k)
    decreases k
  {
    if k > 0 { ShiftRightBound(x / 2, k - 1, n - 1); }
  }

  lemma {:induction false} ArithShiftNat(x: nat, k: nat)
    ensures ArithShift(x, k) == ShiftRight(x, k)
    decreases k
  {
    if k > 0 { ArithShiftNat(x / 2, k - 1); }
  }

  lemma {:induction false} ArithShiftNegative(x: nat, k: nat, n: nat)
    requires k <= n
    ensures ArithShift(x - Pow2(n), k) == ShiftRight(x, k) - Pow2(n - k)
    decreases k
  {
    if k > 0 {
      assert (x - Pow2(n)) / 2 == x / 2 - Pow2(n - 1);
      ArithShiftNegative(x / 2, k - 1, n - 1);
    }
  }

  lemma LowDigits(z: nat, n: nat, i: nat)
    requires i < n
    ensures Bit(z % Pow2(n), i) == Bit(z, i)
  {
    hide Bit, Pow2;
    var p := Pow2(n);
    QuotientIsNat(z, p);
    var hi: nat, lo := z / p, z % p;
    assert z == p * hi + lo;
    BitOfJoin(hi, lo, n, i);
    assert p * hi == hi * p;
  }

  lemma ShlDigits(w: nat, x: u64, y: u64)
    requires w in {32, 64} && x < Pow2(w) && y < w
    ensures StandardBin(Shl, w, x, y) == Gives(Word(ShiftLeft(x, y, w), w))
  {
    hide Pow2, Bit, Word, StandardBin, ShiftLeft;
    ShiftLeftBound(x, y, w);
    forall i | 0 <= i < w ensures Bit(ShiftLeft(x, y, w), i) == if Digit(Shl, w, x, y, i) then 1 else 0 {
      ShiftLeftBit(x, y, w, i);
    }
    ByDigits(Shl, w, x, y, ShiftLeft(x, y, w));
  }

  lemma ShiftLeftBound(x: nat, k: nat, w: nat)
    ensures ShiftLeft(x, k, w) < Pow2(w)
  {
    hide Pow2;
  }

  lemma ShiftLeftBit(x: nat, k: nat, w: nat, i: nat)
    requires i < w
    ensures Bit(ShiftLeft(x, k, w), i) == if i < k then 0 else Bit(x, i - k)
  {
    hide Pow2, Bit;
    LowDigits(x * Pow2(k), w, i);
    BitOfJoin(x, 0, k, i);
    BitZero(i);
  }

  lemma ShrUDigits(w: nat, x: u64, y: u64)
    requires w in {32, 64} && x < Pow2(w) && y < w
    ensures StandardBin(ShrU, w, x, y) == Gives(Word(ShiftRight(x, y), w))
  {
    hide Pow2, Bit, Word, ShiftRight, StandardBin;
    ShiftRightSmaller(x, y);
    forall i | 0 <= i < w ensures Bit(ShiftRight(x, y), i) == if Digit(ShrU, w, x, y, i) then 1 else 0 {
      BitOfShiftRight(x, y, i);
      if i + y >= w { HighBits(x, w, i + y); }
    }
    ByDigits(ShrU, w, x, y, ShiftRight(x, y));
  }

  /** The arithmetic shift as a word: copies of the sign digit above the shifted digits. */
  lemma ArithShiftWord(w: nat, x: u64, y: nat) returns (hi: nat, lo: nat)
    requires w in {32, 64} && x < Pow2(w) && y < w
    ensures hi == (if 2 * x < Pow2(w) then 0 else Pow2(y) - 1) && lo == ShiftRight(x, y) < Pow2(w - y)
    ensures hi * Pow2(w - y) + lo < Pow2(w)
    ensures Word(ArithShift(Signed(x, w), y), w) == Word(hi * Pow2(w - y) + lo, w)
  {
    hide Pow2, ShiftRight, ArithShift;
    var p, q := Pow2(w - y), Pow2(y);
    lo := ShiftRight(x, y);
    ShiftRightBound(x, y, w);
    Pow2Split(y, w - y);
    Pow2AtMost(w - y, w);
    Less(q, p);
    if 2 * x < Pow2(w) {
      hi := 0;
      ArithShiftNat(x, y);
    } else {
      hi := q - 1;
      ArithShiftNegative(x, y, w);
      assert ArithShift(Signed(x, w), y) == hi * p + lo - Pow2(w);
      WordWraps(hi * p + lo, w);
    }
  }

  lemma WordWraps(r: int, w: nat)
    requires w in {32, 64}
    ensures Word(r - Pow2(w), w) == Word(r, w)
  {
    hide Pow2;
    Pow2Known();
  }

  lemma ShrSDigits(w: nat, x: u64, y: u64)
    requires w in {32, 64} && x < Pow2(w) && y < w
    ensures StandardBin(ShrS, w, x, y) == Gives(Word(ArithShift(Signed(x, w), y), w))
  {
    hide Pow2, Bit, ShiftRight, ArithShift, Word, StandardBin;
    var hi, lo := ArithShiftWord(w, x, y);
    var r := hi * Pow2(w - y) + lo;
    forall i | 0 <= i < w ensures Bit(r, i) == if Digit(ShrS, w, x, y, i) then 1 else 0 {
      BitOfJoin(hi, lo, w - y, i);
      BitOfShiftRight(x, y, i);
      if i >= w - y { SignDigit(x, w, y, hi, i); }
    }
    ByDigits(ShrS, w, x, y, r);
  }

  lemma Less(q: nat, p: nat)
    ensures (q - 1) * p == q * p - p
  {}

  lemma SignDigit(x: nat, w: nat, y: nat, hi: nat, i: nat)
    requires w in {32, 64} && x < Pow2(w) && y < w && w - y <= i < w && hi == if 2 * x < Pow2(w) then 0 else Pow2(y) - 1
    ensures Bit(hi, i - (w - y)) == Bit(x, w - 1)
  {
    hide Pow2, Bit;
    TopBit(x, w);
    if 2 * x < Pow2(w) { BitZero(i - (w - y)); } else { AllOnes(y, i - (w - y)); }
  }

  lemma CountWraps(y: u64, w: nat, i: nat)
    requires w in {32, 64} && i < w
    ensures var c, k := y % 0x1_0000_0000, y % w; (i - c) % w == (i - k) % w && (i + c) % w == (i + k) % w
  {
    if w == 32 { CountWraps32(y, i); } else { CountWraps64(y, i); }
  }

  lemma CountWraps32(y: u64, i: int)
    ensures var c, k := y % 0x1_0000_0000, y % 32; (i - c) % 32 == (i - k) % 32 && (i + c) % 32 == (i + k) % 32
  {
    var a, c := y / 0x1_0000_0000, y % 0x1_0000_0000;
    var b, k := c / 32, c % 32;
    assert y == k + 32 * (0x800_0000 * a + b);
    Mod32(k, 0x800_0000 * a + b);
    Mod32(i - k, -b);
    Mod32(i + k, b);
  }

  lemma Mod32(x: int, b: int)
    ensures (x + 32 * b) % 32 == x % 32
  {}

  lemma CountWraps64(y: u64, i: int)
    ensures var c, k := y % 0x1_0000_0000, y % 64; (i - c) % 64 == (i - k) % 64 && (i + c) % 64 == (i + k) % 64
  {
    var a, c := y / 0x1_0000_0000, y % 0x1_0000_0000;
    var b, k := c / 64, c % 64;
    assert y == k + 64 * (0x400_0000 * a + b);
    Mod64(k, 0x400_0000 * a + b);
    Mod64(i - k, -b);
    Mod64(i + k, b);
  }

  lemma Mod64(x: int, b: int)
    ensures (x + 64 * b) % 64 == x % 64
  {}

  lemma RotLDigits(w: nat, x: u64, y: u64)
    requires w in {32, 64} && x < Pow2(w)
    ensures StandardBin(RotL, w, x, y) == Gives(Word(RotateLeft(x, y % 0x1_0000_0000, w), w))
  {
    hide Pow2, Bit, Word, RotateLeft, RotateRight, StandardBin;
    var c: u32 := y % 0x1_0000_0000;
    RotateInverse(x, c, w);
    forall i | 0 <= i < w ensures Bit(RotateLeft(x, c, w), i) == if Digit(RotL, w, x, y, i) then 1 else 0 {
      RotateLeftBit(x, c, w, i);
      CountWraps(y, w, i);
    }
    ByDigits(RotL, w, x, y, RotateLeft(x, c, w));
  }

  lemma RotRDigits(w: nat, x: u64, y: u64)
    requires w in {32, 64} && x < Pow2(w)
    ensures StandardBin(RotR, w, x, y) == Gives(Word(RotateRight(x, y % 0x1_0000_0000, w), w))
  {
    hide Pow2, Bit, Word, RotateLeft, RotateRight, StandardBin;
    var c: u32 := y % 0x1_0000_0000;
    RotateInverse(x, c, w);
    forall i | 0 <= i < w ensures Bit(RotateRight(x, c, w), i) == if Digit(RotR, w, x, y, i) then 1 else 0 {
      RotateRightBit(x, c, w, i);
      CountWraps(y, w, i);
    }
    ByDigits(RotR, w, x, y, RotateRight(x, c, w));
  }

  // ---------- counting ----------

  lemma DigitsHalf(x: nat)
    ensures Digits(x) == if x == 0 then 0 else 1 + Digits(x / 2)
  {}

  lemma {:induction false} DigitsTop(x: nat, n: nat)
    requires n > 0 && x < Pow2(n) <= 2 * x
    ensures Digits(x) == n
    decreases n
  {
    hide Digits;
    DigitsHalf(x);
    if n > 1 {
      DigitsTop(x / 2, n - 1);
    } else {
      assert x / 2 == 0;
      DigitsHalf(0);
    }
  }

  lemma {:induction false} LeadingIs(x: nat, n: nat)
    requires x < Pow2(n)
    ensures Digits(x) <= n && LeadingZeros(x, n) == n - Digits(x)
    decreases n
  {
    if n > 0 {
      TopBit(x, n);
      if 2 * x >= Pow2(n) { DigitsTop(x, n); } else { LeadingIs(x, n - 1); }
    }
  }

  lemma {:induction false} TrailingIs(x: nat, i: nat, n: nat)
    requires x < Pow2(n) && i <= n
    ensures TrailingZeros(x, i, n) == if ShiftRight(x, i) == 0 then n - i else Ctz2(ShiftRight(x, i))
    decreases n - i
  {
    hide Pow2, ShiftRight, Bit;
    ShiftBit(x, i);
    if i == n {
      ShiftRightBound(x, n, n);
      assert Pow2(0) == 1 by { Pow2Known(); }
    } else {
      TrailingIs(x, i + 1, n);
    }
  }

  lemma {:induction false} CountLow(x: nat, n: nat)
    requires n > 0
    ensures Count(x, n) == x % 2 + Count(x / 2, n - 1)
    decreases n
  {
    if n > 1 { CountLow(x, n - 1); }
  }

  lemma {:induction false} CountIs(x: nat, n: nat)
    requires x < Pow2(n)
    ensures Count(x, n) == Ones(x) <= n
    decreases n
  {
    if n > 0 {
      CountLow(x, n);
      CountIs(x / 2, n - 1);
    }
  }

  lemma UnExact(k: nat, w: nat, x: u64)
    requires w in {32, 64} && k < 3 && x < Modulus(w)
    ensures SwitchUn(k, w, x) == Word(StandardUn(if k == 0 then Clz else if k == 1 then Ctz else Popcnt, w, x), 64)
  {
    hide Pow2, LeadingZeros, TrailingZeros, Count, Ones, Ctz2;
    LeadingIs(x, w);
    TrailingIs(x, 0, w);
    assert ShiftRight(x, 0) == x;
    CountIs(x, w);
  }

  // ---------- the whole switch ----------

  lemma BinExact(k: nat, w: nat, x: u64, y: u64)
    requires w in {32, 64} && k < 15 && x < Modulus(w) && y < Modulus(w)
    ensures SwitchBin(k, w, x, y) == if 10 <= k <= 12 && y >= w then NoValue else StandardBin(BinAt(k), w, x, y)
  {
    hide Pow2, Word, CDiv, CRem, Quot, Digit, FromBits, StandardBin;
    if k < 3 { SumExact(k, w, x, y); }
    else if k <= 4 { DivExact(w, x, y); }
    else if k <= 6 { RemExact(w, x, y); }
    else if k == 7 { AndDigits(w, x, y); }
    else if k == 8 { OrDigits(w, x, y); }
    else if k == 9 { XorDigits(w, x, y); }
    else if k == 10 && y < w { ShlDigits(w, x, y); }
    else if k == 11 && y < w { ShrSDigits(w, x, y); }
    else if k == 12 && y < w { ShrUDigits(w, x, y); }
    else if k == 13 { RotLDigits(w, x, y); }
    else if k == 14 { RotRDigits(w, x, y); }
  }

  lemma SumExact(k: nat, w: nat, x: u64, y: u64)
    requires w in {32, 64} && k < 3 && x < Modulus(w) && y < Modulus(w)
    ensures SwitchBin(k, w, x, y) == StandardBin(BinAt(k), w, x, y)
  {
    hide Pow2;
  }

  lemma RelExact(k: nat, w: nat, x: u64, y: u64)
    requires w in {32, 64} && k < 10
    ensures SwitchRel(k, w, x, y) == StandardRel(RelAt(k), w, x, y)
  {
    hide Pow2, Signed;
  }

  lemma ExtendExact(signed: bool, x: u64)
    requires x < 0x1_0000_0000
    ensures SwitchExtend(signed, x) == Word(if signed then Signed(x, 32) else x, 64)
  {
    hide Pow2;
  }

  /** Every integer opcode computes what the standard prescribes, and traps exactly when the
      standard traps, on all operands; only the shifts by the width or more have no value in C. */
  lemma SwitchExact(code: byte, args: seq<u64>)
    requires IsInt(code) && IntArgs(code, args)
    ensures Switch(code, args) == if ShiftsTooFar(code, args) then NoValue else Standard(code, args)
  {
    hide SwitchBin, StandardBin, SwitchUn, StandardUn, SwitchRel, StandardRel, Pow2, Word;
    if 0x46 <= code <= 0x4f { RelExact(code - 0x46, 32, args[0], args[1]); }
    else if 0x51 <= code <= 0x5a { RelExact(code - 0x51, 64, args[0], args[1]); }
    else if 0x6a <= code <= 0x78 { BinExact(code - 0x6a, 32, args[0], args[1]); }
    else if 0x7c <= code <= 0x8a { BinExact(code - 0x7c, 64, args[0], args[1]); }
    else if 0x67 <= code <= 0x69 { UnExact(code - 0x67, 32, args[0]); }
    else if 0x79 <= code <= 0x7b { UnExact(code - 0x79, 64, args[0]); }
    else if code >= 0xac { ExtendExact(code == 0xac, args[0]); }
  }

  lemma One()
    ensures Pow2(1) == 2 && Bit(1, 0) == 1
  {}

  /** A shift without a value in C: the standard takes the count modulo the width, so that i32.shl
      of 1 by 32 is 1. */
  lemma ShiftByWidth()
    ensures IntArgs(0x74, [1, 32]) && ShiftsTooFar(0x74, [1, 32])
    ensures Switch(0x74, [1, 32]) == NoValue && Standard(0x74, [1, 32]) == Gives(1)
  {
    hide Pow2, FromBits, Bit;
    Pow2Known();
    One();
    forall i | 0 < i < 32 ensures Bit(1, i) == 0 { HighBits(1, 1, i); }
    ByDigits(Shl, 32, 1, 32, 1);
  }
}
