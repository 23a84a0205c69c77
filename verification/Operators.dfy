/**
 The integer instructions on the machine's stack, one by one, in plain arithmetic: what a program
 sees of sections 4.3.2 and 4.4.1 of WebAssembly Core 1.0.
 */
module Operators {
  import opened Leb
  import opened Wasm
  import opened Bits
  import opened Integers
  import opened Numerics
  import opened Machine
  import Instructions

  /** The outcome is the state with v, of type t, on top of base in place of the operands. */
  ghost predicate Pushes(s: State, base: seq<Value>, o: Outcome, t: ValType, v: int) {
    o.Next? && |o.s.stack| == |base| + 1 && o.s.stack[..|base|] == base && o.s == s.(stack := o.s.stack)
    && o.s.stack[|base|].ty == t && o.s.stack[|base|].bits == v
  }

  /** Two's complement readings. */
  function S32(x: nat): int { if x < 0x8000_0000 then x else x - 0x1_0000_0000 }

  function S64(x: nat): int { if x < 0x8000_0000_0000_0000 then x else x - 0x1_0000_0000_0000_0000 }

  lemma Readings(x: u64)
    ensures x < 0x1_0000_0000 ==> Signed(x, 32) == S32(x)
    ensures Signed(x, 64) == S64(x)
  {}

  // ---------- operands and results ----------

  ghost predicate Lifts(s: State, base: seq<Value>, o: Outcome, t: ValType, r: NumOutcome) {
    match r
    case NoValue => o.Undefined?
    case Traps(e) => o == Trapped(e)
    case Gives(v) => Pushes(s, base, o, t, Cut(t, v))
  }

  /** The operand below the top is the first, the one on top the second. */
  lemma Binary(p: Program, s: State, code: byte, base: seq<Value>, x: Value, y: Value)
    requires IsNum(code) && IsInt(code) && NumSig(code).arity == 2
    requires s.stack == base + [x, y] && x.ty == y.ty == NumSig(code).arg
    ensures IntArgs(code, [x.bits, y.bits])
    ensures Lifts(s, base, ExecNum(p, s, code), NumSig(code).res, Switch(code, [x.bits, y.bits]))
  {
    hide NumSig, Switch;
    var args := s.stack[|base|..];
    assert args == [x, y] && s.stack[..|base|] == base;
    ArgsAreWords(code, args);
    assert BitsOf(args) == [x.bits, y.bits];
    NoOtherCode(code);
  }

  lemma NoOtherCode(code: byte)
    requires IsInt(code)
    ensures code < 0xbc && code != 0xa7
  {}

  lemma Unary(p: Program, s: State, code: byte, base: seq<Value>, x: Value)
    requires IsNum(code) && IsInt(code) && NumSig(code).arity == 1
    requires s.stack == base + [x] && x.ty == NumSig(code).arg
    ensures IntArgs(code, [x.bits])
    ensures Lifts(s, base, ExecNum(p, s, code), NumSig(code).res, Switch(code, [x.bits]))
  {
    hide NumSig, Switch;
    var args := s.stack[|base|..];
    assert args == [x] && s.stack[..|base|] == base;
    ArgsAreWords(code, args);
    assert BitsOf(args) == [x.bits];
    NoOtherCode(code);
  }

  // ---------- tests and comparisons ----------

  ghost predicate Answers(p: Program, s: State, base: seq<Value>, code: byte, b: bool)
    requires IsNum(code)
  {
    Pushes(s, base, ExecNum(p, s, code), I32, if b then 1 else 0)
  }

  lemma Tests(p: Program, s: State, base: seq<Value>, x: Value)
    requires s.stack == base + [x]
    ensures x.ty == I32 ==> Answers(p, s, base, 0x45, x.bits == 0)
    ensures x.ty == I64 ==> Answers(p, s, base, 0x50, x.bits == 0)
  {
    hide ExecNum;
    if x.ty == I32 { Unary(p, s, 0x45, base, x); }
    if x.ty == I64 { Unary(p, s, 0x50, base, x); }
  }

  lemma Compares(p: Program, s: State, base: seq<Value>, code: byte, x: Value, y: Value, b: bool)
    requires s.stack == base + [x, y] && x.ty == y.ty
    requires if x.ty == I32 then 0x46 <= code <= 0x4f else x.ty == I64 && 0x51 <= code <= 0x5a
    requires b == if x.ty == I32 then SwitchRel(code - 0x46, 32, x.bits, y.bits)
                  else SwitchRel(code - 0x51, 64, x.bits, y.bits)
    ensures Answers(p, s, base, code, b)
  {
    hide ExecNum, SwitchRel;
    Binary(p, s, code, base, x, y);
  }

  /** eq, ne, lt_s, lt_u, gt_s, gt_u, le_s, le_u, ge_s and ge_u on 32 bits. */
  lemma Comparisons32(p: Program, s: State, base: seq<Value>, x: Value, y: Value)
    requires s.stack == base + [x, y] && x.ty == y.ty == I32
    ensures var a, b := x.bits, y.bits;
            Answers(p, s, base, 0x46, a == b) && Answers(p, s, base, 0x47, a != b)
            && Answers(p, s, base, 0x48, S32(a) < S32(b)) && Answers(p, s, base, 0x49, a < b)
            && Answers(p, s, base, 0x4a, S32(a) > S32(b)) && Answers(p, s, base, 0x4b, a > b)
            && Answers(p, s, base, 0x4c, S32(a) <= S32(b)) && Answers(p, s, base, 0x4d, a <= b)
            && Answers(p, s, base, 0x4e, S32(a) >= S32(b)) && Answers(p, s, base, 0x4f, a >= b)
  {
    hide Answers, Signed, S32;
    var a, b := x.bits, y.bits;
    Readings(a);
    Readings(b);
    Compares(p, s, base, 0x46, x, y, a == b);
    Compares(p, s, base, 0x47, x, y, a != b);
    Compares(p, s, base, 0x48, x, y, S32(a) < S32(b));
    Compares(p, s, base, 0x49, x, y, a < b);
    Compares(p, s, base, 0x4a, x, y, S32(a) > S32(b));
    Compares(p, s, base, 0x4b, x, y, a > b);
    Compares(p, s, base, 0x4c, x, y, S32(a) <= S32(b));
    Compares(p, s, base, 0x4d, x, y, a <= b);
    Compares(p, s, base, 0x4e, x, y, S32(a) >= S32(b));
    Compares(p, s, base, 0x4f, x, y, a >= b);
  }

  /** The same on 64 bits. */
  lemma Comparisons64(p: Program, s: State, base: seq<Value>, x: Value, y: Value)
    requires s.stack == base + [x, y] && x.ty == y.ty == I64
    ensures var a, b := x.bits, y.bits;
            Answers(p, s, base, 0x51, a == b) && Answers(p, s, base, 0x52, a != b)
            && Answers(p, s, base, 0x53, S64(a) < S64(b)) && Answers(p, s, base, 0x54, a < b)
            && Answers(p, s, base, 0x55, S64(a) > S64(b)) && Answers(p, s, base, 0x56, a > b)
            && Answers(p, s, base, 0x57, S64(a) <= S64(b)) && Answers(p, s, base, 0x58, a <= b)
            && Answers(p, s, base, 0x59, S64(a) >= S64(b)) && Answers(p, s, base, 0x5a, a >= b)
  {
    hide Answers, Signed, S64;
    var a, b := x.bits, y.bits;
    Readings(a);
    Readings(b);
    Compares(p, s, base, 0x51, x, y, a == b);
    Compares(p, s, base, 0x52, x, y, a != b);
    Compares(p, s, base, 0x53, x, y, S64(a) < S64(b));
    Compares(p, s, base, 0x54, x, y, a < b);
    Compares(p, s, base, 0x55, x, y, S64(a) > S64(b));
    Compares(p, s, base, 0x56, x, y, a > b);
    Compares(p, s, base, 0x57, x, y, S64(a) <= S64(b));
    Compares(p, s, base, 0x58, x, y, a <= b);
    Compares(p, s, base, 0x59, x, y, S64(a) >= S64(b));
    Compares(p, s, base, 0x5a, x, y, a >= b);
  }

  // ---------- arithmetic ----------

  /** q is x / y rounded towards zero and r the rest. */
  predicate Truncates(x: int, y: int, q: int, r: int) {
    x == y * q + r && (if y < 0 then y < r < -y else -y < r < y) && (r == 0 || (r < 0 <==> x < 0))
  }

  /** The signed reading of a word of n bits. */
  function SN(x: nat, n: nat): int { if n == 32 then S32(x) else S64(x) }

  /** 2^n */
  function Top(n: nat): (m: nat)
    ensures m > 0
  {
    if n == 32 then 0x1_0000_0000 else 0x1_0000_0000_0000_0000
  }

  /** What add, sub, mul, div and rem do on words of n bits. */
  ghost predicate Calculates(b: BinOp, n: nat, x: nat, y: nat, r: NumOutcome) {
    match b
    case Add => r.Gives? && r.v == (x + y) % Top(n)
    case Sub => r.Gives? && (r.v == if x >= y then x - y else x - y + Top(n))
    case Mul => r.Gives? && r.v == (x * y) % Top(n)
    case DivU => if y == 0 then r == Traps(DivideByZero) else r.Gives? && r.v == x / y
    case RemU => if y == 0 then r == Traps(DivideByZero) else r.Gives? && r.v == x % y
    case DivS =>
      if y == 0 then r == Traps(DivideByZero)
      else if 2 * x == Top(n) && y == Top(n) - 1 then r == Traps(IntegerOverflow)
      else r.Gives? && exists rest :: Truncates(SN(x, n), SN(y, n), SN(r.v, n), rest)
    case RemS =>
      if y == 0 then r == Traps(DivideByZero)
      else r.Gives? && exists q :: Truncates(SN(x, n), SN(y, n), q, SN(r.v, n))
    case _ => true
  }

  /** What the bitwise operations, shifts and rotations do: the digits of the result. Shifts by n or
      more have no value in C. */
  ghost predicate Arranges(b: BinOp, n: nat, x: nat, y: nat, r: NumOutcome)
    requires n in {32, 64}
  {
    if (b.Shl? || b.ShrS? || b.ShrU?) && y >= n then r == NoValue
    else if b.And? || b.Or? || b.Xor? || b.Shl? || b.ShrS? || b.ShrU? || b.RotL? || b.RotR? then
      r.Gives? && r.v < Top(n) && forall i :: 0 <= i < n ==> Bit(r.v, i) == if Comes(b, n, x, y, i) then 1 else 0
    else true
  }

  /** Digit i of the result is 1. */
  predicate Comes(b: BinOp, n: nat, x: nat, y: nat, i: nat)
    requires n in {32, 64} && i < n
  {
    match b
    case And => Bit(x, i) == 1 && Bit(y, i) == 1
    case Or => Bit(x, i) == 1 || Bit(y, i) == 1
    case Xor => Bit(x, i) != Bit(y, i)
    case Shl => i >= y && Bit(x, i - y) == 1
    case ShrU => i + y < n && Bit(x, i + y) == 1
    case ShrS => Bit(x, if i + y < n then i + y else n - 1) == 1
    case RotL => Bit(x, (i - y % n) % n) == 1
    case RotR => Bit(x, (i + y % n) % n) == 1
    case _ => false
  }

  // ---------- division ----------

  lemma DivTruncates(x: int, y: int)
    requires y != 0
    ensures Truncates(x, y, CDiv(x, y), CRem(x, y))
  {
    hide CDiv, CRem;
    RemIsRest(x, y);
    RestSize(x, y);
  }

  lemma RestSize(x: int, y: int)
    requires y != 0
    ensures if y < 0 then y < CRem(x, y) < -y else -y < CRem(x, y) < y
    ensures CRem(x, y) == 0 || (CRem(x, y) < 0 <==> x < 0)
  {}

  lemma WordSigned(q: int, n: nat)
    requires n in {32, 64} && 0 - Top(n) <= 2 * q < Top(n)
    ensures SN(Word(q, n), n) == q
  {}

  lemma QuotientSize(x: int, y: int)
    requires y != 0
    ensures 0 - Abs(x) <= CDiv(x, y) <= Abs(x)
  {
    var a, b := Abs(x), Abs(y);
    assert a / b <= a by { if a / b > a { LargerProduct(b, a / b, a); } }
  }

  lemma LargerProduct(b: nat, q: nat, a: nat)
    requires b >= 1 && q > a
    ensures b * q > a
  {}

  lemma SignedRange(x: u64, n: nat)
    requires n in {32, 64} && x < Top(n)
    ensures Signed(x, n) == SN(x, n) && 0 - Top(n) <= 2 * SN(x, n) < Top(n) && (SN(x, n) == 0 <==> x == 0)
    ensures 2 * SN(x, n) == 0 - Top(n) <==> 2 * x == Top(n)
    ensures SN(x, n) == -1 <==> x == Top(n) - 1
    ensures Modulus(n) == Top(n)
  {}

  lemma DividesSigned(n: nat, x: u64, y: u64)
    requires n in {32, 64} && x < Top(n) && y < Top(n)
    ensures Modulus(n) == Top(n)
    ensures Calculates(DivS, n, x, y, SwitchBin(3, n, x, y))
  {
    hide CDiv, CRem, SN, Word, Truncates, Signed, Top;
    SignedRange(x, n);
    SignedRange(y, n);
    var i, j := SN(x, n), SN(y, n);
    if y != 0 && !(2 * x == Top(n) && y == Top(n) - 1) {
      DivTruncates(i, j);
      QuotientSize(i, j);
      TopEven(n);
      OverflowIsUnique(i, j, Top(n));
      WordSigned(CDiv(i, j), n);
    }
  }

  lemma TopEven(n: nat)
    ensures Top(n) % 2 == 0 && Top(n) >= 4
  {}

  lemma RestSigned(n: nat, x: u64, y: u64)
    requires n in {32, 64} && x < Top(n) && y < Top(n)
    ensures Modulus(n) == Top(n)
    ensures Calculates(RemS, n, x, y, SwitchBin(5, n, x, y))
  {
    hide CDiv, CRem, SN, Word, Signed, Top;
    SignedRange(x, n);
    SignedRange(y, n);
    var i, j := SN(x, n), SN(y, n);
    if y != 0 {
      if 2 * x == Top(n) && y == Top(n) - 1 {
        ZeroSigned(n);
        assert Truncates(i, j, -i, 0);
      } else {
        DivTruncates(i, j);
        WordSigned(CRem(i, j), n);
      }
    }
  }

  lemma ZeroSigned(n: nat)
    ensures SN(0, n) == 0
  {}

  lemma Sums(n: nat, x: u64, y: u64)
    requires n in {32, 64} && x < Top(n) && y < Top(n)
    ensures Modulus(n) == Top(n)
    ensures Calculates(Add, n, x, y, SwitchBin(0, n, x, y)) && Calculates(Sub, n, x, y, SwitchBin(1, n, x, y))
    ensures Calculates(Mul, n, x, y, SwitchBin(2, n, x, y))
  {}

  lemma Unsigned(n: nat, x: u64, y: u64)
    requires n in {32, 64} && x < Top(n) && y < Top(n)
    ensures Modulus(n) == Top(n)
    ensures Calculates(DivU, n, x, y, SwitchBin(4, n, x, y)) && Calculates(RemU, n, x, y, SwitchBin(6, n, x, y))
  {
    if y != 0 {
      if x / y > x { LargerProduct(y, x / y, x); }
      WordSame(x / y, n);
      WordSame(x % y, n);
    }
  }

  lemma WordSame(v: nat, n: nat)
    requires n in {32, 64} && v < Top(n)
    ensures Word(v, n) == v
  {}

  // ---------- digits ----------

  lemma DigitsOf(b: BinOp, n: nat, x: u64, y: u64)
    requires n in {32, 64} && (b.And? || b.Or? || b.Xor? || b.Shl? || b.ShrS? || b.ShrU? || b.RotL? || b.RotR?)
    requires b.Shl? || b.ShrS? || b.ShrU? ==> y < n
    ensures Arranges(b, n, x, y, StandardBin(b, n, x, y))
  {
    hide Bit, FromBits, Pow2;
    var f := (i: nat) => Digit(b, n, x, y, i);
    var v := FromBits(f, n);
    Pow2Known();
    WordSame(v, n);
    assert StandardBin(b, n, x, y) == Gives(Word(v, n));
    forall i | 0 <= i < n ensures Bit(v, i) == if Comes(b, n, x, y, i) then 1 else 0 {
      FromBitsBit(f, n, i);
      assert f(i) == Digit(b, n, x, y, i);
    }
  }

  // ---------- the instructions ----------

  lemma BinopSwitch(w: Instructions.Bits, b: BinOp, x: u64, y: u64)
    requires x < Top(w.N()) && y < Top(w.N())
    ensures var code := Instructions.BinopCode(w, b);
            IsNum(code) && IsInt(code) && NumSig(code).arity == 2 && IntArgs(code, [x, y])
            && Calculates(b, w.N(), x, y, Switch(code, [x, y])) && Arranges(b, w.N(), x, y, Switch(code, [x, y]))
  {
    hide SwitchBin, StandardBin, Calculates, Arranges, Top;
    BinopFacts(w, b, x, y);
    var n, code := w.N(), Instructions.BinopCode(w, b);
    Sums(n, x, y);
    Unsigned(n, x, y);
    DividesSigned(n, x, y);
    RestSigned(n, x, y);
    OtherKinds(b, n, x, y, Switch(code, [x, y]));
    if !b.Add? && !b.Sub? && !b.Mul? && !b.DivU? && !b.RemU? && !b.DivS? && !b.RemS? { DigitSwitch(w, b, x, y); }
  }

  lemma DigitSwitch(w: Instructions.Bits, b: BinOp, x: u64, y: u64)
    requires x < Top(w.N()) && y < Top(w.N())
    requires b.And? || b.Or? || b.Xor? || b.Shl? || b.ShrS? || b.ShrU? || b.RotL? || b.RotR?
    ensures var code := Instructions.BinopCode(w, b);
            IsInt(code) && IntArgs(code, [x, y]) && Arranges(b, w.N(), x, y, Switch(code, [x, y]))
  {
    hide SwitchBin, StandardBin, Arranges, Top, Switch, ShiftsTooFar, IntArgs;
    var n, code := w.N(), Instructions.BinopCode(w, b);
    BinopFacts(w, b, x, y);
    SwitchExact(code, [x, y]);
    if (b.Shl? || b.ShrS? || b.ShrU?) && y >= n {
      FarArranges(b, n, x, y);
    } else {
      StandardBinop(w, b, x, y);
      DigitsOf(b, n, x, y);
    }
  }

  lemma StandardBinop(w: Instructions.Bits, b: BinOp, x: u64, y: u64)
    requires IsInt(Instructions.BinopCode(w, b)) && IntArgs(Instructions.BinopCode(w, b), [x, y])
    ensures Standard(Instructions.BinopCode(w, b), [x, y]) == StandardBin(b, w.N(), x, y)
  {
    hide StandardBin, IntOpOf, WidthOf, Instructions.BinopCode;
    Instructions.NumericMeans(Instructions.IBinop(w, b));
    OpcodeIs(w, b);
  }

  lemma OpcodeIs(w: Instructions.Bits, b: BinOp)
    ensures Instructions.Opcode(Instructions.IBinop(w, b)) == Instructions.BinopCode(w, b)
  {}

  lemma FarArranges(b: BinOp, n: nat, x: nat, y: nat)
    requires n in {32, 64} && (b.Shl? || b.ShrS? || b.ShrU?) && y >= n
    ensures Arranges(b, n, x, y, NoValue)
  {}

  lemma OtherKinds(b: BinOp, n: nat, x: nat, y: nat, r: NumOutcome)
    requires n in {32, 64}
    ensures b.Add? || b.Sub? || b.Mul? || b.DivU? || b.RemU? || b.DivS? || b.RemS? ==> Arranges(b, n, x, y, r)
    ensures !(b.Add? || b.Sub? || b.Mul? || b.DivU? || b.RemU? || b.DivS? || b.RemS?) ==> Calculates(b, n, x, y, r)
  {}

  lemma BinopFacts(w: Instructions.Bits, b: BinOp, x: u64, y: u64)
    requires x < Top(w.N()) && y < Top(w.N())
    ensures Modulus(w.N()) == Top(w.N())
    ensures var code := Instructions.BinopCode(w, b);
            IsNum(code) && IsInt(code) && NumSig(code).arity == 2 && IntArgs(code, [x, y])
            && Switch(code, [x, y]) == SwitchBin(Place(b), w.N(), x, y)
            && (ShiftsTooFar(code, [x, y]) <==> (b.Shl? || b.ShrS? || b.ShrU?) && y >= w.N())
  {
    hide SwitchBin, Instructions.BinopCode, Place;
    BinopPlace(w, b);
    if w.W32? { PlaceFacts32(Place(b), x, y); } else { PlaceFacts64(Place(b), x, y); }
  }

  lemma BinopPlace(w: Instructions.Bits, b: BinOp)
    ensures Instructions.BinopCode(w, b) == (if w.W32? then 0x6a else 0x7c) + Place(b)
    ensures 10 <= Place(b) <= 12 <==> b.Shl? || b.ShrS? || b.ShrU?
  {}

  lemma PlaceFacts32(k: nat, x: u32, y: u32)
    requires k < 15
    ensures IntArgs(0x6a + k, [x, y]) && NumSig(0x6a + k).arity == 2 && Modulus(32) == Top(32)
    ensures Switch(0x6a + k, [x, y]) == SwitchBin(k, 32, x, y)
    ensures ShiftsTooFar(0x6a + k, [x, y]) <==> 10 <= k <= 12 && y >= 32
  {
    hide SwitchBin;
  }

  lemma PlaceFacts64(k: nat, x: u64, y: u64)
    requires k < 15
    ensures IntArgs(0x7c + k, [x, y]) && NumSig(0x7c + k).arity == 2 && Modulus(64) == Top(64)
    ensures Switch(0x7c + k, [x, y]) == SwitchBin(k, 64, x, y)
    ensures ShiftsTooFar(0x7c + k, [x, y]) <==> 10 <= k <= 12 && y >= 64
  {
    hide SwitchBin;
  }

  /** The place of an operation in the order of the opcodes. */
  function Place(b: BinOp): (k: nat)
    ensures k < 15
  {
    match b
    case Add => 0 case Sub => 1 case Mul => 2 case DivS => 3 case DivU => 4 case RemS => 5 case RemU => 6 case And => 7
    case Or => 8 case Xor => 9 case Shl => 10 case ShrS => 11 case ShrU => 12 case RotL => 13 case RotR => 14
  }

  /** The thirty binary integer instructions on the stack of the machine. */
  lemma Binops(p: Program, s: State, base: seq<Value>, w: Instructions.Bits, b: BinOp, x: Value, y: Value)
    requires s.stack == base + [x, y] && x.ty == y.ty == Instructions.IntType(w)
    ensures var code := Instructions.BinopCode(w, b);
            IsNum(code)
            && exists r :: Calculates(b, w.N(), x.bits, y.bits, r) && Arranges(b, w.N(), x.bits, y.bits, r)
                 && Lifts(s, base, ExecNum(p, s, code), Instructions.IntType(w), r)
  {
    hide Calculates, Arranges, Lifts, Switch;
    var code := Instructions.BinopCode(w, b);
    BinopSwitch(w, b, x.bits, y.bits);
    Instructions.NumericTyped(Instructions.IBinop(w, b));
    BinopTypes(w, b);
    Binary(p, s, code, base, x, y);
    var r := Switch(code, [x.bits, y.bits]);
    assert Calculates(b, w.N(), x.bits, y.bits, r) && Arranges(b, w.N(), x.bits, y.bits, r);
  }

  lemma BinopTypes(w: Instructions.Bits, b: BinOp)
    ensures var sig := NumSig(Instructions.BinopCode(w, b));
            sig.arg == sig.res == Instructions.IntType(w)
  {}

  /** clz, ctz and popcnt, wrap and the two extensions, by their opcodes. */
  lemma Unops(p: Program, s: State, base: seq<Value>, x: Value)
    requires s.stack == base + [x]
    ensures x.ty == I32 ==>
              Pushes(s, base, ExecNum(p, s, 0x67), I32, LeadingZeros(x.bits, 32))
              && Pushes(s, base, ExecNum(p, s, 0x68), I32, TrailingZeros(x.bits, 0, 32))
              && Pushes(s, base, ExecNum(p, s, 0x69), I32, Count(x.bits, 32))
              && Pushes(s, base, ExecNum(p, s, 0xac), I64,
                        if x.bits < 0x8000_0000 then x.bits else x.bits + 0xffff_ffff_0000_0000)
              && Pushes(s, base, ExecNum(p, s, 0xad), I64, x.bits)
    ensures x.ty == I64 ==>
              Pushes(s, base, ExecNum(p, s, 0x79), I64, LeadingZeros(x.bits, 64))
              && Pushes(s, base, ExecNum(p, s, 0x7a), I64, TrailingZeros(x.bits, 0, 64))
              && Pushes(s, base, ExecNum(p, s, 0x7b), I64, Count(x.bits, 64))
              && Pushes(s, base, ExecNum(p, s, 0xa7), I32, x.bits % 0x1_0000_0000)
  {
    hide ExecNum;
    if x.ty == I32 { Unops32(p, s, base, x); Extensions(p, s, base, x); }
    if x.ty == I64 { Unops64(p, s, base, x); }
  }

  lemma CountsFit(x: nat, w: nat)
    requires w in {32, 64}
    ensures LeadingZeros(x, w) <= w && TrailingZeros(x, 0, w) <= w && Count(x, w) <= w
  {
    LeadingFits(x, w);
    TrailingFits(x, 0, w);
    CountFits(x, w);
  }

  lemma {:induction false} LeadingFits(x: nat, i: nat)
    ensures LeadingZeros(x, i) <= i
  {
    if i > 0 { LeadingFits(x, i - 1); }
  }

  lemma {:induction false} TrailingFits(x: nat, i: nat, n: nat)
    requires i <= n
    ensures TrailingZeros(x, i, n) <= n - i
    decreases n - i
  {
    if i < n { TrailingFits(x, i + 1, n); }
  }

  lemma {:induction false} CountFits(x: nat, n: nat)
    ensures Count(x, n) <= n
  {
    if n > 0 { CountFits(x, n - 1); }
  }

  lemma UnopSwitch(code: byte, w: nat, u: UnOp, x: u64)
    requires w in {32, 64} && x < Top(w)
    requires code == match u case Clz => (if w == 32 then 0x67 else 0x79) case Ctz => (if w == 32 then 0x68 else 0x7a)
                             case Popcnt => (if w == 32 then 0x69 else 0x7b)
    ensures IntArgs(code, [x]) && 0 <= StandardUn(u, w, x) <= w && Switch(code, [x]) == Gives(StandardUn(u, w, x))
  {
    hide SwitchUn, LeadingZeros, TrailingZeros, Count;
    CountsFit(x, w);
    SwitchExact(code, [x]);
  }

  lemma Unops32(p: Program, s: State, base: seq<Value>, x: Value)
    requires s.stack == base + [x] && x.ty == I32
    ensures Pushes(s, base, ExecNum(p, s, 0x67), I32, LeadingZeros(x.bits, 32))
    ensures Pushes(s, base, ExecNum(p, s, 0x68), I32, TrailingZeros(x.bits, 0, 32))
    ensures Pushes(s, base, ExecNum(p, s, 0x69), I32, Count(x.bits, 32))
  {
    hide ExecNum, LeadingZeros, TrailingZeros, Count;
    UnopSwitch(0x67, 32, Clz, x.bits);
    UnopSwitch(0x68, 32, Ctz, x.bits);
    UnopSwitch(0x69, 32, Popcnt, x.bits);
    Unary(p, s, 0x67, base, x);
    Unary(p, s, 0x68, base, x);
    Unary(p, s, 0x69, base, x);
  }

  lemma Extensions(p: Program, s: State, base: seq<Value>, x: Value)
    requires s.stack == base + [x] && x.ty == I32
    ensures Pushes(s, base, ExecNum(p, s, 0xac), I64,
                   if x.bits < 0x8000_0000 then x.bits else x.bits + 0xffff_ffff_0000_0000)
    ensures Pushes(s, base, ExecNum(p, s, 0xad), I64, x.bits)
  {
    hide ExecNum;
    Unary(p, s, 0xac, base, x);
    Unary(p, s, 0xad, base, x);
  }

  lemma Unops64(p: Program, s: State, base: seq<Value>, x: Value)
    requires s.stack == base + [x] && x.ty == I64
    ensures Pushes(s, base, ExecNum(p, s, 0x79), I64, LeadingZeros(x.bits, 64))
    ensures Pushes(s, base, ExecNum(p, s, 0x7a), I64, TrailingZeros(x.bits, 0, 64))
    ensures Pushes(s, base, ExecNum(p, s, 0x7b), I64, Count(x.bits, 64))
    ensures Pushes(s, base, ExecNum(p, s, 0xa7), I32, x.bits % 0x1_0000_0000)
  {
    hide ExecNum, LeadingZeros, TrailingZeros, Count;
    UnopSwitch(0x79, 64, Clz, x.bits);
    UnopSwitch(0x7a, 64, Ctz, x.bits);
    UnopSwitch(0x7b, 64, Popcnt, x.bits);
    Unary(p, s, 0x79, base, x);
    Unary(p, s, 0x7a, base, x);
    Unary(p, s, 0x7b, base, x);
    Wraps(p, s, base, x);
  }

  lemma Wraps(p: Program, s: State, base: seq<Value>, x: Value)
    requires s.stack == base + [x] && x.ty == I64
    ensures Pushes(s, base, ExecNum(p, s, 0xa7), I32, x.bits % 0x1_0000_0000)
  {
    assert s.stack[|base|..] == [x] && s.stack[..|base|] == base;
  }
}
