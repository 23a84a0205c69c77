/**
 The instructions of WebAssembly Core 1.0 by their names (section 2.4), their opcodes and binary
 format (section 5.4) and the types of the numeric ones (section 3.3.1), written down once from the
 standard; and the proof that the decoder, the matcher and the tables of the interpreter agree with
 them.
 */
module Instructions {
  import opened Leb
  import opened Wasm
  import opened Integers
  import opened Conversions
  import opened Bytecode
  import opened Structure

  // ---------- numeric instructions ----------

  datatype FRelOp = FEq | FNe | FLt | FGt | FLe | FGe

  datatype FUnOp = FAbs | FNeg | FCeil | FFloor | FTrunc | FNearest | FSqrt

  datatype FBinOp = FAdd | FSub | FMul | FDiv | FMin | FMax | FCopysign

  /** W32 and W64: the width of the operands; conversions name the target first. */
  datatype Bits = W32 | W64
  {
    function N(): (n: nat)
      ensures n in {32, 64}
    {
      if W32? then 32 else 64
    }
  }

  datatype Numeric =
    | ITestop(w: Bits)
    | IRelop(w: Bits, rel: RelOp)
    | FRelop(w: Bits, frel: FRelOp)
    | IUnop(w: Bits, un: UnOp)
    | IBinop(w: Bits, bin: BinOp)
    | FUnop(w: Bits, fun: FUnOp)
    | FBinop(w: Bits, fbin: FBinOp)
    | Wrap
    | Extend(signed: bool)
    | TruncTo(to: Bits, from: Bits, signed: bool)
    | ConvertTo(to: Bits, from: Bits, signed: bool)
    | Demote
    | Promote
    | IReinterpret(w: Bits)
    | FReinterpret(w: Bits)

  function RelopCode(w: Bits, r: RelOp): byte {
    match r
    case Eq => if w.W32? then 0x46 else 0x51
    case Ne => if w.W32? then 0x47 else 0x52
    case LtS => if w.W32? then 0x48 else 0x53
    case LtU => if w.W32? then 0x49 else 0x54
    case GtS => if w.W32? then 0x4a else 0x55
    case GtU => if w.W32? then 0x4b else 0x56
    case LeS => if w.W32? then 0x4c else 0x57
    case LeU => if w.W32? then 0x4d else 0x58
    case GeS => if w.W32? then 0x4e else 0x59
    case GeU => if w.W32? then 0x4f else 0x5a
  }

  function FRelopCode(w: Bits, r: FRelOp): byte {
    match r
    case FEq => if w.W32? then 0x5b else 0x61
    case FNe => if w.W32? then 0x5c else 0x62
    case FLt => if w.W32? then 0x5d else 0x63
    case FGt => if w.W32? then 0x5e else 0x64
    case FLe => if w.W32? then 0x5f else 0x65
    case FGe => if w.W32? then 0x60 else 0x66
  }

  function BinopCode(w: Bits, b: BinOp): byte {
    match b
    case Add => if w.W32? then 0x6a else 0x7c
    case Sub => if w.W32? then 0x6b else 0x7d
    case Mul => if w.W32? then 0x6c else 0x7e
    case DivS => if w.W32? then 0x6d else 0x7f
    case DivU => if w.W32? then 0x6e else 0x80
    case RemS => if w.W32? then 0x6f else 0x81
    case RemU => if w.W32? then 0x70 else 0x82
    case And => if w.W32? then 0x71 else 0x83
    case Or => if w.W32? then 0x72 else 0x84
    case Xor => if w.W32? then 0x73 else 0x85
    case Shl => if w.W32? then 0x74 else 0x86
    case ShrS => if w.W32? then 0x75 else 0x87
    case ShrU => if w.W32? then 0x76 else 0x88
    case RotL => if w.W32? then 0x77 else 0x89
    case RotR => if w.W32? then 0x78 else 0x8a
  }

  function FUnopCode(w: Bits, u: FUnOp): byte {
    match u
    case FAbs => if w.W32? then 0x8b else 0x99
    case FNeg => if w.W32? then 0x8c else 0x9a
    case FCeil => if w.W32? then 0x8d else 0x9b
    case FFloor => if w.W32? then 0x8e else 0x9c
    case FTrunc => if w.W32? then 0x8f else 0x9d
    case FNearest => if w.W32? then 0x90 else 0x9e
    case FSqrt => if w.W32? then 0x91 else 0x9f
  }

  function FBinopCode(w: Bits, b: FBinOp): byte {
    match b
    case FAdd => if w.W32? then 0x92 else 0xa0
    case FSub => if w.W32? then 0x93 else 0xa1
    case FMul => if w.W32? then 0x94 else 0xa2
    case FDiv => if w.W32? then 0x95 else 0xa3
    case FMin => if w.W32? then 0x96 else 0xa4
    case FMax => if w.W32? then 0x97 else 0xa5
    case FCopysign => if w.W32? then 0x98 else 0xa6
  }

  function TruncCode(to: Bits, from: Bits, signed: bool): byte {
    if to.W32? then
      if from.W32? then (if signed then 0xa8 else 0xa9) else if signed then 0xaa else 0xab
    else
      if from.W32? then (if signed then 0xae else 0xaf) else if signed then 0xb0 else 0xb1
  }

  function ConvertCode(to: Bits, from: Bits, signed: bool): byte {
    if to.W32? then
      if from.W32? then (if signed then 0xb2 else 0xb3) else if signed then 0xb4 else 0xb5
    else
      if from.W32? then (if signed then 0xb7 else 0xb8) else if signed then 0xb9 else 0xba
  }

  /** Section 5.4.5. */
  function Opcode(n: Numeric): byte {
    match n
    case ITestop(w) => if w.W32? then 0x45 else 0x50
    case IRelop(w, r) => RelopCode(w, r)
    case FRelop(w, r) => FRelopCode(w, r)
    case IUnop(w, Clz) => if w.W32? then 0x67 else 0x79
    case IUnop(w, Ctz) => if w.W32? then 0x68 else 0x7a
    case IUnop(w, Popcnt) => if w.W32? then 0x69 else 0x7b
    case IBinop(w, b) => BinopCode(w, b)
    case FUnop(w, u) => FUnopCode(w, u)
    case FBinop(w, b) => FBinopCode(w, b)
    case Wrap => 0xa7
    case Extend(signed) => if signed then 0xac else 0xad
    case TruncTo(to, from, signed) => TruncCode(to, from, signed)
    case ConvertTo(to, from, signed) => ConvertCode(to, from, signed)
    case Demote => 0xb6
    case Promote => 0xbb
    case IReinterpret(w) => if w.W32? then 0xbc else 0xbd
    case FReinterpret(w) => if w.W32? then 0xbe else 0xbf
  }

  /** The instruction an opcode stands for. */
  function NameOf(code: byte): Numeric
    requires 0x45 <= code <= 0xbf
  {
    var frels, funs := [FEq, FNe, FLt, FGt, FLe, FGe], [FAbs, FNeg, FCeil, FFloor, FTrunc, FNearest, FSqrt];
    var fbins, uns := [FAdd, FSub, FMul, FDiv, FMin, FMax, FCopysign], [Clz, Ctz, Popcnt];
    if code == 0x45 then ITestop(W32)
    else if code <= 0x4f then IRelop(W32, RelAt(code - 0x46))
    else if code == 0x50 then ITestop(W64)
    else if code <= 0x5a then IRelop(W64, RelAt(code - 0x51))
    else if code <= 0x60 then FRelop(W32, frels[code - 0x5b])
    else if code <= 0x66 then FRelop(W64, frels[code - 0x61])
    else if code <= 0x69 then IUnop(W32, uns[code - 0x67])
    else if code <= 0x78 then IBinop(W32, BinAt(code - 0x6a))
    else if code <= 0x7b then IUnop(W64, uns[code - 0x79])
    else if code <= 0x8a then IBinop(W64, BinAt(code - 0x7c))
    else if code <= 0x91 then FUnop(W32, funs[code - 0x8b])
    else if code <= 0x98 then FBinop(W32, fbins[code - 0x92])
    else if code <= 0x9f then FUnop(W64, funs[code - 0x99])
    else if code <= 0xa6 then FBinop(W64, fbins[code - 0xa0])
    else if code == 0xa7 then Wrap
    else if code <= 0xab then TruncTo(W32, if code <= 0xa9 then W32 else W64, code % 2 == 0)
    else if code <= 0xad then Extend(code == 0xac)
    else if code <= 0xb1 then TruncTo(W64, if code <= 0xaf then W32 else W64, code % 2 == 0)
    else if code <= 0xb5 then ConvertTo(W32, if code <= 0xb3 then W32 else W64, code % 2 == 0)
    else if code == 0xb6 then Demote
    else if code <= 0xba then ConvertTo(W64, if code <= 0xb8 then W32 else W64, code % 2 == 1)
    else if code == 0xbb then Promote
    else if code <= 0xbd then IReinterpret(if code == 0xbc then W32 else W64)
    else FReinterpret(if code == 0xbe then W32 else W64)
  }

  /** Different instructions have different opcodes. */
  lemma OpcodesDiffer(n: Numeric)
    ensures 0x45 <= Opcode(n) <= 0xbf && NameOf(Opcode(n)) == n
  {
    if n.TruncTo? || n.ConvertTo? || n.Extend? { assert Opcode(n) >= 0xa8; }
  }

  /** Every byte from 0x45 to 0xbf is the opcode of an instruction. */
  lemma OpcodesCover(code: byte)
    requires 0x45 <= code <= 0xbf
    ensures Opcode(NameOf(code)) == code
  {
    if code <= 0x66 { CoverRelations(code); } else if code <= 0xa6 { CoverOperators(code); }
  }

  lemma CoverRelations(code: byte)
    requires 0x45 <= code <= 0x66
    ensures Opcode(NameOf(code)) == code
  {}

  lemma CoverOperators(code: byte)
    requires 0x67 <= code <= 0xa6
    ensures Opcode(NameOf(code)) == code
  {}

  function IntType(w: Bits): ValType { if w.W32? then I32 else I64 }

  function FloatType(w: Bits): ValType { if w.W32? then F32 else F64 }

  /** Section 3.3.1: operand types and result type. */
  function NumericType(n: Numeric): FuncType {
    match n
    case ITestop(w) => FuncType([IntType(w)], [I32])
    case IRelop(w, _) => FuncType([IntType(w), IntType(w)], [I32])
    case FRelop(w, _) => FuncType([FloatType(w), FloatType(w)], [I32])
    case IUnop(w, _) => FuncType([IntType(w)], [IntType(w)])
    case IBinop(w, _) => FuncType([IntType(w), IntType(w)], [IntType(w)])
    case FUnop(w, _) => FuncType([FloatType(w)], [FloatType(w)])
    case FBinop(w, _) => FuncType([FloatType(w), FloatType(w)], [FloatType(w)])
    case Wrap => FuncType([I64], [I32])
    case Extend(_) => FuncType([I32], [I64])
    case TruncTo(to, from, _) => FuncType([FloatType(from)], [IntType(to)])
    case ConvertTo(to, from, _) => FuncType([IntType(from)], [FloatType(to)])
    case Demote => FuncType([F64], [F32])
    case Promote => FuncType([F32], [F64])
    case IReinterpret(w) => FuncType([FloatType(w)], [IntType(w)])
    case FReinterpret(w) => FuncType([IntType(w)], [FloatType(w)])
  }

  /** The table of signatures by opcode is the typing of the standard. */
  lemma NumericTyped(n: Numeric)
    ensures IsNum(Opcode(n))
    ensures var sig := NumSig(Opcode(n));
            NumericType(n) == FuncType(seq(sig.arity, _ => sig.arg), [sig.res])
  {
    var sig := NumSig(Opcode(n));
    assert |NumericType(n).params| == sig.arity;
    assert seq(sig.arity, _ => sig.arg) == NumericType(n).params;
  }

  /** The integer operations and truncations the opcodes are taken for are those of their names. */
  lemma NumericMeans(n: Numeric)
    ensures IsInt(Opcode(n)) <==> n.ITestop? || n.IRelop? || n.IUnop? || n.IBinop? || n.Extend?
    ensures IsInt(Opcode(n)) ==>
              WidthOf(Opcode(n)) == (if n.Extend? then 32 else n.w.N())
              && IntOpOf(Opcode(n)) ==
                 match n
                 case ITestop(_) => Test
                 case IRelop(_, r) => Rel(r)
                 case IUnop(_, u) => Un(u)
                 case IBinop(_, b) => Bin(b)
                 case Extend(signed) => Widen(signed)
                 case _ => Test
    ensures IsTrunc(Opcode(n)) <==> n.TruncTo?
    ensures n.TruncTo? ==>
              TargetWidth(Opcode(n)) == n.to.N() && SourceWidth(Opcode(n)) == n.from.N()
              && (IsSigned(Opcode(n)) <==> n.signed)
  {}

  // ---------- the binary format ----------

  /** Two's complement reading of a word. */
  function Int32(x: u64): int { if x < 0x8000_0000 then x else x - 0x1_0000_0000 }

  function Int64(x: u64): int { if x < 0x8000_0000_0000_0000 then x else x - 0x1_0000_0000_0000_0000 }

  function Four(x: u64): seq<byte> {
    [x % 0x100, x / 0x100 % 0x100, x / 0x1_0000 % 0x100, x / 0x100_0000 % 0x100]
  }

  function EncodeAll(ds: seq<u32>): seq<byte> { if ds == [] then [] else Encode(ds[0]) + EncodeAll(ds[1..]) }

  /** Sections 5.4.1 to 5.4.5, for instructions that are no blocks; hint is the alignment of a load or
      store, which has no meaning. */
  function EncodeOp(op: Op, hint: u32): seq<byte>
    requires IsSimple(op)
  {
    match op
    case Trap => [0x00]
    case Nop => [0x01]
    case Br(d) => [0x0c] + Encode(d)
    case BrIf(d) => [0x0d] + Encode(d)
    case BrTable(ds, d) => [0x0e] + (Encode(|ds|) + EncodeAll(ds) + Encode(d))
    case Return => [0x0f]
    case Call(f) => [0x10] + Encode(f)
    case CallIndirect(t) => [0x11] + (Encode(t) + [0x00])
    case Drop => [0x1a]
    case Select => [0x1b]
    case GetLocal(i) => [0x20] + Encode(i)
    case SetLocal(i) => [0x21] + Encode(i)
    case TeeLocal(i) => [0x22] + Encode(i)
    case GetGlobal(i) => [0x23] + Encode(i)
    case SetGlobal(i) => [0x24] + Encode(i)
    case Load(code, offset) => [code] + (Encode(hint) + Encode(offset))
    case Store(code, offset) => [code] + (Encode(hint) + Encode(offset))
    case CurrentMemory => [0x3f, 0x00]
    case GrowMemory => [0x40, 0x00]
    case Const(v) =>
      (match v.ty
       case I32 => [0x41] + EncodeSigned(Int32(v.bits))
       case I64 => [0x42] + EncodeSigned(Int64(v.bits))
       case F32 => [0x43] + Four(v.bits)
       case F64 => [0x44] + (Four(v.bits) + Four(v.bits / 0x1_0000_0000)))
    case Num(code) => [code]
    case Unknown(code) => [code]
  }

  /** The bytes no instruction of the standard starts with. */
  predicate Unused(c: byte) {
    0x06 <= c <= 0x0a || 0x12 <= c <= 0x19 || 0x1c <= c <= 0x1f || 0x25 <= c <= 0x27 || c >= 0xc0
  }

  /** Instructions with a binary format, and the bytes without meaning. */
  predicate Encodable(op: Op) {
    IsSimple(op) &&
    match op
    case BrTable(ds, _) => |ds| < 0x1_0000_0000
    case Load(code, _) => 0x28 <= code <= 0x35
    case Store(code, _) => 0x36 <= code <= 0x3e
    case Num(code) => 0x45 <= code <= 0xbf
    case Unknown(code) => Unused(code)
    case _ => true
  }

  /** A constant the interpreter cannot read: negative and in five to nine bytes. */
  predicate Unreadable(op: Op) {
    op.Const? && op.v.ty == I64 && Int64(op.v.bits) < 0 && 5 <= |EncodeSigned(Int64(op.v.bits))| <= 9
  }

  lemma U32Decodes(bytes: seq<byte>, pos: nat, c: byte, v: u32)
    requires Holds(bytes, pos, [c] + Encode(v)) && TakesU32(c)
    ensures pos < |bytes| && Decode(bytes, pos) == Some(Fetched(OneOperand(c, v), pos + 1 + |Encode(v)|))
  {
    hide ReadU32, Encode, OneOperand;
    HoldsTail(bytes, pos, c, Encode(v));
    ReadsBack(v, bytes, pos + 1);
  }

  lemma TwoDecode(bytes: seq<byte>, pos: nat, c: byte, v: u32, x: u32)
    requires Holds(bytes, pos, [c] + (Encode(v) + Encode(x))) && TakesTwoU32(c)
    ensures pos < |bytes|
    ensures Decode(bytes, pos) == Some(Fetched(TwoOperands(c, v, x), pos + 1 + |Encode(v)| + |Encode(x)|))
  {
    hide ReadU32, Encode, TwoOperands;
    HoldsTail(bytes, pos, c, Encode(v) + Encode(x));
    HoldsParts(bytes, pos + 1, Encode(v), Encode(x));
    ReadsBack(v, bytes, pos + 1);
    ReadsBack(x, bytes, pos + 1 + |Encode(v)|);
  }

  lemma {:induction false} TargetsDecode(bytes: seq<byte>, pos: nat, ds: seq<u32>)
    requires Holds(bytes, pos, EncodeAll(ds))
    ensures ReadTargets(bytes, pos, |ds|) == Some((ds, pos + |EncodeAll(ds)|))
    decreases |ds|
  {
    hide ReadU32, Encode;
    if ds != [] {
      HoldsParts(bytes, pos, Encode(ds[0]), EncodeAll(ds[1..]));
      ReadsBack(ds[0], bytes, pos);
      TargetsDecode(bytes, pos + |Encode(ds[0])|, ds[1..]);
      assert [ds[0]] + ds[1..] == ds;
    }
  }

  lemma TableDecodes(bytes: seq<byte>, pos: nat, ds: seq<u32>, d: u32)
    requires |ds| < 0x1_0000_0000 && Holds(bytes, pos, [0x0e] + (Encode(|ds|) + EncodeAll(ds) + Encode(d)))
    ensures pos < |bytes|
    ensures Decode(bytes, pos)
         == Some(Fetched(BrTable(ds, d), pos + 1 + |Encode(|ds|) + EncodeAll(ds) + Encode(d)|))
  {
    hide ReadU32, ReadTargets, Encode, EncodeAll;
    var n := Encode(|ds|);
    HoldsTail(bytes, pos, 0x0e, n + EncodeAll(ds) + Encode(d));
    HoldsParts(bytes, pos + 1, n + EncodeAll(ds), Encode(d));
    HoldsParts(bytes, pos + 1, n, EncodeAll(ds));
    ReadsBack(|ds|, bytes, pos + 1);
    TargetsDecode(bytes, pos + 1 + |n|, ds);
    ReadsBack(d, bytes, pos + 1 + |n + EncodeAll(ds)|);
  }

  lemma SignedDecodes(bytes: seq<byte>, pos: nat, v: Value)
    requires v.ty in {I32, I64}
    requires Holds(bytes, pos, EncodeOp(Const(v), 0))
    ensures pos < |bytes|
    ensures Decode(bytes, pos)
         == if Unreadable(Const(v)) then None else Some(Fetched(Const(v), pos + |EncodeOp(Const(v), 0)|))
  {
    hide LebLen, Decoded, EncodeSigned;
    var x := if v.ty == I32 then Int32(v.bits) else Int64(v.bits);
    HoldsTail(bytes, pos, if v.ty == I32 then 0x41 else 0x42, EncodeSigned(x));
    if v.ty == I32 { Int32RoundTrip(x, bytes, pos + 1); } else { NegativeDecodes(bytes, pos + 1, v); }
  }

  lemma NegativeDecodes(bytes: seq<byte>, pos: nat, v: Value)
    requires v.ty == I64 && Holds(bytes, pos, EncodeSigned(Int64(v.bits)))
    ensures DecodeConst(bytes, pos, I64)
         == if Unreadable(Const(v)) then None
            else Some(Fetched(Const(v), pos + |EncodeSigned(Int64(v.bits))|))
  {
    hide LebLen, EncodeSigned, LebValue, BitOr, SignMask, SLebValue;
    var x := Int64(v.bits);
    Int64RoundTrip(x, bytes, pos);
    EncodeSignedDecodes(x, bytes, pos);
    Signed64IsStandard(bytes, pos, |EncodeSigned(x)|);
  }

  lemma FourDigits(x: u64)
    ensures var f: seq<int> := Four(x);
            f[0] + 0x100 * f[1] + 0x1_0000 * f[2] + 0x100_0000 * f[3] == x % 0x1_0000_0000
  {
    var a, b, c := x / 0x100, x / 0x1_0000, x / 0x100_0000;
    assert b == a / 0x100 && c == b / 0x100;
    assert x == 0x100 * a + x % 0x100 && a == 0x100 * b + a % 0x100 && b == 0x100 * c + b % 0x100;
    TopDigit(x, c, b % 0x100, a % 0x100, x % 0x100);
  }

  lemma TopDigit(x: nat, c: nat, d2: nat, d1: nat, d0: nat)
    requires x == 0x100_0000 * c + 0x1_0000 * d2 + 0x100 * d1 + d0 && d0 < 0x100 && d1 < 0x100 && d2 < 0x100
    ensures d0 + 0x100 * d1 + 0x1_0000 * d2 + 0x100_0000 * (c % 0x100) == x % 0x1_0000_0000
  {
    var low := d0 + 0x100 * d1 + 0x1_0000 * d2 + 0x100_0000 * (c % 0x100);
    DivModUnique(x, 0x1_0000_0000, c / 0x100, low);
  }

  lemma FourBytes(x: u64, bytes: seq<byte>, pos: nat)
    requires Holds(bytes, pos, Four(x))
    ensures LittleEndian(bytes[pos..pos + 4]) == x % 0x1_0000_0000
  {
    hide LittleEndian;
    var b := bytes[pos..pos + 4];
    assert b == Four(x);
    hide Four;
    LittleFour(b);
    FourDigits(x);
    assert b[4..] == [];
    LittleNone();
  }

  lemma JoinBytes(a: seq<byte>, b: seq<byte>)
    requires |a| == 4
    ensures LittleEndian(a + b) == LittleEndian(a) + 0x1_0000_0000 * LittleEndian(b)
  {
    hide LittleEndian;
    LittleFour(a + b);
    LittleFour(a);
    LittleNone();
    assert (a + b)[4..] == b && a[4..] == [];
  }

  lemma FloatDecodes(bytes: seq<byte>, pos: nat, v: Value)
    requires v.ty in {F32, F64}
    requires Holds(bytes, pos, EncodeOp(Const(v), 0))
    ensures pos < |bytes|
    ensures Decode(bytes, pos) == Some(Fetched(Const(v), pos + |EncodeOp(Const(v), 0)|))
  {
    hide LittleEndian;
    if v.ty == F32 { SingleDecodes(bytes, pos, v); } else { DoubleDecodes(bytes, pos, v); }
  }

  lemma SingleDecodes(bytes: seq<byte>, pos: nat, v: Value)
    requires v.ty == F32 && Holds(bytes, pos, [0x43] + Four(v.bits))
    ensures pos < |bytes| && Decode(bytes, pos) == Some(Fetched(Const(v), pos + 5))
  {
    hide LittleEndian;
    HoldsTail(bytes, pos, 0x43, Four(v.bits));
    FourBytes(v.bits, bytes, pos + 1);
  }

  lemma DoubleDecodes(bytes: seq<byte>, pos: nat, v: Value)
    requires v.ty == F64 && Holds(bytes, pos, [0x44] + (Four(v.bits) + Four(v.bits / 0x1_0000_0000)))
    ensures pos < |bytes| && Decode(bytes, pos) == Some(Fetched(Const(v), pos + 9))
  {
    hide LittleEndian, Four;
    var lo, hi := v.bits, v.bits / 0x1_0000_0000;
    HoldsTail(bytes, pos, 0x44, Four(lo) + Four(hi));
    EightBytes(lo, hi, bytes, pos + 1);
  }

  lemma EightBytes(lo: u64, hi: u64, bytes: seq<byte>, pos: nat)
    requires Holds(bytes, pos, Four(lo) + Four(hi))
    ensures pos + 8 <= |bytes|
    ensures LittleEndian(bytes[pos..pos + 8]) == lo % 0x1_0000_0000 + 0x1_0000_0000 * (hi % 0x1_0000_0000)
  {
    hide LittleEndian, Four, Holds;
    FourLength(lo);
    FourLength(hi);
    HoldsParts(bytes, pos, Four(lo), Four(hi));
    HeldFits(bytes, pos + 4, Four(hi));
    FourBytes(lo, bytes, pos);
    FourBytes(hi, bytes, pos + 4);
    JoinBytes(bytes[pos..pos + 4], bytes[pos + 4..pos + 8]);
    assert bytes[pos..pos + 8] == bytes[pos..pos + 4] + bytes[pos + 4..pos + 8];
  }

  lemma FourLength(x: u64)
    ensures |Four(x)| == 4
  {}

  lemma HeldFits(bytes: seq<byte>, pos: nat, e: seq<byte>)
    requires Holds(bytes, pos, e)
    ensures pos + |e| <= |bytes|
  {}

  lemma ByteDecodes(bytes: seq<byte>, pos: nat, c: byte)
    requires Holds(bytes, pos, [c]) && !TakesU32(c) && !TakesTwoU32(c) && c != 0x0e && !(0x41 <= c <= 0x44)
    ensures pos < |bytes| && Decode(bytes, pos) == Some(Fetched(NoOperand(c), pos + 1))
  {
    assert [c][0] == c;
  }

  lemma ShortEncoding(v: nat)
    requires v < 128
    ensures Encode(v) == [v]
  {}

  /** Every instruction, wherever its bytes are, is decoded as what it is, with its length; only
      negative i64 constants in five to nine bytes are not. The bytes without meaning are decoded as
      such. */
  lemma OpDecodes(bytes: seq<byte>, pos: nat, op: Op, hint: u32)
    requires Encodable(op) && Holds(bytes, pos, EncodeOp(op, hint))
    ensures pos < |bytes|
    ensures Decode(bytes, pos) == if Unreadable(op) then None else Some(Fetched(op, pos + |EncodeOp(op, hint)|))
  {
    hide Encode, Decode, EncodeSigned, Unreadable;
    if op.Const? {
      if op.v.ty == I32 || op.v.ty == I64 {
        SignedDecodes(bytes, pos, op.v);
      } else {
        FloatOnly(op.v);
        FloatDecodes(bytes, pos, op.v);
      }
    } else {
      ConstOnly(op);
      if op.Br? || op.BrIf? || op.Call? || op.GetLocal? || op.SetLocal? || op.TeeLocal? || op.GetGlobal?
         || op.SetGlobal? {
        IndexDecodes(bytes, pos, op);
      } else if op.Load? || op.Store? || op.CallIndirect? {
        PairDecodes(bytes, pos, op, hint);
      } else {
        PlainDecodes(bytes, pos, op);
      }
    }
  }

  lemma ConstOnly(op: Op)
    requires !op.Const?
    ensures !Unreadable(op)
  {}

  lemma FloatOnly(v: Value)
    requires v.ty in {F32, F64}
    ensures !Unreadable(Const(v))
  {}

  lemma IndexDecodes(bytes: seq<byte>, pos: nat, op: Op)
    requires op.Br? || op.BrIf? || op.Call? || op.GetLocal? || op.SetLocal? || op.TeeLocal? || op.GetGlobal?
             || op.SetGlobal?
    requires Holds(bytes, pos, EncodeOp(op, 0))
    ensures pos < |bytes| && Decode(bytes, pos) == Some(Fetched(op, pos + |EncodeOp(op, 0)|))
  {
    hide Encode, Decode, Holds;
    match op
    case Br(d) => U32Decodes(bytes, pos, 0x0c, d);
    case BrIf(d) => U32Decodes(bytes, pos, 0x0d, d);
    case Call(f) => U32Decodes(bytes, pos, 0x10, f);
    case GetLocal(i) => U32Decodes(bytes, pos, 0x20, i);
    case SetLocal(i) => U32Decodes(bytes, pos, 0x21, i);
    case TeeLocal(i) => U32Decodes(bytes, pos, 0x22, i);
    case GetGlobal(i) => U32Decodes(bytes, pos, 0x23, i);
    case SetGlobal(i) => U32Decodes(bytes, pos, 0x24, i);
  }

  lemma PairDecodes(bytes: seq<byte>, pos: nat, op: Op, hint: u32)
    requires (op.Load? || op.Store? || op.CallIndirect?) && Encodable(op) && Holds(bytes, pos, EncodeOp(op, hint))
    ensures pos < |bytes| && Decode(bytes, pos) == Some(Fetched(op, pos + |EncodeOp(op, hint)|))
  {
    hide Encode, Decode, Holds;
    ShortEncoding(0);
    match op
    case CallIndirect(t) => TwoDecode(bytes, pos, 0x11, t, 0);
    case Load(code, offset) => TwoDecode(bytes, pos, code, hint, offset);
    case Store(code, offset) => TwoDecode(bytes, pos, code, hint, offset);
  }

  lemma PlainDecodes(bytes: seq<byte>, pos: nat, op: Op)
    requires op.Trap? || op.Nop? || op.Return? || op.Drop? || op.Select? || op.Num? || op.Unknown? || op.CurrentMemory?
             || op.GrowMemory? || op.BrTable?
    requires Encodable(op) && Holds(bytes, pos, EncodeOp(op, 0))
    ensures pos < |bytes| && Decode(bytes, pos) == Some(Fetched(op, pos + |EncodeOp(op, 0)|))
  {
    hide Encode, Decode, Holds;
    match op
    case BrTable(ds, d) => TableDecodes(bytes, pos, ds, d);
    case CurrentMemory => ZeroDecodes(bytes, pos, 0x3f);
    case GrowMemory => ZeroDecodes(bytes, pos, 0x40);
    case Num(code) => ByteDecodes(bytes, pos, code);
    case Unknown(code) => ByteDecodes(bytes, pos, code);
    case Trap => ByteDecodes(bytes, pos, 0x00);
    case Nop => ByteDecodes(bytes, pos, 0x01);
    case Return => ByteDecodes(bytes, pos, 0x0f);
    case Drop => ByteDecodes(bytes, pos, 0x1a);
    case Select => ByteDecodes(bytes, pos, 0x1b);
  }

  /** The reserved byte of the two memory instructions. */
  lemma ZeroDecodes(bytes: seq<byte>, pos: nat, c: byte)
    requires c in {0x3f, 0x40} && Holds(bytes, pos, [c, 0x00])
    ensures pos < |bytes| && Decode(bytes, pos) == Some(Fetched(OneOperand(c, 0), pos + 2))
  {
    hide Decode, Encode;
    ShortEncoding(0);
    assert [c, 0x00] == [c] + Encode(0);
    U32Decodes(bytes, pos, c, 0);
  }

  // ---------- structured instructions ----------

  /** An instruction sequence without addresses. */
  datatype Tree =
    | Empty
    | Then(op: Op, hint: u32, rest: Tree)
    | InBlock(ty: seq<ValType>, body: Tree, rest: Tree)
    | InLoop(ty: seq<ValType>, body: Tree, rest: Tree)
    | InIf(ty: seq<ValType>, body: Tree, rest: Tree)
    | InIfElse(ty: seq<ValType>, thn: Tree, els: Tree, rest: Tree)

  predicate EncodableTree(t: Tree) {
    match t
    case Empty => true
    case Then(op, _, rest) => Encodable(op) && !Unreadable(op) && EncodableTree(rest)
    case InBlock(ty, body, rest) => |ty| <= 1 && EncodableTree(body) && EncodableTree(rest)
    case InLoop(ty, body, rest) => |ty| <= 1 && EncodableTree(body) && EncodableTree(rest)
    case InIf(ty, body, rest) => |ty| <= 1 && EncodableTree(body) && EncodableTree(rest)
    case InIfElse(ty, thn, els, rest) =>
      |ty| <= 1 && EncodableTree(thn) && EncodableTree(els) && EncodableTree(rest)
  }

  /** Section 5.3.2. */
  function TypeByte(ty: seq<ValType>): byte
    requires |ty| <= 1
  {
    if ty == [] then 0x40 else TagOf(ty[0])
  }

  /** Section 5.4.1. */
  function EncodeTree(t: Tree): seq<byte>
    requires EncodableTree(t)
  {
    match t
    case Empty => []
    case Then(op, hint, rest) => EncodeOp(op, hint) + EncodeTree(rest)
    case InBlock(ty, body, rest) => [0x02, TypeByte(ty)] + EncodeTree(body) + [0x0b] + EncodeTree(rest)
    case InLoop(ty, body, rest) => [0x03, TypeByte(ty)] + EncodeTree(body) + [0x0b] + EncodeTree(rest)
    case InIf(ty, body, rest) => [0x04, TypeByte(ty)] + EncodeTree(body) + [0x0b] + EncodeTree(rest)
    case InIfElse(ty, thn, els, rest) =>
      [0x04, TypeByte(ty)] + EncodeTree(thn) + [0x05] + EncodeTree(els) + [0x0b] + EncodeTree(rest)
  }

  /** The tree with the addresses its bytes have from pos on. */
  function At(t: Tree, pos: nat): (c: Code)
    requires EncodableTree(t)
    ensures c.at == pos
  {
    match t
    case Empty => Done(pos)
    case Then(op, hint, rest) => Simple(pos, op, At(rest, pos + |EncodeOp(op, hint)|))
    case InBlock(ty, body, rest) => Block(pos, 2, ty, At(body, pos + 2), At(rest, pos + 2 + |EncodeTree(body)| + 1))
    case InLoop(ty, body, rest) => Block(pos, 3, ty, At(body, pos + 2), At(rest, pos + 2 + |EncodeTree(body)| + 1))
    case InIf(ty, body, rest) => Block(pos, 4, ty, At(body, pos + 2), At(rest, pos + 2 + |EncodeTree(body)| + 1))
    case InIfElse(ty, thn, els, rest) =>
      var n, k := |EncodeTree(thn)|, |EncodeTree(els)|;
      IfElse(pos, ty, At(thn, pos + 2), At(els, pos + 2 + n + 1), At(rest, pos + 2 + n + 1 + k + 1))
  }

  lemma TypeByteRead(ty: seq<ValType>)
    requires |ty| <= 1
    ensures BlockType(TypeByte(ty)) == Some(ty)
  {
    if ty != [] { assert ty == [ty[0]]; }
  }

  lemma OpenerHeld(bytes: seq<byte>, pos: nat, c: byte, ty: seq<ValType>, body: seq<byte>, t: byte, rest: seq<byte>)
    requires |ty| <= 1 && Holds(bytes, pos, [c, TypeByte(ty)] + body + [t] + rest)
    ensures pos + 1 < |bytes| && bytes[pos] == c && BlockType(bytes[pos + 1]) == Some(ty)
    ensures Holds(bytes, pos + 2, body) && Holds(bytes, pos + 2 + |body| + 1, rest)
    ensures pos + 2 + |body| < |bytes| && bytes[pos + 2 + |body|] == t
  {
    hide TypeByte, BlockType;
    TypeByteRead(ty);
    var open := [c, TypeByte(ty)];
    HoldsParts(bytes, pos, open + body + [t], rest);
    HoldsParts(bytes, pos, open + body, [t]);
    HoldsParts(bytes, pos, open, body);
    assert open[0] == c && open[1] == TypeByte(ty) && [t][0] == t;
  }

  /** Encoded anywhere, the nesting structure of a sequence is in place. */
  lemma {:induction false} TreePlaced(t: Tree, bytes: seq<byte>, pos: nat)
    requires EncodableTree(t) && Holds(bytes, pos, EncodeTree(t)) && pos + |EncodeTree(t)| < |bytes|
    ensures Placed(bytes, At(t, pos)) && At(t, pos).EndAt() == pos + |EncodeTree(t)|
    decreases t
  {
    hide Placed, Holds, EncodeTree, At, TypeByte, EncodeOp;
    Unfold(t, pos);
    match t
    case Empty => NothingPlaced(bytes, pos);
    case Then(op, hint, rest) => ThenPlaced(t, bytes, pos, op, hint, rest);
    case InBlock(ty, body, rest) => NestedPlaced(t, bytes, pos, 2, ty, body, rest);
    case InLoop(ty, body, rest) => NestedPlaced(t, bytes, pos, 3, ty, body, rest);
    case InIf(ty, body, rest) => NestedPlaced(t, bytes, pos, 4, ty, body, rest);
    case InIfElse(ty, thn, els, rest) => ChoicePlaced(t, bytes, pos, ty, thn, els, rest);
  }

  /** One level of the encoding and of the addresses. */
  lemma Unfold(t: Tree, pos: nat)
    requires EncodableTree(t)
    ensures match t
            case Empty => EncodeTree(t) == [] && At(t, pos) == Done(pos)
            case Then(op, hint, rest) =>
              IsSimple(op) && EncodeTree(t) == EncodeOp(op, hint) + EncodeTree(rest)
              && At(t, pos) == Simple(pos, op, At(rest, pos + |EncodeOp(op, hint)|))
            case InBlock(ty, body, rest) => Nests(t, pos, 2, ty, body, rest)
            case InLoop(ty, body, rest) => Nests(t, pos, 3, ty, body, rest)
            case InIf(ty, body, rest) => Nests(t, pos, 4, ty, body, rest)
            case InIfElse(ty, thn, els, rest) => Chooses(t, pos, ty, thn, els, rest)
  {
    hide EncodeOp, TypeByte, Unreadable;
  }

  predicate Nests(t: Tree, pos: nat, kind: byte, ty: seq<ValType>, body: Tree, rest: Tree)
    requires EncodableTree(t)
  {
    |ty| <= 1 && EncodableTree(body) && EncodableTree(rest)
    && EncodeTree(t) == [kind, TypeByte(ty)] + EncodeTree(body) + [0x0b] + EncodeTree(rest)
    && At(t, pos) == Block(pos, kind, ty, At(body, pos + 2), At(rest, pos + 2 + |EncodeTree(body)| + 1))
  }

  predicate Chooses(t: Tree, pos: nat, ty: seq<ValType>, thn: Tree, els: Tree, rest: Tree)
    requires EncodableTree(t)
  {
    |ty| <= 1 && EncodableTree(thn) && EncodableTree(els) && EncodableTree(rest)
    && var a, b, e := EncodeTree(thn), EncodeTree(els), EncodeTree(rest);
       var mid := pos + 2 + |a| + 1;
       EncodeTree(t) == [0x04, TypeByte(ty)] + a + [0x05] + b + [0x0b] + e
       && At(t, pos) == IfElse(pos, ty, At(thn, pos + 2), At(els, mid), At(rest, mid + |b| + 1))
  }

  lemma NothingPlaced(bytes: seq<byte>, pos: nat)
    requires pos < |bytes|
    ensures Placed(bytes, Done(pos)) && Done(pos).EndAt() == pos
  {}

  lemma {:induction false} ThenPlaced(t: Tree, bytes: seq<byte>, pos: nat, op: Op, hint: u32, rest: Tree)
    requires t == Then(op, hint, rest) && EncodableTree(t) && IsSimple(op)
    requires var e := EncodeOp(op, hint) + EncodeTree(rest); Holds(bytes, pos, e) && pos + |e| < |bytes|
    ensures var n := |EncodeOp(op, hint)|;
            var c := Simple(pos, op, At(rest, pos + n));
            Placed(bytes, c) && c.EndAt() == pos + n + |EncodeTree(rest)|
    decreases t, 0
  {
    hide Placed, Holds, EncodeTree, At, EncodeOp, Encodable, Unreadable, Decode;
    var n := |EncodeOp(op, hint)|;
    HoldsParts(bytes, pos, EncodeOp(op, hint), EncodeTree(rest));
    OpDecodes(bytes, pos, op, hint);
    TreePlaced(rest, bytes, pos + n);
    SimpleNode(bytes, pos, op, At(rest, pos + n));
  }

  lemma SimpleNode(bytes: seq<byte>, pos: nat, op: Op, rest: Code)
    requires pos < |bytes| && IsSimple(op) && Decode(bytes, pos) == Some(Fetched(op, rest.at)) && Placed(bytes, rest)
    ensures Placed(bytes, Simple(pos, op, rest)) && Simple(pos, op, rest).EndAt() == rest.EndAt()
  {
    hide Decode;
  }

  lemma {:induction false} NestedPlaced(t: Tree, bytes: seq<byte>, pos: nat, kind: byte, ty: seq<ValType>, body: Tree,
                                        rest: Tree)
    requires EncodableTree(body) && EncodableTree(rest) && |ty| <= 1 && 2 <= kind <= 4 && body < t && rest < t
    requires var e := [kind, TypeByte(ty)] + EncodeTree(body) + [0x0b] + EncodeTree(rest);
             Holds(bytes, pos, e) && pos + |e| < |bytes|
    ensures var c := Block(pos, kind, ty, At(body, pos + 2), At(rest, pos + 2 + |EncodeTree(body)| + 1));
            Placed(bytes, c)
            && c.EndAt() == pos + |[kind, TypeByte(ty)] + EncodeTree(body) + [0x0b] + EncodeTree(rest)|
    decreases t, 0
  {
    hide TypeByte, Holds, Placed, EncodeTree, At, EncodableTree, Code.EndAt;
    var a, e := EncodeTree(body), EncodeTree(rest);
    OpenerHeld(bytes, pos, kind, ty, a, 0x0b, e);
    TreePlaced(body, bytes, pos + 2);
    TreePlaced(rest, bytes, pos + 2 + |a| + 1);
    NestedNode(bytes, pos, kind, ty, At(body, pos + 2), At(rest, pos + 2 + |a| + 1));
  }

  lemma NestedNode(bytes: seq<byte>, pos: nat, kind: byte, ty: seq<ValType>, body: Code, rest: Code)
    requires 2 <= kind <= 4 && pos + 1 < |bytes| && bytes[pos] == kind && BlockType(bytes[pos + 1]) == Some(ty)
    requires body.at == pos + 2 && Terminated(bytes, body, 0x0b, rest) && Placed(bytes, body) && Placed(bytes, rest)
    ensures Placed(bytes, Block(pos, kind, ty, body, rest)) && Block(pos, kind, ty, body, rest).EndAt() == rest.EndAt()
  {
    hide Decode, BlockType;
  }

  lemma {:induction false} ChoicePlaced(t: Tree, bytes: seq<byte>, pos: nat, ty: seq<ValType>, thn: Tree, els: Tree,
                                        rest: Tree)
    requires EncodableTree(thn) && EncodableTree(els) && EncodableTree(rest) && |ty| <= 1
    requires thn < t && els < t && rest < t
    requires var e := [0x04, TypeByte(ty)] + EncodeTree(thn) + [0x05] + EncodeTree(els) + [0x0b] + EncodeTree(rest);
             Holds(bytes, pos, e) && pos + |e| < |bytes|
    ensures var mid := pos + 2 + |EncodeTree(thn)| + 1;
            var end := mid + |EncodeTree(els)|;
            var c := IfElse(pos, ty, At(thn, pos + 2), At(els, mid), At(rest, end + 1));
            Placed(bytes, c) && c.EndAt() == end + 1 + |EncodeTree(rest)|
    decreases t, 0
  {
    hide TypeByte, BlockType, Holds, Placed, OpensBlock, EncodeTree, At, EncodableTree, Code.EndAt;
    var a, b, e := EncodeTree(thn), EncodeTree(els), EncodeTree(rest);
    var mid := pos + 2 + |a| + 1;
    ArmsHeld(bytes, pos, ty, a, b, e);
    TreePlaced(thn, bytes, pos + 2);
    TreePlaced(els, bytes, mid);
    TreePlaced(rest, bytes, mid + |b| + 1);
    Opens(bytes, pos, ty, At(thn, pos + 2));
    ChoiceNode(bytes, pos, ty, At(thn, pos + 2), At(els, mid), At(rest, mid + |b| + 1));
  }

  lemma Opens(bytes: seq<byte>, pos: nat, ty: seq<ValType>, body: Code)
    requires pos + 1 < |bytes| && bytes[pos] == 4 && BlockType(bytes[pos + 1]) == Some(ty) && body.at == pos + 2
    ensures OpensBlock(bytes, pos, 4, ty, body)
  {}

  lemma ArmsHeld(bytes: seq<byte>, pos: nat, ty: seq<ValType>, a: seq<byte>, b: seq<byte>, e: seq<byte>)
    requires |ty| <= 1 && Holds(bytes, pos, [0x04, TypeByte(ty)] + a + [0x05] + b + [0x0b] + e)
    ensures pos + 1 < |bytes| && bytes[pos] == 4 && BlockType(bytes[pos + 1]) == Some(ty)
    ensures var mid := pos + 2 + |a| + 1;
            Holds(bytes, pos + 2, a) && Holds(bytes, mid, b) && Holds(bytes, mid + |b| + 1, e)
            && mid + |b| < |bytes| && bytes[mid - 1] == 0x05 && bytes[mid + |b|] == 0x0b
  {
    hide TypeByte, BlockType, Holds;
    assert [0x04, TypeByte(ty)] + a + [0x05] + b + [0x0b] + e == [0x04, TypeByte(ty)] + a + [0x05] + (b + [0x0b] + e);
    OpenerHeld(bytes, pos, 4, ty, a, 0x05, b + [0x0b] + e);
    var mid := pos + 2 + |a| + 1;
    HoldsParts(bytes, mid, b + [0x0b], e);
    HoldsParts(bytes, mid, b, [0x0b]);
    EndHeld(bytes, mid + |b|);
  }

  lemma EndHeld(bytes: seq<byte>, pos: nat)
    requires Holds(bytes, pos, [0x0b])
    ensures pos < |bytes| && bytes[pos] == 0x0b
  {
    assert [0x0b][0] == 0x0b;
  }

  lemma ChoiceNode(bytes: seq<byte>, pos: nat, ty: seq<ValType>, thn: Code, els: Code, rest: Code)
    requires pos < |bytes| && OpensBlock(bytes, pos, 4, ty, thn)
    requires Terminated(bytes, thn, 0x05, els) && Terminated(bytes, els, 0x0b, rest)
    requires Placed(bytes, thn) && Placed(bytes, els) && Placed(bytes, rest)
    ensures Placed(bytes, IfElse(pos, ty, thn, els, rest)) && IfElse(pos, ty, thn, els, rest).EndAt() == rest.EndAt()
  {
    hide Decode, BlockType;
  }

  /** The matcher recovers every encoded sequence: the same instructions, blocks, types and arms. */
  lemma TreeMatched(t: Tree, bytes: seq<byte>, pos: nat)
    requires EncodableTree(t) && Holds(bytes, pos, EncodeTree(t))
    requires pos + |EncodeTree(t)| < |bytes| && bytes[pos + |EncodeTree(t)|] in {0x05, 0x0b}
    ensures Match(bytes, pos) == Some(At(t, pos))
  {
    hide Match, Placed, EncodeTree, Holds;
    TreePlaced(t, bytes, pos);
    MatchComplete(bytes, At(t, pos));
  }
}
