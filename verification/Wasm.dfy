/**
 The vocabulary the interpreter and the standard share: values, instructions, linear memory,
 and the numeric signature table of section 3.3 of WebAssembly Core 1.0.
 */
module Wasm {
  import opened Leb

  datatype ValType = I32 | I64 | F32 | F64

  /** The binary format of a value type, section 5.3.1 of the standard. */
  function TagOf(t: ValType): byte {
    match t case I32 => 0x7f case I64 => 0x7e case F32 => 0x7d case F64 => 0x7c
  }

  predicate Wide(t: ValType) { t == I64 || t == F64 }

  /** The low bits a type keeps. */
  function Cut(t: ValType, bits: u64): u64 { if Wide(t) then bits else bits % 0x1_0000_0000 }

  /** A typed value; floats are carried as their bit patterns. */
  datatype Tagged = Tagged(ty: ValType, bits: u64)

  type Value = v: Tagged | Wide(v.ty) || v.bits < 0x1_0000_0000 witness Tagged(I32, 0)

  function MkValue(t: ValType, bits: u64): (v: Value)
    ensures v.ty == t && (Wide(t) || bits < 0x1_0000_0000 ==> v.bits == bits)
  {
    Tagged(t, Cut(t, bits))
  }

  function Zero(t: ValType): Value { Tagged(t, 0) }

  function ZerosOf(ts: seq<ValType>): (vs: seq<Value>)
    ensures |vs| == |ts|
  {
    seq(|ts|, i requires 0 <= i < |ts| => Zero(ts[i]))
  }

  function TypesOf(vs: seq<Value>): (ts: seq<ValType>)
    ensures |ts| == |vs|
    ensures forall i :: 0 <= i < |vs| ==> ts[i] == vs[i].ty
  {
    seq(|vs|, i requires 0 <= i < |vs| => vs[i].ty)
  }

  datatype FuncType = FuncType(params: seq<ValType>, results: seq<ValType>)

  datatype Exception =
    | Unreachable
    | CallSignatureMismatch
    | UndefinedElement
    | IndirectSignatureMismatch
    | OutOfBounds
    | DivideByZero
    | IntegerOverflow
    | Conversion
    | UnrecognizedOpcode

  /** One instruction with its immediates. Enter stands for block (2), loop (3) and if (4). */
  datatype Op =
    | Trap
    | Nop
    | Enter(kind: byte)
    | Else
    | End
    | Br(depth: u32)
    | BrIf(depth: u32)
    | BrTable(targets: seq<u32>, default: u32)
    | Return
    | Call(f: u32)
    | CallIndirect(t: u32)
    | Drop
    | Select
    | GetLocal(i: u32)
    | SetLocal(i: u32)
    | TeeLocal(i: u32)
    | GetGlobal(i: u32)
    | SetGlobal(i: u32)
    | Load(code: byte, offset: u32)
    | Store(code: byte, offset: u32)
    | CurrentMemory
    | GrowMemory
    | Const(v: Value)
    | Num(code: byte)
    | Unknown(code: byte)

  // ---------- numeric instructions ----------

  /** Signature of a numeric instruction: arity operands of type arg, one result. */
  datatype Sig = Sig(arity: nat, arg: ValType, res: ValType)

  predicate IsNum(code: byte) { 0x45 <= code <= 0xbf }

  /** The typing rules of section 3.3.1 of WebAssembly Core 1.0, by opcode. */
  function NumSig(code: byte): Sig
    requires IsNum(code)
  {
    if code == 0x45 then Sig(1, I32, I32)
    else if code <= 0x4f then Sig(2, I32, I32)
    else if code == 0x50 then Sig(1, I64, I32)
    else if code <= 0x5a then Sig(2, I64, I32)
    else if code <= 0x60 then Sig(2, F32, I32)
    else if code <= 0x66 then Sig(2, F64, I32)
    else if code <= 0x69 then Sig(1, I32, I32)
    else if code <= 0x78 then Sig(2, I32, I32)
    else if code <= 0x7b then Sig(1, I64, I64)
    else if code <= 0x8a then Sig(2, I64, I64)
    else if code <= 0x91 then Sig(1, F32, F32)
    else if code <= 0x98 then Sig(2, F32, F32)
    else if code <= 0x9f then Sig(1, F64, F64)
    else if code <= 0xa6 then Sig(2, F64, F64)
    else if code == 0xa7 then Sig(1, I64, I32)
    else if code <= 0xa9 then Sig(1, F32, I32)
    else if code <= 0xab then Sig(1, F64, I32)
    else if code <= 0xad then Sig(1, I32, I64)
    else if code <= 0xaf then Sig(1, F32, I64)
    else if code <= 0xb1 then Sig(1, F64, I64)
    else if code <= 0xb3 then Sig(1, I32, F32)
    else if code <= 0xb5 then Sig(1, I64, F32)
    else if code == 0xb6 then Sig(1, F64, F32)
    else if code <= 0xb8 then Sig(1, I32, F64)
    else if code <= 0xba then Sig(1, I64, F64)
    else if code == 0xbb then Sig(1, F32, F64)
    else if code == 0xbc then Sig(1, F32, I32)
    else if code == 0xbd then Sig(1, F64, I64)
    else if code == 0xbe then Sig(1, I32, F32)
    else Sig(1, I64, F64)
  }

  /** The floating point unit: the bits an opcode yields for its operands' bits. */
  type Alu = (byte, seq<u64>) -> u64

  /** The operands of a numeric instruction. */
  predicate NumArgs(code: byte, args: seq<Value>)
    requires IsNum(code)
  {
    |args| == NumSig(code).arity && forall i :: 0 <= i < |args| ==> args[i].ty == NumSig(code).arg
  }

  function BitsOf(vs: seq<Value>): (bs: seq<u64>)
    ensures |bs| == |vs|
  {
    seq(|vs|, i requires 0 <= i < |vs| => vs[i].bits)
  }

  // ---------- linear memory ----------

  datatype Memory = Memory(pages: nat, max: nat, bytes: seq<byte>)

  /** A memory as validation leaves it: the source caps the maximum at 2 GB. */
  ghost predicate MemoryOk(m: Memory) {
    m.pages <= m.max <= 0x8000 && |m.bytes| == m.pages * 0x1_0000
  }

  datatype Width = Width(size: nat, ty: ValType, signed: bool)

  /** Bytes moved, operand type and signedness of the load and store opcodes. */
  function Access(code: byte): (w: Width)
    requires 0x28 <= code <= 0x3e
    ensures w.size in {1, 2, 4, 8} && (!Wide(w.ty) ==> w.size <= 4)
  {
    if code == 0x28 then Width(4, I32, false)
    else if code == 0x29 then Width(8, I64, false)
    else if code == 0x2a then Width(4, F32, false)
    else if code == 0x2b then Width(8, F64, false)
    else if code == 0x2c then Width(1, I32, true)
    else if code == 0x2d then Width(1, I32, false)
    else if code == 0x2e then Width(2, I32, true)
    else if code == 0x2f then Width(2, I32, false)
    else if code == 0x30 then Width(1, I64, true)
    else if code == 0x31 then Width(1, I64, false)
    else if code == 0x32 then Width(2, I64, true)
    else if code == 0x33 then Width(2, I64, false)
    else if code == 0x34 then Width(4, I64, true)
    else if code == 0x35 then Width(4, I64, false)
    else if code == 0x36 then Width(4, I32, false)
    else if code == 0x37 then Width(8, I64, false)
    else if code == 0x38 then Width(4, F32, false)
    else if code == 0x39 then Width(8, F64, false)
    else if code == 0x3a then Width(1, I32, false)
    else if code == 0x3b then Width(2, I32, false)
    else if code == 0x3c then Width(1, I64, false)
    else if code == 0x3d then Width(2, I64, false)
    else Width(4, I64, false)
  }

  /** 256^n, spelled out for the four sizes memory is accessed in. */
  function Reach(n: nat): (r: nat)
    requires n in {1, 2, 4, 8}
  {
    if n == 1 then 0x100 else if n == 2 then 0x1_0000
    else if n == 4 then 0x1_0000_0000 else 0x1_0000_0000_0000_0000
  }

  /** Two's complement reading of x modulo m. */
  function TwosComplement(x: nat, m: nat): int { if 2 * x < m then x else x - m }

  function LittleEndian(b: seq<byte>): nat {
    if b == [] then 0 else b[0] + 256 * LittleEndian(b[1..])
  }

  lemma LittleFour(s: seq<byte>)
    requires |s| >= 4
    ensures var d: seq<int> := s;
            LittleEndian(s)
            == d[0] + 0x100 * d[1] + 0x1_0000 * d[2] + 0x100_0000 * d[3] + 0x1_0000_0000 * LittleEndian(s[4..])
  {
    hide LittleEndian;
    assert s[1..][1..] == s[2..] && s[2..][1..] == s[3..] && s[3..][1..] == s[4..];
    LittleStep(s);
    LittleStep(s[1..]);
    LittleStep(s[2..]);
    LittleStep(s[3..]);
  }

  lemma LittleStep(s: seq<byte>)
    requires s != []
    ensures LittleEndian(s) == s[0] + 256 * LittleEndian(s[1..])
  {}

  lemma LittleNone()
    ensures LittleEndian([]) == 0
  {}

  function LowBytes(v: nat, n: nat): (b: seq<byte>)
    ensures |b| == n
  {
    if n == 0 then [] else [v % 256] + LowBytes(v / 256, n - 1)
  }

  /** The sext_* helpers: or-ing ones above bit 8*size-1 of a value below 256^size adds them. */
  function Extend(w: Width, v: nat): (r: nat)
    requires w.size in {1, 2, 4, 8}
  {
    var top := if Wide(w.ty) then 0x1_0000_0000_0000_0000 else 0x1_0000_0000;
    if w.signed && Reach(w.size) <= top && v >= Reach(w.size) / 2 then v + (top - Reach(w.size)) else v
  }

  function ReadMemory(m: Memory, code: byte, ea: nat): (v: Value)
    requires 0x28 <= code <= 0x35 && ea + Access(code).size <= |m.bytes|
    ensures v.ty == Access(code).ty
  {
    var w := Access(code);
    MkValue(w.ty, Extend(w, LittleEndian(m.bytes[ea..ea + w.size])) % 0x1_0000_0000_0000_0000)
  }

  function WriteMemory(m: Memory, code: byte, ea: nat, bits: u64): (m': Memory)
    requires 0x36 <= code <= 0x3e && ea + Access(code).size <= |m.bytes|
    ensures m'.pages == m.pages && m'.max == m.max && |m'.bytes| == |m.bytes|
  {
    var n := Access(code).size;
    m.(bytes := m.bytes[..ea] + LowBytes(bits, n) + m.bytes[ea + n..])
  }

  function Zeros(n: nat): (z: seq<byte>)
    ensures |z| == n
  {
    seq(n, _ => 0)
  }
}
