/**
 The load and store instructions one by one: opcode, operand type, number of bytes and extension, as
 sections 3.3.4 and 4.4.4 of WebAssembly Core 1.0 give them, in terms of the bytes of the memory.
 */
module Accesses {
  import opened Leb
  import opened Wasm
  import opened Machine

  function Part(b: seq<byte>, k: nat): nat { if k < |b| then b[k] else 0 }

  /** The number up to eight bytes stand for, the lowest first. */
  function Number(b: seq<byte>): nat {
    Part(b, 0) + 0x100 * Part(b, 1) + 0x1_0000 * Part(b, 2) + 0x100_0000 * Part(b, 3)
    + 0x1_0000_0000 * Part(b, 4) + 0x100_0000_0000 * Part(b, 5) + 0x1_0000_0000_0000 * Part(b, 6)
    + 0x100_0000_0000_0000 * Part(b, 7)
  }

  /** The k-th byte of a number. */
  function ByteOf(x: nat, k: nat): nat {
    if k == 0 then x % 0x100
    else if k == 1 then x / 0x100 % 0x100
    else if k == 2 then x / 0x1_0000 % 0x100
    else if k == 3 then x / 0x100_0000 % 0x100
    else if k == 4 then x / 0x1_0000_0000 % 0x100
    else if k == 5 then x / 0x100_0000_0000 % 0x100
    else if k == 6 then x / 0x1_0000_0000_0000 % 0x100
    else x / 0x100_0000_0000_0000 % 0x100
  }

  // ---------- loads ----------

  /** In every state the opcode replaces the address on top by the n bytes there, as a number of type
      t, with `fill` added if the sign bit is set; it traps exactly when they are not all inside. */
  ghost predicate LoadsAs(code: byte, n: nat, t: ValType, fill: nat)
    requires 0x28 <= code <= 0x35 && n > 0
  {
    forall s: State, offset: u32 :: TopIs(s, I32) && MemoryOk(s.mem) ==> LoadsOnce(s, offset, code, n, t, fill)
  }

  ghost predicate LoadsOnce(s: State, offset: u32, code: byte, n: nat, t: ValType, fill: nat)
    requires 0x28 <= code <= 0x35 && n > 0 && s.stack != []
  {
    var ea, o := Top(s).bits + offset, ExecLoad(s, code, offset);
    if ea + n > |s.mem.bytes| then o == Trapped(OutOfBounds)
    else
      o.Next? && |o.s.stack| == |s.stack|
      && var v := o.s.stack[|s.stack| - 1];
         o.s == s.(stack := s.stack[..|s.stack| - 1] + [v]) && v.ty == t
         && v.bits == Number(s.mem.bytes[ea..ea + n]) + (if s.mem.bytes[ea + n - 1] >= 0x80 then fill else 0)
  }

  lemma LittleIsNumber(b: seq<byte>)
    requires |b| in {1, 2, 4, 8}
    ensures LittleEndian(b) == Number(b)
    ensures |b| == 1 ==> Number(b) == b[0]
    ensures |b| < 8 ==> Number(b) < Reach(|b|)
    ensures b[|b| - 1] >= 0x80 <==> Number(b) >= Reach(|b|) / 2
    ensures Number(b) < Reach(|b|)
  {
    hide LittleEndian;
    LittleNone();
    if |b| >= 4 {
      LittleFour(b);
      if |b| == 4 { assert b[4..] == []; } else { LittleFour(b[4..]); assert b[4..][4..] == []; }
    } else {
      LittleStep(b);
      if |b| == 2 { LittleStep(b[1..]); assert b[1..][1..] == []; } else { assert b[1..] == []; }
    }
  }

  lemma ReadOnce(m: Memory, ea: nat, code: byte, n: nat, t: ValType, fill: nat)
    requires 0x28 <= code <= 0x35 && Access(code).size == n && Access(code).ty == t && ea + n <= |m.bytes|
    requires fill == if Access(code).signed then Reach(if Wide(t) then 8 else 4) - Reach(n) else 0
    ensures var v := ReadMemory(m, code, ea);
            v.ty == t && v.bits == Number(m.bytes[ea..ea + n]) + (if m.bytes[ea + n - 1] >= 0x80 then fill else 0)
  {
    hide LittleEndian, Number, Access;
    var b := m.bytes[ea..ea + n];
    LittleIsNumber(b);
    assert b[n - 1] == m.bytes[ea + n - 1];
  }

  /** One load, from the size, type and extension the table gives the opcode. */
  lemma LoadOnce(s: State, offset: u32, code: byte, n: nat, t: ValType, fill: nat)
    requires 0x28 <= code <= 0x35 && TopIs(s, I32) && MemoryOk(s.mem)
    requires Access(code).size == n && Access(code).ty == t
    requires fill == if Access(code).signed then Reach(if Wide(t) then 8 else 4) - Reach(n) else 0
    ensures LoadsOnce(s, offset, code, n, t, fill)
  {
    hide Number, Access, ReadMemory;
    var ea := Top(s).bits + offset;
    if ea + n <= |s.mem.bytes| { ReadOnce(s.mem, ea, code, n, t, fill); }
  }

  lemma LoadAlways(code: byte, n: nat, t: ValType, fill: nat)
    requires 0x28 <= code <= 0x35 && Access(code).size == n && Access(code).ty == t
    requires fill == if Access(code).signed then Reach(if Wide(t) then 8 else 4) - Reach(n) else 0
    ensures LoadsAs(code, n, t, fill)
  {
    hide Access, LoadsOnce;
    forall s: State, offset: u32 | TopIs(s, I32) && MemoryOk(s.mem) ensures LoadsOnce(s, offset, code, n, t, fill) {
      LoadOnce(s, offset, code, n, t, fill);
    }
  }

  /** The fourteen loads. */
  lemma Loads()
    ensures LoadsAs(0x28, 4, I32, 0) && LoadsAs(0x29, 8, I64, 0) && LoadsAs(0x2a, 4, F32, 0) && LoadsAs(0x2b, 8, F64, 0)
    ensures LoadsAs(0x2c, 1, I32, 0xffff_ff00) && LoadsAs(0x2d, 1, I32, 0)
    ensures LoadsAs(0x2e, 2, I32, 0xffff_0000) && LoadsAs(0x2f, 2, I32, 0)
    ensures LoadsAs(0x30, 1, I64, 0xffff_ffff_ffff_ff00) && LoadsAs(0x31, 1, I64, 0)
    ensures LoadsAs(0x32, 2, I64, 0xffff_ffff_ffff_0000) && LoadsAs(0x33, 2, I64, 0)
    ensures LoadsAs(0x34, 4, I64, 0xffff_ffff_0000_0000) && LoadsAs(0x35, 4, I64, 0)
  {
    hide LoadsAs;
    LoadAlways(0x28, 4, I32, 0); LoadAlways(0x29, 8, I64, 0); LoadAlways(0x2a, 4, F32, 0); LoadAlways(0x2b, 8, F64, 0);
    LoadAlways(0x2c, 1, I32, 0xffff_ff00); LoadAlways(0x2d, 1, I32, 0);
    LoadAlways(0x2e, 2, I32, 0xffff_0000); LoadAlways(0x2f, 2, I32, 0);
    LoadAlways(0x30, 1, I64, 0xffff_ffff_ffff_ff00); LoadAlways(0x31, 1, I64, 0);
    LoadAlways(0x32, 2, I64, 0xffff_ffff_ffff_0000); LoadAlways(0x33, 2, I64, 0);
    LoadAlways(0x34, 4, I64, 0xffff_ffff_0000_0000); LoadAlways(0x35, 4, I64, 0);
  }

  // ---------- stores ----------

  /** In every state the opcode takes a value of type t and an address off the stack and replaces the n
      bytes there by the lowest of the value; it traps exactly when they are not all inside. */
  ghost predicate StoresAs(code: byte, n: nat, t: ValType)
    requires 0x36 <= code <= 0x3e
  {
    forall s: State, offset: u32, base: seq<Value>, a: Value, v: Value ::
      s.stack == base + [a, v] && a.ty == I32 && v.ty == t && MemoryOk(s.mem)
      ==> StoresOnce(s, offset, base, a, v, code, n)
  }

  ghost predicate StoresOnce(s: State, offset: u32, base: seq<Value>, a: Value, v: Value, code: byte, n: nat)
    requires 0x36 <= code <= 0x3e && a.ty == I32
  {
    var ea, o := a.bits + offset, ExecStore(s, code, offset);
    if ea + n > |s.mem.bytes| then o == Trapped(OutOfBounds)
    else
      o.Next? && |o.s.mem.bytes| == |s.mem.bytes|
      && o.s == s.(stack := base, mem := s.mem.(bytes := o.s.mem.bytes))
      && forall j :: 0 <= j < |s.mem.bytes| ==>
           o.s.mem.bytes[j] == if ea <= j < ea + n then ByteOf(v.bits, j - ea) else s.mem.bytes[j]
  }

  lemma LowStep(x: nat, n: nat)
    requires n > 0
    ensures LowBytes(x, n) == [x % 256] + LowBytes(x / 256, n - 1)
  {}

  lemma LowIsBytes(x: nat, n: nat, k: nat)
    requires n in {1, 2, 4, 8} && k < n
    ensures LowBytes(x, n)[k] == ByteOf(x, k)
  {
    hide LowBytes;
    LowDigit(x, n, k);
    Shifted(x, k);
  }

  /** x / 256^k % 256 */
  function Digit(x: nat, k: nat): byte
    decreases k
  {
    if k == 0 then x % 256 else Digit(x / 256, k - 1)
  }

  lemma {:induction false} LowDigit(x: nat, n: nat, k: nat)
    requires k < n
    ensures LowBytes(x, n)[k] == Digit(x, k)
    decreases k
  {
    LowStep(x, n);
    if k > 0 { LowDigit(x / 256, n - 1, k - 1); }
  }

  lemma Shifted(x: nat, k: nat)
    requires k < 8
    ensures Digit(x, k) == ByteOf(x, k)
  {
    var d1 := x / 0x100;
    var d2, d3 := d1 / 0x100, d1 / 0x100 / 0x100;
    var d4, d5 := d3 / 0x100, d3 / 0x100 / 0x100;
    var d6, d7 := d5 / 0x100, d5 / 0x100 / 0x100;
    assert d2 == x / 0x1_0000 && d3 == x / 0x100_0000 && d4 == x / 0x1_0000_0000;
    assert d5 == x / 0x100_0000_0000 && d6 == x / 0x1_0000_0000_0000 && d7 == x / 0x100_0000_0000_0000;
    if k == 0 { DigitStep(x, 0); }
    DigitStep(x, k);
    if k > 1 { DigitStep(d1, k - 1); }
    if k > 2 { DigitStep(d2, k - 2); }
    if k > 3 { DigitStep(d3, k - 3); }
    if k > 4 { DigitStep(d4, k - 4); }
    if k > 5 { DigitStep(d5, k - 5); }
    if k > 6 { DigitStep(d6, k - 6); }
  }

  lemma DigitStep(x: nat, k: nat)
    ensures Digit(x, k) == if k == 0 then x % 256 else Digit(x / 256, k - 1)
  {}

  lemma StoreOnce(s: State, offset: u32, base: seq<Value>, a: Value, v: Value, code: byte, n: nat)
    requires 0x36 <= code <= 0x3e && s.stack == base + [a, v] && a.ty == I32 && MemoryOk(s.mem)
    requires Access(code).size == n && Access(code).ty == v.ty
    ensures StoresOnce(s, offset, base, a, v, code, n)
  {
    hide Access, LowBytes, ByteOf;
    assert Pop(s).stack == base + [a] && Pop(Pop(s)).stack == base;
    var ea := a.bits + offset;
    if ea + n <= |s.mem.bytes| {
      var b := WriteMemory(s.mem, code, ea, v.bits).bytes;
      forall j | 0 <= j < |b| ensures b[j] == if ea <= j < ea + n then ByteOf(v.bits, j - ea) else s.mem.bytes[j] {
        if ea <= j < ea + n { LowIsBytes(v.bits, n, j - ea); }
      }
    }
  }

  lemma StoreAlways(code: byte, n: nat, t: ValType)
    requires 0x36 <= code <= 0x3e && Access(code).size == n && Access(code).ty == t
    ensures StoresAs(code, n, t)
  {
    hide Access, StoresOnce;
    forall s: State, offset: u32, base: seq<Value>, a: Value, v: Value |
      s.stack == base + [a, v] && a.ty == I32 && v.ty == t && MemoryOk(s.mem)
      ensures StoresOnce(s, offset, base, a, v, code, n)
    {
      StoreOnce(s, offset, base, a, v, code, n);
    }
  }

  /** The nine stores. */
  lemma Stores()
    ensures StoresAs(0x36, 4, I32) && StoresAs(0x37, 8, I64) && StoresAs(0x38, 4, F32) && StoresAs(0x39, 8, F64)
    ensures StoresAs(0x3a, 1, I32) && StoresAs(0x3b, 2, I32)
    ensures StoresAs(0x3c, 1, I64) && StoresAs(0x3d, 2, I64) && StoresAs(0x3e, 4, I64)
  {
    hide StoresAs;
    StoreAlways(0x36, 4, I32); StoreAlways(0x37, 8, I64); StoreAlways(0x38, 4, F32); StoreAlways(0x39, 8, F64);
    StoreAlways(0x3a, 1, I32); StoreAlways(0x3b, 2, I32);
    StoreAlways(0x3c, 1, I64); StoreAlways(0x3d, 2, I64); StoreAlways(0x3e, 4, I64);
  }
}
