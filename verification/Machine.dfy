/**
 The interpreter of wa.cpp as a step function on values. The operand stack and the callstack
 are sequences without a capacity; Undefined marks the states in which the C program reads
 outside its arrays, misreads a union, or executes undefined behaviour.
 */
module Machine {
  import opened Leb
  import opened Wasm
  import opened Bytecode
  import opened Structure
  import opened Blocks
  import opened Integers
  import opened Numerics
  import opened Thunks

  datatype Frame = Frame(block: BlockRec, sp: int, fp: int, ra: nat)

  datatype State = State(
    pc: nat, stack: seq<Value>, fp: int, frames: seq<Frame>, globals: seq<Value>, mem: Memory)

  /** What a loaded module keeps fixed while it runs. */
  datatype Program = Program(
    bytes: seq<byte>, imports: nat, funcs: seq<BlockRec>, lookup: Lookup,
    table: seq<u32>, tableMax: nat, alu: Alu, host: Host)

  datatype Outcome =
    | Next(s: State)
    | Halt(s: State)
    | Trapped(e: Exception)
    | Undefined

  /** What the machine does where it leaves the standard: it raises an exception or is undefined. */
  function Stray(trap: Option<Exception>): Outcome { if trap.None? then Undefined else Trapped(trap.value) }

  // ---------- blocks and calls ----------

  function PushBlock(s: State, b: BlockRec, sp: int): State {
    s.(frames := s.frames + [Frame(b, sp, s.fp, s.pc)])
  }

  /** The stack pop_block leaves: everything above the frame's sp is dropped, except that a
      block with a result keeps the top value. Nothing happens unless sp is below the top. */
  function Unwound(stack: seq<Value>, sp: int, arity: nat): (r: seq<Value>)
    requires -1 <= sp && (arity == 1 ==> |stack| > 0)
  {
    if sp + 1 >= |stack| then stack
    else if arity == 1 then stack[..sp + 1] + [stack[|stack| - 1]]
    else stack[..sp + 1]
  }

  function PopBlock(s: State): Outcome
    requires s.frames != []
  {
    var frame := s.frames[|s.frames| - 1];
    var results := frame.block.ty.results;
    if frame.sp < -1 || (|results| == 1 && s.stack == []) then Undefined
    else if |results| == 1 && s.stack[|s.stack| - 1].ty != results[0] then Trapped(CallSignatureMismatch)
    else Next(s.(
      frames := s.frames[..|s.frames| - 1],
      fp := frame.fp,
      stack := Unwound(s.stack, frame.sp, |results|),
      pc := if frame.block.kind == 0 then frame.ra else s.pc))
  }

  function SetupCall(s: State, f: BlockRec): Outcome {
    var base := |s.stack| - |f.ty.params|;
    if base < 0 then Undefined
    else
      var s1 := PushBlock(s, f, base - 1);
      Next(s1.(fp := base, stack := s.stack + ZerosOf(f.locals), pc := f.start))
  }

  /** thunk_out: an unsupported mask is reported and then ignored. */
  function ThunkOut(p: Program, s: State, f: nat): Outcome
    requires f < |p.funcs|
  {
    match ThunkFor(ThunkMask(p.funcs[f].ty))
    case None => Next(s)
    case Some(ty) =>
      var base := |s.stack| - |ty.params|;
      if base < 0 || TypesOf(s.stack[base..]) != ty.params then Undefined
      else Next(s.(stack := s.stack[..base] + HostResults(p.host, f, ty, s.stack[base..])))
  }

  function CallTo(p: Program, s: State, f: nat): Outcome {
    if f >= |p.funcs| then Undefined
    else if f < p.imports then ThunkOut(p, s, f)
    else SetupCall(s, p.funcs[f])
  }

  /** The tag comparison of call_indirect, made after the call has been set up. */
  function CheckIndirect(p: Program, o: Outcome, f: nat): Outcome {
    if !o.Next? || f < p.imports || f >= |p.funcs| then o
    else
      var params := p.funcs[f].ty.params;
      if o.s.fp < 0 || o.s.fp + |params| > |o.s.stack| then Undefined
      else if TypesOf(o.s.stack[o.s.fp..o.s.fp + |params|]) != params then Trapped(IndirectSignatureMismatch)
      else o
  }

  // ---------- control flow ----------

  predicate TopIs(s: State, t: ValType) { s.stack != [] && s.stack[|s.stack| - 1].ty == t }

  function Top(s: State): Value
    requires s.stack != []
  {
    s.stack[|s.stack| - 1]
  }

  function Pop(s: State): State
    requires s.stack != []
  {
    s.(stack := s.stack[..|s.stack| - 1])
  }

  function Push(s: State, v: Value): State { s.(stack := s.stack + [v]) }

  function EnterBlock(p: Program, at: nat, kind: byte, s: State): Outcome {
    if at !in p.lookup then Undefined
    else
      var b := p.lookup[at];
      var s1 := PushBlock(s, b, |s.stack| - 1);
      if kind != 4 then Next(s1)
      else if !TopIs(s, I32) then Undefined
      else if Top(s).bits != 0 then Next(Pop(s1))
      else if b.els == 0 then Next(Pop(s).(pc := b.br + 1))
      else Next(Pop(s1).(pc := b.els))
  }

  function ExecElse(s: State): Outcome {
    if s.frames == [] then Undefined else Next(s.(pc := s.frames[|s.frames| - 1].block.br))
  }

  function ExecEnd(s: State): Outcome {
    if s.frames == [] then Undefined
    else
      var kind := s.frames[|s.frames| - 1].block.kind;
      match PopBlock(s)
      case Next(s') => if kind == 1 || (kind == 0 && s'.frames == []) then Halt(s') else Next(s')
      case o => o
  }

  function Branch(s: State, depth: nat): Outcome {
    if depth >= |s.frames| then Undefined
    else
      var rest := s.frames[..|s.frames| - depth];
      Next(s.(frames := rest, pc := rest[|rest| - 1].block.br))
  }

  /** `int32_t didx`: an index of 2^31 or more is negative and takes the default. */
  function Pick(targets: seq<u32>, default: u32, i: u32): u32 {
    if i < 0x8000_0000 && i < |targets| then targets[i] else default
  }

  /** Number of frames up to and including the innermost function frame. */
  function Unwind(frames: seq<Frame>): (n: nat)
    ensures n <= |frames|
  {
    if frames == [] then 0
    else if frames[|frames| - 1].block.kind == 0 then |frames|
    else Unwind(frames[..|frames| - 1])
  }

  function ExecReturn(s: State): Outcome {
    var n := Unwind(s.frames);
    if n == 0 then Undefined
    else Next(s.(frames := s.frames[..n], pc := s.frames[0].block.end))
  }

  // ---------- everything else ----------

  function Conditional(s: State, taken: Outcome): Outcome
    requires s.stack != []
  {
    if Top(s).bits != 0 then taken else Next(Pop(s))
  }

  function ExecSelect(s: State): Outcome {
    var n := |s.stack|;
    if n < 3 || !TopIs(s, I32) then Undefined
    else Next(s.(stack := s.stack[..n - 3] + [if Top(s).bits == 0 then s.stack[n - 2] else s.stack[n - 3]]))
  }

  function SetLocalAt(s: State, i: u32, pop: bool): Outcome {
    var k := s.fp + i;
    if s.stack == [] || k < 0 || k >= |s.stack| then Undefined
    else
      var s1 := s.(stack := s.stack[k := Top(s)]);
      Next(if pop then Pop(s1) else s1)
  }

  /** The bounds check of the load and store opcodes: mem_end is computed with a 32-bit product
      and the sum of address and offset must not wrap. */
  predicate InBounds(m: Memory, addr: u32, offset: u32, size: nat) {
    addr + offset < 0x1_0000_0000 && addr + offset + size <= m.pages * 0x1_0000 % 0x1_0000_0000
  }

  function ExecLoad(s: State, code: byte, offset: u32): Outcome
    requires 0x28 <= code <= 0x35
  {
    if !TopIs(s, I32) then Undefined
    else
      var addr, n := Top(s).bits, Access(code).size;
      if !InBounds(s.mem, addr, offset, n) then Trapped(OutOfBounds)
      else if addr + offset + n > |s.mem.bytes| then Undefined
      else Next(Push(Pop(s), ReadMemory(s.mem, code, addr + offset)))
  }

  function ExecStore(s: State, code: byte, offset: u32): Outcome
    requires 0x36 <= code <= 0x3e
  {
    if !TopIs(s, Access(code).ty) then Undefined
    else
      var s1, n := Pop(s), Access(code).size;
      if !TopIs(s1, I32) then Undefined
      else
        var addr := Top(s1).bits;
        if !InBounds(s.mem, addr, offset, n) then Trapped(OutOfBounds)
        else if addr + offset + n > |s.mem.bytes| then Undefined
        else Next(Pop(s1).(mem := WriteMemory(s.mem, code, addr + offset, Top(s).bits)))
  }

  /** The memory the program sees after it has grown: MemoryLaws.GrowStep derives the cleared pages
      from the buffer arecalloc works on. */
  function Grown(m: Memory, delta: nat): Memory {
    Memory(m.pages + delta, m.max, m.bytes + Zeros(delta * 0x1_0000))
  }

  /** grow_memory: memory and result. The sum is a uint32: when it wraps, the check can pass
      although the size shrinks, and arecalloc then clears a range of negative length (None). */
  function GrowBy(m: Memory, delta: u32): Option<(Memory, u32)>
    requires m.pages < 0x1_0000_0000
  {
    if delta == 0 then Some((m, m.pages))
    else if (delta + m.pages) % 0x1_0000_0000 > m.max then Some((m, 0xffff_ffff))
    else if delta + m.pages >= 0x1_0000_0000 then None
    else Some((Grown(m, delta), m.pages))
  }

  function ExecGrow(s: State): Outcome {
    if !TopIs(s, I32) || s.mem.pages >= 0x1_0000_0000 then Undefined
    else match GrowBy(s.mem, Top(s).bits)
         case None => Undefined
         case Some((m, r)) => Next(Push(Pop(s), MkValue(I32, r)).(mem := m))
  }

  function ExecNum(p: Program, s: State, code: byte): Outcome
    requires IsNum(code)
  {
    var base := |s.stack| - NumSig(code).arity;
    if base < 0 || !NumArgs(code, s.stack[base..]) then Undefined
    else
      match SwitchNum(p.alu, code, s.stack[base..])
      case NoValue => Undefined
      case Traps(e) => Trapped(e)
      case Gives(r) => Next(s.(stack := s.stack[..base] + [MkValue(NumSig(code).res, r)]))
  }

  /** One turn of the interpreter loop, after the operands have been read: s.pc is already the
      address of the following instruction. */
  function Exec(p: Program, at: nat, op: Op, s: State): Outcome {
    match op
    case Trap => Trapped(Unreachable)
    case Nop => Next(s)
    case Enter(kind) => EnterBlock(p, at, kind, s)
    case Else => ExecElse(s)
    case End => ExecEnd(s)
    case Br(d) => Branch(s, d)
    case BrIf(d) => if !TopIs(s, I32) then Undefined else Conditional(s, Branch(Pop(s), d))
    case BrTable(ts, d) =>
      if !TopIs(s, I32) then Undefined
      else Branch(Pop(s), Pick(ts, d, Top(s).bits))
    case Return => ExecReturn(s)
    case Call(f) => CallTo(p, s, f)
    case CallIndirect(_) =>
      if !TopIs(s, I32) then Undefined
      else
        var i := Top(s).bits;
        if i >= p.tableMax then Trapped(UndefinedElement)
        else if i >= |p.table| then Undefined
        else CheckIndirect(p, CallTo(p, Pop(s), p.table[i]), p.table[i])
    case Drop => if s.stack == [] then Undefined else Next(Pop(s))
    case Select => ExecSelect(s)
    case GetLocal(i) =>
      if s.fp + i < 0 || s.fp + i >= |s.stack| then Undefined else Next(Push(s, s.stack[s.fp + i]))
    case SetLocal(i) => SetLocalAt(s, i, true)
    case TeeLocal(i) => SetLocalAt(s, i, false)
    case GetGlobal(i) => if i >= |s.globals| then Undefined else Next(Push(s, s.globals[i]))
    case SetGlobal(i) =>
      if i >= |s.globals| || s.stack == [] then Undefined
      else Next(Pop(s).(globals := s.globals[i := Top(s)]))
    case Load(code, offset) => if 0x28 <= code <= 0x35 then ExecLoad(s, code, offset) else Undefined
    case Store(code, offset) => if 0x36 <= code <= 0x3e then ExecStore(s, code, offset) else Undefined
    case CurrentMemory => if s.mem.pages >= 0x1_0000_0000 then Undefined else Next(Push(s, MkValue(I32, s.mem.pages)))
    case GrowMemory => ExecGrow(s)
    case Const(v) => Next(Push(s, v))
    case Num(code) => if IsNum(code) then ExecNum(p, s, code) else Undefined
    case Unknown(_) => Trapped(UnrecognizedOpcode)
  }

  function Step(p: Program, s: State): Outcome {
    if s.pc >= |p.bytes| then Undefined
    else
      match Decode(p.bytes, s.pc)
      case None => Undefined
      case Some(f) => Exec(p, s.pc, f.op, s.(pc := f.next))
  }

  /** At most k turns of the loop. */
  function Run(p: Program, s: State, k: nat): Outcome
    decreases k
  {
    if k == 0 then Next(s)
    else match Step(p, s)
         case Next(s') => Run(p, s', k - 1)
         case o => o
  }

  lemma {:induction false} RunAdd(p: Program, s: State, i: nat, j: nat)
    ensures Run(p, s, i + j) == (var o := Run(p, s, i); if o.Next? then Run(p, o.s, j) else o)
    decreases i
  {
    hide Step;
    if i > 0 && Step(p, s).Next? { RunAdd(p, Step(p, s).s, i - 1, j); }
  }

  lemma RunOne(p: Program, s: State)
    ensures Run(p, s, 1) == Step(p, s)
  {
    hide Step;
    if Step(p, s).Next? { assert Run(p, Step(p, s).s, 0) == Next(Step(p, s).s); }
  }
}
