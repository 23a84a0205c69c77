/**
 The interpreter in the source's own form: a module object whose fields and arrays the
 operations update in place. Stack slots are tagged unions; writing 32 bits leaves the upper
 half of the union as it was. Each operation is proved against the step function on values.
 */
module Interpreter {
  import opened Leb
  import opened Wasm
  import opened Integers
  import opened Numerics
  import opened Conversions
  import opened Bytecode
  import opened Blocks
  import opened Thunks
  import opened Machine
  import MemoryLaws

  /** struct StackValue: the union as its two 32-bit halves. */
  datatype Cell = Cell(ty: ValType, lo: u32, hi: u32) {
    function U64(): u64 { lo + 0x1_0000_0000 * hi }

    /** value.uint32 = v */
    function Set32(v: u32): Cell { this.(lo := v) }

    /** value.uint64 = v */
    function Set64(v: u64): Cell { this.(lo := v % 0x1_0000_0000, hi := v / 0x1_0000_0000) }
  }

  /** The value a slot holds: the member its tag selects. */
  function View(c: Cell): (v: Value)
    ensures v.ty == c.ty
  {
    Tagged(c.ty, if Wide(c.ty) then c.U64() else c.lo)
  }

  datatype Status = Running | Finished | Raised(e: Exception)

  /** The status and abstract state a step outcome stands for. */
  ghost predicate Reports(o: Outcome, st: Status, s: State) {
    match o
    case Next(s') => st == Running && s == s'
    case Halt(s') => st == Finished && s == s'
    case Trapped(e) => st == Raised(e)
    case Undefined => true
  }

  // ---------- numeric opcodes: what the switch reads and writes ----------

  /** The opcode's case reads its operands as uint64 or f64. */
  predicate ReadsWide(code: byte) {
    0x50 <= code <= 0x5a || 0x61 <= code <= 0x66 || 0x79 <= code <= 0x8a || 0x99 <= code <= 0xa7
    || 0xaa <= code <= 0xab || 0xb0 <= code <= 0xb1 || 0xb4 <= code <= 0xb6 || 0xb9 <= code <= 0xba || code == 0xbd
    || code == 0xbf
  }

  /** The opcode's case writes uint64, int64 or f64. */
  predicate WritesWide(code: byte) {
    0x79 <= code <= 0x8a || 0x99 <= code <= 0xa7 || 0xac <= code <= 0xb1 || 0xb7 <= code <= 0xbb
    || code == 0xbd || code == 0xbf
  }

  /** The tag the opcode's case assigns; None where it leaves the slot's tag alone. */
  function TagWritten(code: byte): Option<ValType> {
    if 0x46 <= code <= 0x66 || 0xa7 <= code <= 0xab || code == 0xbc then Some(I32)
    else if 0xac <= code <= 0xb1 || code == 0xbd then Some(I64)
    else if 0xb2 <= code <= 0xb6 || code == 0xbe then Some(F32)
    else if 0xb7 <= code <= 0xbb || code == 0xbf then Some(F64)
    else None
  }

  /** The interpreter's reads, writes and tags agree with the typing rules for every opcode:
      a case that leaves the tag alone has a result of its operands' type. */
  lemma TagsMatchSignatures(code: byte)
    requires IsNum(code)
    ensures ReadsWide(code) == Wide(NumSig(code).arg)
    ensures WritesWide(code) == Wide(NumSig(code).res) || code == 0xa7
    ensures NumSig(code).res == if TagWritten(code).Some? then TagWritten(code).value else NumSig(code).arg
  {}

  /** Number of operands, as the decrement of sp shows. */
  predicate IsBinary(code: byte) {
    0x46 <= code <= 0x4f || 0x51 <= code <= 0x66 || 0x6a <= code <= 0x78 || 0x7c <= code <= 0x8a
    || 0x92 <= code <= 0x98 || 0xa0 <= code <= 0xa6
  }

  lemma ArityMatches(code: byte)
    requires IsNum(code)
    ensures NumSig(code).arity == if IsBinary(code) then 2 else 1
  {}

  /** The slot after the case has run on it with the given result bits. */
  function Written(code: byte, c: Cell, r: u64): Cell
    requires IsNum(code)
  {
    var c1 := if code >= 0xbc then c
              else if code == 0xa7 then c.(hi := 0)
              else if WritesWide(code) then c.Set64(r) else c.Set32(r % 0x1_0000_0000);
    if TagWritten(code).Some? then c1.(ty := TagWritten(code).value) else c1
  }

  function ReadBits(code: byte, c: Cell): u64 { if ReadsWide(code) then c.U64() else c.lo }

  /** The slot written shows the value the step function pushes. */
  lemma WrittenShows(code: byte, c: Cell, r: u64)
    requires IsNum(code) && c.ty == NumSig(code).arg
    ensures View(c).bits == ReadBits(code, c)
    ensures View(Written(code, c, r)) ==
            MkValue(NumSig(code).res, if code >= 0xbc || code == 0xa7 then ReadBits(code, c) else r)
  {
    hide NumSig;
    TagsMatchSignatures(code);
    Halves(c, r);
  }

  lemma Halves(c: Cell, r: u64)
    ensures c.Set64(r).U64() == r
  {}

  lemma OneAtLeast(code: byte)
    requires IsNum(code)
    ensures NumSig(code).arity > 0
  {}

  // ---------- the module object ----------

  class Module {
    const prog: Program
    const stack: array<Cell>
    const callstack: array<Frame>
    const globals: array<Cell>
    var pc: nat
    var sp: int
    var fp: int
    var csp: int
    var pages: nat
    const maximum: nat
    var bytes: array<byte>

    /** The arrays are separate, the stack pointers stay inside them, and nothing has been written
        to the memory's buffer behind its last page. */
    ghost predicate Valid()
      reads this, bytes
    {
      -1 <= sp < stack.Length && -1 <= csp < callstack.Length && stack != globals
      && MemoryLaws.SlackClear(bytes[..], pages)
    }

    /** Room for one more operand and frame, and for the locals of any function: what the
        source never checks. */
    ghost predicate Room()
      reads this
    {
      sp + 1 < stack.Length && csp + 1 < callstack.Length
      && forall f :: 0 <= f < |prog.funcs| ==> sp + |prog.funcs[f].locals| < stack.Length
    }

    ghost function Shown(cells: seq<Cell>): (vs: seq<Value>)
      ensures |vs| == |cells| && forall i :: 0 <= i < |cells| ==> vs[i] == View(cells[i])
    {
      seq(|cells|, i requires 0 <= i < |cells| => View(cells[i]))
    }

    /** The abstract state. */
    ghost function Abs(): (s: State)
      reads this, stack, callstack, globals, bytes
      requires Valid()
    {
      State(pc, Shown(stack[..sp + 1]), fp, callstack[..csp + 1], Shown(globals[..]), Mem())
    }

    /** The memory the program sees. */
    ghost function Mem(): Memory
      reads this, bytes
      requires Valid()
    {
      Memory(pages, maximum, bytes[..pages * 0x1_0000])
    }

    constructor (p: Program, size: nat, depth: nat, gs: seq<Cell>, pageCount: nat, max: nat, image: seq<byte>)
      requires |image| == pageCount * 0x1_0000
      ensures Valid() && prog == p && stack.Length == size && callstack.Length == depth
      ensures Abs().stack == [] && Abs().frames == [] && Abs().globals == Shown(gs)
      ensures Abs().mem == Memory(pageCount, max, image)
      ensures fresh(this) && fresh(stack) && fresh(callstack) && fresh(globals) && fresh(bytes)
    {
      prog := p;
      var noCell := Cell(I32, 0, 0);
      stack := new Cell[size](_ => noCell);
      callstack := new Frame[depth](_ => Frame(BlockRec(0, FuncType([], []), [], 0, 0, 0, 0), 0, 0, 0));
      globals := new Cell[|gs|](i requires 0 <= i < |gs| => gs[i]);
      pc, sp, fp, csp := 0, -1, -1, -1;
      pages, maximum := pageCount, max;
      bytes := new byte[4 * pageCount * 0x1_0000](i => if 0 <= i < |image| then image[i] else 0);
      new;
      assert globals[..] == gs;
      assert bytes[..pages * 0x1_0000] == image;
    }

    // ---------- stack primitives ----------

    /** stack[++sp] = c */
    method PushCell(c: Cell)
      requires Valid() && sp + 1 < stack.Length
      modifies this`sp, stack
      ensures Valid() && Abs() == Push(old(Abs()), View(c)) && sp == old(sp) + 1
    {
      sp := sp + 1;
      stack[sp] := c;
      assert stack[..sp + 1] == old(stack[..sp + 1]) + [c];
      assert Shown(stack[..sp + 1]) == old(Shown(stack[..sp + 1])) + [View(c)];
    }

    /** stack[sp--] */
    method PopCell() returns (c: Cell)
      requires Valid() && sp >= 0
      modifies this`sp
      ensures Valid() && Abs() == Pop(old(Abs())) && sp == old(sp) - 1
      ensures c == stack[sp + 1] && View(c) == Top(old(Abs()))
    {
      c := stack[sp];
      sp := sp - 1;
      assert stack[..sp + 1] == old(stack[..sp + 1])[..sp + 1];
      assert Shown(stack[..sp + 1]) == old(Shown(stack[..sp + 1]))[..sp + 1];
    }

    // ---------- frames ----------

    method PushBlock(block: BlockRec, at: int)
      requires Valid() && csp + 1 < callstack.Length
      modifies this`csp, callstack
      ensures Valid() && Abs() == Machine.PushBlock(old(Abs()), block, at) && csp == old(csp) + 1
    {
      csp := csp + 1;
      callstack[csp] := Frame(block, at, fp, pc);
      assert callstack[..csp + 1] == old(callstack[..csp + 1]) + [callstack[csp]];
    }

    /** pop_block: false is the call signature mismatch. */
    method PopBlock() returns (ok: bool, block: BlockRec)
      requires Valid() && csp >= 0 && !Machine.PopBlock(Abs()).Undefined?
      modifies this`csp, this`fp, this`sp, this`pc, stack
      ensures Valid() && block == old(callstack[csp].block) && csp == old(csp) - 1
      ensures Reports(Machine.PopBlock(old(Abs())), if ok then Running else Raised(CallSignatureMismatch), Abs())
    {
      hide MemoryLaws.SlackClear, Unwound;
      ghost var s := Abs();
      var frame := callstack[csp];
      csp := csp - 1;
      block := frame.block;
      var t := block.ty;
      fp := frame.fp;
      ok := true;
      if |t.results| == 1 {
        assert s.stack[|s.stack| - 1] == View(stack[sp]);
        if stack[sp].ty != t.results[0] {
          ok := false;
          return;
        }
      }
      RestoreStack(frame.sp, |t.results|);
      if block.kind == 0 {
        pc := frame.ra;
      }
      assert callstack[..csp + 1] == s.frames[..|s.frames| - 1];
    }

    /** Drops what lies above a frame's sp, keeping the result if there is one. */
    method RestoreStack(to: int, arity: nat)
      requires -1 <= to && -1 <= sp < stack.Length && stack != globals && (arity == 1 ==> sp >= 0)
      modifies this`sp, stack
      ensures -1 <= sp < stack.Length
      ensures Shown(stack[..sp + 1]) == Unwound(old(Shown(stack[..sp + 1])), to, arity)
    {
      ghost var s := Shown(stack[..sp + 1]);
      if arity == 1 {
        if to < sp {
          stack[to + 1] := stack[sp];
          sp := to + 1;
        }
      } else {
        if to < sp {
          sp := to;
        }
      }
      assert Shown(stack[..sp + 1]) == Unwound(s, to, arity);
    }

    /** setup_call: pushes the frame, then the zeroed locals. */
    method SetupCall(func: BlockRec)
      requires Valid() && csp + 1 < callstack.Length && sp + |func.locals| < stack.Length
      requires Machine.SetupCall(Abs(), func).Next?
      modifies this`csp, this`fp, this`sp, this`pc, callstack, stack
      ensures Valid() && Machine.SetupCall(old(Abs()), func) == Next(Abs())
      ensures 0 <= fp && sp + 1 == fp + |func.ty.params| + |func.locals|
      ensures forall i :: 0 <= i < |func.locals| ==> stack[fp + |func.ty.params| + i] == Cell(func.locals[i], 0, 0)
    {
      ghost var s := Abs();
      PushBlock(func, sp - |func.ty.params|);
      fp := sp - |func.ty.params| + 1;
      PushLocals(func.locals);
      pc := func.start;
    }

    method PushLocals(locals: seq<ValType>)
      requires -1 <= sp && sp + |locals| < stack.Length && stack != globals
      modifies this`sp, stack
      ensures sp == old(sp) + |locals|
      ensures Shown(stack[..sp + 1]) == old(Shown(stack[..sp + 1])) + ZerosOf(locals)
      ensures forall i :: 0 <= i < |locals| ==> stack[old(sp) + 1 + i] == Cell(locals[i], 0, 0)
    {
      ghost var s := Shown(stack[..sp + 1]);
      var lidx := 0;
      while lidx < |locals|
        invariant 0 <= lidx <= |locals| && sp == old(sp) + lidx
        invariant Shown(stack[..sp + 1]) == s + ZerosOf(locals)[..lidx]
        invariant forall i :: 0 <= i < lidx ==> stack[old(sp) + 1 + i] == Cell(locals[i], 0, 0)
      {
        sp := sp + 1;
        stack[sp] := Cell(locals[lidx], 0, 0);
        assert stack[..sp + 1] == stack[..sp] + [stack[sp]];
        assert ZerosOf(locals)[..lidx + 1] == ZerosOf(locals)[..lidx] + [View(stack[sp])];
        lidx := lidx + 1;
      }
      assert ZerosOf(locals)[..lidx] == ZerosOf(locals);
    }

    // ---------- control flow ----------

    method EnterBlock(at: nat, kind: byte)
      requires Valid() && Room() && !Machine.EnterBlock(prog, at, kind, Abs()).Undefined?
      modifies this`csp, this`sp, this`pc, callstack
      ensures Valid() && Machine.EnterBlock(prog, at, kind, old(Abs())) == Next(Abs())
    {
      var block := prog.lookup[at];
      PushBlock(block, sp);
      if kind == 4 {
        ghost var s1 := Abs();
        assert Top(s1) == View(stack[sp]);
        var c := PopCell();
        if c.lo == 0 {
          if block.els == 0 {
            csp := csp - 1;
            pc := block.br + 1;
            assert callstack[..csp + 1] == old(callstack[..csp + 1]);
          } else {
            pc := block.els;
          }
        }
      }
    }

    method BranchTo(depth: nat)
      requires Valid() && !Branch(Abs(), depth).Undefined?
      modifies this`csp, this`pc
      ensures Valid() && Branch(old(Abs()), depth) == Next(Abs())
    {
      csp := csp - depth;
      pc := callstack[csp].block.br;
      assert callstack[..csp + 1] == old(callstack[..csp + 1])[..csp + 1];
    }

    /** while (csp >= 0 && callstack[csp] is no function) csp--; then callstack[0]'s end. */
    method ReturnFromFunction()
      requires Valid() && !ExecReturn(Abs()).Undefined?
      modifies this`csp, this`pc
      ensures Valid() && ExecReturn(old(Abs())) == Next(Abs())
    {
      ghost var frames := callstack[..csp + 1];
      while csp >= 0 && callstack[csp].block.kind != 0
        invariant -1 <= csp < callstack.Length && csp < |frames|
        invariant Unwind(callstack[..csp + 1]) == Unwind(frames)
        invariant callstack[..csp + 1] == frames[..csp + 1]
        decreases csp
        modifies this`csp
      {
        assert callstack[..csp + 1][..csp] == callstack[..csp];
        csp := csp - 1;
      }
      assert Unwind(callstack[..csp + 1]) == csp + 1;
      pc := callstack[0].block.end;
    }

    method EndBlock() returns (st: Status)
      requires Valid() && !ExecEnd(Abs()).Undefined?
      modifies this`csp, this`fp, this`sp, this`pc, stack
      ensures Valid() && Reports(ExecEnd(old(Abs())), st, Abs())
    {
      var ok, block := PopBlock();
      if !ok { return Raised(CallSignatureMismatch); }
      if block.kind == 0 {
        st := if csp == -1 then Finished else Running;
      } else if block.kind == 1 {
        st := Finished;
      } else {
        st := Running;
      }
    }

    // ---------- calls ----------

    /** thunk_out: the host sees the arguments in declaration order. */
    method CallHost(f: nat)
      requires Valid() && Room() && f < |prog.funcs| && !ThunkOut(prog, Abs(), f).Undefined?
      modifies this`sp, stack
      ensures Valid() && ThunkOut(prog, old(Abs()), f) == Next(Abs())
    {
      hide ThunkFor, ThunkMask, HostResults;
      var mask := GetThunkMask(prog.funcs[f].ty);
      match ThunkFor(mask)
      case None =>
      case Some(ty) =>
        HostCall(f, ty);
    }

    /** thunk_out_*: call, then lower sp by the parameters and store the result, if any. */
    method HostCall(f: nat, ty: FuncType)
      requires Valid() && Room() && |ty.params| <= sp + 1
      modifies this`sp, stack
      ensures Valid()
      ensures Abs() == (var s := old(Abs()); var base := |s.stack| - |ty.params|;
                        s.(stack := s.stack[..base] + HostResults(prog.host, f, ty, s.stack[base..])))
    {
      ghost var s := Abs();
      var n := |ty.params|;
      var args := ReadArgs(n);
      assert args == BitsOf(s.stack[|s.stack| - n..]);
      sp := sp - n;
      assert Shown(stack[..sp + 1]) == s.stack[..|s.stack| - n];
      if |ty.results| == 1 {
        var v := MkValue(ty.results[0], prog.host(f, args));
        PushValue(v);
      } else {
        assert s.stack[..|s.stack| - n] + [] == s.stack[..|s.stack| - n];
      }
    }

    method PushValue(v: Value)
      requires Valid() && sp + 1 < stack.Length
      modifies this`sp, stack
      ensures Valid() && Abs() == Push(old(Abs()), v) && sp == old(sp) + 1
    {
      PushCell(Cell(v.ty, v.bits % 0x1_0000_0000, v.bits / 0x1_0000_0000));
    }

    /** The topmost n operands, each read through the union member of its type. */
    method ReadArgs(n: nat) returns (args: seq<u64>)
      requires Valid() && n <= sp + 1
      ensures |args| == n && forall i :: 0 <= i < n ==> args[i] == View(stack[sp + 1 - n + i]).bits
    {
      args := [];
      var i := 0;
      while i < n
        invariant 0 <= i <= n && |args| == i
        invariant forall j :: 0 <= j < i ==> args[j] == View(stack[sp + 1 - n + j]).bits
      {
        args := args + [View(stack[sp + 1 - n + i]).bits];
        i := i + 1;
      }
    }

    method CallFunction(f: nat)
      requires Valid() && Room() && CallTo(prog, Abs(), f).Next?
      modifies this`csp, this`fp, this`sp, this`pc, callstack, stack
      ensures Valid() && CallTo(prog, old(Abs()), f) == Next(Abs())
    {
      if f < prog.imports {
        CallHost(f);
      } else {
        SetupCall(prog.funcs[f]);
      }
    }

    method CallIndirect() returns (st: Status)
      requires Valid() && Room() && !Exec(prog, 0, Op.CallIndirect(0), Abs()).Undefined?
      modifies this`csp, this`fp, this`sp, this`pc, callstack, stack
      ensures Valid() && Reports(Exec(prog, 0, Op.CallIndirect(0), old(Abs())), st, Abs())
    {
      ghost var s := Abs();
      var c := PopCell();
      if c.lo >= prog.tableMax { return Raised(UndefinedElement); }
      var f := prog.table[c.lo];
      NextCall(prog, Pop(s), f);
      CallFunction(f);
      if f >= prog.imports {
        var ok := TagsAre(prog.funcs[f].ty.params);
        if !ok { return Raised(IndirectSignatureMismatch); }
      }
      st := Running;
    }

    /** The loop over the parameter tags of the new frame. */
    method TagsAre(params: seq<ValType>) returns (ok: bool)
      requires Valid() && 0 <= fp && fp + |params| <= sp + 1
      ensures ok <==> TypesOf(Abs().stack[fp..fp + |params|]) == params
    {
      ghost var s := Abs();
      var i := 0;
      while i < |params|
        invariant 0 <= i <= |params|
        invariant forall j :: 0 <= j < i ==> params[j] == stack[fp + j].ty
      {
        assert View(stack[fp + i]) == s.stack[fp..fp + |params|][i];
        if params[i] != stack[fp + i].ty {
          assert TypesOf(s.stack[fp..fp + |params|])[i] != params[i];
          return false;
        }
        i := i + 1;
      }
      forall j | 0 <= j < |params| ensures TypesOf(s.stack[fp..fp + |params|])[j] == params[j] {
        assert View(stack[fp + j]) == s.stack[fp..fp + |params|][j];
      }
      assert TypesOf(s.stack[fp..fp + |params|]) == params;
      ok := true;
    }

    // ---------- parametric and variable instructions ----------

    method SelectOne()
      requires Valid() && ExecSelect(Abs()).Next?
      modifies this`sp, stack
      ensures Valid() && ExecSelect(old(Abs())) == Next(Abs())
    {
      ghost var s := Abs();
      assert Top(s) == View(stack[sp]);
      var cond := stack[sp].lo;
      sp := sp - 1;
      sp := sp - 1;
      if cond == 0 {
        stack[sp] := stack[sp + 1];
      }
      assert Shown(stack[..sp + 1]) == ExecSelect(s).s.stack;
    }

    method GetLocal(i: u32)
      requires Valid() && Room() && 0 <= fp + i <= sp
      modifies this`sp, stack
      ensures Valid() && Abs() == Push(old(Abs()), old(Abs()).stack[fp + i])
    {
      PushCell(stack[fp + i]);
    }

    method SetLocal(i: u32, pop: bool)
      requires Valid() && SetLocalAt(Abs(), i, pop).Next?
      modifies this`sp, stack
      ensures Valid() && SetLocalAt(old(Abs()), i, pop) == Next(Abs())
    {
      ghost var s := Abs();
      assert Top(s) == View(stack[sp]);
      stack[fp + i] := stack[sp];
      if pop { sp := sp - 1; }
      assert Shown(stack[..sp + 1]) == SetLocalAt(s, i, pop).s.stack;
    }

    method SetGlobal(i: nat)
      requires Valid() && sp >= 0 && i < globals.Length
      modifies this`sp, globals
      ensures Valid() && Abs() == Pop(old(Abs())).(globals := old(Abs()).globals[i := Top(old(Abs()))])
    {
      ghost var s := Abs();
      var c := PopCell();
      globals[i] := c;
      assert Shown(globals[..]) == s.globals[i := Top(s)];
    }

    // ---------- memory ----------

    /** The pointer comparisons of the load and store cases. */
    method Overflows(addr: u32, offset: u32, size: nat) returns (overflow: bool)
      requires Valid()
      ensures overflow == !InBounds(Mem(), addr, offset, size)
    {
      overflow := false;
      if (offset + addr) % 0x1_0000_0000 < addr { overflow := true; }
      var end := pages * 0x1_0000 % 0x1_0000_0000;
      if offset + addr + size > end { overflow := true; }
    }

    /** memcpy into a cleared union. */
    method ReadLittleEndian(ea: nat, n: nat) returns (v: nat)
      requires Valid() && ea + n <= pages * 0x1_0000
      ensures v == LittleEndian(Mem().bytes[ea..ea + n])
    {
      hide MemoryLaws.Cleared;
      v := 0;
      var i := n;
      ghost var shown := bytes[..pages * 0x1_0000];
      assert shown[ea + n..ea + n] == [];
      while i > 0
        invariant 0 <= i <= n
        invariant v == LittleEndian(shown[ea + i..ea + n])
      {
        i := i - 1;
        assert shown[ea + i..ea + n] == [bytes[ea + i]] + shown[ea + i + 1..ea + n];
        v := bytes[ea + i] + 256 * v;
      }
    }

    method LoadValue(code: byte, offset: u32) returns (st: Status)
      requires Valid() && 0x28 <= code <= 0x35 && !ExecLoad(Abs(), code, offset).Undefined?
      modifies this`sp, stack
      ensures Valid() && Reports(ExecLoad(old(Abs()), code, offset), st, Abs())
    {
      hide LittleEndian, Extend;
      var c := PopCell();
      var addr, w := c.lo, Access(code);
      var overflow := Overflows(addr, offset, w.size);
      if overflow { return Raised(OutOfBounds); }
      var raw := ReadLittleEndian(addr + offset, w.size);
      var v := MkValue(w.ty, Extend(w, raw) % 0x1_0000_0000_0000_0000);
      PushValue(v);
      st := Running;
    }

    method WriteLittleEndian(ea: nat, n: nat, v: nat)
      requires Valid() && ea + n <= pages * 0x1_0000
      modifies bytes
      ensures Valid() && Mem().bytes == old(Mem().bytes[..ea]) + LowBytes(v, n) + old(Mem().bytes[ea + n..])
    {
      hide LowBytes;
      ghost var low, before := LowBytes(v, n), bytes[..];
      var i, rest := 0, v;
      while i < n
        invariant 0 <= i <= n && |low| == n
        invariant low[i..] == LowBytes(rest, n - i)
        invariant forall j :: 0 <= j < i ==> bytes[ea + j] == low[j]
        invariant forall j :: 0 <= j < bytes.Length && (j < ea || j >= ea + i) ==> bytes[j] == before[j]
      {
        LowByte(rest, n - i);
        assert low[i] == low[i..][0] && low[i + 1..] == low[i..][1..];
        bytes[ea + i] := rest % 256;
        rest := rest / 256;
        i := i + 1;
      }
      ghost var size := pages * 0x1_0000;
      assert bytes[..size] == before[..size][..ea] + low + before[..size][ea + n..];
    }

    method StoreValue(code: byte, offset: u32) returns (st: Status)
      requires Valid() && 0x36 <= code <= 0x3e && !ExecStore(Abs(), code, offset).Undefined?
      modifies this`sp, bytes
      ensures Valid() && Reports(ExecStore(old(Abs()), code, offset), st, Abs())
    {
      hide LowBytes;
      var value := PopCell();
      var c := PopCell();
      var addr, w := c.lo, Access(code);
      var overflow := Overflows(addr, offset, w.size);
      if overflow { return Raised(OutOfBounds); }
      WriteLittleEndian(addr + offset, w.size, View(value).bits);
      st := Running;
    }

    method CurrentMemory()
      requires Valid() && Room() && pages < 0x1_0000_0000
      modifies this`sp, stack
      ensures Valid() && Abs() == Push(old(Abs()), MkValue(I32, pages))
    {
      PushCell(Cell(I32, pages, 0));
    }

    /** grow_memory: the previous size is stored first and replaced by -1 on failure. */
    method GrowMemory()
      requires Valid() && ExecGrow(Abs()).Next?
      modifies this`pages, this`bytes, stack
      ensures Valid() && ExecGrow(old(Abs())) == Next(Abs()) && (bytes == old(bytes) || fresh(bytes))
    {
      ghost var s, raw := Abs(), bytes[..];
      assert Top(s) == View(stack[sp]);
      var prev := pages;
      var delta := stack[sp].lo;
      stack[sp] := stack[sp].Set32(prev);
      if delta == 0 {
      } else if (delta + prev) % 0x1_0000_0000 > maximum {
        stack[sp] := stack[sp].Set32(0xffff_ffff);
      } else {
        pages := pages + delta;
        Reallocate(prev * 0x1_0000, pages * 0x1_0000, 4);
      }
      assert Shown(stack[..sp + 1]) == ExecGrow(s).s.stack;
      MemoryLaws.GrowShows(MemoryLaws.Buffer(prev, maximum, raw), delta);
    }

    /** arecalloc: realloc to count elements, whose new part holds whatever it does, and memset from
        the old end of the block. */
    method Reallocate(was: nat, count: nat, size: nat)
      requires was <= count && bytes.Length == was * size <= count * size
      modifies this`bytes
      ensures fresh(bytes) && bytes[..] == MemoryLaws.Recalloc(old(bytes[..]), was, count, size)
    {
      var before := bytes;
      var b := new byte[count * size];
      forall i | 0 <= i < before.Length { b[i] := before[i]; }
      forall i | was * size <= i < count * size { b[i] := 0; }
      bytes := b;
    }

    // ---------- numeric instructions ----------

    method Numeric(code: byte) returns (st: Status)
      requires Valid() && IsNum(code) && !ExecNum(prog, Abs(), code).Undefined?
      modifies this`sp, stack
      ensures Valid() && Reports(ExecNum(prog, old(Abs()), code), st, Abs())
    {
      hide NumSig, IsBinary, Written, View, SwitchNum, MemoryLaws.SlackClear;
      ghost var s := Abs();
      ArityMatches(code);
      var n := if IsBinary(code) then 2 else 1;
      ghost var operands := s.stack[|s.stack| - n..];
      forall i | sp + 1 - n <= i <= sp ensures stack[i].ty == NumSig(code).arg {
        assert View(stack[i]) == operands[i - (sp + 1 - n)];
      }
      var args := ReadOperands(code, n);
      assert args == BitsOf(operands);
      var r := Compute(code, args, operands);
      if r.Traps? { return Raised(r.e); }
      WriteResult(code, n, r.v);
      st := Running;
    }

    /** The cases of the switch. */
    method Compute(code: byte, args: seq<u64>, ghost operands: seq<Value>) returns (r: NumOutcome)
      requires IsNum(code) && NumArgs(code, operands) && args == BitsOf(operands)
      ensures r == SwitchNum(prog.alu, code, operands)
      ensures r.Gives? && (code >= 0xbc || code == 0xa7) ==> operands != [] && r.v == operands[0].bits
    {
      hide NumSig, Switch, SwitchTrunc;
      OneAtLeast(code);
      if code >= 0xbc || code == 0xa7 { return Gives(args[0]); }
      if IsInt(code) {
        ArgsAreWords(code, operands);
        return Switch(code, args);
      }
      if IsTrunc(code) { return SwitchTrunc(code, args[0]); }
      r := Gives(prog.alu(code, args));
    }

    /** Drops all operands but the first and runs the opcode's assignment on its slot. */
    method WriteResult(code: byte, n: nat, r: u64)
      requires Valid() && IsNum(code) && 0 < n <= sp + 1 && stack[sp + 1 - n].ty == NumSig(code).arg
      modifies this`sp, stack
      ensures Valid()
      ensures var s := old(Abs()); var base := |s.stack| - n;
              Abs() == s.(stack := s.stack[..base] +
                [MkValue(NumSig(code).res, if code >= 0xbc || code == 0xa7 then s.stack[base].bits else r)])
    {
      hide NumSig, ReadsWide, WritesWide, TagWritten, Written, View;
      ghost var s := Abs();
      sp := sp - (n - 1);
      WrittenShows(code, stack[sp], r);
      stack[sp] := Written(code, stack[sp], r);
      assert Shown(stack[..sp + 1]) == s.stack[..|s.stack| - n] + [View(stack[sp])];
    }

    /** The operands as the opcode's case reads them, first operand first. */
    method ReadOperands(code: byte, n: nat) returns (args: seq<u64>)
      requires Valid() && IsNum(code) && n <= sp + 1
      requires forall i :: sp + 1 - n <= i <= sp ==> stack[i].ty == NumSig(code).arg
      ensures |args| == n && forall i :: 0 <= i < n ==> args[i] == View(stack[sp + 1 - n + i]).bits
    {
      hide NumSig;
      TagsMatchSignatures(code);
      args := [];
      var i := 0;
      while i < n
        invariant 0 <= i <= n && |args| == i
        invariant forall j :: 0 <= j < i ==> args[j] == View(stack[sp + 1 - n + j]).bits
      {
        args := args + [ReadBits(code, stack[sp + 1 - n + i])];
        i := i + 1;
      }
    }

    // ---------- the loop ----------

    /** The switch of interpret. */
    method Dispatch(at: nat, op: Op) returns (st: Status)
      requires Valid() && Room() && !Exec(prog, at, op, Abs()).Undefined?
      modifies this, stack, callstack, globals, bytes
      ensures Valid() && Reports(Exec(prog, at, op, old(Abs())), st, Abs())
      ensures bytes == old(bytes) || fresh(bytes)
    {
      hide Exec, Reports;
      if IsControl(op) { st := DispatchControl(at, op); } else { st := DispatchPlain(at, op); }
    }

    method DispatchControl(at: nat, op: Op) returns (st: Status)
      requires Valid() && Room() && IsControl(op) && !Exec(prog, at, op, Abs()).Undefined?
      modifies this`pc, this`sp, this`fp, this`csp, stack, callstack
      ensures Valid() && Reports(Exec(prog, at, op, old(Abs())), st, Abs())
    {
      hide Machine.EnterBlock, ExecEnd, CallTo, CheckIndirect, Branch, ExecReturn;
      st := Running;
      match op
      case Trap => st := Raised(Unreachable);
      case Enter(kind) => EnterBlock(at, kind);
      case Else => pc := callstack[csp].block.br;
      case End => st := EndBlock();
      case Br(depth) => BranchTo(depth);
      case BrIf(depth) => BranchIf(depth);
      case BrTable(depths, default) => BranchTable(depths, default);
      case Return => ReturnFromFunction();
      case Call(f) => Defined(prog, at, op, Abs()); CallFunction(f);
      case CallIndirect(_) => st := CallIndirect();
      case Unknown(_) => st := Raised(UnrecognizedOpcode);
    }

    method DispatchPlain(at: nat, op: Op) returns (st: Status)
      requires Valid() && Room() && !IsControl(op) && !Exec(prog, at, op, Abs()).Undefined?
      modifies this, stack, globals, bytes
      ensures Valid() && Reports(Exec(prog, at, op, old(Abs())), st, Abs())
      ensures bytes == old(bytes) || fresh(bytes)
    {
      hide ExecSelect, SetLocalAt, ExecLoad, ExecStore, ExecGrow, ExecNum;
      st := Running;
      match op
      case Nop =>
      case Drop => var _ := PopCell();
      case Select => Defined(prog, at, op, Abs()); SelectOne();
      case GetLocal(i) => GetLocal(i);
      case SetLocal(i) => Defined(prog, at, op, Abs()); SetLocal(i, true);
      case TeeLocal(i) => Defined(prog, at, op, Abs()); SetLocal(i, false);
      case GetGlobal(i) => PushCell(globals[i]);
      case SetGlobal(i) => SetGlobal(i);
      case Load(code, offset) => st := LoadValue(code, offset);
      case Store(code, offset) => st := StoreValue(code, offset);
      case CurrentMemory => CurrentMemory();
      case GrowMemory => Defined(prog, at, op, Abs()); GrowMemory();
      case Const(v) => PushValue(v);
      case Num(code) => st := Numeric(code);
    }

    method BranchIf(depth: u32)
      requires Valid() && !Exec(prog, 0, BrIf(depth), Abs()).Undefined?
      modifies this`sp, this`csp, this`pc
      ensures Valid() && Exec(prog, 0, BrIf(depth), old(Abs())) == Next(Abs())
    {
      var c := PopCell();
      if c.lo != 0 { BranchTo(depth); }
    }

    method BranchTable(depths: seq<u32>, default: u32)
      requires Valid() && !Exec(prog, 0, BrTable(depths, default), Abs()).Undefined?
      modifies this`sp, this`csp, this`pc
      ensures Valid() && Exec(prog, 0, BrTable(depths, default), old(Abs())) == Next(Abs())
    {
      var depth := default;
      var c := PopCell();
      var didx: int := if c.lo >= 0x8000_0000 then c.lo - 0x1_0000_0000 else c.lo;
      if didx >= 0 && didx < |depths| {
        depth := depths[didx];
      }
      BranchTo(depth);
    }

    /** One turn of the loop. */
    method Turn() returns (st: Status)
      requires Valid() && Room() && !Step(prog, Abs()).Undefined?
      modifies this, stack, callstack, globals, bytes
      ensures Valid() && Reports(Step(prog, old(Abs())), st, Abs())
      ensures bytes == old(bytes) || fresh(bytes)
    {
      hide Exec, Decode;
      var curPc := pc;
      var op;
      op, pc := Fetch(prog.bytes, pc);
      st := Dispatch(curPc, op);
    }

    /** interpret: runs until the outermost function ends or a trap is raised, for at most limit
        turns of its loop. The result is that of the step function, provided the run stays
        defined and inside the stacks. */
    method Interpret(limit: nat) returns (st: Status)
      requires Valid()
      requires forall k: nat :: k <= limit ==> Fits(prog, Run(prog, Abs(), k), stack.Length, callstack.Length)
      modifies this, stack, callstack, globals, bytes
      ensures Valid() && Reports(Run(prog, old(Abs()), limit), st, Abs())
    {
      hide Step;
      ghost var s := Abs();
      var turns := 0;
      st := Running;
      while turns < limit && st == Running
        invariant turns <= limit && Valid()
        invariant Reports(Run(prog, s, turns), st, Abs())
        invariant bytes == old(bytes) || fresh(bytes)
        invariant forall k: nat :: k <= limit ==> Fits(prog, Run(prog, s, k), stack.Length, callstack.Length)
        decreases limit - turns
      {
        assert Fits(prog, Run(prog, s, turns), stack.Length, callstack.Length);
        assert Fits(prog, Run(prog, s, turns + 1), stack.Length, callstack.Length);
        RunAdd(prog, s, turns, 1);
        RunOne(prog, Abs());
        st := Turn();
        turns := turns + 1;
      }
      if turns < limit { RunAdd(prog, s, turns, limit - turns); }
    }
  }

  lemma LowByte(v: nat, n: nat)
    requires n > 0
    ensures LowBytes(v, n)[0] == v % 256 && LowBytes(v, n)[1..] == LowBytes(v / 256, n - 1)
  {}

  predicate IsControl(op: Op) {
    op.Trap? || op.Enter? || op.Else? || op.End? || op.Br? || op.BrIf? || op.BrTable? || op.Return? || op.Call?
    || op.CallIndirect? || op.Unknown?
  }

  /** A run may go on with one more operand and frame and with the locals of any function. */
  ghost predicate Fits(p: Program, o: Outcome, size: nat, depth: nat) {
    !o.Undefined? && (o.Next? ==>
      |o.s.stack| < size && |o.s.frames| < depth
      && forall f :: 0 <= f < |p.funcs| ==> |o.s.stack| - 1 + |p.funcs[f].locals| < size)
  }

  /** These instructions either proceed or are undefined. */
  lemma Defined(p: Program, at: nat, op: Op, s: State)
    requires op.Call? || op.Select? || op.SetLocal? || op.TeeLocal? || op.GrowMemory?
    ensures Exec(p, at, op, s).Next? || Exec(p, at, op, s).Undefined?
  {}

  /** A call through the table that is not undefined has been set up. */
  lemma NextCall(p: Program, s: State, f: nat)
    requires !CheckIndirect(p, CallTo(p, s, f), f).Undefined?
    ensures CallTo(p, s, f).Next?
    ensures f >= p.imports ==> f < |p.funcs|
    ensures f >= p.imports ==>
              var s' := CallTo(p, s, f).s; 0 <= s'.fp && s'.fp + |p.funcs[f].ty.params| <= |s'.stack|
  {
    hide ThunkFor, ThunkMask, HostResults;
  }
}
