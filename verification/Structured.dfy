/**
 The reference semantics: sections 4.4.1 to 4.4.7 of WebAssembly Core 1.0 as an evaluator over
 the nesting structure. A label is a level of the recursion, so there is no callstack, no
 program counter and no jump. Every construct sees only its own operands.
 */
module Structured {
  import opened Leb
  import opened Wasm
  import opened Structure
  import opened Thunks
  import opened Integers
  import opened Numerics

  datatype Func = Func(ty: FuncType, locals: seq<ValType>, body: Code)

  datatype Module = Module(
    types: seq<FuncType>, imports: seq<FuncType>, funcs: seq<Func>,
    table: seq<Option<u32>>, tableMax: nat, alu: Alu, host: Host)
  {
    predicate IsFunc(f: nat) { f < |imports| + |funcs| }

    function TypeOf(f: nat): FuncType
      requires IsFunc(f)
    {
      if f < |imports| then imports[f] else funcs[f - |imports|].ty
    }
  }

  /** Operands of the current label, locals of the current function, and the store. */
  datatype Conf = Conf(ops: seq<Value>, locals: seq<Value>, globals: seq<Value>, mem: Memory)

  datatype Result =
    | Normal(c: Conf)                 // ran to the end of the sequence
    | Jump(depth: nat, c: Conf)       // branches to the label that many levels out
    | Returned(c: Conf)
    | Fail(e: Exception)              // a trap of the standard
    | Wild(trap: Option<Exception>)   // the standard goes on; C traps or has undefined behaviour
    | Timeout                         // the bound on nested calls and loop turns was reached
    | Stuck                           // not reachable in validated code

  /** Where the C program leaves the standard: undefined behaviour, or a trap too many. */
  predicate Departs(trap: Option<Exception>) { trap == None || trap == Some(IntegerOverflow) }

  function Last(s: seq<Value>, n: nat): (r: seq<Value>)
    requires n <= |s|
    ensures |r| == n
  {
    s[|s| - n..]
  }

  function ButLast(s: seq<Value>, n: nat): (r: seq<Value>)
    requires n <= |s|
    ensures |r| == |s| - n
  {
    s[..|s| - n]
  }

  predicate Ends(ops: seq<Value>, ts: seq<ValType>) {
    |ts| <= |ops| && TypesOf(Last(ops, |ts|)) == ts
  }

  // ---------- instructions without control ----------

  function PushOp(c: Conf, v: Value): Conf { c.(ops := c.ops + [v]) }

  function EvalLoad(c: Conf, code: byte, offset: u32): Result
    requires 0x28 <= code <= 0x35
  {
    if !Ends(c.ops, [I32]) then Stuck
    else
      var addr := Last(c.ops, 1)[0].bits;
      if addr + offset + Access(code).size > |c.mem.bytes| then Fail(OutOfBounds)
      else Normal(PushOp(c.(ops := ButLast(c.ops, 1)), ReadMemory(c.mem, code, addr + offset)))
  }

  function EvalStore(c: Conf, code: byte, offset: u32): Result
    requires 0x36 <= code <= 0x3e
  {
    if !Ends(c.ops, [I32, Access(code).ty]) then Stuck
    else
      var args := Last(c.ops, 2);
      if args[0].bits + offset + Access(code).size > |c.mem.bytes| then Fail(OutOfBounds)
      else Normal(c.(ops := ButLast(c.ops, 2), mem := WriteMemory(c.mem, code, args[0].bits + offset, args[1].bits)))
  }

  /** Section 4.4.4: grow by delta pages if the maximum allows it, otherwise push -1. */
  function EvalGrow(c: Conf): Result {
    if !Ends(c.ops, [I32]) then Stuck
    else
      var delta, m, c1 := Last(c.ops, 1)[0].bits, c.mem, c.(ops := ButLast(c.ops, 1));
      if delta + m.pages >= 0x1_0000_0000 then Wild(None)
      else if delta + m.pages > m.max then Normal(PushOp(c1, MkValue(I32, 0xffff_ffff)))
      else Normal(PushOp(c1.(mem := Memory(m.pages + delta, m.max, m.bytes + Zeros(delta * 0x1_0000))),
                         MkValue(I32, m.pages)))
  }

  function EvalSelect(c: Conf): Result {
    if !Ends(c.ops, [I32]) || |c.ops| < 3 then Stuck
    else
      var args := Last(c.ops, 3);
      Normal(c.(ops := ButLast(c.ops, 3) + [if args[2].bits != 0 then args[0] else args[1]]))
  }

  function EvalNum(m: Module, c: Conf, code: byte): Result
    requires IsNum(code)
  {
    var n := NumSig(code).arity;
    if n > |c.ops| || !NumArgs(code, Last(c.ops, n)) then Stuck
    else if FarShift(code, Last(c.ops, n)) then Wild(None)
    else if EarlyTrap(code, Last(c.ops, n)) then Wild(Some(IntegerOverflow))
    else match StandardNum(m.alu, code, Last(c.ops, n))
         case Traps(e) => Fail(e)
         case Gives(v) => Normal(c.(ops := ButLast(c.ops, n) + [MkValue(NumSig(code).res, v)]))
  }

  predicate IsBasic(op: Op) {
    op.Nop? || op.Drop? || op.Select? || op.GetLocal? || op.SetLocal? || op.TeeLocal? || op.GetGlobal?
    || op.SetGlobal? || op.Load? || op.Store? || op.CurrentMemory? || op.GrowMemory? || op.Const? || op.Num?
  }

  function EvalBasic(m: Module, op: Op, c: Conf): Result
    requires IsBasic(op)
  {
    match op
    case Nop => Normal(c)
    case Drop => if c.ops == [] then Stuck else Normal(c.(ops := ButLast(c.ops, 1)))
    case Select => EvalSelect(c)
    case GetLocal(i) => if i >= |c.locals| then Stuck else Normal(PushOp(c, c.locals[i]))
    case SetLocal(i) =>
      if i >= |c.locals| || c.ops == [] then Stuck
      else Normal(c.(ops := ButLast(c.ops, 1), locals := c.locals[i := Last(c.ops, 1)[0]]))
    case TeeLocal(i) =>
      if i >= |c.locals| || c.ops == [] then Stuck
      else Normal(c.(locals := c.locals[i := Last(c.ops, 1)[0]]))
    case GetGlobal(i) => if i >= |c.globals| then Stuck else Normal(PushOp(c, c.globals[i]))
    case SetGlobal(i) =>
      if i >= |c.globals| || c.ops == [] then Stuck
      else Normal(c.(ops := ButLast(c.ops, 1), globals := c.globals[i := Last(c.ops, 1)[0]]))
    case Load(code, offset) => if 0x28 <= code <= 0x35 then EvalLoad(c, code, offset) else Stuck
    case Store(code, offset) => if 0x36 <= code <= 0x3e then EvalStore(c, code, offset) else Stuck
    case CurrentMemory => if c.mem.pages >= 0x1_0000_0000 then Stuck else Normal(PushOp(c, MkValue(I32, c.mem.pages)))
    case GrowMemory => EvalGrow(c)
    case Const(v) => Normal(PushOp(c, v))
    case Num(code) => if IsNum(code) then EvalNum(m, c, code) else Stuck
    case _ => Stuck
  }

  // ---------- control ----------

  /** Leaving a block with result types ty: the enclosing operands come back with the results
      on top, whether the end was reached or a branch to the block's label was taken. */
  function Leave(ty: seq<ValType>, outer: seq<Value>, r: Result): Result {
    match r
    case Normal(c) => if |c.ops| == |ty| then Normal(c.(ops := outer + c.ops)) else Stuck
    case Jump(d, c) =>
      if d > 0 then Jump(d - 1, c)
      else if |ty| <= |c.ops| then Normal(c.(ops := outer + Last(c.ops, |ty|)))
      else Stuck
    case _ => r
  }

  /** Returning from a function: the caller's locals come back with the results on top. */
  function Finish(ty: FuncType, caller: Conf, r: Result): Result {
    var n := |ty.results|;
    match r
    case Normal(c) =>
      if |c.ops| == n then Normal(Conf(caller.ops + c.ops, caller.locals, c.globals, c.mem)) else Stuck
    case Jump(d, c) =>
      if d == 0 && n <= |c.ops| then Normal(Conf(caller.ops + Last(c.ops, n), caller.locals, c.globals, c.mem))
      else Stuck
    case Returned(c) =>
      if n <= |c.ops| then Normal(Conf(caller.ops + Last(c.ops, n), caller.locals, c.globals, c.mem)) else Stuck
    case _ => r
  }

  function EvalHost(m: Module, f: nat, c: Conf): Result
    requires f < |m.imports|
  {
    var ty := m.imports[f];
    if !Ends(c.ops, ty.params) then Stuck
    else Normal(c.(ops := ButLast(c.ops, |ty.params|) + HostResults(m.host, f, ty, Last(c.ops, |ty.params|))))
  }

  /** The configuration in which the body of f starts. */
  function Entry(f: Func, c: Conf): Conf
    requires |f.ty.params| <= |c.ops|
  {
    Conf([], Last(c.ops, |f.ty.params|) + ZerosOf(f.locals), c.globals, c.mem)
  }

  /** fuel bounds the nesting of calls plus the turns of enclosing loops. */
  function Eval(m: Module, fuel: nat, code: Code, c: Conf): Result
    decreases fuel, 1, code, 0
  {
    match code
    case Done(_) => Normal(c)
    case Simple(_, op, rest) =>
      var r := EvalOp(m, fuel, op, c);
      if r.Normal? then Eval(m, fuel, rest, r.c) else r
    case Block(_, kind, ty, body, rest) =>
      if kind == 4 then
        if !Ends(c.ops, [I32]) then Stuck
        else
          var outer := ButLast(c.ops, 1);
          var r := if Last(c.ops, 1)[0].bits == 0 then Normal(c.(ops := outer))
                   else Leave(ty, outer, Eval(m, fuel, body, c.(ops := [])));
          if r.Normal? then Eval(m, fuel, rest, r.c) else r
      else
        var r := Leave(ty, c.ops, if kind == 3 then EvalLoop(m, fuel, body, c.(ops := []))
                                  else Eval(m, fuel, body, c.(ops := [])));
        if r.Normal? then Eval(m, fuel, rest, r.c) else r
    case IfElse(_, ty, thn, els, rest) =>
      if !Ends(c.ops, [I32]) then Stuck
      else
        var r := Leave(ty, ButLast(c.ops, 1),
                       if Last(c.ops, 1)[0].bits == 0 then Eval(m, fuel, els, c.(ops := []))
                       else Eval(m, fuel, thn, c.(ops := [])));
        if r.Normal? then Eval(m, fuel, rest, r.c) else r
  }

  /** A branch to a loop's own label starts the body again without operands. */
  function EvalLoop(m: Module, fuel: nat, body: Code, c: Conf): Result
    decreases fuel, 1, body, 1
  {
    match Eval(m, fuel, body, c)
    case Jump(d, c') =>
      if d > 0 then Jump(d, c')
      else if fuel == 0 then Timeout
      else EvalLoop(m, fuel - 1, body, c'.(ops := []))
    case r => r
  }

  function EvalOp(m: Module, fuel: nat, op: Op, c: Conf): Result
    decreases fuel, 0, 1
  {
    match op
    case Trap => Fail(Unreachable)
    case Unknown(_) => Fail(UnrecognizedOpcode)
    case Br(d) => Jump(d, c)
    case BrIf(d) =>
      if !Ends(c.ops, [I32]) then Stuck
      else
        var c1 := c.(ops := ButLast(c.ops, 1));
        if Last(c.ops, 1)[0].bits != 0 then Jump(d, c1) else Normal(c1)
    case BrTable(ts, d) =>
      if !Ends(c.ops, [I32]) then Stuck
      else
        var i := Last(c.ops, 1)[0].bits;
        Jump(if i < |ts| then ts[i] else d, c.(ops := ButLast(c.ops, 1)))
    case Return => Returned(c)
    case Call(f) => EvalCall(m, fuel, f, c)
    case CallIndirect(t) =>
      if !Ends(c.ops, [I32]) || t >= |m.types| then Stuck
      else
        var i := Last(c.ops, 1)[0].bits;
        if i >= |m.table| then Fail(UndefinedElement)
        else if m.table[i].None? then Fail(IndirectSignatureMismatch)
        else
          var f := m.table[i].value;
          if !m.IsFunc(f) then Stuck
          else if m.TypeOf(f) != m.types[t] then Fail(IndirectSignatureMismatch)
          else EvalCall(m, fuel, f, c.(ops := ButLast(c.ops, 1)))
    case _ => if IsBasic(op) then EvalBasic(m, op, c) else Stuck
  }

  /** The table entry is no function of the expected type: the standard traps. */
  predicate Refused(m: Module, t: u32, i: u32)
    requires t < |m.types|
  {
    i >= |m.table| || m.table[i].None? || !m.IsFunc(m.table[i].value) || m.TypeOf(m.table[i].value) != m.types[t]
  }

  function EvalCall(m: Module, fuel: nat, f: nat, c: Conf): Result
    decreases fuel, 0, 0
  {
    if !m.IsFunc(f) then Stuck
    else if f < |m.imports| then EvalHost(m, f, c)
    else
      var fn := m.funcs[f - |m.imports|];
      if |fn.ty.params| > |c.ops| then Stuck
      else if fuel == 0 then Timeout
      else Finish(fn.ty, c.(ops := ButLast(c.ops, |fn.ty.params|)), Eval(m, fuel - 1, fn.body, Entry(fn, c)))
  }
}
