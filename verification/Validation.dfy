/**
 Validation, section 3.3 of WebAssembly Core 1.0, on the nesting structure, and its soundness
 for the reference semantics. Code behind an unconditional branch is not looked at, so every
 body the standard accepts is accepted here, except for one restriction on branches to `if`
 labels that the interpreter's way of recording frames calls for (see Strict labels).
 */
module Validation {
  import opened Leb
  import opened Bits
  import opened Wasm
  import opened Integers
  import opened Numerics
  import opened Structure
  import opened Thunks
  import opened Structured

  /** A label of the enclosing construct; kinds as in the block records, 0 for the function.
      brs and ends are the types a branch to it and its end provide.
      clean: the enclosing label had no pending operands when this one was entered.
      strict: every branch to this label must leave no surplus operand. Always true for `if`;
      chosen per loop; false for blocks and functions, whose end drops any surplus. */
  datatype Label = Label(kind: nat, brs: seq<ValType>, ends: seq<ValType>, clean: bool, strict: bool)

  datatype Env = Env(locals: seq<ValType>, globals: seq<ValType>)

  predicate EndsIn(ts: seq<ValType>, suffix: seq<ValType>) {
    |suffix| <= |ts| && ts[|ts| - |suffix|..] == suffix
  }

  function Front(ts: seq<ValType>, n: nat): seq<ValType>
    requires n <= |ts|
  {
    ts[..|ts| - n]
  }

  /** Types after an instruction without control; None when it does not validate. */
  function BasicType(op: Op, env: Env, ts: seq<ValType>): Option<seq<ValType>>
    requires IsBasic(op)
  {
    var n := |ts|;
    match op
    case Nop => Some(ts)
    case Drop => if n < 1 then None else Some(Front(ts, 1))
    case Select =>
      if n < 3 || ts[n - 1] != I32 || ts[n - 2] != ts[n - 3] then None else Some(Front(ts, 2))
    case GetLocal(i) => if i < |env.locals| then Some(ts + [env.locals[i]]) else None
    case SetLocal(i) => if i < |env.locals| && EndsIn(ts, [env.locals[i]]) then Some(Front(ts, 1)) else None
    case TeeLocal(i) => if i < |env.locals| && EndsIn(ts, [env.locals[i]]) then Some(ts) else None
    case GetGlobal(i) => if i < |env.globals| then Some(ts + [env.globals[i]]) else None
    case SetGlobal(i) => if i < |env.globals| && EndsIn(ts, [env.globals[i]]) then Some(Front(ts, 1)) else None
    case Load(code, _) =>
      if 0x28 <= code <= 0x35 && EndsIn(ts, [I32]) then Some(Front(ts, 1) + [Access(code).ty]) else None
    case Store(code, _) =>
      if 0x36 <= code <= 0x3e && EndsIn(ts, [I32, Access(code).ty]) then Some(Front(ts, 2)) else None
    case CurrentMemory => Some(ts + [I32])
    case GrowMemory => if EndsIn(ts, [I32]) then Some(ts) else None
    case Const(v) => Some(ts + [v.ty])
    case Num(code) =>
      if IsNum(code) && NumSig(code).arity <= n
         && (forall i :: n - NumSig(code).arity <= i < n ==> ts[i] == NumSig(code).arg)
      then Some(Front(ts, NumSig(code).arity) + [NumSig(code).res]) else None
    case _ => None
  }

  /** No operand is pending, and no loop in between can have left any behind. */
  predicate TidyPath(labels: seq<Label>, d: nat)
    requires d < |labels|
  {
    forall j :: 0 <= j < d ==> labels[j].clean && (labels[j].kind == 3 ==> labels[j].strict)
  }

  predicate CheckBr(labels: seq<Label>, ts: seq<ValType>, d: nat) {
    d < |labels| && EndsIn(ts, labels[d].brs)
    && (labels[d].strict ==> |ts| == |labels[d].brs| && TidyPath(labels, d))
  }

  predicate CallType(ft: FuncType, ts: seq<ValType>) { EndsIn(ts, ft.params) }

  /** Validation of an instruction sequence with operand types ts under the given labels. */
  ghost predicate Check(m: Module, env: Env, labels: seq<Label>, ts: seq<ValType>, code: Code)
    requires labels != []
    decreases code
  {
    match code
    case Done(_) => ts == labels[0].ends
    case Simple(_, op, rest) => CheckOp(m, env, labels, ts, op) &&
      (Stops(op) || Check(m, env, labels, After(m, env, ts, op), rest))
    case Block(_, kind, ty, body, rest) =>
      if kind == 2 then
        Check(m, env, [Label(2, ty, ty, ts == [], false)] + labels, [], body) && Check(m, env, labels, ts + ty, rest)
      else if kind == 3 then
        (Check(m, env, [Label(3, [], ty, ts == [], true)] + labels, [], body)
         || Check(m, env, [Label(3, [], ty, ts == [], false)] + labels, [], body))
        && Check(m, env, labels, ts + ty, rest)
      else
        kind == 4 && ty == [] && EndsIn(ts, [I32])
        && Check(m, env, [Label(4, [], [], Front(ts, 1) == [], true)] + labels, [], body)
        && Check(m, env, labels, Front(ts, 1), rest)
    case IfElse(_, ty, thn, els, rest) =>
      EndsIn(ts, [I32])
      && Check(m, env, [Label(4, ty, ty, Front(ts, 1) == [], true)] + labels, [], thn)
      && Check(m, env, [Label(4, ty, ty, Front(ts, 1) == [], true)] + labels, [], els)
      && Check(m, env, labels, Front(ts, 1) + ty, rest)
  }

  predicate Stops(op: Op) { op.Trap? || op.Unknown? || op.Br? || op.BrTable? || op.Return? }

  predicate CheckOp(m: Module, env: Env, labels: seq<Label>, ts: seq<ValType>, op: Op)
    requires labels != []
  {
    match op
    case Trap => true
    case Unknown(_) => true
    case Br(d) => CheckBr(labels, ts, d)
    case BrIf(d) => EndsIn(ts, [I32]) && CheckBr(labels, Front(ts, 1), d)
    case BrTable(ds, d) =>
      |ds| <= 0x8000_0000 && EndsIn(ts, [I32]) && CheckBr(labels, Front(ts, 1), d)
      && forall i :: 0 <= i < |ds| ==> CheckBr(labels, Front(ts, 1), ds[i])
    case Return => EndsIn(ts, labels[|labels| - 1].ends)
    case Call(f) => m.IsFunc(f) && CallType(m.TypeOf(f), ts)
    case CallIndirect(t) =>
      t < |m.types| && EndsIn(ts, [I32]) && CallType(m.types[t], Front(ts, 1))
    case _ => IsBasic(op) && BasicType(op, env, ts).Some?
  }

  function After(m: Module, env: Env, ts: seq<ValType>, op: Op): seq<ValType> {
    match op
    case BrIf(_) => if |ts| >= 1 then Front(ts, 1) else ts
    case Call(f) =>
      if m.IsFunc(f) && CallType(m.TypeOf(f), ts) then Front(ts, |m.TypeOf(f).params|) + m.TypeOf(f).results else ts
    case CallIndirect(t) =>
      if t < |m.types| && |ts| >= 1 && CallType(m.types[t], Front(ts, 1))
      then Front(Front(ts, 1), |m.types[t].params|) + m.types[t].results else ts
    case _ => if IsBasic(op) && BasicType(op, env, ts).Some? then BasicType(op, env, ts).value else ts
  }

  function FuncEnv(f: Func, globals: seq<ValType>): Env { Env(f.ty.params + f.locals, globals) }

  function FuncLabel(f: Func): Label { Label(0, f.ty.results, f.ty.results, true, false) }

  ghost predicate CheckFunc(m: Module, globals: seq<ValType>, f: Func) {
    |f.ty.results| <= 1 && Check(m, FuncEnv(f, globals), [FuncLabel(f)], [], f.body)
  }

  predicate TableOk(m: Module) { forall i :: 0 <= i < |m.table| && m.table[i].Some? ==> m.IsFunc(m.table[i].value) }

  ghost predicate ModuleOk(m: Module, globals: seq<ValType>) {
    (forall i :: 0 <= i < |m.funcs| ==> CheckFunc(m, globals, m.funcs[i]))
    && (forall i :: 0 <= i < |m.imports| ==>
          |m.imports[i].results| <= 1 && Supported(m.imports[i]))
    && TableOk(m)
  }

  // ---------- soundness ----------

  ghost predicate StoreOk(env: Env, c: Conf) {
    TypesOf(c.locals) == env.locals && TypesOf(c.globals) == env.globals && MemoryOk(c.mem)
  }

  ghost predicate ConfOk(env: Env, ts: seq<ValType>, c: Conf) {
    TypesOf(c.ops) == ts && StoreOk(env, c)
  }

  /** What validation promises of an outcome: never stuck, operands of the types the label
      reached provides, and no surplus where the label is strict. */
  ghost predicate ResultOk(env: Env, labels: seq<Label>, r: Result)
    requires labels != []
  {
    match r
    case Normal(c) => ConfOk(env, labels[0].ends, c)
    case Jump(d, c) =>
      StoreOk(env, c) && d < |labels| && Ends(c.ops, labels[d].brs)
      && (labels[d].strict ==> |c.ops| == |labels[d].brs| && TidyPath(labels, d))
    case Returned(c) => StoreOk(env, c) && Ends(c.ops, labels[|labels| - 1].ends)
    case Fail(e) => !e.CallSignatureMismatch?
    case Wild(t) => Departs(t)
    case Stuck => false
    case _ => true
  }

  lemma TypesJoin(a: seq<Value>, b: seq<Value>)
    ensures TypesOf(a + b) == TypesOf(a) + TypesOf(b)
  {}

  lemma TypesSplit(vs: seq<Value>, n: nat)
    requires n <= |vs|
    ensures TypesOf(ButLast(vs, n)) == Front(TypesOf(vs), n)
    ensures TypesOf(Last(vs, n)) == TypesOf(vs)[|vs| - n..]
  {}

  lemma EndsFromTypes(vs: seq<Value>, suffix: seq<ValType>)
    ensures Ends(vs, suffix) <==> EndsIn(TypesOf(vs), suffix)
    ensures Ends(vs, suffix) ==> TypesOf(ButLast(vs, |suffix|)) == Front(TypesOf(vs), |suffix|)
  {
    if |suffix| <= |vs| { TypesSplit(vs, |suffix|); }
  }

  lemma GrowOk(m: Memory, delta: nat)
    requires MemoryOk(m) && delta + m.pages <= m.max
    ensures MemoryOk(Memory(m.pages + delta, m.max, m.bytes + Zeros(delta * 0x1_0000)))
  {}

  /** Instructions without control keep types: the operand types after one are BasicType's. */
  lemma BasicSound(m: Module, env: Env, ts: seq<ValType>, op: Op, c: Conf)
    requires IsBasic(op) && BasicType(op, env, ts).Some? && ConfOk(env, ts, c)
    ensures var r := EvalBasic(m, op, c);
            (r.Fail? && !r.e.CallSignatureMismatch?) || (r.Wild? && Departs(r.trap))
            || (r.Normal? && ConfOk(env, BasicType(op, env, ts).value, r.c))
  {
    if op.Load? { LoadSound(m, env, ts, op, c); }
    else if op.Store? { StoreSound(m, env, ts, op, c); }
    else if op.GrowMemory? { GrowSound(m, env, ts, op, c); }
    else if op.Num? { NumSound(m, env, ts, op, c); }
    else if op.Select? { SelectSound(m, env, ts, op, c); }
  }

  lemma LoadSound(m: Module, env: Env, ts: seq<ValType>, op: Op, c: Conf)
    requires op.Load? && BasicType(op, env, ts).Some? && ConfOk(env, ts, c)
    ensures var r := EvalBasic(m, op, c);
            (r.Fail? && !r.e.CallSignatureMismatch?) || (r.Normal? && ConfOk(env, BasicType(op, env, ts).value, r.c))
  {
    hide Access, ReadMemory, WriteMemory;
    EndsFromTypes(c.ops, [I32]);
    if EvalBasic(m, op, c).Normal? {
      TypesJoin(ButLast(c.ops, 1), [ReadMemory(c.mem, op.code, Last(c.ops, 1)[0].bits + op.offset)]);
    }
  }

  lemma StoreSound(m: Module, env: Env, ts: seq<ValType>, op: Op, c: Conf)
    requires op.Store? && BasicType(op, env, ts).Some? && ConfOk(env, ts, c)
    ensures var r := EvalBasic(m, op, c);
            (r.Fail? && !r.e.CallSignatureMismatch?) || (r.Normal? && ConfOk(env, BasicType(op, env, ts).value, r.c))
  {
    hide Access, ReadMemory, WriteMemory;
    EndsFromTypes(c.ops, [I32, Access(op.code).ty]);
  }

  lemma GrowSound(m: Module, env: Env, ts: seq<ValType>, op: Op, c: Conf)
    requires op.GrowMemory? && BasicType(op, env, ts).Some? && ConfOk(env, ts, c)
    ensures var r := EvalBasic(m, op, c);
            (r.Wild? && Departs(r.trap)) || (r.Normal? && ConfOk(env, BasicType(op, env, ts).value, r.c))
  {
    EndsFromTypes(c.ops, [I32]);
    var delta := Last(c.ops, 1)[0].bits;
    if delta + c.mem.pages <= c.mem.max { GrowOk(c.mem, delta); }
    assert forall v: Value | v.ty == I32 :: TypesOf(ButLast(c.ops, 1) + [v]) == ts;
  }

  lemma NumSound(m: Module, env: Env, ts: seq<ValType>, op: Op, c: Conf)
    requires op.Num? && BasicType(op, env, ts).Some? && ConfOk(env, ts, c)
    ensures var r := EvalBasic(m, op, c);
            (r.Fail? && !r.e.CallSignatureMismatch?) || (r.Wild? && Departs(r.trap))
            || (r.Normal? && ConfOk(env, BasicType(op, env, ts).value, r.c))
  {
    hide NumSig, NumArgs, StandardNum, FarShift, EarlyTrap;
    var n := NumSig(op.code).arity;
    TypesSplit(c.ops, n);
    ArgsTyped(op.code, c.ops, n);
    TrapKinds(m.alu, op.code, Last(c.ops, n));
    var r := StandardNum(m.alu, op.code, Last(c.ops, n));
    if r.Gives? { TypesJoin(ButLast(c.ops, n), [MkValue(NumSig(op.code).res, r.v)]); }
  }

  lemma TrapKinds(alu: Alu, code: byte, args: seq<Value>)
    requires IsNum(code) && NumArgs(code, args)
    ensures StandardNum(alu, code, args).Traps? ==> !StandardNum(alu, code, args).e.CallSignatureMismatch?
  {
    hide NumSig, Quot, FromBits, Digit, Pow2;
  }

  lemma ArgsTyped(code: byte, ops: seq<Value>, n: nat)
    requires IsNum(code) && n == NumSig(code).arity <= |ops|
    requires forall i :: |ops| - n <= i < |ops| ==> TypesOf(ops)[i] == NumSig(code).arg
    ensures NumArgs(code, Last(ops, n))
  {
    hide NumSig;
    forall i | 0 <= i < n ensures Last(ops, n)[i].ty == NumSig(code).arg {
      assert TypesOf(ops)[|ops| - n + i] == Last(ops, n)[i].ty;
    }
  }

  lemma SelectSound(m: Module, env: Env, ts: seq<ValType>, op: Op, c: Conf)
    requires op.Select? && BasicType(op, env, ts).Some? && ConfOk(env, ts, c)
    ensures var r := EvalBasic(m, op, c); r.Normal? && ConfOk(env, BasicType(op, env, ts).value, r.c)
  {
    EndsFromTypes(c.ops, [I32]);
    var n := |ts|;
    assert ts[n - 1..] == [ts[n - 1]];
    var args := Last(c.ops, 3);
    assert args[0] == c.ops[n - 3] && args[1] == c.ops[n - 2];
    assert TypesOf(EvalBasic(m, op, c).c.ops) == Front(ts, 2);
  }

  /** Leaving a block turns an outcome under its label into one under the enclosing labels. */
  lemma LeaveSound(env: Env, l: Label, labels: seq<Label>, outer: seq<Value>, r: Result)
    requires labels != [] && ResultOk(env, [l] + labels, r) && (r.Jump? && r.depth == 0 ==> l.brs == l.ends)
    ensures var r' := Leave(l.ends, outer, r);
            if r'.Normal? then ConfOk(env, TypesOf(outer) + l.ends, r'.c) else ResultOk(env, labels, r')
  {
    var all := [l] + labels;
    assert all[|all| - 1] == labels[|labels| - 1];
    match r
    case Normal(c) => TypesJoin(outer, c.ops);
    case Jump(d, c) =>
      if d == 0 {
        TypesJoin(outer, Last(c.ops, |l.ends|));
      } else {
        assert all[d] == labels[d - 1];
        assert forall j :: 0 <= j < |labels| ==> labels[j] == all[j + 1];
      }
    case _ =>
  }

  /** The callee's outcome, read back in the caller. */
  lemma FinishSound(caller: Env, callee: Env, f: Func, c: Conf, r: Result)
    requires caller.globals == callee.globals && TypesOf(c.locals) == caller.locals
    requires ResultOk(callee, [FuncLabel(f)], r)
    ensures var r' := Finish(f.ty, c, r);
            !r'.Stuck? && !r'.Jump? && !r'.Returned? && (r'.Fail? ==> !r'.e.CallSignatureMismatch?)
            && (r'.Wild? ==> Departs(r'.trap))
            && (r'.Normal? ==> ConfOk(caller, TypesOf(c.ops) + f.ty.results, r'.c))
  {
    var n := |f.ty.results|;
    match r
    case Normal(c') => TypesJoin(c.ops, c'.ops);
    case Jump(d, c') => TypesJoin(c.ops, Last(c'.ops, n));
    case Returned(c') => TypesJoin(c.ops, Last(c'.ops, n));
    case _ =>
  }

  lemma EntryOk(f: Func, globals: seq<ValType>, c: Conf)
    requires Ends(c.ops, f.ty.params) && TypesOf(c.globals) == globals && MemoryOk(c.mem)
    ensures ConfOk(FuncEnv(f, globals), [], Entry(f, c))
  {
    TypesJoin(Last(c.ops, |f.ty.params|), ZerosOf(f.locals));
    assert TypesOf(ZerosOf(f.locals)) == f.locals;
  }

  /** Validated code never gets stuck, at any depth of nesting, calls and loop turns. */
  lemma {:induction false} Sound(
      m: Module, env: Env, fuel: nat, code: Code, labels: seq<Label>, ts: seq<ValType>, c: Conf)
    requires ModuleOk(m, env.globals) && labels != []
    requires Check(m, env, labels, ts, code) && ConfOk(env, ts, c)
    ensures ResultOk(env, labels, Eval(m, fuel, code, c))
    decreases fuel, 1, code, 0
  {
    hide ModuleOk, CheckOp, After, EvalOp, Leave, Ends, EndsIn;
    match code
    case Done(_) =>
    case Simple(_, op, rest) =>
      OpSound(m, env, fuel, op, labels, ts, c);
      var r := EvalOp(m, fuel, op, c);
      if r.Normal? { Sound(m, env, fuel, rest, labels, After(m, env, ts, op), r.c); }
    case Block(_, kind, ty, body, rest) =>
      if kind == 4 { IfSound(m, env, fuel, code, labels, ts, c); }
      else { BlockSound(m, env, fuel, code, labels, ts, c); }
    case IfElse(_, ty, thn, els, rest) => IfSound(m, env, fuel, code, labels, ts, c);
  }

  lemma {:induction false} BlockSound(
      m: Module, env: Env, fuel: nat, code: Code, labels: seq<Label>, ts: seq<ValType>, c: Conf)
    requires ModuleOk(m, env.globals) && labels != [] && code.Block? && code.kind != 4
    requires Check(m, env, labels, ts, code) && ConfOk(env, ts, c)
    ensures ResultOk(env, labels, Eval(m, fuel, code, c))
    decreases fuel, 1, code, -1
  {
    hide ModuleOk, Ends, EndsIn, ResultOk, ConfOk, Check;
    var ty, body, rest := code.ty, code.body, code.rest;
    var inner := c.(ops := []);
    var l := PickLabel(m, env, code, labels, ts);
    var r;
    if code.kind == 3 {
      EmptyOps(env, ts, c);
      LoopSound(m, env, fuel, body, l, labels, inner);
      r := EvalLoop(m, fuel, body, inner);
    } else {
      EmptyOps(env, ts, c);
      Sound(m, env, fuel, body, [l] + labels, [], inner);
      r := Eval(m, fuel, body, inner);
    }
    LeaveSound(env, l, labels, c.ops, r);
    OpsTypes(env, ts, c);
    var r' := Leave(ty, c.ops, r);
    if r'.Normal? { Sound(m, env, fuel, rest, labels, ts + ty, r'.c); }
  }

  /** The label under which the body of a block or loop was checked. */
  lemma PickLabel(m: Module, env: Env, code: Code, labels: seq<Label>, ts: seq<ValType>) returns (l: Label)
    requires labels != [] && code.Block? && code.kind != 4 && Check(m, env, labels, ts, code)
    ensures l == Label(code.kind, if code.kind == 3 then [] else code.ty, code.ty, ts == [], l.strict)
    ensures l.strict ==> code.kind == 3
    ensures (code.kind == 2 || code.kind == 3) && Check(m, env, [l] + labels, [], code.body)
    ensures Check(m, env, labels, ts + code.ty, code.rest)
  {
    l := Label(code.kind, if code.kind == 3 then [] else code.ty, code.ty, ts == [], false);
    if !Check(m, env, [l] + labels, [], code.body) { l := l.(strict := true); }
  }

  lemma OpsTypes(env: Env, ts: seq<ValType>, c: Conf)
    requires ConfOk(env, ts, c)
    ensures TypesOf(c.ops) == ts
  {}

  lemma EmptyOps(env: Env, ts: seq<ValType>, c: Conf)
    requires ConfOk(env, ts, c)
    ensures ConfOk(env, [], c.(ops := []))
  {}

  lemma {:induction false} LoopSound(
      m: Module, env: Env, fuel: nat, body: Code, l: Label, labels: seq<Label>, c: Conf)
    requires ModuleOk(m, env.globals) && labels != [] && l.brs == []
    requires Check(m, env, [l] + labels, [], body) && ConfOk(env, [], c)
    ensures var r := EvalLoop(m, fuel, body, c);
            ResultOk(env, [l] + labels, r) && (r.Jump? ==> r.depth > 0)
    decreases fuel, 1, body, 1
  {
    hide ModuleOk, Ends, EndsIn, Check;
    Sound(m, env, fuel, body, [l] + labels, [], c);
    var r := Eval(m, fuel, body, c);
    if r.Jump? && r.depth == 0 && fuel > 0 {
      LoopSound(m, env, fuel - 1, body, l, labels, r.c.(ops := []));
    }
  }

  lemma {:induction false} IfSound(
      m: Module, env: Env, fuel: nat, code: Code, labels: seq<Label>, ts: seq<ValType>, c: Conf)
    requires ModuleOk(m, env.globals) && labels != [] && (code.IfElse? || (code.Block? && code.kind == 4))
    requires Check(m, env, labels, ts, code) && ConfOk(env, ts, c)
    ensures ResultOk(env, labels, Eval(m, fuel, code, c))
    decreases fuel, 1, code, -1
  {
    hide ModuleOk, Ends, EndsIn, ResultOk;
    EndsFromTypes(c.ops, [I32]);
    var outer, cond := ButLast(c.ops, 1), Last(c.ops, 1)[0].bits;
    var l := Label(4, code.ty, code.ty, Front(ts, 1) == [], true);
    var inner := c.(ops := []);
    var arm := if code.IfElse? then (if cond == 0 then code.els else code.thn) else code.body;
    if code.Block? && cond == 0 {
      Sound(m, env, fuel, code.rest, labels, Front(ts, 1), c.(ops := outer));
    } else {
      assert code.Block? ==> code.ty == [];
      Sound(m, env, fuel, arm, [l] + labels, [], inner);
      LeaveSound(env, l, labels, outer, Eval(m, fuel, arm, inner));
      var r := Leave(code.ty, outer, Eval(m, fuel, arm, inner));
      assert code.Block? ==> Front(ts, 1) + code.ty == Front(ts, 1);
      if r.Normal? { Sound(m, env, fuel, code.rest, labels, Front(ts, 1) + code.ty, r.c); }
    }
  }

  lemma {:induction false} OpSound(
      m: Module, env: Env, fuel: nat, op: Op, labels: seq<Label>, ts: seq<ValType>, c: Conf)
    requires ModuleOk(m, env.globals) && labels != []
    requires CheckOp(m, env, labels, ts, op) && ConfOk(env, ts, c)
    ensures var r := EvalOp(m, fuel, op, c);
            if r.Normal? then !Stops(op) && ConfOk(env, After(m, env, ts, op), r.c) else ResultOk(env, labels, r)
    decreases fuel, 0, 2
  {
    hide ModuleOk, EvalBasic, BasicType, EvalCall, CheckBr, TidyPath, EndsIn;
    match op
    case Trap =>
    case Unknown(_) =>
    case Br(_) => BranchSound(m, env, fuel, op, labels, ts, c);
    case BrIf(_) => BranchSound(m, env, fuel, op, labels, ts, c);
    case BrTable(_, _) => BranchSound(m, env, fuel, op, labels, ts, c);
    case Return => EndsFromTypes(c.ops, labels[|labels| - 1].ends);
    case Call(f) => CallSound(m, env, fuel, f, ts, c);
    case CallIndirect(t) => IndirectSound(m, env, fuel, op, labels, ts, c);
    case _ => BasicSound(m, env, ts, op, c);
  }

  lemma BranchSound(m: Module, env: Env, fuel: nat, op: Op, labels: seq<Label>, ts: seq<ValType>, c: Conf)
    requires labels != [] && (op.Br? || op.BrIf? || op.BrTable?)
    requires CheckOp(m, env, labels, ts, op) && ConfOk(env, ts, c)
    ensures var r := EvalOp(m, fuel, op, c);
            if r.Normal? then op.BrIf? && ConfOk(env, Front(ts, 1), r.c) else ResultOk(env, labels, r)
  {
    hide CheckBr, TidyPath, EndsIn, Ends, ResultOk;
    if op.Br? {
      JumpSound(env, labels, ts, op.depth, c);
    } else {
      EndsFromTypes(c.ops, [I32]);
      var c1, i := c.(ops := ButLast(c.ops, 1)), Last(c.ops, 1)[0].bits;
      if op.BrTable? {
        JumpSound(env, labels, Front(ts, 1), if i < |op.targets| then op.targets[i] else op.default, c1);
      } else {
        JumpSound(env, labels, Front(ts, 1), op.depth, c1);
      }
    }
  }

  lemma JumpSound(env: Env, labels: seq<Label>, ts: seq<ValType>, d: nat, c: Conf)
    requires labels != [] && CheckBr(labels, ts, d) && ConfOk(env, ts, c)
    ensures ResultOk(env, labels, Jump(d, c))
  {
    hide TidyPath;
    EndsFromTypes(c.ops, labels[d].brs);
  }

  lemma {:induction false} IndirectSound(
      m: Module, env: Env, fuel: nat, op: Op, labels: seq<Label>, ts: seq<ValType>, c: Conf)
    requires ModuleOk(m, env.globals) && labels != [] && op.CallIndirect?
    requires CheckOp(m, env, labels, ts, op) && ConfOk(env, ts, c)
    ensures var r := EvalOp(m, fuel, op, c);
            if r.Normal? then ConfOk(env, After(m, env, ts, op), r.c) else ResultOk(env, labels, r)
    decreases fuel, 0, 1
  {
    hide CheckFunc, Supported;
    EndsFromTypes(c.ops, [I32]);
    var i := Last(c.ops, 1)[0].bits;
    if !Refused(m, op.t, i) {
      CallSound(m, env, fuel, m.table[i].value, Front(ts, 1), c.(ops := ButLast(c.ops, 1)));
    }
  }

  lemma {:induction false} CallSound(m: Module, env: Env, fuel: nat, f: nat, ts: seq<ValType>, c: Conf)
    requires ModuleOk(m, env.globals) && m.IsFunc(f) && CallType(m.TypeOf(f), ts) && ConfOk(env, ts, c)
    ensures var r := EvalCall(m, fuel, f, c);
            !r.Stuck? && !r.Jump? && !r.Returned? && (r.Fail? ==> !r.e.CallSignatureMismatch?)
            && (r.Wild? ==> Departs(r.trap))
            && (r.Normal? ==> ConfOk(env, Front(ts, |m.TypeOf(f).params|) + m.TypeOf(f).results, r.c))
    decreases fuel, 0, 0
  {
    hide Eval, Check, HostResults;
    var ty := m.TypeOf(f);
    EndsFromTypes(c.ops, ty.params);
    if f < |m.imports| {
      var ps := ButLast(c.ops, |ty.params|);
      var rs := HostResults(m.host, f, ty, Last(c.ops, |ty.params|));
      HostTypes(m.host, f, ty, Last(c.ops, |ty.params|));
      TypesJoin(ps, rs);
    } else if fuel > 0 {
      var fn := m.funcs[f - |m.imports|];
      EntryOk(fn, env.globals, c);
      Sound(m, FuncEnv(fn, env.globals), fuel - 1, fn.body, [FuncLabel(fn)], [], Entry(fn, c));
      FinishSound(env, FuncEnv(fn, env.globals), fn, c.(ops := ButLast(c.ops, |ty.params|)),
                  Eval(m, fuel - 1, fn.body, Entry(fn, c)));
    }
  }

  lemma HostTypes(host: Host, f: nat, ty: FuncType, args: seq<Value>)
    requires |ty.results| <= 1
    ensures TypesOf(HostResults(host, f, ty, args)) == ty.results
  {}
}
