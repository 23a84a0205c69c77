/**
 Who may change parameters and locals: only set_local and tee_local of the running function, and
 the end of the function, which removes them. Suspended activations are never touched.
 */
module Locals {
  import opened Leb
  import opened Wasm
  import opened Bytecode
  import opened Structure
  import opened Blocks
  import opened Thunks
  import opened Machine
  import opened Simulation
  import opened Integers
  import opened Numerics
  import opened Theorems
  import Refinement
  import S = Structured
  import V = Validation

  /** End of the current activation's parameters and locals on the stack. */
  function LocalsEnd(s: State): int
    requires Unwind(s.frames) > 0
  {
    s.fp + |LocalsOf(Activation(s.frames))|
  }

  /** The stack below n is the same in s and t. */
  ghost predicate SameBelow(s: State, t: State, n: int) {
    0 <= n <= |s.stack| && n <= |t.stack| && t.stack[..n] == s.stack[..n]
  }

  /** What the instruction at s.pc may do to the stack of suspended activations and to the locals of
      the current one, if it leads to t. */
  ghost predicate Preserves(p: Program, s: State, t: State)
    requires s.pc < |p.bytes| && Decode(p.bytes, s.pc).Some? && Unwind(s.frames) > 0
  {
    SameBelow(s, t, s.fp) &&
    match Decode(p.bytes, s.pc).value.op
    case SetLocal(i) => Overwrites(s, t, i)
    case TeeLocal(i) => Overwrites(s, t, i)
    case End => s.frames[|s.frames| - 1].block.kind == 0 || SameBelow(s, t, LocalsEnd(s))
    case _ => SameBelow(s, t, LocalsEnd(s))
  }

  /** Local i, and no other, takes the value on top. */
  ghost predicate Overwrites(s: State, t: State, i: nat)
    requires Unwind(s.frames) > 0
  {
    var n := LocalsEnd(s);
    i < |LocalsOf(Activation(s.frames))| && 0 <= s.fp && n <= |s.stack| && n <= |t.stack| && s.stack != []
    && t.stack[..n] == s.stack[..n][s.fp + i := Top(s)]
  }

  lemma BelowLess(s: State, t: State, n: int, k: int)
    requires SameBelow(s, t, k) && 0 <= n <= k
    ensures SameBelow(s, t, n)
  {
    assert t.stack[..n] == t.stack[..k][..n];
  }

  // ---------- the instruction at a site ----------

  lemma {:induction false} PartPlaced(bytes: seq<byte>, part: Code, whole: Code)
    requires Placed(bytes, whole) && IsPart(part, whole)
    ensures Placed(bytes, part)
    decreases whole
  {
    hide NodePlaced;
    if part != whole {
      match whole
      case Simple(_, _, rest) => PartPlaced(bytes, part, rest);
      case Block(_, _, _, body, rest) =>
        if IsPart(part, body) { PartPlaced(bytes, part, body); } else { PartPlaced(bytes, part, rest); }
      case IfElse(_, _, thn, els, rest) =>
        if IsPart(part, thn) { PartPlaced(bytes, part, thn); }
        else if IsPart(part, els) { PartPlaced(bytes, part, els); }
        else { PartPlaced(bytes, part, rest); }
    }
  }

  lemma ModulePlaced(p: Program, m: S.Module, c: Code)
    requires Loaded(p, m) && InModule(m, c)
    ensures Placed(p.bytes, c)
  {
    hide Placed, Covered, IsPart, TableLoaded;
    var f :| f in m.funcs && IsPart(c, f.body);
    var i :| 0 <= i < |m.funcs| && m.funcs[i] == f;
    assert FuncLoaded(p, m.funcs[i], p.funcs[|m.imports| + i]);
    PartPlaced(p.bytes, c, f.body);
  }

  function KindOf(c: Code): nat
    requires !c.Done? && !c.Simple?
  {
    if c.IfElse? then 4 else c.kind
  }

  lemma SiteDecodes(p: Program, m: S.Module, s: State, x: Site)
    requires Loaded(p, m) && AtSite(m, s, x)
    ensures s.pc < |p.bytes| && !x.code.Done?
    ensures x.code.Simple? ==> Decode(p.bytes, s.pc) == Some(Fetched(x.code.op, x.code.rest.at)) && IsSimple(x.code.op)
    ensures !x.code.Simple? ==>
              2 <= KindOf(x.code) <= 4 && Decode(p.bytes, s.pc) == Some(Fetched(Enter(KindOf(x.code)), s.pc + 2))
  {
    hide V.Check, V.ConfOk, InFunction, InModule, Loaded, BlockType, Decode, Housed, IsSimple;
    FunctionInModule(m, x.env, x.labels, x.ts, x.code);
    ModulePlaced(p, m, x.code);
    if !x.code.Simple? { DecodeOpener(p.bytes, s.pc); }
  }

  // ---------- one step from a site ----------

  /** Sizes at a site: the locals lie between fp and the operands. */
  lemma SiteLayout(m: S.Module, s: State, x: Site)
    requires AtSite(m, s, x)
    ensures Unwind(s.frames) > 0 && s.fp == |x.under| && LocalsEnd(s) == |x.under| + |x.c.locals| <= |s.stack|
    ensures TypesOf(x.c.ops) == x.ts && TypesOf(x.c.locals) == x.env.locals && MemoryOk(x.c.mem)
    ensures LocalsEnd(s) + |x.c.ops| <= |s.stack|
  {
    hide V.Check, InFunction, Linked, MemoryOk;
  }

  lemma LocalsAfter(m: S.Module, op: Op, c: S.Conf)
    requires S.IsBasic(op) && S.EvalBasic(m, op, c).Normal?
    ensures var c' := S.EvalBasic(m, op, c).c;
            if op.SetLocal? || op.TeeLocal? then
              op.i < |c.locals| && c.ops != [] && c'.locals == c.locals[op.i := S.Last(c.ops, 1)[0]]
            else c'.locals == c.locals
  {
    hide S.EvalNum, S.EvalLoad, S.EvalStore, S.EvalGrow, S.EvalSelect;
    if op.Num? { NumLocals(m, c, op.code); }
    if op.Load? { LoadLocals(c, op.code, op.offset); }
    if op.Store? { StoreLocals(c, op.code, op.offset); }
    if op.GrowMemory? { GrowLocals(c); }
    if op.Select? { SelectLocals(c); }
  }

  lemma NumLocals(m: S.Module, c: S.Conf, code: byte)
    requires IsNum(code) && S.EvalNum(m, c, code).Normal?
    ensures S.EvalNum(m, c, code).c.locals == c.locals
  {}

  lemma LoadLocals(c: S.Conf, code: byte, offset: u32)
    requires 0x28 <= code <= 0x35 && S.EvalLoad(c, code, offset).Normal?
    ensures S.EvalLoad(c, code, offset).c.locals == c.locals
  {
    hide Access;
  }

  lemma StoreLocals(c: S.Conf, code: byte, offset: u32)
    requires 0x36 <= code <= 0x3e && S.EvalStore(c, code, offset).Normal?
    ensures S.EvalStore(c, code, offset).c.locals == c.locals
  {
    hide Access;
  }

  lemma GrowLocals(c: S.Conf)
    requires S.EvalGrow(c).Normal?
    ensures S.EvalGrow(c).c.locals == c.locals
  {}

  lemma SelectLocals(c: S.Conf)
    requires S.EvalSelect(c).Normal?
    ensures S.EvalSelect(c).c.locals == c.locals
  {}

  lemma AtBelow(s: State, t: State, under: seq<Value>, mid: seq<Value>, mid': seq<Value>, c: S.Conf, c': S.Conf)
    requires At(s, under, mid, c) && At(t, under, mid', c') && c.locals == c'.locals
    ensures SameBelow(s, t, |under| + |c.locals|)
  {
    assert s.stack[..|under| + |c.locals|] == under + c.locals == t.stack[..|under| + |c.locals|];
  }

  lemma AtOverwrites(s: State, t: State, under: seq<Value>, mid: seq<Value>, c: S.Conf, c': S.Conf, i: nat, v: Value)
    requires At(s, under, mid, c) && At(t, under, mid, c') && i < |c.locals| && c'.locals == c.locals[i := v]
    ensures var n := |under| + |c.locals|;
            n <= |s.stack| && n <= |t.stack| && t.stack[..n] == s.stack[..n][|under| + i := v]
    ensures SameBelow(s, t, |under|)
  {
    var n := |under| + |c.locals|;
    assert s.stack[..n] == under + c.locals;
    assert t.stack[..n] == under + c'.locals == (under + c.locals)[|under| + i := v];
    assert s.stack[..|under|] == under == t.stack[..|under|];
  }

  lemma BasicPreserves(p: Program, m: S.Module, s: State, x: Site, t: State)
    requires Loaded(p, m) && AtSite(m, s, x) && x.code.Simple? && S.IsBasic(x.code.op)
    requires s.pc < |p.bytes| && Decode(p.bytes, s.pc) == Some(Fetched(x.code.op, x.code.rest.at))
    requires Step(p, s) == Next(t)
    ensures Unwind(s.frames) > 0 && Preserves(p, s, t)
  {
    hide Decode, Loaded, InFunction, Housed, At, S.EvalBasic, SameBelow, Step, Exec, Preserves, Unwind, V.ConfOk;
    var op, s2, next := x.code.op, s.(pc := x.code.rest.at), x.code.rest.at;
    SiteLayout(m, s, x);
    V.BasicSound(m, x.env, x.ts, op, x.c);
    Refinement.SameAlu(p, m);
    SameAt(s, s2, x.under, x.mid, x.c);
    StepAt(p, s, op, next);
    BasicSim(p, m, s.pc, op, x.c, s2, x.under, x.mid);
    BasicLocals(p, s, x, t, S.EvalBasic(m, op, x.c).c, m);
  }

  /** What one evaluated instruction has done to the locals, seen on the machine's stack. */
  lemma BasicLocals(p: Program, s: State, x: Site, t: State, c: S.Conf, m: S.Module)
    requires x.code.Simple? && S.IsBasic(x.code.op) && S.EvalBasic(m, x.code.op, x.c) == S.Normal(c)
    requires At(s, x.under, x.mid, x.c) && At(t, x.under, x.mid, c)
    requires Unwind(s.frames) > 0 && s.fp == |x.under| && LocalsEnd(s) == |x.under| + |x.c.locals| <= |s.stack|
    requires s.pc < |p.bytes| && Decode(p.bytes, s.pc) == Some(Fetched(x.code.op, x.code.rest.at))
    ensures Preserves(p, s, t)
  {
    hide Decode, At, S.EvalBasic, SameBelow, Preserves, Unwind;
    var op, next := x.code.op, x.code.rest.at;
    LocalsAfter(m, op, x.c);
    if op.SetLocal? || op.TeeLocal? {
      TopOperand(s, x.under, x.mid, x.c);
      AtOverwrites(s, t, x.under, x.mid, x.c, c, op.i, Top(s));
      WritePreserves(p, s, t, op, next);
    } else {
      AtBelow(s, t, x.under, x.mid, x.mid, x.c, c);
      PlainPreserves(p, s, t, op, next, LocalsEnd(s));
    }
  }

  lemma WritePreserves(p: Program, s: State, t: State, op: Op, next: nat)
    requires s.pc < |p.bytes| && Decode(p.bytes, s.pc) == Some(Fetched(op, next)) && Unwind(s.frames) > 0
    requires (op.SetLocal? || op.TeeLocal?) && SameBelow(s, t, s.fp) && Overwrites(s, t, op.i)
    ensures Preserves(p, s, t)
  {
    hide Decode, Unwind, SameBelow, Overwrites;
  }

  lemma SameAt(s: State, s2: State, under: seq<Value>, mid: seq<Value>, c: S.Conf)
    requires At(s, under, mid, c) && s2 == s.(pc := s2.pc)
    ensures At(s2, under, mid, c)
  {}

  /** Popping operands, or pushing above them, leaves everything below. */
  lemma PopBelow(s: State, t: State, n: int, k: int)
    requires 0 <= n <= k <= |s.stack| && s.stack[..k] <= t.stack
    ensures SameBelow(s, t, n)
  {
    assert t.stack[..k] == s.stack[..k];
    assert t.stack[..n] == t.stack[..k][..n];
  }

  lemma CallBelow(p: Program, m: S.Module, globals: seq<ValType>, s: State, f: nat, n: int, t: State)
    requires Loaded(p, m) && V.ModuleOk(m, globals) && m.IsFunc(f) && 0 <= n && n + |m.TypeOf(f).params| <= |s.stack|
    requires CallTo(p, s, f) == Next(t)
    ensures SameBelow(s, t, n)
  {
    hide ThunkFor, ThunkMask, HostResults, V.CheckFunc, Placed, Covered, SameBelow, TableLoaded;
    LoadedCounts(p, m);
    if f < |m.imports| {
      DispatchIsExact(m.imports[f]);
      PopBelow(s, t, n, |s.stack| - |m.imports[f].params|);
    } else {
      assert FuncLoaded(p, m.funcs[f - |m.imports|], p.funcs[f]);
      PopBelow(s, t, n, |s.stack|);
    }
  }

  /** What is below the end of the locals stays if the instruction only pops operands. */
  lemma PlainPreserves(p: Program, s: State, t: State, op: Op, next: nat, k: int)
    requires s.pc < |p.bytes| && Decode(p.bytes, s.pc) == Some(Fetched(op, next)) && Unwind(s.frames) > 0
    requires !op.SetLocal? && !op.TeeLocal? && 0 <= s.fp && LocalsEnd(s) <= k && SameBelow(s, t, k)
    ensures Preserves(p, s, t)
  {
    hide Decode, Unwind, SameBelow;
    BelowLess(s, t, LocalsEnd(s), k);
    BelowLess(s, t, s.fp, LocalsEnd(s));
  }

  lemma BranchPreserves(p: Program, m: S.Module, s: State, x: Site, t: State)
    requires AtSite(m, s, x) && x.code.Simple?
    requires var op := x.code.op; op.Trap? || op.Unknown? || op.Return? || op.Br? || op.BrIf? || op.BrTable?
    requires s.pc < |p.bytes| && Decode(p.bytes, s.pc) == Some(Fetched(x.code.op, x.code.rest.at))
    requires Step(p, s) == Next(t)
    ensures Unwind(s.frames) > 0 && Preserves(p, s, t)
  {
    hide Decode, InFunction, Housed, At, V.ConfOk, SameBelow, Unwind, Preserves;
    SiteLayout(m, s, x);
    var op, k := x.code.op, |s.stack|;
    if op.BrIf? || op.BrTable? {
      Refinement.HasTop(x.env, x.ts, x.c);
      k := k - 1;
    }
    Truncated(p, s, t, op, x.code.rest.at, k);
    PopBelow(s, t, k, k);
    PlainPreserves(p, s, t, op, x.code.rest.at, k);
  }

  lemma Truncated(p: Program, s: State, t: State, op: Op, next: nat, k: int)
    requires s.pc < |p.bytes| && Decode(p.bytes, s.pc) == Some(Fetched(op, next)) && Step(p, s) == Next(t)
    requires op.Trap? || op.Unknown? || op.Return? || op.Br? || op.BrIf? || op.BrTable?
    requires 0 <= k == if op.BrIf? || op.BrTable? then |s.stack| - 1 else |s.stack|
    ensures s.stack[..k] <= t.stack
  {
    hide Decode, Unwind;
  }

  lemma CallPreserves(p: Program, m: S.Module, globals: seq<ValType>, s: State, x: Site, t: State)
    requires Loaded(p, m) && V.ModuleOk(m, globals) && AtSite(m, s, x) && x.code.Simple? && x.code.op.Call?
    requires s.pc < |p.bytes| && Decode(p.bytes, s.pc) == Some(Fetched(x.code.op, x.code.rest.at))
    requires Step(p, s) == Next(t)
    ensures Unwind(s.frames) > 0 && Preserves(p, s, t)
  {
    hide Decode, Loaded, V.ModuleOk, InFunction, Housed, At, V.ConfOk, CallTo, SameBelow, Unwind, Preserves;
    SiteLayout(m, s, x);
    var op, s2, n := x.code.op, s.(pc := x.code.rest.at), LocalsEnd(s);
    Enough(x.ts, m.TypeOf(op.f).params);
    CallBelow(p, m, globals, s2, op.f, n, t);
    SameStack(s, s2, t, n);
    PlainPreserves(p, s, t, op, x.code.rest.at, n);
  }

  lemma IndirectPreserves(p: Program, m: S.Module, globals: seq<ValType>, s: State, x: Site, t: State)
    requires Loaded(p, m) && V.ModuleOk(m, globals) && AtSite(m, s, x) && x.code.Simple? && x.code.op.CallIndirect?
    requires s.pc < |p.bytes| && Decode(p.bytes, s.pc) == Some(Fetched(x.code.op, x.code.rest.at))
    requires Step(p, s) == Next(t)
    requires !Astray(p, m, s)
    ensures Unwind(s.frames) > 0 && Preserves(p, s, t)
  {
    hide Decode, Loaded, V.ModuleOk, InFunction, Housed, At, V.ConfOk, CallTo, SameBelow, Unwind, Preserves,
         Astray, Step;
    SiteLayout(m, s, x);
    var op, s2, n := x.code.op, s.(pc := x.code.rest.at), LocalsEnd(s);
    Refinement.HasTop(x.env, x.ts, x.c);
    TopOperand(s, x.under, x.mid, x.c);
    EntryCalled(p, m, s, x, op);
    var f := m.table[Top(s).bits].value;
    Enough(V.Front(x.ts, 1), m.TypeOf(f).params);
    CallBelow(p, m, globals, Pop(s2), f, n, t);
    PoppedStack(s, Pop(s2), t, n);
    PlainPreserves(p, s, t, op, x.code.rest.at, n);
  }

  lemma ControlPreserves(p: Program, m: S.Module, globals: seq<ValType>, s: State, x: Site, t: State)
    requires Loaded(p, m) && V.ModuleOk(m, globals) && AtSite(m, s, x) && x.code.Simple? && !S.IsBasic(x.code.op)
    requires s.pc < |p.bytes| && Decode(p.bytes, s.pc) == Some(Fetched(x.code.op, x.code.rest.at))
    requires IsSimple(x.code.op)
    requires Step(p, s) == Next(t) && !Astray(p, m, s)
    ensures Unwind(s.frames) > 0 && Preserves(p, s, t)
  {
    hide Decode, Loaded, V.ModuleOk, AtSite, Astray, Step, Preserves, Unwind;
    if x.code.op.Call? { CallPreserves(p, m, globals, s, x, t); }
    else if x.code.op.CallIndirect? { IndirectPreserves(p, m, globals, s, x, t); }
    else { BranchPreserves(p, m, s, x, t); }
  }

  lemma Enough(ts: seq<ValType>, params: seq<ValType>)
    requires V.EndsIn(ts, params)
    ensures |params| <= |ts|
  {}

  lemma SameStack(s: State, s2: State, t: State, n: int)
    requires s2.stack == s.stack && SameBelow(s2, t, n)
    ensures SameBelow(s, t, n)
  {}

  lemma PoppedStack(s: State, s2: State, t: State, n: int)
    requires s.stack != [] && s2.stack == s.stack[..|s.stack| - 1] && SameBelow(s2, t, n)
    ensures SameBelow(s, t, n)
  {
    assert s2.stack[..n] == s.stack[..n];
  }

  /** A call_indirect that does not go astray and does not trap calls what the standard calls. */
  lemma EntryCalled(p: Program, m: S.Module, s: State, x: Site, op: Op)
    requires Loaded(p, m) && AtSite(m, s, x) && op.CallIndirect? && V.CheckOp(m, x.env, x.labels, x.ts, op)
    requires TopIs(s, I32)
    requires s.pc < |p.bytes| && Decode(p.bytes, s.pc) == Some(Fetched(op, x.code.rest.at)) && x.code.Simple?
    requires Step(p, s).Next? && !Astray(p, m, s)
    ensures !S.Refused(m, op.t, Top(s).bits)
    ensures CallTo(p, Pop(s.(pc := x.code.rest.at)), m.table[Top(s).bits].value) == Step(p, s)
  {
    hide Decode, Loaded, InFunction, Housed, At, V.ConfOk, CallTo, V.Check;
    var i := Top(s).bits;
    Refinement.TableSize(p, m);
    Refinement.EntryLoaded(p, m, i);
  }

  lemma EnterPreserves(p: Program, m: S.Module, s: State, x: Site, t: State, kind: byte)
    requires AtSite(m, s, x) && !x.code.Simple? && 2 <= kind <= 4
    requires s.pc < |p.bytes| && Decode(p.bytes, s.pc) == Some(Fetched(Enter(kind), s.pc + 2)) && Step(p, s) == Next(t)
    requires kind == 4 ==> x.c.ops != []
    ensures Unwind(s.frames) > 0 && Preserves(p, s, t)
  {
    hide Decode, InFunction, Housed, At, V.ConfOk, V.Check, SameBelow, Unwind;
    SiteLayout(m, s, x);
    var n := LocalsEnd(s);
    PopBelow(s, t, n, if kind == 4 then |s.stack| - 1 else |s.stack|);
    BelowLess(s, t, s.fp, n);
  }

  // ---------- one step from an else or end ----------

  /** The function frame of the activation and the top frame, which is above it or the same. */
  lemma TopAndActivation(frames: seq<Frame>, fp: int, height: nat)
    requires Stacked(frames, height) && Unwind(frames) > 0 && Linked(frames, fp)
    ensures fp == Base(Activation(frames)) && Activation(frames).block.kind == 0
    ensures var f := frames[|frames| - 1];
            if f.block.kind == 0 then f == Activation(frames) else Floor(Activation(frames)) <= Base(f)
  {
    ActivationLinked(frames, fp);
    var n := |frames| - 1;
    if frames[n].block.kind != 0 { assert Unwind(frames) - 1 < n; }
  }

  lemma {:induction false} ActivationLinked(frames: seq<Frame>, fp: int)
    requires Unwind(frames) > 0 && Linked(frames, fp)
    ensures fp == Base(Activation(frames)) && Activation(frames).block.kind == 0
    ensures Unwind(frames) == |frames| <==> frames[|frames| - 1].block.kind == 0
    decreases |frames|
  {
    var n := |frames| - 1;
    if frames[n].block.kind != 0 { ActivationLinked(frames[..n], fp); }
  }

  lemma EndPreserves(p: Program, m: S.Module, s: State, t: State)
    requires Stacked(s.frames, |s.stack|) && LocalsTyped(s) && AtTerminator(p, m, s)
    requires Step(p, s) == Next(t) || Step(p, s) == Halt(t)
    ensures Decode(p.bytes, s.pc).Some? && Preserves(p, s, t)
  {
    hide Decode, Visits, Stacked, Linked, SameBelow, Unwind, Step, Preserves;
    TopAndActivation(s.frames, s.fp, |s.stack|);
    TopFits(s);
    DecodeTerminator(p.bytes, s.pc);
    if p.bytes[s.pc] == 0x05 { ElseStep(p, s, t); } else { EndStep(p, s, t); }
  }

  lemma TopFits(s: State)
    requires Stacked(s.frames, |s.stack|) && s.frames != []
    ensures var f := s.frames[|s.frames| - 1]; 0 <= Base(f) <= |s.stack|
  {}

  lemma ElseStep(p: Program, s: State, t: State)
    requires s.pc < |p.bytes| && Decode(p.bytes, s.pc) == Some(Fetched(Else, s.pc + 1)) && LocalsTyped(s)
    requires Step(p, s) == Next(t) || Step(p, s) == Halt(t)
    ensures Preserves(p, s, t)
  {
    hide Decode, Linked, SameBelow, Unwind, Preserves;
    PopBelow(s, t, |s.stack|, |s.stack|);
    PlainPreserves(p, s, t, Else, s.pc + 1, |s.stack|);
  }

  lemma EndStep(p: Program, s: State, t: State)
    requires s.pc < |p.bytes| && Decode(p.bytes, s.pc) == Some(Fetched(End, s.pc + 1)) && LocalsTyped(s)
    requires Step(p, s) == Next(t) || Step(p, s) == Halt(t)
    requires s.frames != []
    requires var f := s.frames[|s.frames| - 1];
             0 <= Base(f) <= |s.stack|
             && if f.block.kind == 0 then s.fp == Base(f) else LocalsEnd(s) <= Base(f)
    ensures Preserves(p, s, t)
  {
    hide Decode, Linked, SameBelow, Unwind, Unwound;
    var f := s.frames[|s.frames| - 1];
    UnwoundBelow(s.(pc := s.pc + 1), t, f);
    SameStack(s, s.(pc := s.pc + 1), t, Base(f));
    if f.block.kind != 0 { BelowLess(s, t, LocalsEnd(s), Base(f)); }
    BelowLess(s, t, s.fp, Base(f));
  }

  /** pop_block keeps everything below the base of the frame. */
  lemma UnwoundBelow(s: State, t: State, f: Frame)
    requires s.frames != [] && f == s.frames[|s.frames| - 1] && 0 <= Base(f) <= |s.stack|
    requires PopBlock(s).Next? && t.stack == PopBlock(s).s.stack
    ensures SameBelow(s, t, Base(f))
  {}

  lemma IfHasCondition(m: S.Module, s: State, x: Site)
    requires AtSite(m, s, x) && !x.code.Simple? && KindOf(x.code) == 4
    ensures x.c.ops != []
  {
    hide InFunction, Housed, At;
    Refinement.HasTop(x.env, x.ts, x.c);
  }

  lemma OnlyEndHalts(p: Program, s: State)
    requires s.pc < |p.bytes| && Decode(p.bytes, s.pc).Some? && !Decode(p.bytes, s.pc).value.op.End?
    ensures !Step(p, s).Halt?
  {
    hide Decode, ThunkFor, ThunkMask, SwitchNum, Access;
  }

  // ---------- the step theorem ----------

  /** From any well-typed, well laid-out state that is not about to go astray. */
  lemma StepPreserves(p: Program, m: S.Module, globals: seq<ValType>, s: State, t: State)
    requires Loaded(p, m) && V.ModuleOk(m, globals) && Keeps(p, m, Next(s), [], []) && !Astray(p, m, s)
    requires Step(p, s) == Next(t) || Step(p, s) == Halt(t)
    ensures s.pc < |p.bytes| && Decode(p.bytes, s.pc).Some? && Unwind(s.frames) > 0 && Preserves(p, s, t)
  {
    hide Loaded, V.ModuleOk, Step, Decode, Preserves, Stacked, AtSite, AtTerminator, Astray, Unwind, Linked;
    if x :| AtSite(m, s, x) {
      SiteDecodes(p, m, s, x);
      OnlyEndHalts(p, s);
      if !x.code.Simple? {
        if KindOf(x.code) == 4 { IfHasCondition(m, s, x); }
        EnterPreserves(p, m, s, x, t, KindOf(x.code));
      } else if S.IsBasic(x.code.op) {
        BasicPreserves(p, m, s, x, t);
      } else {
        ControlPreserves(p, m, globals, s, x, t);
      }
    } else {
      EndPreserves(p, m, s, t);
    }
  }

  /** In every run of validated code and at every step of it: an instruction other than set_local,
      tee_local and the function's own end leaves the parameters and locals of the current
      activation as they are; set_local and tee_local overwrite the one they name; and nothing
      touches the parameters and locals of a suspended activation. */
  lemma LocalsKept(p: Program, m: S.Module, globals: seq<ValType>, n: nat, i: nat, s: State,
                   below: seq<Value>, args: seq<Value>, t: State)
    requires Invocation(p, m, globals, i, s, below, args)
    ensures SetupCall(s, p.funcs[p.imports + i]).Next?
    ensures var o := Run(p, Started(p, i, s), n);
            o.Next? && !WentAstray(p, m, Started(p, i, s), n + 1)
            && (Step(p, o.s) == Next(t) || Step(p, o.s) == Halt(t)) ==>
              o.s.pc < |p.bytes| && Decode(p.bytes, o.s.pc).Some? && Unwind(o.s.frames) > 0 && Preserves(p, o.s, t)
              && (forall j :: 0 <= j < Unwind(o.s.frames) - 1 ==> Untouched(o.s, t, o.s.frames[j]))
  {
    hide Run, V.ModuleOk, Loaded, SetupCall, Step, Decode, Preserves, Stacked, Linked, Astray, Typed, Unwind;
    LoadedCounts(p, m);
    NoFrames();
    CallDiscipline(p, m, globals, n, i, s, below, args);
    var s1 := Started(p, i, s);
    var o := Run(p, s1, n);
    if o.Next? && !WentAstray(p, m, s1, n + 1) && (Step(p, o.s) == Next(t) || Step(p, o.s) == Halt(t)) {
      SoFar(p, m, s1, n);
      KeepsWeaker(p, m, o, below, [], [], []);
      StepPreserves(p, m, globals, o.s, t);
      forall j | 0 <= j < Unwind(o.s.frames) - 1 ensures Untouched(o.s, t, o.s.frames[j]) {
        SuspendedUntouched(p, o.s, t, j);
      }
    }
  }

  /** Parameters and locals of the activation with function frame f, or nothing for a block. */
  ghost predicate Untouched(s: State, t: State, f: Frame) {
    var lo, hi := Base(f), Floor(f);
    0 <= lo <= hi <= |s.stack| && hi <= |t.stack| && t.stack[lo..hi] == s.stack[lo..hi]
  }

  lemma SoFar(p: Program, m: S.Module, s: State, n: nat)
    requires !WentAstray(p, m, s, n + 1)
    ensures !WentAstray(p, m, s, n) && !AstrayAt(p, m, s, n)
  {
    hide AstrayAt;
  }

  lemma SliceSame(a: seq<Value>, b: seq<Value>, n: int, lo: int, hi: int)
    requires 0 <= lo <= hi <= n <= |a| && n <= |b| && b[..n] == a[..n]
    ensures b[lo..hi] == a[lo..hi]
  {
    assert b[lo..hi] == b[..n][lo..hi];
    assert a[lo..hi] == a[..n][lo..hi];
  }

  lemma SuspendedUntouched(p: Program, s: State, t: State, j: nat)
    requires Stacked(s.frames, |s.stack|) && LocalsTyped(s) && j < Unwind(s.frames) - 1
    requires s.pc < |p.bytes| && Decode(p.bytes, s.pc).Some? && Preserves(p, s, t)
    ensures Untouched(s, t, s.frames[j])
  {
    hide Linked, Decode, Unwind;
    TopAndActivation(s.frames, s.fp, |s.stack|);
    var lo, hi := Base(s.frames[j]), Floor(s.frames[j]);
    assert hi <= Base(Activation(s.frames)) == s.fp;
    SliceSame(s.stack, t.stack, s.fp, lo, hi);
  }
}
