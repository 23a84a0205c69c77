/**
 Two small modules on which the interpreter and the standard differ, down to the bytes.
 */
module Deviations {
  import opened Leb
  import opened Wasm
  import opened Bytecode
  import opened Structure
  import opened Blocks
  import opened Machine
  import opened Simulation
  import opened Refinement
  import opened Theorems
  import S = Structured
  import V = Validation

  function I(n: u32): Value { Tagged(I32, n) }

  lemma DecodeConst32(bytes: seq<byte>, at: nat)
    requires at + 1 < |bytes| && bytes[at] == 0x41 && bytes[at + 1] < 64
    ensures Decode(bytes, at) == Some(Fetched(Const(I(bytes[at + 1])), at + 2))
  {
    hide ReadU32, DecodeConst;
    OneByteOperand(bytes, at + 1);
  }

  lemma DecodeBr(bytes: seq<byte>, at: nat)
    requires at + 1 < |bytes| && bytes[at] == 0x0c && bytes[at + 1] < 64
    ensures Decode(bytes, at) == Some(Fetched(Br(bytes[at + 1]), at + 2))
  {
    hide ReadU32, DecodeConst;
    OneByteOperand(bytes, at + 1);
  }

  lemma DecodeDrop(bytes: seq<byte>, at: nat)
    requires at < |bytes| && bytes[at] == 0x1a
    ensures Decode(bytes, at) == Some(Fetched(Drop, at + 1))
  {}

  lemma DecodeIndirect(bytes: seq<byte>, at: nat)
    requires at + 2 < |bytes| && bytes[at] == 0x11 && bytes[at + 1] < 64 && bytes[at + 2] < 64
    ensures Decode(bytes, at) == Some(Fetched(CallIndirect(bytes[at + 1]), at + 3))
  {
    hide ReadU32, DecodeConst;
    OneByteOperand(bytes, at + 1);
    OneByteOperand(bytes, at + 2);
  }

  /** One more step. */
  lemma Further(p: Program, s: State, k: nat, t: State, o: Outcome)
    requires Run(p, s, k) == Next(t) && Step(p, t) == o
    ensures Run(p, s, k + 1) == o
  {
    hide Step;
    RunAdd(p, s, k, 1);
    RunOne(p, t);
  }

  // ---------- a surplus operand on a branch to an if ----------

  /** i32.const 1  i32.const 1  if (result i32)  i32.const 2  i32.const 3  br 0
      else  i32.const 4  end  drop  end */
  const SURPLUS: seq<byte> :=
    [0x41, 0x01, 0x41, 0x01, 0x04, 0x7f, 0x41, 0x02, 0x41, 0x03, 0x0c, 0x00, 0x05, 0x41, 0x04, 0x0b, 0x1a, 0x0b]

  function Then(): Code { Simple(6, Const(I(2)), Simple(8, Const(I(3)), Simple(10, Br(0), Done(12)))) }

  function Else(): Code { Simple(13, Const(I(4)), Done(15)) }

  function TheIf(): Code { IfElse(4, [I32], Then(), Else(), Simple(16, Drop, Done(17))) }

  function Surplus(): Code { Simple(0, Const(I(1)), Simple(2, Const(I(1)), TheIf())) }

  function SurplusFunc(): S.Func { S.Func(FuncType([], [I32]), [], Surplus()) }

  function SurplusModule(alu: Alu): S.Module { S.Module([], [], [SurplusFunc()], [], 0, alu, (_, _) => 0) }

  function SurplusProgram(alu: Alu): Program {
    Program(SURPLUS, 0, [BlockRec(0, FuncType([], [I32]), [], 0, 17, 0, 17)], map[4 := RecordOf(TheIf())], [], 0, alu,
            SurplusModule(alu).host)
  }

  lemma SurplusPlaced()
    ensures Placed(SURPLUS, Surplus())
  {
    hide Decode, Placed, BlockType, DecodeConst, ReadU32;
    ArmsPlaced();
    DecodeConst32(SURPLUS, 0);
    DecodeConst32(SURPLUS, 2);
    PlacedOne(SURPLUS, Simple(2, Const(I(1)), TheIf()));
    PlacedOne(SURPLUS, Surplus());
  }

  lemma PlacedOne(bytes: seq<byte>, c: Code)
    requires c.Simple? && NodePlaced(bytes, c) && Placed(bytes, c.rest)
    ensures Placed(bytes, c)
  {
    hide NodePlaced;
  }

  lemma ArmsPlaced()
    ensures Placed(SURPLUS, TheIf())
  {
    hide Decode, DecodeConst, ReadU32;
    DecodeConst32(SURPLUS, 6);
    DecodeConst32(SURPLUS, 8);
    DecodeConst32(SURPLUS, 13);
    DecodeBr(SURPLUS, 10);
    DecodeDrop(SURPLUS, 16);
    assert Placed(SURPLUS, Then()) && Placed(SURPLUS, Else());
  }

  lemma SurplusLoaded(alu: Alu)
    ensures Loaded(SurplusProgram(alu), SurplusModule(alu))
  {
    hide Placed;
    SurplusPlaced();
    assert Covered(SurplusProgram(alu).lookup, Then()) && Covered(SurplusProgram(alu).lookup, Else());
    assert Covered(SurplusProgram(alu).lookup, TheIf());
    assert Covered(SurplusProgram(alu).lookup, Surplus());
  }

  lemma PushEval(m: S.Module, at: nat, v: Value, rest: Code, c: Conf)
    ensures S.Eval(m, 1, Simple(at, Const(v), rest), c) == S.Eval(m, 1, rest, c.(ops := c.ops + [v]))
  {
    assert S.EvalOp(m, 1, Const(v), c) == S.Normal(c.(ops := c.ops + [v]));
  }

  lemma JumpEval(m: S.Module, at: nat, d: u32, rest: Code, c: Conf)
    ensures S.Eval(m, 1, Simple(at, Br(d), rest), c) == S.Jump(d, c)
  {}

  lemma SurplusThen(m: S.Module, c: Conf)
    requires c.ops == []
    ensures S.Eval(m, 1, Then(), c) == S.Jump(0, c.(ops := [I(2), I(3)]))
  {
    hide S.Eval;
    var one, two := c.(ops := [I(2)]), c.(ops := [I(2), I(3)]);
    assert c.ops + [I(2)] == [I(2)] && one.ops + [I(3)] == [I(2), I(3)];
    PushEval(m, 6, I(2), Simple(8, Const(I(3)), Simple(10, Br(0), Done(12))), c);
    PushEval(m, 8, I(3), Simple(10, Br(0), Done(12)), one);
    JumpEval(m, 10, 0, Done(12), two);
  }

  /** The standard: the branch leaves 1 and the result 3, drop removes 3, and 1 is returned. */
  lemma SurplusEvaluates(m: S.Module, s: State)
    requires m == SurplusModule(m.alu)
    ensures CallResult(m, 1, SurplusFunc(), s.stack, [], s) == S.Normal(S.Conf(s.stack + [I(1)], [], s.globals, s.mem))
  {
    hide S.Eval;
    var c := StartConf(SurplusFunc(), [], s);
    var one, two := c.(ops := [I(1)]), c.(ops := [I(1), I(1)]);
    assert c.ops + [I(1)] == [I(1)] && one.ops + [I(1)] == [I(1), I(1)];
    PushEval(m, 0, I(1), Simple(2, Const(I(1)), TheIf()), c);
    PushEval(m, 2, I(1), TheIf(), one);
    SurplusThen(m, c);
    SurplusIf(m, c);
  }

  lemma SurplusIf(m: S.Module, c: Conf)
    requires m == SurplusModule(m.alu)
    requires S.Eval(m, 1, Then(), c.(ops := [])) == S.Jump(0, c.(ops := [I(2), I(3)]))
    ensures S.Eval(m, 1, TheIf(), c.(ops := [I(1), I(1)])) == S.Normal(c.(ops := [I(1)]))
  {
    var ops := [I(1), I(1)];
    assert S.Last(ops, 1) == [I(1)] && S.ButLast(ops, 1) == [I(1)];
    assert S.Last([I(2), I(3)], 1) == [I(3)];
    assert [I(1)] + [I(3)] == [I(1), I(3)];
    assert S.ButLast([I(1), I(3)], 1) == [I(1)];
    assert S.Eval(m, 1, Simple(16, Drop, Done(17)), c.(ops := [I(1), I(3)])) == S.Normal(c.(ops := [I(1)]));
  }

  /** The interpreter: 1, 2 and 3 are left behind the end, drop removes 3, and 2 is returned. */
  lemma SurplusRuns(alu: Alu, s: State)
    requires s.frames == []
    ensures var p := SurplusProgram(alu);
            Run(p, Started(p, 0, s), 9) == Halt(s.(stack := s.stack + [I(2)]))
  {
    hide Run, Step;
    var p := SurplusProgram(alu);
    SurplusInside(alu, s);
    SurplusBehind(alu, s);
    RunAdd(p, Started(p, 0, s), 5, 4);
  }

  /** The state before the branch. */
  function BeforeBranch(alu: Alu, s: State): State {
    var p, st := SurplusProgram(alu), s.stack;
    var frames := [Frame(p.funcs[0], |st| - 1, s.fp, s.pc), Frame(RecordOf(TheIf()), |st| + 1, |st|, 6)];
    Started(p, 0, s).(pc := 10, stack := st + [I(1), I(2), I(3)], frames := frames)
  }

  lemma SurplusInside(alu: Alu, s: State)
    requires s.frames == []
    ensures var p := SurplusProgram(alu);
            Run(p, Started(p, 0, s), 5) == Next(BeforeBranch(alu, s))
  {
    hide Run, Decode, Step;
    var p, st := SurplusProgram(alu), s.stack;
    var s0 := Started(p, 0, s);
    var s5 := BeforeBranch(alu, s);
    var s1, s2 := s0.(pc := 2, stack := st + [I(1)]), s0.(pc := 4, stack := st + [I(1), I(1)]);
    var s3, s4 := s5.(pc := 6, stack := st + [I(1)]), s5.(pc := 8, stack := st + [I(1), I(2)]);
    Run0(p, s0);
    PushStep(p, s0, 1); Further(p, s0, 0, s0, Next(s1));
    PushStep(p, s1, 1); Further(p, s0, 1, s1, Next(s2));
    IfStep(p, s2, s3, st); Further(p, s0, 2, s2, Next(s3));
    PushStep(p, s3, 2); Further(p, s0, 3, s3, Next(s4));
    PushStep(p, s4, 3); Further(p, s0, 4, s4, Next(s5));
  }

  lemma SurplusBehind(alu: Alu, s: State)
    requires s.frames == []
    ensures var p := SurplusProgram(alu);
            Run(p, BeforeBranch(alu, s), 4) == Halt(s.(stack := s.stack + [I(2)]))
  {
    hide Run, Decode, Step;
    var p, st := SurplusProgram(alu), s.stack;
    var s5 := BeforeBranch(alu, s);
    var s6 := s5.(pc := 15);
    var s7 := s5.(pc := 16, frames := [s5.frames[0]]);
    var s8 := s7.(pc := 17, stack := st + [I(1), I(2)]);
    Run0(p, s5);
    BranchStep(p, s5, s6); Further(p, s5, 0, s5, Next(s6));
    EndIfStep(p, s6, s7, st); Further(p, s5, 1, s6, Next(s7));
    DropStep(p, s7, s8, st); Further(p, s5, 2, s7, Next(s8));
    LastStep(p, s8, s.(stack := st + [I(2)]), st); Further(p, s5, 3, s8, Halt(s.(stack := st + [I(2)])));
  }

  lemma Run0(p: Program, s: State)
    ensures Run(p, s, 0) == Next(s)
  {}

  lemma PushStep(p: Program, s: State, n: byte)
    requires s.pc + 1 < |p.bytes| && p.bytes[s.pc] == 0x41 && p.bytes[s.pc + 1] == n < 64
    ensures Step(p, s) == Next(s.(pc := s.pc + 2, stack := s.stack + [I(n)]))
  {
    hide Decode;
    DecodeConst32(p.bytes, s.pc);
  }

  lemma IfStep(p: Program, s: State, t: State, st: seq<Value>)
    requires p.bytes == SURPLUS && p.lookup == map[4 := RecordOf(TheIf())] && s.pc == 4 && s.stack == st + [I(1), I(1)]
    requires t == s.(pc := 6, stack := st + [I(1)], frames := s.frames + [Frame(RecordOf(TheIf()), |st| + 1, s.fp, 6)])
    ensures Step(p, s) == Next(t)
  {
    hide Decode;
    DecodeOpener(p.bytes, 4);
    assert s.stack[..|s.stack| - 1] == st + [I(1)];
  }

  lemma BranchStep(p: Program, s: State, t: State)
    requires p.bytes == SURPLUS && s.pc == 10 && |s.frames| > 0 && s.frames[|s.frames| - 1].block.br == 15
    requires t == s.(pc := 15)
    ensures Step(p, s) == Next(t)
  {
    hide Decode;
    DecodeBr(p.bytes, 10);
    assert s.frames[..|s.frames| - 0] == s.frames;
  }

  lemma EndIfStep(p: Program, s: State, t: State, st: seq<Value>)
    requires p.bytes == SURPLUS && s.pc == 15 && |s.frames| == 2 && s.stack == st + [I(1), I(2), I(3)]
    requires s.frames[1] == Frame(RecordOf(TheIf()), |st| + 1, s.fp, 6)
    requires t == s.(pc := 16, stack := st + [I(1), I(2), I(3)], frames := [s.frames[0]])
    ensures Step(p, s) == Next(t)
  {
    hide Decode;
    DecodeTerminator(p.bytes, 15);
    assert s.frames[..1] == [s.frames[0]];
    assert s.stack[..|st| + 2] + [I(3)] == s.stack;
  }

  lemma DropStep(p: Program, s: State, t: State, st: seq<Value>)
    requires p.bytes == SURPLUS && s.pc == 16 && s.stack == st + [I(1), I(2), I(3)]
    requires t == s.(pc := 17, stack := st + [I(1), I(2)])
    ensures Step(p, s) == Next(t)
  {
    hide Decode;
    DecodeDrop(p.bytes, 16);
    assert s.stack[..|s.stack| - 1] == st + [I(1), I(2)];
  }

  /** The end of the invoked function, with one value too many on its stack or not. */
  lemma LastStep(p: Program, s: State, t: State, st: seq<Value>)
    requires s.pc < |p.bytes| && p.bytes[s.pc] == 0x0b && |s.frames| == 1
    requires var f := s.frames[0];
             f.block.kind == 0 && f.block.ty.results == [I32] && f.sp == |st| - 1
             && t == s.(pc := f.ra, fp := f.fp, frames := [], stack := st + [Top2(s)])
    requires |s.stack| > |st| && s.stack[..|st|] == st && Top2(s).ty == I32
    ensures Step(p, s) == Halt(t)
  {
    hide Decode;
    DecodeTerminator(p.bytes, s.pc);
    assert s.frames[..0] == [];
    if |s.stack| == |st| + 1 { assert s.stack == st + [Top2(s)]; }
  }

  function Top2(s: State): Value { if s.stack == [] then I(0) else s.stack[|s.stack| - 1] }

  /** On these bytes the standard returns 1 and the interpreter 2. */
  lemma SurplusDiffers(alu: Alu, s: State)
    requires s.frames == []
    ensures var p, m := SurplusProgram(alu), SurplusModule(alu);
            Loaded(p, m)
            && CallResult(m, 1, m.funcs[0], s.stack, [], s) == S.Normal(S.Conf(s.stack + [I(1)], [], s.globals, s.mem))
            && Run(p, Started(p, 0, s), 9) == Halt(s.(stack := s.stack + [I(2)]))
  {
    hide Run, Loaded;
    SurplusLoaded(alu);
    SurplusEvaluates(SurplusModule(alu), s);
    SurplusRuns(alu, s);
  }

  // ---------- an uninitialised table element ----------

  /** function 0: i32.const 5  end;  function 1: i32.const 0  call_indirect 0  end */
  const TABLE: seq<byte> := [0x41, 0x05, 0x0b, 0x41, 0x00, 0x11, 0x00, 0x00, 0x0b]

  function Five(): Code { Simple(0, Const(I(5)), Done(2)) }

  function Caller(): Code { Simple(3, Const(I(0)), Simple(5, CallIndirect(0), Done(8))) }

  /** A table of two elements of which the element section has set only the second. */
  function TableModule(alu: Alu): S.Module {
    var ty := FuncType([], [I32]);
    S.Module([ty], [], [S.Func(ty, [], Five()), S.Func(ty, [], Caller())], [None, Some(1)], 2, alu, (_, _) => 0)
  }

  function TableProgram(alu: Alu): Program {
    var ty := FuncType([], [I32]);
    Program(TABLE, 0, [BlockRec(0, ty, [], 0, 2, 0, 2), BlockRec(0, ty, [], 3, 8, 0, 8)], map[], [0, 1], 2, alu,
            TableModule(alu).host)
  }

  lemma TableIsLoaded(alu: Alu)
    ensures Loaded(TableProgram(alu), TableModule(alu))
  {
    hide Decode;
    DecodeConst32(TABLE, 0);
    DecodeConst32(TABLE, 3);
    DecodeIndirect(TABLE, 5);
    assert Placed(TABLE, Five()) && Placed(TABLE, Caller());
  }

  lemma RefusedEval(m: S.Module, c: Conf)
    requires m == TableModule(m.alu) && c.ops == [I(0)]
    ensures S.Eval(m, 1, Simple(5, CallIndirect(0), Done(8)), c) == S.Fail(IndirectSignatureMismatch)
  {
    assert S.Last(c.ops, 1) == [I(0)];
    assert S.EvalOp(m, 1, CallIndirect(0), c) == S.Fail(IndirectSignatureMismatch);
  }

  lemma TableEvaluates(m: S.Module, s: State)
    requires m == TableModule(m.alu)
    ensures CallResult(m, 1, m.funcs[1], s.stack, [], s) == S.Fail(IndirectSignatureMismatch)
  {
    hide S.Eval;
    var c := StartConf(m.funcs[1], [], s);
    assert c.ops + [I(0)] == [I(0)];
    PushEval(m, 3, I(0), Simple(5, CallIndirect(0), Done(8)), c);
    RefusedEval(m, c.(ops := [I(0)]));
  }

  lemma CallStep(p: Program, s: State, t: State, st: seq<Value>)
    requires p.bytes == TABLE && p.tableMax == 2 && p.table == [0, 1] && |p.funcs| == 2 && p.imports == 0
    requires p.funcs[0] == BlockRec(0, FuncType([], [I32]), [], 0, 2, 0, 2) && s.pc == 5 && s.stack == st + [I(0)]
    requires t == s.(pc := 0, fp := |st|, stack := st, frames := s.frames + [Frame(p.funcs[0], |st| - 1, s.fp, 8)])
    ensures Step(p, s) == Next(t)
  {
    hide Decode;
    DecodeIndirect(p.bytes, 5);
    assert s.stack[..|s.stack| - 1] == st;
    assert st + ZerosOf([]) == st && st[|st|..|st|] == [];
  }

  lemma ReturnStep(p: Program, s: State, t: State, st: seq<Value>)
    requires p.bytes == TABLE && s.pc == 2 && |s.frames| == 2 && s.stack == st + [I(5)]
    requires s.frames[1].block == BlockRec(0, FuncType([], [I32]), [], 0, 2, 0, 2) && s.frames[1].sp == |st| - 1
    requires t == s.(pc := s.frames[1].ra, fp := s.frames[1].fp, frames := [s.frames[0]])
    ensures Step(p, s) == Next(t)
  {
    hide Decode;
    DecodeTerminator(p.bytes, 2);
    assert s.frames[..1] == [s.frames[0]];
    assert s.stack[..|st|] + [I(5)] == s.stack;
  }

  lemma TableRuns(alu: Alu, s: State)
    requires s.frames == []
    ensures var p := TableProgram(alu);
            Run(p, Started(p, 1, s), 5) == Halt(s.(stack := s.stack + [I(5)]))
  {
    hide Run, Decode, Step;
    var p, st := TableProgram(alu), s.stack;
    var s0 := Started(p, 1, s);
    var s1 := s0.(pc := 5, stack := st + [I(0)]);
    var s2 := s0.(pc := 0, frames := s0.frames + [Frame(p.funcs[0], |st| - 1, |st|, 8)]);
    var s3 := s2.(pc := 2, stack := st + [I(5)]);
    var s4 := s0.(pc := 8, stack := st + [I(5)]);
    Run0(p, s0);
    PushStep(p, s0, 0); Further(p, s0, 0, s0, Next(s1));
    CallStep(p, s1, s2, st); Further(p, s0, 1, s1, Next(s2));
    PushStep(p, s2, 5); Further(p, s0, 2, s2, Next(s3));
    ReturnStep(p, s3, s4, st); Further(p, s0, 3, s3, Next(s4));
    LastStep(p, s4, s.(stack := st + [I(5)]), st); Further(p, s0, 4, s4, Halt(s.(stack := st + [I(5)])));
  }

  /** A call through the element never set: the standard traps, the interpreter runs function 0. */
  lemma UninitialisedRuns(alu: Alu, s: State)
    requires s.frames == []
    ensures var p, m := TableProgram(alu), TableModule(alu);
            Loaded(p, m) && V.ModuleOk(m, [])
            && CallResult(m, 1, m.funcs[1], s.stack, [], s) == S.Fail(IndirectSignatureMismatch)
            && Run(p, Started(p, 1, s), 5) == Halt(s.(stack := s.stack + [I(5)]))
  {
    hide Run, Loaded;
    TableIsLoaded(alu);
    TableEvaluates(TableModule(alu), s);
    TableRuns(alu, s);
    TableValidates(alu);
  }

  function ResultLabel(): V.Label { V.Label(0, [I32], [I32], true, false) }

  lemma FiveChecks(m: S.Module)
    ensures V.Check(m, V.Env([], []), [ResultLabel()], [], Five())
  {
    assert [] + [I32] == [I32];
    assert V.Check(m, V.Env([], []), [ResultLabel()], [I32], Done(2));
  }

  lemma CallChecks(m: S.Module)
    requires m == TableModule(m.alu)
    ensures V.CheckOp(m, V.Env([], []), [ResultLabel()], [I32], CallIndirect(0))
    ensures V.After(m, V.Env([], []), [I32], CallIndirect(0)) == [I32]
  {}

  lemma CallerChecks(m: S.Module)
    requires m == TableModule(m.alu)
    ensures V.Check(m, V.Env([], []), [ResultLabel()], [], Caller())
  {
    hide TableModule, V.After, V.CheckOp;
    var env, l := V.Env([], []), [ResultLabel()];
    CallChecks(m);
    assert V.Check(m, env, l, [I32], Done(8));
    assert V.Check(m, env, l, [I32], Simple(5, CallIndirect(0), Done(8)));
    ConstChecks(m);
  }

  lemma ConstChecks(m: S.Module)
    ensures V.CheckOp(m, V.Env([], []), [ResultLabel()], [], Const(I(0)))
    ensures V.After(m, V.Env([], []), [], Const(I(0))) == [I32]
  {}

  lemma TableValidates(alu: Alu)
    ensures V.ModuleOk(TableModule(alu), [])
  {
    hide V.Check;
    var m := TableModule(alu);
    FiveChecks(m);
    CallerChecks(m);
    assert V.FuncEnv(m.funcs[0], []) == V.Env([], []) == V.FuncEnv(m.funcs[1], []);
    assert V.CheckFunc(m, [], m.funcs[0]) && V.CheckFunc(m, [], m.funcs[1]);
  }
}
