/**
 One small module, to show that the premises of the main results are met by real bytes: a
 function whose body branches out of a block with a surplus operand.
 */
module Example {
  import opened Leb
  import opened Wasm
  import opened Bytecode
  import opened Structure
  import opened Blocks
  import opened Machine
  import opened Simulation
  import opened Refinement
  import opened Theorems
  import S = Structured
  import V = Validation

  /** block (result i32)  i32.const 5  i32.const 7  br 0  end  end */
  const CODE: seq<byte> := [0x02, 0x7f, 0x41, 0x05, 0x41, 0x07, 0x0c, 0x00, 0x0b, 0x0b]

  function Seven(): Value { Tagged(I32, 7) }

  function Tail(): Code { Simple(4, Const(Seven()), Simple(6, Br(0), Done(8))) }

  function Body(): Code { Block(0, 2, [I32], Simple(2, Const(Tagged(I32, 5)), Tail()), Done(9)) }

  function TheFunc(): S.Func { S.Func(FuncType([], [I32]), [], Body()) }

  function TheModule(alu: Alu): S.Module {
    S.Module([], [], [TheFunc()], [], 0, alu, (_, _) => 0)
  }

  function TheProgram(alu: Alu, lookup: Lookup): Program {
    Program(CODE, 0, [BlockRec(0, FuncType([], [I32]), [], 0, 9, 0, 9)], lookup, [], 0, alu, TheModule(alu).host)
  }

  /** The tree is placed in the bytes, so the matcher finds it. */
  lemma BodyPlaced()
    ensures Placed(CODE, Body()) && IsBody(CODE, Extent(0, 9)) && BodyOf(CODE, Extent(0, 9)) == Body()
  {
    hide Match, DecodeConst, ReadU32;
    OneByteOperand(CODE, 3);
    OneByteOperand(CODE, 5);
    OneByteOperand(CODE, 7);
    assert Placed(CODE, Tail());
    assert Placed(CODE, Body());
    MatchComplete(CODE, Body());
  }

  lemma Validates(alu: Alu)
    ensures V.ModuleOk(TheModule(alu), [])
  {
    var m, env, l := TheModule(alu), V.FuncEnv(TheFunc(), []), V.FuncLabel(TheFunc());
    var inner := [V.Label(2, [I32], [I32], true, false)] + [l];
    TailChecks(m, env, inner);
    assert V.After(m, env, [], Const(Tagged(I32, 5))) == [I32];
    assert V.Check(m, env, inner, [], Body().body);
    assert V.CheckFunc(m, [], m.funcs[0]);
  }

  lemma TailChecks(m: S.Module, env: V.Env, labels: seq<V.Label>)
    requires labels != [] && labels[0] == V.Label(2, [I32], [I32], true, false)
    ensures V.Check(m, env, labels, [I32], Tail())
  {
    assert [I32] + [I32] == [I32, I32];
  }

  function Table(): Lookup
    ensures ScanAll(CODE, [Extent(0, 9)], map[]) == Some(Table())
  {
    BodyPlaced();
    FindBlocksMatches(CODE, [Extent(0, 9)]);
    ScanAll(CODE, [Extent(0, 9)], map[]).value
  }

  /** Whatever lies below on the stack, the invocation halts with 7 on top: the surplus operand
      5 is gone, and nothing else has changed. */
  lemma Halts(alu: Alu, s: State)
    requires s.frames == [] && s.globals == [] && MemoryOk(s.mem)
    ensures var p := TheProgram(alu, Table());
            exists n: nat :: Run(p, Started(p, 0, s), n) == Halt(s.(stack := s.stack + [Seven()]))
  {
    hide ScanAll, Table, Run, Match, Placed, V.ModuleOk;
    var p, m := TheProgram(alu, Table()), TheModule(alu);
    BodyPlaced();
    Validates(alu);
    assert RecordsBody(CODE, TheFunc(), Extent(0, 9), p.funcs[0]);
    assert Loads(p, m, [Extent(0, 9)]) by { TableIs(); }
    LoadedByFindBlocks(p, m, [Extent(0, 9)]);
    assert s.stack == s.stack + [];
    var k := EvalIsRun(p, m, [], 0 + 1, 0, s, s.stack, []);
    Evaluates(m, s);
  }

  lemma TableIs()
    ensures ScanAll(CODE, [Extent(0, 9)], map[]) == Some(Table())
  {}

  lemma Evaluates(m: S.Module, s: State)
    requires m == TheModule(m.alu)
    ensures CallResult(m, 1, TheFunc(), s.stack, [], s) == S.Normal(S.Conf(s.stack + [Seven()], [], s.globals, s.mem))
  {
    var c := StartConf(TheFunc(), [], s);
    var five, seven := S.PushOp(c, Tagged(I32, 5)), S.PushOp(S.PushOp(c, Tagged(I32, 5)), Seven());
    assert S.Eval(m, 1, Tail().rest, seven) == S.Jump(0, seven);
    assert S.Eval(m, 1, Tail(), five) == S.Jump(0, seven);
    assert S.Eval(m, 1, Body().body, c) == S.Jump(0, seven);
    assert S.Last(seven.ops, 1) == [Seven()];
    assert [] + [Seven()] == [Seven()];
    assert S.Eval(m, 1, Body(), c) == S.Normal(c.(ops := [Seven()]));
  }
}
