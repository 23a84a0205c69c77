/**
 Where calls put things: arguments, cleared locals and results, on the stack and at the host.
 */
module Calls {
  import opened Leb
  import opened Wasm
  import opened Blocks
  import opened Thunks
  import opened Machine
  import Refinement
  import S = Structured

  // ---------- calls within the module ----------

  /** After setup_call the stack is as before with one slot for each local on top; fp is at the first
      argument; and local i behind the parameters has its declared type and is zero. */
  lemma SetupLayout(s: State, f: BlockRec, base: seq<Value>, args: seq<Value>)
    requires s.stack == base + args && |args| == |f.ty.params|
    ensures SetupCall(s, f).Next?
    ensures var t := SetupCall(s, f).s;
            t.pc == f.start && t.fp == |base| && |t.stack| == |base| + |args| + |f.locals|
            && t.frames == s.frames + [Frame(f, |base| - 1, s.fp, s.pc)]
            && t.globals == s.globals && t.mem == s.mem
            && (forall i :: 0 <= i < |base| ==> t.stack[i] == base[i])
            && (forall i :: 0 <= i < |args| ==> t.stack[|base| + i] == args[i])
            && (forall i :: 0 <= i < |f.locals| ==>
                  t.stack[t.fp + |f.ty.params| + i].ty == f.locals[i] && t.stack[t.fp + |f.ty.params| + i].bits == 0)
  {
    var t := SetupCall(s, f).s;
    forall i | 0 <= i < |f.locals|
      ensures t.stack[|base| + |args| + i].ty == f.locals[i] && t.stack[|base| + |args| + i].bits == 0
    {
      assert t.stack[|s.stack| + i] == ZerosOf(f.locals)[i];
    }
  }

  /** In the reference semantics, section 4.4.7 of WebAssembly Core 1.0, a body starts with the
      arguments in order, then zeros of the declared types, and no operands. */
  lemma EntryLocals(f: S.Func, c: S.Conf, base: seq<Value>, args: seq<Value>)
    requires c.ops == base + args && |args| == |f.ty.params|
    ensures var c' := S.Entry(f, c);
            c'.ops == [] && |c'.locals| == |args| + |f.locals| && c'.globals == c.globals && c'.mem == c.mem
            && (forall i :: 0 <= i < |args| ==> c'.locals[i] == args[i])
            && (forall i :: 0 <= i < |f.locals| ==>
                  c'.locals[|args| + i].ty == f.locals[i] && c'.locals[|args| + i].bits == 0)
  {
    var c' := S.Entry(f, c);
    assert S.Last(c.ops, |args|) == args;
    forall i | 0 <= i < |f.locals|
      ensures c'.locals[|args| + i].ty == f.locals[i] && c'.locals[|args| + i].bits == 0
    {
      assert c'.locals[|args| + i] == ZerosOf(f.locals)[i];
    }
  }

  /** So does an invocation. */
  lemma StartLocals(f: S.Func, args: seq<Value>, s: State)
    ensures var c := Refinement.StartConf(f, args, s);
            c.ops == [] && |c.locals| == |args| + |f.locals| && c.globals == s.globals && c.mem == s.mem
            && (forall i :: 0 <= i < |args| ==> c.locals[i] == args[i])
            && (forall i :: 0 <= i < |f.locals| ==>
                  c.locals[|args| + i].ty == f.locals[i] && c.locals[|args| + i].bits == 0)
  {
    var c := Refinement.StartConf(f, args, s);
    forall i | 0 <= i < |f.locals|
      ensures c.locals[|args| + i].ty == f.locals[i] && c.locals[|args| + i].bits == 0
    {
      assert c.locals[|args| + i] == ZerosOf(f.locals)[i];
    }
  }

  // ---------- calls of imports ----------

  /** The host gets the bits of the arguments in the order of the parameters, the deepest operand
      first; what it returns, cut to the width of the result type, takes their place. */
  lemma HostOrder(p: Program, s: State, f: nat, base: seq<Value>, args: seq<Value>, bits: seq<u64>)
    requires f < p.imports <= |p.funcs| && |p.funcs[f].ty.results| <= 1 && Supported(p.funcs[f].ty)
    requires s.stack == base + args && TypesOf(args) == p.funcs[f].ty.params
    requires |bits| == |args| && forall i :: 0 <= i < |args| ==> bits[i] == args[i].bits
    ensures CallTo(p, s, f).Next?
    ensures var ty, t := p.funcs[f].ty, CallTo(p, s, f).s;
            t == s.(stack := t.stack) && |t.stack| == |base| + |ty.results| && t.stack[..|base|] == base
            && (|ty.results| == 1 ==>
                  var v := t.stack[|base|];
                  v.ty == ty.results[0]
                  && v.bits == if v.ty == I32 || v.ty == F32 then p.host(f, bits) % 0x1_0000_0000 else p.host(f, bits))
  {
    hide ThunkFor, ThunkMask;
    var ty := p.funcs[f].ty;
    DispatchIsExact(ty);
    assert s.stack[|base|..] == args && s.stack[..|base|] == base;
    assert BitsOf(args) == bits;
  }

  // ---------- which imports there are thunks for ----------

  lemma MaskStep(h: u64, ps: seq<ValType>, t: ValType)
    ensures MaskOf(h, ps + [t]) == Append(MaskOf(h, ps), t)
  {
    assert (ps + [t])[..|ps|] == ps;
  }

  lemma {:induction false} SameMasks(h: u64, t: ValType, n: nat)
    ensures MaskOf(h, Copies(t, 0)) == h
    ensures n > 0 ==> MaskOf(h, Copies(t, n)) == Append(MaskOf(h, Copies(t, n - 1)), t)
  {
    if n > 0 {
      assert Copies(t, n) == Copies(t, n - 1) + [t];
      MaskStep(h, Copies(t, n - 1), t);
    }
  }

  /** The masks of signatures with n parameters of one type. */
  lemma Uniform(results: seq<ValType>, t: ValType)
    ensures ThunkMask(FuncType([], results)) == Head(results)
    ensures ThunkMask(FuncType([t], results)) == Append(Head(results), t)
    ensures ThunkMask(FuncType([t, t], results)) == Append(Append(Head(results), t), t)
    ensures ThunkMask(FuncType([t, t, t], results)) == Append(Append(Append(Head(results), t), t), t)
    ensures ThunkMask(FuncType([t, t, t, t], results)) == Append(Append(Append(Append(Head(results), t), t), t), t)
    ensures ThunkMask(FuncType([t, t, t, t, t], results))
         == Append(Append(Append(Append(Append(Head(results), t), t), t), t), t)
    ensures ThunkMask(FuncType([t, t, t, t, t, t], results))
         == Append(Append(Append(Append(Append(Append(Head(results), t), t), t), t), t), t)
  {
    hide Append, MaskOf, Head;
    var h := Head(results);
    CopiesAre(t);
    SameMasks(h, t, 1);
    SameMasks(h, t, 2);
    SameMasks(h, t, 3);
    SameMasks(h, t, 4);
    SameMasks(h, t, 5);
    SameMasks(h, t, 6);
  }

  lemma CopiesAre(t: ValType)
    ensures Copies(t, 0) == [] && Copies(t, 1) == [t] && Copies(t, 2) == [t, t] && Copies(t, 3) == [t, t, t]
    ensures Copies(t, 4) == [t, t, t, t] && Copies(t, 5) == [t, t, t, t, t] && Copies(t, 6) == [t, t, t, t, t, t]
  {}

  /** The seventeen signatures. */
  predicate HasThunk(ty: FuncType) {
    ty in {FuncType([], []), FuncType([I32], []), FuncType([I32, I32], []), FuncType([I32, I32, I32, I32], []),
           FuncType([], [I32]), FuncType([I32], [I32]), FuncType([I32, I32], [I32]), FuncType([I32, I32, I32], [I32]),
           FuncType([I32, I32, I32, I32], [I32]), FuncType([I32, I32, I32, I32, I32], [I32]),
           FuncType([F32, F32], []), FuncType([F32, F32, F32], []), FuncType([F32, F32, F32, F32], []),
           FuncType([F32], [F32]), FuncType([F64, F64, F64, F64, F64, F64], []), FuncType([F32], [I32]),
           FuncType([F64], [F64])}
  }

  lemma VoidThunks()
    ensures Supported(FuncType([], [])) && Supported(FuncType([I32], [])) && Supported(FuncType([I32, I32], []))
    ensures Supported(FuncType([I32, I32, I32, I32], []))
  {
    hide ThunkMask, Append;
    Uniform([], I32);
    AppendIs(0x800, I32);
    AppendIs(0x8001, I32);
    AppendIs(0x80011, I32);
    AppendIs(0x800111, I32);
  }

  lemma IntThunks()
    ensures Supported(FuncType([], [I32])) && Supported(FuncType([I32], [I32]))
    ensures Supported(FuncType([I32, I32], [I32]))
    ensures Supported(FuncType([I32, I32, I32], [I32])) && Supported(FuncType([I32, I32, I32, I32], [I32]))
    ensures Supported(FuncType([I32, I32, I32, I32, I32], [I32]))
  {
    hide ThunkMask, Append;
    Uniform([I32], I32);
    AppendIs(0x810, I32);
    AppendIs(0x8101, I32);
    AppendIs(0x81011, I32);
    AppendIs(0x810111, I32);
    AppendIs(0x8101111, I32);
  }

  lemma SingleThunks()
    ensures Supported(FuncType([F32, F32], [])) && Supported(FuncType([F32, F32, F32], []))
    ensures Supported(FuncType([F32, F32, F32, F32], []))
    ensures Supported(FuncType([F32], [F32])) && Supported(FuncType([F32], [I32]))
  {
    hide ThunkMask, Append;
    Uniform([], F32);
    Uniform([F32], F32);
    Uniform([I32], F32);
    AppendIs(0x800, F32);
    AppendIs(0x8003, F32);
    AppendIs(0x80033, F32);
    AppendIs(0x800333, F32);
    AppendIs(0x830, F32);
    AppendIs(0x810, F32);
  }

  lemma DoubleThunks()
    ensures Supported(FuncType([F64, F64, F64, F64, F64, F64], [])) && Supported(FuncType([F64], [F64]))
  {
    hide ThunkMask, Append;
    Uniform([], F64);
    Uniform([F64], F64);
    AppendIs(0x800, F64);
    AppendIs(0x8004, F64);
    AppendIs(0x80044, F64);
    AppendIs(0x800444, F64);
    AppendIs(0x8004444, F64);
    AppendIs(0x80044444, F64);
    AppendIs(0x840, F64);
  }

  /** There is a thunk for a signature if and only if it is one of these. */
  lemma ThunksAre(ty: FuncType)
    requires |ty.results| <= 1
    ensures Supported(ty) <==> HasThunk(ty)
  {
    hide ThunkMask, Copies;
    VoidThunks();
    IntThunks();
    SingleThunks();
    DoubleThunks();
    CopiesAre(I32);
    CopiesAre(F32);
    CopiesAre(F64);
    if Supported(ty) {
      DispatchIsExact(ty);
      SelectedHas(ThunkMask(ty));
    }
  }

  lemma SelectedHas(mask: u64)
    requires ThunkFor(mask).Some?
    ensures HasThunk(ThunkFor(mask).value)
  {
    hide Copies;
    CopiesAre(I32);
    CopiesAre(F32);
    CopiesAre(F64);
  }
}
