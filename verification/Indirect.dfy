/**
 call_indirect: exactly when the tag comparison of the interpreter and the type check of the
 standard (section 4.4.7 of WebAssembly Core 1.0) come to the same verdict.
 */
module Indirect {
  import opened Leb
  import opened Wasm
  import opened Bytecode
  import opened Structure
  import opened Blocks
  import opened Thunks
  import opened Machine
  import opened Simulation
  import opened Refinement
  import opened Theorems
  import Locals
  import S = Structured
  import V = Validation

  /** The tag comparison refuses function f: it is defined in the module, and its parameter types
      are not those of the topmost operands. Imports are never compared. */
  predicate Mismatch(p: Program, s: State, f: nat) {
    p.imports <= f < |p.funcs| && |p.funcs[f].ty.params| <= |s.stack|
    && TypesOf(s.stack[|s.stack| - |p.funcs[f].ty.params|..]) != p.funcs[f].ty.params
  }

  /** The comparison traps if and only if there is a mismatch; otherwise the call goes ahead as it
      has been set up, and for imports it always does. Neither the expected type nor results play
      a part. */
  lemma IndirectAccepts(p: Program, s: State, f: nat)
    ensures var o := CheckIndirect(p, CallTo(p, s, f), f);
            o == if Mismatch(p, s, f) then Trapped(IndirectSignatureMismatch) else CallTo(p, s, f)
  {
    hide ThunkOut;
    if p.imports <= f < |p.funcs| && |p.funcs[f].ty.params| <= |s.stack| {
      SetupTags(s, p.funcs[f], |p.funcs[f].ty.params|);
    }
  }

  /** Traps of the machine at a call_indirect with index i, whatever the state. */
  lemma MachineTraps(p: Program, s: State, op: Op, at: nat)
    requires op.CallIndirect? && TopIs(s, I32)
    ensures var i, o := Top(s).bits, Exec(p, at, op, s);
            o.Trapped? <==> i >= p.tableMax || (i < |p.table| && Mismatch(p, Pop(s), p.table[i]))
  {
    hide CallTo, CheckIndirect, Mismatch;
    var i := Top(s).bits;
    if i < p.tableMax && i < |p.table| {
      IndirectAccepts(p, Pop(s), p.table[i]);
      CallNeverTraps(p, Pop(s), p.table[i]);
    }
  }

  lemma CallNeverTraps(p: Program, s: State, f: nat)
    ensures !CallTo(p, s, f).Trapped?
  {
    hide ThunkFor, ThunkMask, HostResults;
  }

  /** The condition under which both come to the same verdict at table index i: the index is beyond
      the maximum; the entry is uninitialised and the comparison refuses function 0; the entry has
      the expected type; or it has another type and the comparison refuses it. */
  ghost predicate SameVerdict(p: Program, m: S.Module, t: u32, s: State, i: u32)
    requires t < |m.types| && V.TableOk(m)
  {
    if i >= |m.table| then i >= p.tableMax
    else match m.table[i]
         case None => Mismatch(p, s, 0)
         case Some(f) => m.TypeOf(f) == m.types[t] || Mismatch(p, s, f)
  }

  /** At every call_indirect of validated code, for every index: the machine traps if and only if
      the standard does, exactly under SameVerdict. */
  lemma IndirectExact(p: Program, m: S.Module, globals: seq<ValType>, env: V.Env, labels: seq<V.Label>,
                      ts: seq<ValType>,
                      op: Op, fuel: nat, c: Conf, at: nat, s: State, under: seq<Value>, mid: seq<Value>)
    requires Loaded(p, m) && V.ModuleOk(m, globals) && labels != [] && op.CallIndirect?
    requires V.CheckOp(m, env, labels, ts, op) && V.ConfOk(env, ts, c) && At(s, under, mid, c)
    ensures TopIs(s, I32) && V.TableOk(m) && op.t < |m.types|
    ensures S.Refused(m, op.t, Top(s).bits) ==> S.EvalOp(m, fuel, op, c).Fail?
    ensures !S.Refused(m, op.t, Top(s).bits) ==>
              var f, c1 := m.table[Top(s).bits].value, c.(ops := S.ButLast(c.ops, 1));
              S.EvalOp(m, fuel, op, c) == S.EvalCall(m, fuel, f, c1)
    ensures (Exec(p, at, op, s).Trapped? <==> S.Refused(m, op.t, Top(s).bits))
       <==> SameVerdict(p, m, op.t, Pop(s), Top(s).bits)
  {
    hide Loaded, V.CheckFunc, Supported, Exec, At, Mismatch, V.ConfOk;
    HasTop(env, ts, c);
    TopOperand(s, under, mid, c);
    var i := Top(s).bits;
    MachineTraps(p, s, op, at);
    TableSize(p, m);
    if i < |m.table| {
      EntryLoaded(p, m, i);
      Popped(env, ts, c);
      if m.table[i].Some? && m.TypeOf(m.table[i].value) == m.types[op.t] {
        NoMismatch(p, m, env, m.table[i].value, V.Front(ts, 1), c.(ops := S.ButLast(c.ops, 1)), Pop(s), under, mid);
      }
    }
  }

  lemma Popped(env: V.Env, ts: seq<ValType>, c: Conf)
    requires V.ConfOk(env, ts, c) && V.EndsIn(ts, [I32])
    ensures ts != [] && c.ops != [] && V.ConfOk(env, V.Front(ts, 1), c.(ops := S.ButLast(c.ops, 1)))
  {
    hide MemoryOk;
    HasTop(env, ts, c);
    V.TypesSplit(c.ops, 1);
  }

  lemma NoMismatch(p: Program, m: S.Module, env: V.Env, f: nat, ts: seq<ValType>, c: Conf,
                   s: State, under: seq<Value>, mid: seq<Value>)
    requires Loaded(p, m) && m.IsFunc(f) && V.CallType(m.TypeOf(f), ts) && V.ConfOk(env, ts, c) && At(s, under, mid, c)
    ensures !Mismatch(p, s, f)
  {
    hide CallTo, CheckIndirect;
    TagsPass(p, m, env, f, ts, c, s, under, mid);
    IndirectAccepts(p, s, f);
    CallNeverTraps(p, s, f);
  }

  /** A function that differs from the expected type only in its results is called where the
      standard traps. */
  lemma IndirectResultUnchecked(p: Program, m: S.Module, globals: seq<ValType>, env: V.Env, labels: seq<V.Label>,
                                ts: seq<ValType>, op: Op, fuel: nat, c: Conf, at: nat, s: State,
                                under: seq<Value>, mid: seq<Value>)
    requires Loaded(p, m) && V.ModuleOk(m, globals) && labels != [] && op.CallIndirect?
    requires V.CheckOp(m, env, labels, ts, op) && V.ConfOk(env, ts, c) && At(s, under, mid, c) && TopIs(s, I32)
    requires var i := Top(s).bits;
             i < |m.table| && m.table[i].Some? && m.table[i].value >= |m.imports|
             && m.TypeOf(m.table[i].value).params == m.types[op.t].params
             && m.TypeOf(m.table[i].value).results != m.types[op.t].results
    ensures S.EvalOp(m, fuel, op, c) == S.Fail(IndirectSignatureMismatch)
    ensures Exec(p, at, op, s).Next? && Exec(p, at, op, s).s.frames != s.frames
  {
    hide Loaded, V.CheckFunc, Supported, At, V.ConfOk, CheckIndirect, Placed, Covered;
    HasTop(env, ts, c);
    TopOperand(s, under, mid, c);
    var i := Top(s).bits;
    EntryLoaded(p, m, i);
    var f, c1 := m.table[i].value, c.(ops := S.ButLast(c.ops, 1));
    Popped(env, ts, c);
    NoMismatch(p, m, env, f, V.Front(ts, 1), c1, Pop(s), under, mid);
    IndirectAccepts(p, Pop(s), f);
    EnoughArgs(p, m, env, f, V.Front(ts, 1), c1, Pop(s), under, mid);
  }

  lemma EnoughArgs(p: Program, m: S.Module, env: V.Env, f: nat, ts: seq<ValType>, c: Conf,
                   s: State, under: seq<Value>, mid: seq<Value>)
    requires Loaded(p, m) && m.IsFunc(f) && f >= |m.imports| && V.CallType(m.TypeOf(f), ts) && V.ConfOk(env, ts, c)
    requires At(s, under, mid, c)
    ensures CallTo(p, s, f).Next? && CallTo(p, s, f).s.frames != s.frames
  {
    hide Placed, Covered, TableLoaded;
    assert FuncLoaded(p, m.funcs[f - |m.imports|], p.funcs[f]);
    Heights(env, ts, s, under, mid, c);
    assert |CallTo(p, s, f).s.frames| == |s.frames| + 1;
  }

  // ---------- modules whose runs never go astray ----------

  /** Every table entry of another type than expected differs in the parameters the comparison
      looks at, no entry is uninitialised unless function 0 does, and the table is at its maximum. */
  predicate TableFits(m: S.Module)
    requires V.TableOk(m)
  {
    |m.table| == m.tableMax
    && forall i, t :: 0 <= i < |m.table| && 0 <= t < |m.types| ==>
         match m.table[i]
         case None => m.IsFunc(0) && Differs(m, 0, m.types[t])
         case Some(f) => m.TypeOf(f) == m.types[t] || Differs(m, f, m.types[t])
  }

  predicate Differs(m: S.Module, f: nat, t: FuncType)
    requires m.IsFunc(f)
  {
    f >= |m.imports| && |m.TypeOf(f).params| <= |t.params| && !V.EndsIn(t.params, m.TypeOf(f).params)
  }

  lemma DiffersMismatch(p: Program, m: S.Module, env: V.Env, f: nat, t: FuncType, ts: seq<ValType>, c: Conf,
                        s: State, under: seq<Value>, mid: seq<Value>)
    requires Loaded(p, m) && m.IsFunc(f) && Differs(m, f, t) && V.CallType(t, ts) && V.ConfOk(env, ts, c)
    requires At(s, under, mid, c)
    ensures Mismatch(p, s, f)
  {
    hide CallTo, CheckIndirect, FuncLoaded;
    var params := m.TypeOf(f).params;
    assert ts[|ts| - |params|..] == t.params[|t.params| - |params|..] by {
      assert t.params == ts[|ts| - |t.params|..];
    }
    TagsSeen(p, m, env, f, ts, c, s, under, mid);
    IndirectAccepts(p, s, f);
    CallNeverTraps(p, s, f);
  }

  /** A state at an instruction of such a module is not about to go astray. */
  lemma SiteSafe(p: Program, m: S.Module, globals: seq<ValType>, s: State)
    requires Loaded(p, m) && V.ModuleOk(m, globals) && V.TableOk(m) && TableFits(m) && Typed(p, m, s)
    ensures !Astray(p, m, s)
  {
    hide Loaded, V.ModuleOk, Decode, Step, AtSite, AtTerminator, V.TableOk, TableFits;
    if x :| AtSite(m, s, x) {
      if Astray(p, m, s) { SiteCalls(p, m, globals, s, x); }
    } else {
      TerminatorByte(p, m, s);
    }
  }

  lemma TerminatorByte(p: Program, m: S.Module, s: State)
    requires AtTerminator(p, m, s)
    ensures !Astray(p, m, s)
  {
    hide Decode, Visits, Step;
    DecodeTerminator(p.bytes, s.pc);
  }

  lemma SiteCalls(p: Program, m: S.Module, globals: seq<ValType>, s: State, x: Site)
    requires Loaded(p, m) && V.ModuleOk(m, globals) && V.TableOk(m) && TableFits(m) && AtSite(m, s, x)
    ensures !Astray(p, m, s)
  {
    hide Loaded, V.ModuleOk, Decode, Step, InFunction, Housed, At, V.ConfOk, Exec, Mismatch;
    if Astray(p, m, s) {
      Locals.SiteDecodes(p, m, s, x);
      var op, next := x.code.op, x.code.rest.at;
      StepAt(p, s, op, next);
      var s2, i := s.(pc := next), Top(s).bits;
      MachineTraps(p, s2, op, s.pc);
      TableSize(p, m);
      if i < |m.table| {
        EntryLoaded(p, m, i);
        HasTop(x.env, x.ts, x.c);
        TopOperand(s, x.under, x.mid, x.c);
        PopSame(s, s2, x);
        var f := if m.table[i].Some? then m.table[i].value else 0;
        Popped(x.env, x.ts, x.c);
        DiffersMismatch(p, m, x.env, f, m.types[op.t], V.Front(x.ts, 1), x.c.(ops := S.ButLast(x.c.ops, 1)),
                        Pop(s2), x.under, x.mid);
      }
    }
  }

  lemma PopSame(s: State, s2: State, x: Site)
    requires s.stack != [] && s2 == s.(pc := s2.pc) && x.c.ops != []
    requires At(Pop(s), x.under, x.mid, x.c.(ops := S.ButLast(x.c.ops, 1)))
    ensures At(Pop(s2), x.under, x.mid, x.c.(ops := S.ButLast(x.c.ops, 1)))
  {}

  /** No run of a module whose table fits goes astray, so for these machine and standard agree
      without further premise. */
  lemma {:induction false} TableSafe(p: Program, m: S.Module, globals: seq<ValType>, n: nat, i: nat, s: State,
                                     below: seq<Value>, args: seq<Value>)
    requires Invocation(p, m, globals, i, s, below, args) && V.TableOk(m) && TableFits(m)
    ensures SetupCall(s, p.funcs[p.imports + i]).Next?
    ensures !AstrayAt(p, m, Started(p, i, s), n)
    decreases n
  {
    hide Run, Loaded, V.ModuleOk, SetupCall, Typed, Astray, TableFits, LocalsTyped, V.TableOk;
    LoadedCounts(p, m);
    SitesReached(p, m, globals, n, i, s, below, args);
    var s1 := Started(p, i, s);
    forall k: nat | k < n ensures !AstrayAt(p, m, s1, k) {
      TableSafe(p, m, globals, k, i, s, below, args);
    }
    if Run(p, s1, n).Next? {
      IsTyped(p, m, Run(p, s1, n).s);
      SiteSafe(p, m, globals, Run(p, s1, n).s);
    }
  }

  lemma IsTyped(p: Program, m: S.Module, s: State)
    ensures (exists x :: AtSite(m, s, x)) || AtTerminator(p, m, s) ==> Typed(p, m, s)
  {
    hide AtSite, AtTerminator;
  }
}
