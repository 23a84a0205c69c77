/**
 The main results about whole runs of the interpreter.
 */
module Theorems {
  import opened Leb
  import opened Wasm
  import opened Bytecode
  import opened Structure
  import opened Blocks
  import opened Boundaries
  import opened Thunks
  import opened Machine
  import opened Simulation
  import opened Refinement
  import S = Structured
  import V = Validation

  // ---------- loading ----------

  /** What load_module fills in for function i from its entry in the code section. */
  ghost predicate RecordsBody(bytes: seq<byte>, f: S.Func, e: Extent, b: BlockRec) {
    IsBody(bytes, e) && f.body == BodyOf(bytes, e)
    && b.kind == 0 && b.ty == f.ty && b.locals == f.locals && b.start == e.start && b.end == e.end && b.br == e.end
  }

  /** The program load_module builds for m when the bodies are at the given extents and
      block_lookup has been filled by find_blocks. */
  ghost predicate Loads(p: Program, m: S.Module, fs: seq<Extent>) {
    Ordered(fs) && |fs| == |m.funcs| && ScanAll(p.bytes, fs, map[]) == Some(p.lookup)
    && p.imports == |m.imports| && |p.funcs| == |m.imports| + |m.funcs|
    && TableLoaded(p, m) && p.alu == m.alu && p.host == m.host
    && (forall i :: 0 <= i < |m.imports| ==> p.funcs[i].ty == m.imports[i])
    && (forall i :: 0 <= i < |fs| ==> RecordsBody(p.bytes, m.funcs[i], fs[i], p.funcs[|m.imports| + i]))
  }

  /** find_blocks establishes everything the simulation needs of a loaded module. */
  lemma LoadedByFindBlocks(p: Program, m: S.Module, fs: seq<Extent>)
    requires Loads(p, m, fs)
    ensures Loaded(p, m)
  {
    hide ScanAll, Match, Contains, Covered, Entries, Placed;
    FindBlocksMatches(p.bytes, fs);
    forall i | 0 <= i < |m.funcs| ensures FuncLoaded(p, m.funcs[i], p.funcs[|m.imports| + i]) {
      assert RecordsBody(p.bytes, m.funcs[i], fs[i], p.funcs[|m.imports| + i]);
      ContainsCovers(p.bytes, p.lookup, BodyOf(p.bytes, fs[i]));
    }
  }

  // ---------- whole runs ----------

  lemma {:induction false} RunStays(p: Program, s: State, i: nat, j: nat)
    requires i <= j
    ensures !Run(p, s, i).Next? ==> Run(p, s, j) == Run(p, s, i)
    ensures Run(p, s, j).Next? ==> Run(p, s, i).Next?
  {
    hide Run;
    RunAdd(p, s, i, j - i);
  }

  /** An invocation: the callstack is empty and the arguments of function i are on the stack. */
  ghost predicate Invocation(p: Program, m: S.Module, globals: seq<ValType>, i: nat, s: State,
                             below: seq<Value>, args: seq<Value>)
  {
    Loaded(p, m) && V.ModuleOk(m, globals) && i < |m.funcs|
    && s.stack == below + args && TypesOf(args) == m.funcs[i].ty.params
    && TypesOf(s.globals) == globals && MemoryOk(s.mem) && s.frames == []
  }

  function Started(p: Program, i: nat, s: State): State
    requires p.imports + i < |p.funcs| && SetupCall(s, p.funcs[p.imports + i]).Next?
  {
    SetupCall(s, p.funcs[p.imports + i]).s
  }

  /** The machine's final outcome for the evaluator's result of an invocation. */
  ghost predicate SameOutcome(s: State, r: S.Result, o: Outcome) {
    match r
    case Normal(c) => o == Halt(s.(stack := c.ops, globals := c.globals, mem := c.mem))
    case Fail(e) => o == Trapped(e) && !e.CallSignatureMismatch?
    case Wild(t) => o == Stray(t) && S.Departs(t)
    case _ => false
  }

  lemma ResultTyped(m: S.Module, globals: seq<ValType>, fuel: nat, i: nat, s: State, below: seq<Value>,
                    args: seq<Value>)
    requires V.ModuleOk(m, globals) && i < |m.funcs| && TypesOf(args) == m.funcs[i].ty.params
    requires TypesOf(s.globals) == globals && MemoryOk(s.mem)
    ensures var r := CallResult(m, fuel, m.funcs[i], below, args, s);
            (r.Fail? ==> !r.e.CallSignatureMismatch?) && (r.Wild? ==> S.Departs(r.trap))
            && (r.Normal? ==> TypesOf(r.c.ops) == TypesOf(below) + m.funcs[i].ty.results
                              && TypesOf(r.c.globals) == globals && MemoryOk(r.c.mem))
  {
    hide V.Check, S.Eval, S.Finish, V.ResultOk;
    var f := m.funcs[i];
    assert V.CheckFunc(m, globals, f);
    var c0 := StartConf(f, args, s);
    StartOk(f, globals, args, s);
    V.Sound(m, V.FuncEnv(f, globals), fuel, f.body, [V.FuncLabel(f)], [], c0);
    V.FinishSound(V.Env([], globals), V.FuncEnv(f, globals), f, S.Conf(below, [], s.globals, s.mem),
                  S.Eval(m, fuel, f.body, c0));
  }

  /** After k steps the machine is about to run a call_indirect at which the standard traps and
      the code does not. */
  ghost predicate AstrayAt(p: Program, m: S.Module, s: State, k: nat) {
    Run(p, s, k).Next? && Astray(p, m, Run(p, s, k).s)
  }

  /** It has run one. */
  ghost predicate WentAstray(p: Program, m: S.Module, s: State, n: nat) {
    exists k: nat :: k < n && AstrayAt(p, m, s, k)
  }

  /** The evaluator is simulated: if it finishes, so does the machine, with the same outcome, or
      it comes to a call_indirect at which the evaluator traps and the code does not. */
  lemma EvalIsRun(p: Program, m: S.Module, globals: seq<ValType>, fuel: nat, i: nat, s: State,
                  below: seq<Value>, args: seq<Value>) returns (k: nat)
    requires Invocation(p, m, globals, i, s, below, args)
    ensures SetupCall(s, p.funcs[p.imports + i]).Next?
    ensures var r, o := CallResult(m, fuel, m.funcs[i], below, args, s), Run(p, Started(p, i, s), k);
            if r.Timeout? then o.Next? && k >= fuel
            else SameOutcome(s, r, o) || (r.Fail? && AstrayAt(p, m, Started(p, i, s), k))
  {
    hide Run, CallResult, V.ModuleOk, Loaded, SetupCall, Astray, Keeps;
    LoadedCounts(p, m);
    k := CallExact(p, m, globals, fuel, i, s, below, args);
    ResultTyped(m, globals, fuel, i, s, below, args);
  }

  lemma LoadedCounts(p: Program, m: S.Module)
    requires Loaded(p, m)
    ensures p.imports == |m.imports| && |p.funcs| == |m.imports| + |m.funcs|
  {}

  /** Every run of the machine is one of the evaluator: after any number of steps it is still
      running, or it has ended as the reference semantics prescribes, unless it has gone astray at
      a call_indirect. Until then it never stops with a call signature mismatch. It leaves the
      standard (Wild) only where grow_memory's 32-bit sum wraps or a shift count is not below the
      width, which is undefined, and where a truncation traps too early. */
  lemma RunIsEval(p: Program, m: S.Module, globals: seq<ValType>, n: nat, i: nat, s: State,
                  below: seq<Value>, args: seq<Value>)
    requires Invocation(p, m, globals, i, s, below, args)
    ensures SetupCall(s, p.funcs[p.imports + i]).Next?
    ensures var o := Run(p, Started(p, i, s), n);
            o.Next? || SameOutcome(s, CallResult(m, n + 1, m.funcs[i], below, args, s), o)
            || WentAstray(p, m, Started(p, i, s), n)
  {
    hide Run, CallResult, V.ModuleOk, Loaded, SetupCall, SameOutcome, Astray;
    LoadedCounts(p, m);
    var k := EvalIsRun(p, m, globals, n + 1, i, s, below, args);
    var s1 := Started(p, i, s);
    if k <= n { RunStays(p, s1, k, n); } else { RunStays(p, s1, n, k); }
    Ended(s, CallResult(m, n + 1, m.funcs[i], below, args, s), Run(p, s1, k));
    if AstrayAt(p, m, s1, k) && k < n { assert WentAstray(p, m, s1, n); }
  }

  lemma Ended(s: State, r: S.Result, o: Outcome)
    ensures SameOutcome(s, r, o) ==> !o.Next?
  {}

  /** On runs that do not go astray the machine halts exactly when the reference semantics delivers
      results, traps exactly when it traps, and goes on forever exactly when no bound lets the
      evaluator finish. */
  lemma RunsAgree(p: Program, m: S.Module, globals: seq<ValType>, i: nat, s: State,
                  below: seq<Value>, args: seq<Value>, o: Outcome)
    requires Invocation(p, m, globals, i, s, below, args) && !o.Next?
    ensures SetupCall(s, p.funcs[p.imports + i]).Next?
    ensures (forall n: nat :: !AstrayAt(p, m, Started(p, i, s), n)) ==>
              ((exists n: nat :: Run(p, Started(p, i, s), n) == o)
               <==> (exists fuel: nat :: SameOutcome(s, CallResult(m, fuel, m.funcs[i], below, args, s), o)))
  {
    hide Run, CallResult, V.ModuleOk, Loaded, SetupCall, SameOutcome, AstrayAt;
    LoadedCounts(p, m);
    RunIsEval(p, m, globals, 0, i, s, below, args);
    var s1 := Started(p, i, s);
    if forall n: nat :: !AstrayAt(p, m, s1, n) {
      if n: nat :| Run(p, s1, n) == o {
        RunIsEval(p, m, globals, n, i, s, below, args);
      }
      if fuel: nat :| SameOutcome(s, CallResult(m, fuel, m.funcs[i], below, args, s), o) {
        var k := EvalIsRun(p, m, globals, fuel, i, s, below, args);
        OutcomeUnique(s, CallResult(m, fuel, m.funcs[i], below, args, s), o, Run(p, s1, k));
      }
    }
  }

  lemma OutcomeUnique(s: State, r: S.Result, a: Outcome, b: Outcome)
    requires SameOutcome(s, r, a)
    ensures !r.Timeout?
    ensures SameOutcome(s, r, b) ==> a == b
  {}

  // ---------- what stays in place ----------

  /** A call made in state s is over: program counter, frame pointer and callstack are those of s,
      and the arguments above `below` have become results of the given types. */
  ghost predicate ReturnedTo(s: State, o: Outcome, below: seq<Value>, results: seq<ValType>) {
    o.Next? && o.s == s.(stack := o.s.stack, globals := o.s.globals, mem := o.s.mem)
    && below <= o.s.stack && TypesOf(o.s.stack[|below|..]) == results
  }

  /** Call and return discipline at every step of a call, nested to any depth: until it has
      returned, no step touches the stack below its arguments or a frame of its callers, the
      operand bases of all frames are in order, and every state is well typed. */
  lemma CallDiscipline(p: Program, m: S.Module, globals: seq<ValType>, n: nat, i: nat, s: State,
                       below: seq<Value>, args: seq<Value>)
    requires Loaded(p, m) && V.ModuleOk(m, globals) && i < |m.funcs|
    requires s.stack == below + args && TypesOf(args) == m.funcs[i].ty.params
    requires TypesOf(s.globals) == globals && MemoryOk(s.mem)
    requires (s.frames != [] ==> FirstOk(p, m, s.frames)) && Stacked(s.frames, |below|) && Linked(s.frames, s.fp)
    ensures SetupCall(s, p.funcs[p.imports + i]).Next?
    ensures Keeps(p, m, Run(p, Started(p, i, s), n), below, s.frames)
         || WentAstray(p, m, Started(p, i, s), n)
         || (s.frames != [] && exists k ::
               0 <= k <= n && ReturnedTo(s, Run(p, Started(p, i, s), k), below, m.funcs[i].ty.results))
  {
    hide Run, CallResult, V.ModuleOk, Loaded, SetupCall, Keeps, Stacked, FirstOk, Linked, Astray;
    LoadedCounts(p, m);
    var r := CallResult(m, n + 1, m.funcs[i], below, args, s);
    var k := CallExact(p, m, globals, n + 1, i, s, below, args);
    var s1 := Started(p, i, s);
    if k > n {
      GuardsAt(p, m, s1, k, below, s.frames, n);
    } else {
      RunStays(p, s1, k, n);
      ResultTyped(m, globals, n + 1, i, s, below, args);
      ResultAbove(m, n + 1, i, s, below, args);
      if r.Normal? && s.frames != [] {
        V.TypesJoin(below, r.c.ops[|below|..]);
        assert r.c.ops == below + r.c.ops[|below|..];
        assert ReturnedTo(s, Run(p, s1, k), below, m.funcs[i].ty.results);
      } else if r.Fail? && Run(p, s1, k).Next? {
        if k < n { assert AstrayAt(p, m, s1, k); }
      } else {
        assert !Run(p, s1, n).Next?;
        Stopped(p, m, Run(p, s1, n), below, s.frames);
      }
    }
  }

  lemma GuardsAt(p: Program, m: S.Module, s: State, k: nat, under: seq<Value>, fs: seq<Frame>, j: nat)
    requires Guards(p, m, s, k, under, fs) && j < k
    ensures Keeps(p, m, Run(p, s, j), under, fs)
  {
    hide Run, Keeps;
  }

  lemma Stopped(p: Program, m: S.Module, o: Outcome, under: seq<Value>, fs: seq<Frame>)
    requires !o.Next?
    ensures Keeps(p, m, o, under, fs)
  {}

  lemma ResultAbove(m: S.Module, fuel: nat, i: nat, s: State, below: seq<Value>, args: seq<Value>)
    requires i < |m.funcs|
    ensures var r := CallResult(m, fuel, m.funcs[i], below, args, s); r.Normal? ==> below <= r.c.ops
  {
    hide S.Eval;
  }

  /** Frame layout, in every state a run of validated code reaches: what lay below the arguments
      is untouched; the operand bases are non-decreasing along the callstack and do not exceed the
      stack; the parameters and locals of every activation, which start at its base, end at or
      below the base of every frame above it; and the frame pointer, as well as the one every frame
      has saved, is the base of the activation it belongs to. */
  lemma FrameLayout(p: Program, m: S.Module, globals: seq<ValType>, n: nat, i: nat, s: State,
                    below: seq<Value>, args: seq<Value>)
    requires Invocation(p, m, globals, i, s, below, args)
    ensures SetupCall(s, p.funcs[p.imports + i]).Next?
    ensures var o := Run(p, Started(p, i, s), n);
            o.Next? && !WentAstray(p, m, Started(p, i, s), n) ==>
              below <= o.s.stack && Linked(o.s.frames, o.s.fp)
              && (forall j :: 0 <= j < |o.s.frames| ==> Base(o.s.frames[j]) <= Floor(o.s.frames[j]) <= |o.s.stack|)
              && (forall j, k :: 0 <= j < k < |o.s.frames| ==> Floor(o.s.frames[j]) <= Base(o.s.frames[k]))
  {
    hide Run, CallResult, V.ModuleOk, Loaded, SetupCall, Typed, WentAstray, Linked;
    LoadedCounts(p, m);
    NoFrames();
    CallDiscipline(p, m, globals, n, i, s, below, args);
  }

  /** In every state a run of validated code reaches, parameters and locals of the current activation
      have the tags of their declarations, and the machine is at an instruction of some function with
      the operand types validation computes there, or at an else or end with the results of its
      block on top. */
  lemma SitesReached(p: Program, m: S.Module, globals: seq<ValType>, n: nat, i: nat, s: State,
                     below: seq<Value>, args: seq<Value>)
    requires Invocation(p, m, globals, i, s, below, args)
    ensures SetupCall(s, p.funcs[p.imports + i]).Next?
    ensures var o := Run(p, Started(p, i, s), n);
            o.Next? && !WentAstray(p, m, Started(p, i, s), n) ==>
              LocalsTyped(o.s) && ((exists x :: AtSite(m, o.s, x)) || AtTerminator(p, m, o.s))
  {
    hide Run, CallResult, V.ModuleOk, Loaded, SetupCall, AtSite, AtTerminator, Stacked, WentAstray, LocalsTyped;
    LoadedCounts(p, m);
    NoFrames();
    CallDiscipline(p, m, globals, n, i, s, below, args);
  }

  lemma NoFrames()
    ensures (forall h: nat :: Stacked([], h)) && (forall fp: int :: Linked([], fp))
  {}

  /** Execution never leaves the instruction boundaries: the program counter of every reachable
      state is an address at which find_blocks, scanning some function, has looked at an opcode. */
  lemma BoundariesKept(p: Program, m: S.Module, fs: seq<Extent>, globals: seq<ValType>, n: nat, i: nat, s: State,
                       below: seq<Value>, args: seq<Value>)
    requires Loads(p, m, fs) && Invocation(p, m, globals, i, s, below, args)
    ensures SetupCall(s, p.funcs[p.imports + i]).Next?
    ensures var o := Run(p, Started(p, i, s), n);
            o.Next? && !WentAstray(p, m, Started(p, i, s), n) ==>
              exists f :: 0 <= f < |fs| && o.s.pc in Visited(p.bytes, fs[f].end, fs[f].start)
  {
    hide Run, CallResult, V.ModuleOk, Loaded, SetupCall, AtSite, AtTerminator, Visits, Visited, ScanAll, IsBody,
         BodyOf, Ordered, WentAstray, LocalsTyped, TableLoaded;
    LoadedCounts(p, m);
    SitesReached(p, m, globals, n, i, s, below, args);
    var o := Run(p, Started(p, i, s), n);
    if o.Next? && !WentAstray(p, m, Started(p, i, s), n) {
      if x :| AtSite(m, o.s, x) { SiteVisited(m, o.s, x); } else { TerminatorVisited(p, m, o.s); }
      forall f | 0 <= f < |fs| ensures IsBody(p.bytes, fs[f]) && m.funcs[f].body == BodyOf(p.bytes, fs[f]) {
        assert RecordsBody(p.bytes, m.funcs[f], fs[f], p.funcs[|m.imports| + f]);
      }
      VisitsAreScanned(m, p.bytes, fs, o.s.pc);
    }
  }

  lemma SiteVisited(m: S.Module, s: State, x: Site)
    requires AtSite(m, s, x)
    ensures Visits(m, s.pc)
  {
    hide V.Check, V.ConfOk, InFunction, InModule;
    FunctionInModule(m, x.env, x.labels, x.ts, x.code);
  }

  lemma TerminatorVisited(p: Program, m: S.Module, s: State)
    requires AtTerminator(p, m, s)
    ensures Visits(m, s.pc)
  {
    hide Visits;
  }

  // ---------- return jumps to the end of callstack[0] ----------

  /** `return` unwinds to the current function's frame but jumps to the end of callstack[0]. The
      step that follows acts on the frame, not on the address: if both end bytes are in place it
      leaves the same state as branching to the current function's own label. */
  lemma ReturnIsBranch(p: Program, m: S.Module, s: State, labels: seq<V.Label>, height: nat)
    requires FramesOk(p, m, s.frames, labels, height)
    requires var b := s.frames[|s.frames| - |labels|].block; b.br < |p.bytes| && p.bytes[b.br] == 0x0b
    ensures ExecReturn(s).Next? && Branch(s, |labels| - 1).Next?
    ensures Step(p, ExecReturn(s).s) == Step(p, Branch(s, |labels| - 1).s)
  {
    hide Decode, Unwind, Stacked, Visits, Step;
    UnwindFinds(s.frames, |labels|);
    var d := |labels| - 1;
    assert KindAt(s.frames, d) == 0;
    assert s.frames[..|s.frames| - d][|s.frames| - d - 1] == s.frames[|s.frames| - |labels|];
    SameEnd(p, ExecReturn(s).s, Branch(s, d).s);
  }

  /** The end of a function does not depend on which end byte has led to it. */
  lemma SameEnd(p: Program, a: State, b: State)
    requires a.pc < |p.bytes| && p.bytes[a.pc] == 0x0b && b.pc < |p.bytes| && p.bytes[b.pc] == 0x0b
    requires a == b.(pc := a.pc) && a.frames != [] && a.frames[|a.frames| - 1].block.kind == 0
    ensures Step(p, a) == Step(p, b)
  {
    hide Decode, Unwound;
    DecodeTerminator(p.bytes, a.pc);
    DecodeTerminator(p.bytes, b.pc);
  }
}
