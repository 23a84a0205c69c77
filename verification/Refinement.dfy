/**
 Control flow: the jumps of the interpreter simulate the levels of the evaluator, for blocks,
 loops, both forms of if, branches, returns and calls nested to any depth.
 */
module Refinement {
  import opened Leb
  import opened Wasm
  import opened Bytecode
  import opened Structure
  import opened Blocks
  import opened Thunks
  import opened Machine
  import opened Simulation
  import S = Structured
  import V = Validation

  // ---------- frames ----------

  lemma PushFrameOk(p: Program, m: S.Module, frames: seq<Frame>, labels: seq<V.Label>, f: Frame, l: V.Label,
                    height: nat)
    requires FramesOk(p, m, frames, labels, height) && f.block.kind != 0 && height <= Base(f) == Floor(f)
    ensures FramesOk(p, m, frames + [f], [l] + labels, Base(f))
  {
    StackedPush(frames, height, f, Base(f));
    hide Stacked;
    var frames', labels' := frames + [f], [l] + labels;
    forall j | 0 <= j < |labels'| ensures KindAt(frames', j) == 0 <==> j == |labels'| - 1 {
      if j > 0 { assert KindAt(frames', j) == KindAt(frames, j - 1); }
    }
  }

  /** `return` unwinds exactly to the frame of the current function. */
  lemma {:induction false} UnwindFinds(frames: seq<Frame>, n: nat)
    requires 0 < n <= |frames|
    requires forall j :: 0 <= j < n ==> (KindAt(frames, j) == 0 <==> j == n - 1)
    ensures Unwind(frames) == |frames| - n + 1
    decreases n
  {
    assert KindAt(frames, 0) == frames[|frames| - 1].block.kind;
    if n > 1 {
      var rest := frames[..|frames| - 1];
      forall j | 0 <= j < n - 1 ensures KindAt(rest, j) == 0 <==> j == n - 2 {
        assert KindAt(rest, j) == KindAt(frames, j + 1);
      }
      UnwindFinds(rest, n - 1);
    }
  }

  // ---------- leaving a block ----------

  /** The end of a block drops everything above the recorded height but the results. For an
      `if`, whose recorded height counts the condition, it works only without surplus. */
  lemma ExitBlock(p: Program, t: State, f: Frame, rest: seq<Frame>, under: seq<Value>, mid: seq<Value>,
                  outer: seq<Value>, junk: seq<Value>, c: Conf)
    requires t.pc < |p.bytes| && p.bytes[t.pc] == 0x0b && t.frames == rest + [f]
    requires At(t, under, mid + outer + junk, c) && f.fp == |under|
    requires 2 <= f.block.kind <= 4 && |f.block.ty.results| <= 1 && S.Ends(c.ops, f.block.ty.results)
    requires f.sp == |under| + |c.locals| + |mid| + |outer| - (if f.block.kind == 4 then 0 else 1)
    requires f.block.kind == 4 ==> junk == [] && |c.ops| == |f.block.ty.results|
    ensures Run(p, t, 1).Next?
    ensures var t' := Run(p, t, 1).s; var n := |f.block.ty.results|;
            t'.pc == t.pc + 1 && t'.frames == rest
            && At(t', under, mid, c.(ops := outer + S.Last(c.ops, n)))
  {
    hide Unwound, At, Run, Step, Decode;
    StepTerminator(p, t);
    assert t.frames[..|t.frames| - 1] == rest;
    var n := |f.block.ty.results|;
    ResultOnTop(t, under, mid + outer + junk, c, f.block.ty.results);
    ExitStack(t, f.sp, under, mid, outer, junk, c, n);
    var t' := Run(p, t, 1).s;
    AtWith(t, t', under, mid, outer, junk, c, n);
  }

  lemma ExitStack(t: State, sp: int, under: seq<Value>, mid: seq<Value>, outer: seq<Value>, junk: seq<Value>, c: Conf,
                  n: nat)
    requires At(t, under, mid + outer + junk, c) && n <= 1 && n <= |c.ops|
    requires var h := |under| + |c.locals| + |mid| + |outer|;
             sp == h - 1 || (sp == h && junk == [] && |c.ops| == n)
    ensures Unwound(t.stack, sp, n) == under + c.locals + mid + (outer + S.Last(c.ops, n))
  {
    hide Unwound;
    var base := under + c.locals + mid + outer;
    assert t.stack == base + junk + c.ops;
    UnwoundIs(base, junk, c.ops, sp, n);
    assert base + S.Last(c.ops, n) == under + c.locals + mid + (outer + S.Last(c.ops, n));
  }

  lemma AtWith(t: State, t': State, under: seq<Value>, mid: seq<Value>, outer: seq<Value>, junk: seq<Value>, c: Conf,
               n: nat)
    requires At(t, under, mid + outer + junk, c) && n <= |c.ops|
    requires t'.stack == under + c.locals + mid + (outer + S.Last(c.ops, n)) && t'.fp == |under|
    requires t'.globals == t.globals && t'.mem == t.mem
    ensures At(t', under, mid, c.(ops := outer + S.Last(c.ops, n)))
  {}

  lemma UnwoundIs(base: seq<Value>, junk: seq<Value>, ops: seq<Value>, sp: int, n: nat)
    requires n <= 1 && n <= |ops|
    requires sp == |base| - 1 || (sp == |base| && junk == [] && |ops| == n)
    ensures Unwound(base + junk + ops, sp, n) == base + S.Last(ops, n)
  {
    if sp == |base| - 1 && |base + junk + ops| > |base| {
      assert (base + junk + ops)[..sp + 1] == base;
      if n == 1 { assert S.Last(ops, 1) == [(base + junk + ops)[|base + junk + ops| - 1]]; }
    }
  }

  /** A record and the frame pushed for it, for a block entered at the given height. */
  predicate FrameFor(f: Frame, l: V.Label, height: nat, fp: nat) {
    2 <= f.block.kind <= 4 && f.block.kind == l.kind && f.block.ty.results == l.ends && |l.ends| <= 1
    && f.sp == height - (if f.block.kind == 4 then 0 else 1) && f.fp == fp
  }

  /** From the outcome inside a block to the outcome around it. */
  lemma Unnest(p: Program, m: S.Module, env: V.Env, l: V.Label, labels: seq<V.Label>, outer: seq<Value>, r: Result,
               s: State, i: nat, s1: State, f: Frame, under: seq<Value>, mid: seq<Value>,
               end: nat, fuel: nat, k1: nat, junk1: seq<Value>)
    returns (k: nat, junk: seq<Value>)
    requires labels != [] && Run(p, s, i) == Next(s1) && s1.frames == s.frames + [f] && |labels| <= |s.frames|
    requires Agrees(p, m, s1, [l] + labels, under, mid + outer, end, fuel, r, k1, junk1)
    requires Guards(p, m, s, i, under, Own(s.frames, labels)) && Guards(p, m, s1, k1, under, Own(s.frames, labels))
    requires V.ResultOk(env, [l] + labels, r)
    requires FrameFor(f, l, |under| + |env.locals| + |mid| + |outer|, |under|)
    requires Stacked(s1.frames, |under| + |env.locals| + |mid| + |outer|) && Housed(s1.frames, |under|, env.locals)
    requires end < |p.bytes| && p.bytes[end] == 0x0b && Visits(m, end) && f.block.end == end
    requires r.Jump? && r.depth == 0 ==> f.block.br == end && l.brs == l.ends
    requires l.kind == 4 ==> l.strict && (r.Normal? ==> junk1 == [])
    requires l.clean ==> outer == []
    ensures Agrees(p, m, s, labels, under, mid, end + 1, fuel, S.Leave(l.ends, outer, r), k, junk)
    ensures S.Leave(l.ends, outer, r).Normal? ==> junk == []
    ensures Guards(p, m, s, k, under, Own(s.frames, labels))
  {
    hide At, Run, Step, Guards, Own, Agrees, S.Leave, S.Ends, V.ResultOk, Stacked, Visits, Keeps, Housed;
    if r.Normal? || (r.Jump? && r.depth == 0) {
      LeaveConf(env, l, labels, outer, r);
      AtExit(p, m, l, labels, r, s1, f, under, mid + outer, end, fuel, k1, junk1);
      UnnestExit(p, l, r.c, s, i, s1, f, under, mid, outer, k1, junk1);
      k, junk := i + k1 + 1, [];
      var c := r.c.(ops := outer + S.Last(r.c.ops, |l.ends|));
      AgreesNormal(p, m, s, labels, under, mid, end + 1, fuel, c, k);
      RunAdd(p, s, i, k1);
      GuardsJoin(p, m, s, i, s1, k1, under, Own(s.frames, labels));
      OwnBelow(s.frames, labels);
      TerminatorKeeps(p, m, Run(p, s, i + k1).s, under, mid + outer + junk1, r.c, Own(s.frames, labels),
                      |under| + |env.locals| + |mid| + |outer|);
      GuardsMore(p, m, s, i + k1, under, Own(s.frames, labels));
    } else {
      k, junk := UnnestOut(p, m, env, l, labels, outer, r, s, i, s1, f, under, mid, end, fuel, k1, junk1);
      LeaveOut(l, outer, r);
    }
  }

  lemma LeaveOut(l: V.Label, outer: seq<Value>, r: Result)
    requires !r.Normal? && !(r.Jump? && r.depth == 0)
    ensures !S.Leave(l.ends, outer, r).Normal?
  {}

  lemma LeaveConf(env: V.Env, l: V.Label, labels: seq<V.Label>, outer: seq<Value>, r: Result)
    requires labels != [] && V.ResultOk(env, [l] + labels, r)
    requires r.Normal? || (r.Jump? && r.depth == 0 && l.brs == l.ends)
    ensures TypesOf(r.c.locals) == env.locals && S.Ends(r.c.ops, l.ends)
    ensures S.Leave(l.ends, outer, r) == S.Normal(r.c.(ops := outer + S.Last(r.c.ops, |l.ends|)))
    ensures l.strict ==> |r.c.ops| == |l.ends|
  {
    assert ([l] + labels)[0] == l;
    if r.Normal? {
      V.EndsFromTypes(r.c.ops, l.ends);
      AllOps(r.c.ops);
    }
  }

  /** Falling off the end of a block or branching to its label leaves its own frame on top. */
  lemma AtExit(p: Program, m: S.Module, l: V.Label, labels: seq<V.Label>, r: Result, s1: State, f: Frame,
               under: seq<Value>,
               mid: seq<Value>, end: nat, fuel: nat, k1: nat, junk1: seq<Value>)
    requires s1.frames != [] && s1.frames[|s1.frames| - 1] == f
    requires Agrees(p, m, s1, [l] + labels, under, mid, end, fuel, r, k1, junk1)
    requires r.Normal? || (r.Jump? && r.depth == 0 && f.block.br == end)
    ensures Run(p, s1, k1).Next?
    ensures var t := Run(p, s1, k1).s; t.pc == end && t.frames == s1.frames && At(t, under, mid + junk1, r.c)
    ensures r.Jump? && l.strict ==> junk1 == []
  {
    hide At, Run;
    assert ([l] + labels)[0] == l;
    if r.Jump? { assert s1.frames[..|s1.frames| - 0] == s1.frames; }
  }

  lemma UnnestExit(p: Program, l: V.Label, c: Conf, s: State, i: nat, s1: State, f: Frame, under: seq<Value>,
                   mid: seq<Value>, outer: seq<Value>, k1: nat, junk1: seq<Value>)
    requires Run(p, s, i) == Next(s1) && s1.frames == s.frames + [f] && Run(p, s1, k1).Next?
    requires var t := Run(p, s1, k1).s;
             t.frames == s1.frames && t.pc < |p.bytes| && p.bytes[t.pc] == 0x0b
             && At(t, under, mid + outer + junk1, c)
    requires S.Ends(c.ops, l.ends)
    requires l.kind == 4 ==> junk1 == [] && |c.ops| == |l.ends|
    requires FrameFor(f, l, |under| + |c.locals| + |mid| + |outer|, |under|)
    ensures |l.ends| <= |c.ops| && Run(p, s, i + k1 + 1).Next?
    ensures var t := Run(p, s, i + k1 + 1).s;
            t.pc == Run(p, s1, k1).s.pc + 1 && t.frames == s.frames
            && At(t, under, mid, c.(ops := outer + S.Last(c.ops, |l.ends|)))
  {
    hide At, S.Ends, Run, Step;
    EndsFits(c.ops, l.ends);
    RunAdd(p, s, i, k1);
    ExitBlock(p, Run(p, s1, k1).s, f, s.frames, under, mid, outer, junk1, c);
    RunAdd(p, s, i + k1, 1);
  }

  lemma EndsFits(ops: seq<Value>, ends: seq<ValType>)
    requires S.Ends(ops, ends)
    ensures |ends| <= |ops|
  {}

  lemma AgreesNormal(p: Program, m: S.Module, s: State, labels: seq<V.Label>, under: seq<Value>, mid: seq<Value>,
                     end: nat, fuel: nat, c: Conf, k: nat)
    requires var o := Run(p, s, k);
             o.Next? && o.s.pc == end && o.s.frames == s.frames && At(o.s, under, mid, c)
    ensures Agrees(p, m, s, labels, under, mid, end, fuel, S.Normal(c), k, [])
  {
    hide At, Run;
    assert mid + [] == mid;
  }

  lemma OwnBelow(frames: seq<Frame>, labels: seq<V.Label>)
    ensures Own(frames, labels) <= frames
  {}

  lemma UnnestOut(p: Program, m: S.Module, env: V.Env, l: V.Label, labels: seq<V.Label>, outer: seq<Value>, r: Result,
               s: State, i: nat, s1: State, f: Frame, under: seq<Value>, mid: seq<Value>,
               end: nat, fuel: nat, k1: nat, junk1: seq<Value>)
    returns (k: nat, junk: seq<Value>)
    requires labels != [] && Run(p, s, i) == Next(s1) && s1.frames == s.frames + [f] && |labels| <= |s.frames|
    requires Agrees(p, m, s1, [l] + labels, under, mid + outer, end, fuel, r, k1, junk1)
    requires Guards(p, m, s, i, under, Own(s.frames, labels)) && Guards(p, m, s1, k1, under, Own(s.frames, labels))
    requires V.ResultOk(env, [l] + labels, r) && !r.Normal? && !(r.Jump? && r.depth == 0)
    requires l.clean ==> outer == []
    ensures Agrees(p, m, s, labels, under, mid, end + 1, fuel, S.Leave(l.ends, outer, r), k, junk)
    ensures Guards(p, m, s, k, under, Own(s.frames, labels))
  {
    hide At, S.Ends, Run, Step, Guards, Own, Keeps, Astray;
    OwnPush(s.frames, labels, f, l);
    GuardsJoin(p, m, s, i, s1, k1, under, Own(s.frames, labels));
    RunAdd(p, s, i, k1);
    k, junk := i + k1, outer + junk1;
    var o, all := Run(p, s, i + k1), [l] + labels;
    if r.Jump? {
      assert all[0] == l && all[r.depth] == labels[r.depth - 1];
      assert s1.frames[..|s1.frames| - r.depth] == s.frames[..|s.frames| - (r.depth - 1)];
      Regroup(o.s, under, mid, outer, junk1, r.c);
    } else if r.Returned? {
      assert s1.frames[..|s1.frames| - |all| + 1] == s.frames[..|s.frames| - |labels| + 1];
      Regroup(o.s, under, mid, outer, junk1, r.c);
    }
  }

  lemma AllOps(ops: seq<Value>)
    ensures S.Last(ops, |ops|) == ops
  {}

  lemma Regroup(s: State, under: seq<Value>, mid: seq<Value>, outer: seq<Value>, junk: seq<Value>, c: Conf)
    ensures At(s, under, mid + outer + junk, c) <==> At(s, under, mid + (outer + junk), c)
  {
    assert mid + outer + junk == mid + (outer + junk);
  }

  /** The else byte at the end of a then-arm jumps to the end of the if. */
  lemma ThroughElse(p: Program, m: S.Module, s: State, labels: seq<V.Label>, under: seq<Value>, mid: seq<Value>,
                    end: nat, end': nat, fuel: nat, r: Result, k1: nat, junk: seq<Value>,
                    fs: seq<Frame>, height: nat) returns (k: nat)
    requires Agrees(p, m, s, labels, under, mid, end, fuel, r, k1, junk)
    requires end < |p.bytes| && p.bytes[end] == 0x05 && Visits(m, end) && s.frames != []
    requires s.frames[|s.frames| - 1].block.br == end' && s.frames[|s.frames| - 1].block.els == end + 1
    requires Guards(p, m, s, k1, under, fs) && fs <= s.frames && Stacked(s.frames, height)
    requires var results := s.frames[|s.frames| - 1].block.ty.results;
             r.Normal? ==> height <= |under| + |r.c.locals| + |mid| && |results| <= 1 && S.Ends(r.c.ops, results)
                           && Housed(s.frames, |under|, TypesOf(r.c.locals))
    ensures Agrees(p, m, s, labels, under, mid, end', fuel, r, k, junk)
    ensures Guards(p, m, s, k, under, fs)
  {
    hide Run, Step, Guards, Stacked, Visits, Keeps, S.Ends, Housed;
    k := k1;
    if r.Normal? {
      TerminatorKeeps(p, m, Run(p, s, k1).s, under, mid + junk, r.c, fs, height);
      GuardsMore(p, m, s, k1, under, fs);
      StepTerminator(p, Run(p, s, k1).s);
      RunAdd(p, s, k1, 1);
      k := k1 + 1;
    }
  }

  // ---------- entering a block ----------

  lemma EnterSim(p: Program, code: Code, s: State, under: seq<Value>, mid: seq<Value>, c: Conf) returns (s1: State)
    requires Placed(p.bytes, code) && Covered(p.lookup, code) && code.Block? && code.kind != 4
    requires s.pc == code.at && At(s, under, mid, c)
    ensures Run(p, s, 1) == Next(s1) && s1.pc == code.body.at
    ensures s1.frames == s.frames + [Frame(RecordOf(code), |s.stack| - 1, s.fp, code.at + 2)]
    ensures At(s1, under, mid + c.ops, c.(ops := []))
  {
    hide BlockType, Decode;
    DecodeOpener(p.bytes, code.at);
    StepAt(p, s, Enter(code.kind), code.at + 2);
    s1 := Run(p, s, 1).s;
  }

  /** `if`: the condition is popped after the frame has recorded the height. */
  lemma EnterIfSim(p: Program, code: Code, s: State, under: seq<Value>, mid: seq<Value>, c: Conf) returns (s1: State)
    requires Placed(p.bytes, code) && Covered(p.lookup, code)
    requires code.IfElse? || (code.Block? && code.kind == 4)
    requires s.pc == code.at && At(s, under, mid, c) && S.Ends(c.ops, [I32])
    ensures Run(p, s, 1) == Next(s1)
    ensures var cond, outer := S.Last(c.ops, 1)[0].bits, S.ButLast(c.ops, 1);
            if code.Block? && cond == 0 then
              s1.pc == code.rest.at && s1.frames == s.frames && At(s1, under, mid, c.(ops := outer))
            else
              && s1.pc == (if code.Block? then code.body.at else if cond == 0 then code.els.at else code.thn.at)
              && s1.frames == s.frames + [Frame(RecordOf(code), |s.stack| - 1, s.fp, code.at + 2)]
              && At(s1, under, mid + outer, c.(ops := []))
  {
    hide BlockType, Decode, Placed, Covered, RecordOf, At, Run, S.Ends;
    IfOpens(p, code);
    StepAt(p, s, Enter(4), code.at + 2);
    TopType(c);
    TopOperand(s, under, mid, c);
    EnterIfStack(s, under, mid, c);
    s1 := Run(p, s, 1).s;
  }

  /** The bytes and the record of an `if`. */
  lemma IfOpens(p: Program, code: Code)
    requires Placed(p.bytes, code) && Covered(p.lookup, code)
    requires code.IfElse? || (code.Block? && code.kind == 4)
    ensures code.at < |p.bytes| && Decode(p.bytes, code.at) == Some(Fetched(Enter(4), code.at + 2))
    ensures code.at in p.lookup && p.lookup[code.at] == RecordOf(code)
    ensures code.Block? ==>
              RecordOf(code).els == 0 && RecordOf(code).br + 1 == code.rest.at && code.body.at == code.at + 2
    ensures code.IfElse? ==> RecordOf(code).els == code.els.at > 0 && code.thn.at == code.at + 2
  {
    hide BlockType, Decode;
    DecodeOpener(p.bytes, code.at);
  }

  lemma TopType(c: Conf)
    requires S.Ends(c.ops, [I32])
    ensures |c.ops| > 0 && S.Last(c.ops, 1)[0].ty == I32
  {
    assert TypesOf(S.Last(c.ops, 1))[0] == I32;
  }

  /** The operands around an `if`: those below the condition stay pending. */
  lemma EnterIfStack(s: State, under: seq<Value>, mid: seq<Value>, c: Conf)
    requires At(s, under, mid, c) && c.ops != []
    ensures s.stack != []
    ensures forall t: State ::
              t.stack == s.stack[..|s.stack| - 1] && t.fp == s.fp && t.globals == s.globals && t.mem == s.mem
              ==> At(t, under, mid, c.(ops := S.ButLast(c.ops, 1)))
                  && At(t, under, mid + S.ButLast(c.ops, 1), c.(ops := []))
  {
    var outer := S.ButLast(c.ops, 1);
    SplitTop(s, under, mid, c, 1);
    assert under + c.locals + mid + outer == under + c.locals + (mid + outer) + [];
  }

  // ---------- the simulation ----------

  /** The machine stands at the start of validated code under the frames of its labels. */
  ghost predicate Ready(p: Program, m: S.Module, env: V.Env, labels: seq<V.Label>, code: Code, s: State, height: nat) {
    Loaded(p, m) && V.ModuleOk(m, env.globals) && labels != []
    && Placed(p.bytes, code) && Covered(p.lookup, code) && s.pc == code.at && FramesOk(p, m, s.frames, labels, height)
    && Housed(s.frames, s.fp, env.locals)
  }

  lemma ReadyAgain(p: Program, m: S.Module, env: V.Env, labels: seq<V.Label>, code: Code, s: State, height: nat,
                   s': State)
    requires Ready(p, m, env, labels, code, s, height)
    requires s'.frames == s.frames && s'.pc == code.at && s'.fp == s.fp
    ensures Ready(p, m, env, labels, code, s', height)
  {
    hide Loaded, V.ModuleOk, Placed, Covered, FramesOk, Housed;
  }

  lemma ReadyHigher(p: Program, m: S.Module, env: V.Env, labels: seq<V.Label>, code: Code, s: State, height: nat,
                    height': nat)
    requires Ready(p, m, env, labels, code, s, height) && height <= height'
    requires s.frames != [] && KindAt(s.frames, 0) == 3
    ensures Ready(p, m, env, labels, code, s, height') && V.ModuleOk(m, env.globals) && s.frames != []
  {
    hide Loaded, V.ModuleOk, Placed, Covered, Housed;
    HigherFrames(p, m, s.frames, labels, height, height');
  }

  lemma HigherFrames(p: Program, m: S.Module, frames: seq<Frame>, labels: seq<V.Label>, height: nat, height': nat)
    requires FramesOk(p, m, frames, labels, height) && height <= height'
    requires height == height' || KindAt(frames, 0) == 3
    ensures FramesOk(p, m, frames, labels, height') && Stacked(frames, height')
  {}

  /** From any validated instruction sequence, some number of machine steps has the outcome the
      evaluator computes: the same trap, or the same operands, locals, globals and memory with
      the program counter and the frames where the control transfer puts them. */
  lemma {:induction false} Sim(p: Program, m: S.Module, env: V.Env, fuel: nat, code: Code, labels: seq<V.Label>,
                               ts: seq<ValType>, c: Conf, s: State, under: seq<Value>, mid: seq<Value>)
    returns (k: nat, junk: seq<Value>)
    requires InFunction(m, env, labels, ts, code)
    requires Ready(p, m, env, labels, code, s, |under| + |env.locals| + |mid|) && V.Check(m, env, labels, ts, code)
    requires V.ConfOk(env, ts, c) && At(s, under, mid, c)
    ensures Agrees(p, m, s, labels, under, mid, code.EndAt(), fuel, S.Eval(m, fuel, code, c), k, junk)
    ensures S.Eval(m, fuel, code, c).Normal? ==> junk == []
    ensures Guards(p, m, s, k, under, Own(s.frames, labels))
    decreases fuel, 1, code, 2
  {
    hide Loaded, V.ModuleOk, V.ConfOk, V.CheckOp, V.After, At, Agrees, Run, FramesOk, NodePlaced, S.EvalOp,
         Keeps, InFunction, Housed;
    Heights(env, ts, s, under, mid, c);
    match code
    case Done(_) =>
      k, junk := 0, [];
      StandStill(p, m, s, labels, under, mid, fuel, c);
    case Simple(at, op, rest) =>
      k, junk := OpSim(p, m, env, fuel, code, labels, ts, c, s, under, mid);
      V.OpSound(m, env, fuel, op, labels, ts, c);
      var r := S.EvalOp(m, fuel, op, c);
      if r.Normal? {
        PremiseInFunction(m, env, labels, ts, code, labels, V.After(m, env, ts, op), rest);
        k, junk := Onwards(p, m, env, fuel, rest, labels, V.After(m, env, ts, op), r.c, s, under, mid, k);
      } else {
        EndIrrelevant(p, m, s, labels, under, mid, rest.at, code.EndAt(), fuel, r, k, junk);
      }
    case Block(_, kind, ty, body, rest) =>
      if kind == 4 { k, junk := IfSim(p, m, env, fuel, code, labels, ts, c, s, under, mid); }
      else { k, junk := BlockSim(p, m, env, fuel, code, labels, ts, c, s, under, mid); }
    case IfElse(_, _, _, _, _) =>
      k, junk := IfSim(p, m, env, fuel, code, labels, ts, c, s, under, mid);
  }

  /** The state at the start of a validated sequence. */
  lemma StartGuard(p: Program, m: S.Module, env: V.Env, code: Code, labels: seq<V.Label>, ts: seq<ValType>, c: Conf,
                   s: State, under: seq<Value>, mid: seq<Value>)
    requires InFunction(m, env, labels, ts, code)
    requires Ready(p, m, env, labels, code, s, |under| + |env.locals| + |mid|) && V.Check(m, env, labels, ts, code)
    requires V.ConfOk(env, ts, c) && At(s, under, mid, c) && !code.Done?
    ensures Keeps(p, m, Next(s), under, Own(s.frames, labels)) && Guards(p, m, s, 1, under, Own(s.frames, labels))
  {
    hide Run, Guards, Keeps, Stacked, At, V.Check, InFunction, Loaded, V.ModuleOk, Placed, Covered, Housed;
    Heights(env, ts, s, under, mid, c);
    SameLocals(env, ts, c);
    SiteKeeps(p, m, s, Site(code, env, labels, ts, under, mid, c), Own(s.frames, labels));
    GuardsOne(p, m, s, under, Own(s.frames, labels));
  }

  lemma SameLocals(env: V.Env, ts: seq<ValType>, c: Conf)
    requires V.ConfOk(env, ts, c)
    ensures |c.locals| == |env.locals| && MemoryOk(c.mem)
  {}

  lemma StandStill(p: Program, m: S.Module, s: State, labels: seq<V.Label>, under: seq<Value>, mid: seq<Value>,
                   fuel: nat, c: Conf)
    requires At(s, under, mid, c)
    ensures Agrees(p, m, s, labels, under, mid, s.pc, fuel, S.Normal(c), 0, [])
  {
    assert mid + [] == mid;
  }

  lemma EndIrrelevant(p: Program, m: S.Module, s: State, labels: seq<V.Label>, under: seq<Value>, mid: seq<Value>,
                      end: nat, end': nat, fuel: nat, r: Result, k: nat, junk: seq<Value>)
    requires Agrees(p, m, s, labels, under, mid, end, fuel, r, k, junk) && !r.Normal?
    ensures Agrees(p, m, s, labels, under, mid, end', fuel, r, k, junk)
  {
    hide Run, At;
  }

  /** After i steps have brought the machine to `rest` with configuration c, go on from there. */
  lemma {:induction false} Onwards(p: Program, m: S.Module, env: V.Env, fuel: nat, rest: Code, labels: seq<V.Label>,
                                   ts: seq<ValType>, c: Conf, s: State, under: seq<Value>, mid: seq<Value>, i: nat)
    returns (k: nat, junk: seq<Value>)
    requires Loaded(p, m) && V.ModuleOk(m, env.globals) && labels != []
    requires Placed(p.bytes, rest) && Covered(p.lookup, rest)
    requires FramesOk(p, m, s.frames, labels, |under| + |env.locals| + |mid|) && Housed(s.frames, |under|, env.locals)
    requires V.Check(m, env, labels, ts, rest) && V.ConfOk(env, ts, c) && InFunction(m, env, labels, ts, rest)
    requires Agrees(p, m, s, labels, under, mid, rest.at, fuel, S.Normal(c), i, [])
    requires Guards(p, m, s, i, under, Own(s.frames, labels))
    ensures Agrees(p, m, s, labels, under, mid, rest.EndAt(), fuel, S.Eval(m, fuel, rest, c), k, junk)
    ensures S.Eval(m, fuel, rest, c).Normal? ==> junk == []
    ensures Guards(p, m, s, k, under, Own(s.frames, labels))
    decreases fuel, 1, rest, 3
  {
    hide Loaded, V.ModuleOk, V.ConfOk, V.Check, At, Run, FramesOk, Placed, Covered, S.Eval, Guards, InFunction,
         Housed;
    assert mid + [] == mid;
    var s1 := Run(p, s, i).s;
    Heights(env, ts, s1, under, mid, c);
    k, junk := Sim(p, m, env, fuel, rest, labels, ts, c, s1, under, mid);
    AgreesAfter(p, m, s, i, s1, labels, under, mid, rest.EndAt(), fuel, S.Eval(m, fuel, rest, c), k, junk);
    GuardsJoin(p, m, s, i, s1, k, under, Own(s.frames, labels));
    k := i + k;
  }

  /** A branch to a loop's label goes back to its body without unwinding the operand stack; what
      it leaves behind stays below the operands of the next turn. */
  lemma {:induction false} LoopSim(p: Program, m: S.Module, env: V.Env, fuel: nat, body: Code, l: V.Label,
                                   labels: seq<V.Label>, c: Conf, s: State, under: seq<Value>, mid: seq<Value>,
                                   left: seq<Value>)
    returns (k: nat, junk: seq<Value>)
    requires InFunction(m, env, [l] + labels, [], body)
    requires Ready(p, m, env, [l] + labels, body, s, |under| + |env.locals| + |mid|)
    requires V.Check(m, env, [l] + labels, [], body)
    requires labels != [] && l.kind == 3 && l.brs == [] && (l.strict ==> left == [])
    requires s.frames != [] && s.frames[|s.frames| - 1].block.br == body.at && KindAt(s.frames, 0) == 3
    requires V.ConfOk(env, [], c) && At(s, under, mid + left, c)
    ensures Agrees(p, m, s, [l] + labels, under, mid, body.EndAt(), fuel, S.EvalLoop(m, fuel, body, c), k, junk)
    ensures Guards(p, m, s, k, under, Own(s.frames, [l] + labels))
    decreases fuel, 1, body, 3
  {
    hide Ready, V.Check, V.ResultOk, At, Agrees, Run, S.Eval, Guards, Own;
    var all := [l] + labels;
    var height := |under| + |env.locals| + |mid|;
    Pointer(s, under, mid + left, c);
    ReadyHigher(p, m, env, all, body, s, height, |under| + |env.locals| + |mid + left|);
    k, junk := Sim(p, m, env, fuel, body, all, [], c, s, under, mid + left);
    V.Sound(m, env, fuel, body, all, [], c);
    var r := S.Eval(m, fuel, body, c);
    if r.Jump? && r.depth == 0 {
      NextTurn(p, m, env, l, labels, s, under, mid, left, body, fuel, r, k, junk);
      var s1, i, left' := Run(p, s, k).s, k, left + junk + r.c.ops;
      if fuel > 0 {
        var c1 := r.c.(ops := []);
        ReadyAgain(p, m, env, all, body, s, height, s1);
        k, junk := LoopSim(p, m, env, fuel - 1, body, l, labels, c1, s1, under, mid, left');
        AgreesLater(p, m, s, i, s1, all, under, mid, body.EndAt(), fuel - 1, S.EvalLoop(m, fuel - 1, body, c1), k,
                    junk);
        GuardsJoin(p, m, s, i, s1, k, under, Own(s.frames, all));
        k := i + k;
      }
    } else {
      AgreesWith(p, m, env, l, labels, s, under, mid, left, body.EndAt(), fuel, r, k, junk);
      junk := left + junk;
    }
  }

  /** A branch to the loop's own label has brought the machine back to the body. */
  lemma NextTurn(p: Program, m: S.Module, env: V.Env, l: V.Label, labels: seq<V.Label>, s: State, under: seq<Value>,
                 mid: seq<Value>,
                 left: seq<Value>, body: Code, fuel: nat, r: Result, k: nat, junk: seq<Value>)
    requires Agrees(p, m, s, [l] + labels, under, mid + left, body.EndAt(), fuel, r, k, junk)
    requires r.Jump? && r.depth == 0 && V.ResultOk(env, [l] + labels, r)
    requires s.frames != [] && s.frames[|s.frames| - 1].block.br == body.at && l.brs == [] && (l.strict ==> left == [])
    ensures k > 0 && Run(p, s, k).Next? && Run(p, s, k).s.frames == s.frames && Run(p, s, k).s.pc == body.at
    ensures Run(p, s, k).s.fp == |under|
    ensures At(Run(p, s, k).s, under, mid + (left + junk + r.c.ops), r.c.(ops := []))
    ensures V.ConfOk(env, [], r.c.(ops := [])) && (l.strict ==> left + junk + r.c.ops == [])
    ensures fuel == 0 ==> Agrees(p, m, s, [l] + labels, under, mid, body.EndAt(), 0, S.Timeout, k, junk)
  {
    hide At, Run;
    assert ([l] + labels)[0] == l;
    assert s.frames[..|s.frames| - 0] == s.frames;
    Pointer(Run(p, s, k).s, under, mid + left + junk, r.c);
    DropToJunk(Run(p, s, k).s, under, mid, left, junk, r.c);
  }

  lemma Pointer(s: State, under: seq<Value>, mid: seq<Value>, c: Conf)
    requires At(s, under, mid, c)
    ensures s.fp == |under|
  {}

  lemma DropToJunk(s: State, under: seq<Value>, mid: seq<Value>, left: seq<Value>, junk: seq<Value>, c: Conf)
    requires At(s, under, mid + left + junk, c)
    ensures At(s, under, mid + (left + junk + c.ops), c.(ops := []))
  {
    assert under + c.locals + (mid + left + junk) + c.ops == under + c.locals + (mid + (left + junk + c.ops)) + [];
  }

  /** One turn costs at least one step, so the bound grows by one. */
  lemma AgreesLater(p: Program, m: S.Module, s: State, i: nat, s1: State, labels: seq<V.Label>, under: seq<Value>,
                    mid: seq<Value>,
                    end: nat, fuel: nat, r: Result, k: nat, junk: seq<Value>)
    requires Run(p, s, i) == Next(s1) && s1.frames == s.frames && i > 0
    requires Agrees(p, m, s1, labels, under, mid, end, fuel, r, k, junk)
    ensures Agrees(p, m, s, labels, under, mid, end, fuel + 1, r, i + k, junk)
  {
    hide At, Run;
    RunAdd(p, s, i, k);
  }

  /** Counting what a loop left behind as junk of the enclosing label. */
  lemma AgreesWith(p: Program, m: S.Module, env: V.Env, l: V.Label, labels: seq<V.Label>, s: State, under: seq<Value>,
                   mid: seq<Value>,
                   left: seq<Value>, end: nat, fuel: nat, r: Result, k: nat, junk: seq<Value>)
    requires Agrees(p, m, s, [l] + labels, under, mid + left, end, fuel, r, k, junk)
    requires V.ResultOk(env, [l] + labels, r) && !(r.Jump? && r.depth == 0)
    requires l.kind == 3 && (l.strict ==> left == [])
    ensures Agrees(p, m, s, [l] + labels, under, mid, end, fuel, r, k, left + junk)
  {
    hide At, Run;
    if r.Normal? || r.Jump? || r.Returned? {
      assert ([l] + labels)[0] == l;
      Regroup(Run(p, s, k).s, under, mid, left, junk, r.c);
    }
  }

  lemma {:induction false} BlockSim(p: Program, m: S.Module, env: V.Env, fuel: nat, code: Code, labels: seq<V.Label>,
                                    ts: seq<ValType>, c: Conf, s: State, under: seq<Value>, mid: seq<Value>)
    returns (k: nat, junk: seq<Value>)
    requires InFunction(m, env, labels, ts, code)
    requires Ready(p, m, env, labels, code, s, |under| + |env.locals| + |mid|)
    requires V.Check(m, env, labels, ts, code) && code.Block? && code.kind != 4
    requires V.ConfOk(env, ts, c) && At(s, under, mid, c)
    ensures Agrees(p, m, s, labels, under, mid, code.EndAt(), fuel, S.Eval(m, fuel, code, c), k, junk)
    ensures S.Eval(m, fuel, code, c).Normal? ==> junk == []
    ensures Guards(p, m, s, k, under, Own(s.frames, labels))
    decreases fuel, 1, code, 1
  {
    hide Loaded, V.ModuleOk, V.ConfOk, V.ResultOk, V.Check, At, Agrees, Run, FramesOk, Decode, BlockType,
         Guards, Own, Stacked, InFunction, Visits, Keeps, Housed, Ready, Premise, RecordOf, Placed, Covered;
    var ty, body, rest := code.ty, code.body, code.rest;
    ReadyRest(p, m, env, labels, code, s, |under| + |env.locals| + |mid|);
    Heights(env, ts, s, under, mid, c);
    var l := V.PickLabel(m, env, code, labels, ts);
    StartGuard(p, m, env, code, labels, ts, c, s, under, mid);
    BlockPremises(m, env, code, l, labels, ts);
    PremiseInFunction(m, env, labels, ts, code, labels, ts + ty, rest);
    var s1, f := EnterReady(p, m, env, code, l, labels, ts, c, s, under, mid);
    V.EmptyOps(env, ts, c);
    var r, k1, junk1 := BodySim(p, m, env, fuel, body, l, labels, c.(ops := []), s1, under, mid + c.ops);
    OwnPush(s.frames, labels, f, l);
    k, junk := Unnest(p, m, env, l, labels, c.ops, r, s, 1, s1, f, under, mid, body.EndAt(), fuel, k1, junk1);
    V.LeaveSound(env, l, labels, c.ops, r);
    V.OpsTypes(env, ts, c);
    Pointer(s, under, mid, c);
    k, junk := Proceed(p, m, env, fuel, rest, labels, ts + ty, S.Leave(ty, c.ops, r), s, under, mid, k, junk);
  }

  lemma BlockPremises(m: S.Module, env: V.Env, code: Code, l: V.Label, labels: seq<V.Label>, ts: seq<ValType>)
    requires code.Block? && 2 <= code.kind <= 3 && (l.strict ==> code.kind == 3)
    requires l == V.Label(code.kind, if code.kind == 3 then [] else code.ty, code.ty, ts == [], l.strict)
    ensures Premise(m, env, Judgement([l] + labels, [], code.body), Judgement(labels, ts, code))
    ensures Premise(m, env, Judgement(labels, ts + code.ty, code.rest), Judgement(labels, ts, code))
  {}

  /** What holds at the start of a sequence also holds for what comes behind its first block. */
  lemma ReadyRest(p: Program, m: S.Module, env: V.Env, labels: seq<V.Label>, code: Code, s: State, height: nat)
    requires Ready(p, m, env, labels, code, s, height) && code.Block?
    ensures Loaded(p, m) && V.ModuleOk(m, env.globals) && 0 < |labels| <= |s.frames|
    ensures Placed(p.bytes, code.rest) && Covered(p.lookup, code.rest) && code.rest.at == code.body.EndAt() + 1
    ensures FramesOk(p, m, s.frames, labels, height) && Housed(s.frames, s.fp, env.locals)
  {
    hide Loaded, V.ModuleOk, Housed, BlockType, Decode, Stacked, FirstOk;
  }

  /** The step into a block or loop. */
  lemma EnterReady(p: Program, m: S.Module, env: V.Env, code: Code, l: V.Label, labels: seq<V.Label>,
                   ts: seq<ValType>, c: Conf, s: State, under: seq<Value>, mid: seq<Value>)
    returns (s1: State, f: Frame)
    requires InFunction(m, env, labels, ts, code)
    requires Ready(p, m, env, labels, code, s, |under| + |env.locals| + |mid|) && code.Block?
    requires V.ConfOk(env, ts, c) && At(s, under, mid, c)
    requires 2 <= code.kind <= 3 && l.kind == code.kind && l.ends == code.ty
    requires Premise(m, env, Judgement([l] + labels, [], code.body), Judgement(labels, ts, code))
    ensures Run(p, s, 1) == Next(s1) && s1.frames == s.frames + [f] && At(s1, under, mid + c.ops, c.(ops := []))
    ensures Ready(p, m, env, [l] + labels, code.body, s1, |under| + |env.locals| + |mid + c.ops|)
    ensures InFunction(m, env, [l] + labels, [], code.body) && f.block == RecordOf(code)
    ensures FrameFor(f, l, |under| + |env.locals| + |mid| + |c.ops|, |under|)
    ensures Stacked(s1.frames, |under| + |env.locals| + |mid| + |c.ops|) && Housed(s1.frames, |under|, env.locals)
    ensures var end := code.body.EndAt();
            end < |p.bytes| && p.bytes[end] == 0x0b && Visits(m, end) && f.block.end == end
            && f.block.br == (if code.kind == 3 then code.body.at else end)
    ensures KindAt(s1.frames, 0) == code.kind && s1.frames[|s1.frames| - 1].block.br == f.block.br
  {
    hide Loaded, V.ModuleOk, V.ConfOk, At, Run, FramesOk, Decode, BlockType, Stacked, InFunction, InModule, Visits,
         Housed, Premise;
    PremiseInFunction(m, env, labels, ts, code, [l] + labels, [], code.body);
    FunctionInModule(m, env, [l] + labels, [], code.body);
    EndVisited(m, code.body);
    s1 := EnterSim(p, code, s, under, mid, c);
    f := Frame(RecordOf(code), |s.stack| - 1, s.fp, code.at + 2);
    Heights(env, ts, s, under, mid, c);
    Pointer(s1, under, mid + c.ops, c.(ops := []));
    HousedPush(s.frames, |under|, env.locals, f);
    PushFrameOk(p, m, s.frames, labels, f, l, |under| + |env.locals| + |mid|);
    HigherFrames(p, m, s1.frames, [l] + labels, Base(f), Base(f));
    BlockTypeLength(p, code);
  }

  lemma {:induction false} BodySim(p: Program, m: S.Module, env: V.Env, fuel: nat, body: Code, l: V.Label,
                                   labels: seq<V.Label>, c: Conf, s: State, under: seq<Value>, mid: seq<Value>)
    returns (r: Result, k: nat, junk: seq<Value>)
    requires InFunction(m, env, [l] + labels, [], body)
    requires Ready(p, m, env, [l] + labels, body, s, |under| + |env.locals| + |mid|)
    requires V.Check(m, env, [l] + labels, [], body) && labels != []
    requires l.kind == 3 ==> l.brs == [] && s.frames[|s.frames| - 1].block.br == body.at && KindAt(s.frames, 0) == 3
    requires V.ConfOk(env, [], c) && At(s, under, mid, c)
    ensures r == if l.kind == 3 then S.EvalLoop(m, fuel, body, c) else S.Eval(m, fuel, body, c)
    ensures Agrees(p, m, s, [l] + labels, under, mid, body.EndAt(), fuel, r, k, junk)
    ensures V.ResultOk(env, [l] + labels, r) && (l.kind == 3 && r.Jump? ==> r.depth > 0)
    ensures Guards(p, m, s, k, under, Own(s.frames, [l] + labels))
    decreases fuel, 1, body, 4
  {
    hide Loaded, V.ModuleOk, V.Check, V.ConfOk, V.ResultOk, At, Agrees, FramesOk, Placed, Covered, S.Eval,
         S.EvalLoop, Guards, Own, InFunction;
    if l.kind == 3 {
      assert mid + [] == mid;
      k, junk := LoopSim(p, m, env, fuel, body, l, labels, c, s, under, mid, []);
      V.LoopSound(m, env, fuel, body, l, labels, c);
      r := S.EvalLoop(m, fuel, body, c);
    } else {
      k, junk := Sim(p, m, env, fuel, body, [l] + labels, [], c, s, under, mid);
      V.Sound(m, env, fuel, body, [l] + labels, [], c);
      r := S.Eval(m, fuel, body, c);
    }
  }

  /** Continue with the rest if the block was left normally, otherwise hand the outcome on. */
  lemma {:induction false} Proceed(p: Program, m: S.Module, env: V.Env, fuel: nat, rest: Code, labels: seq<V.Label>,
                                   ts: seq<ValType>, r: Result, s: State, under: seq<Value>, mid: seq<Value>,
                                   i: nat, junk1: seq<Value>)
    returns (k: nat, junk: seq<Value>)
    requires Loaded(p, m) && V.ModuleOk(m, env.globals) && labels != []
    requires Placed(p.bytes, rest) && Covered(p.lookup, rest)
    requires FramesOk(p, m, s.frames, labels, |under| + |env.locals| + |mid|) && Housed(s.frames, |under|, env.locals)
    requires InFunction(m, env, labels, ts, rest) && V.Check(m, env, labels, ts, rest)
    requires (r.Normal? ==> junk1 == [] && V.ConfOk(env, ts, r.c))
    requires Agrees(p, m, s, labels, under, mid, rest.at, fuel, r, i, junk1)
    requires Guards(p, m, s, i, under, Own(s.frames, labels))
    ensures var r' := if r.Normal? then S.Eval(m, fuel, rest, r.c) else r;
            Agrees(p, m, s, labels, under, mid, rest.EndAt(), fuel, r', k, junk) && (r'.Normal? ==> junk == [])
    ensures Guards(p, m, s, k, under, Own(s.frames, labels))
    decreases fuel, 1, rest, 4
  {
    hide Loaded, V.ModuleOk, V.ConfOk, V.Check, Agrees, FramesOk, Placed, Covered, S.Eval, Guards, Own, InFunction;
    if r.Normal? {
      k, junk := Onwards(p, m, env, fuel, rest, labels, ts, r.c, s, under, mid, i);
    } else {
      k, junk := i, junk1;
      EndIrrelevant(p, m, s, labels, under, mid, rest.at, rest.EndAt(), fuel, r, k, junk);
    }
  }

  lemma Heights(env: V.Env, ts: seq<ValType>, s: State, under: seq<Value>, mid: seq<Value>, c: Conf)
    requires V.ConfOk(env, ts, c) && At(s, under, mid, c)
    ensures |s.stack| == |under| + |env.locals| + |mid| + |ts| && s.fp == |under| && |c.ops| == |ts|
  {}

  lemma BlockTypeLength(p: Program, code: Code)
    requires NodePlaced(p.bytes, code) && !code.Done? && !code.Simple?
    ensures |code.ty| <= 1
  {}

  lemma EnoughFrames(p: Program, m: S.Module, frames: seq<Frame>, labels: seq<V.Label>, height: nat)
    requires FramesOk(p, m, frames, labels, height)
    ensures 0 < |labels| <= |frames|
  {}

  lemma {:induction false} IfSim(p: Program, m: S.Module, env: V.Env, fuel: nat, code: Code, labels: seq<V.Label>,
                                 ts: seq<ValType>, c: Conf, s: State, under: seq<Value>, mid: seq<Value>)
    returns (k: nat, junk: seq<Value>)
    requires InFunction(m, env, labels, ts, code)
    requires Ready(p, m, env, labels, code, s, |under| + |env.locals| + |mid|) && V.Check(m, env, labels, ts, code)
    requires code.IfElse? || (code.Block? && code.kind == 4)
    requires V.ConfOk(env, ts, c) && At(s, under, mid, c)
    ensures Agrees(p, m, s, labels, under, mid, code.EndAt(), fuel, S.Eval(m, fuel, code, c), k, junk)
    ensures S.Eval(m, fuel, code, c).Normal? ==> junk == []
    ensures Guards(p, m, s, k, under, Own(s.frames, labels))
    decreases fuel, 1, code, 1
  {
    hide Loaded, V.ModuleOk, V.ConfOk, V.ResultOk, At, Agrees, Run, FramesOk, Decode, BlockType, V.EndsIn,
         S.Ends, Guards, Own, Stacked, InFunction, Keeps, Housed;
    HasTop(env, ts, c);
    StartGuard(p, m, env, code, labels, ts, c, s, under, mid);
    var rest, outer, cond := code.rest, S.ButLast(c.ops, 1), S.Last(c.ops, 1)[0].bits;
    var after := V.Front(ts, 1) + code.ty;
    assert code.Block? ==> code.ty == [] && after == V.Front(ts, 1);
    PremiseInFunction(m, env, labels, ts, code, labels, after, rest);
    Pointer(s, under, mid, c);
    var r;
    if code.Block? && cond == 0 {
      r := S.Normal(c.(ops := outer));
      k, junk := 1, [];
      SkipIf(p, m, env, fuel, code, labels, ts, c, s, under, mid);
    } else {
      var arm := if code.IfElse? then (if cond == 0 then code.els else code.thn) else code.body;
      r, k, junk := ArmSim(p, m, env, fuel, code, arm, labels, ts, c, s, under, mid);
    }
    k, junk := Proceed(p, m, env, fuel, rest, labels, after, r, s, under, mid, k, junk);
  }

  /** An `if` without else whose condition is zero pops its frame at once. */
  lemma SkipIf(p: Program, m: S.Module, env: V.Env, fuel: nat, code: Code, labels: seq<V.Label>, ts: seq<ValType>,
               c: Conf,
               s: State, under: seq<Value>, mid: seq<Value>)
    requires Placed(p.bytes, code) && Covered(p.lookup, code) && s.pc == code.at
    requires code.Block? && code.kind == 4 && V.ConfOk(env, ts, c) && At(s, under, mid, c)
    requires S.Ends(c.ops, [I32]) && S.Last(c.ops, 1)[0].bits == 0 && V.EndsIn(ts, [I32])
    ensures var c1 := c.(ops := S.ButLast(c.ops, 1));
            Agrees(p, m, s, labels, under, mid, code.rest.at, fuel, S.Normal(c1), 1, [])
            && V.ConfOk(env, V.Front(ts, 1), c1)
  {
    hide At, Agrees, Run, Decode, BlockType, S.Ends;
    var s1 := EnterIfSim(p, code, s, under, mid, c);
    StepAgrees(p, m, s, s1, labels, under, mid, fuel, c.(ops := S.ButLast(c.ops, 1)));
  }

  /** The chosen arm of an `if`, from its opcode to the instruction after its end. */
  lemma {:induction false} ArmSim(p: Program, m: S.Module, env: V.Env, fuel: nat, code: Code, arm: Code,
                                  labels: seq<V.Label>,
                                  ts: seq<ValType>, c: Conf, s: State, under: seq<Value>, mid: seq<Value>)
    returns (r: Result, k: nat, junk: seq<Value>)
    requires InFunction(m, env, labels, ts, code)
    requires Ready(p, m, env, labels, code, s, |under| + |env.locals| + |mid|) && V.Check(m, env, labels, ts, code)
    requires code.IfElse? || (code.Block? && code.kind == 4)
    requires V.ConfOk(env, ts, c) && At(s, under, mid, c) && S.Ends(c.ops, [I32])
    requires var cond := S.Last(c.ops, 1)[0].bits;
             if code.IfElse? then arm == (if cond == 0 then code.els else code.thn) else cond != 0 && arm == code.body
    ensures r == S.Leave(code.ty, S.ButLast(c.ops, 1), S.Eval(m, fuel, arm, c.(ops := [])))
    ensures Agrees(p, m, s, labels, under, mid, code.rest.at, fuel, r, k, junk)
    ensures r.Normal? ==> junk == [] && V.ConfOk(env, V.Front(ts, 1) + code.ty, r.c)
    ensures Guards(p, m, s, k, under, Own(s.frames, labels))
    decreases fuel, 1, code, 0
  {
    hide Loaded, V.ModuleOk, V.ResultOk, At, Agrees, Run, FramesOk, Decode, BlockType, V.EndsIn, S.Ends, Guards,
         Own, Stacked, S.Eval, S.Leave, InFunction, Visits, Keeps, V.Check, V.ConfOk, Housed, Ready, Placed, Covered;
    ReadyFrames(p, m, env, labels, code, s, |under| + |env.locals| + |mid|);
    StartGuard(p, m, env, code, labels, ts, c, s, under, mid);
    ArmChecks(m, env, code, arm, labels, ts);
    V.EmptyOps(env, ts, c);
    HasTop(env, ts, c);
    ArmVisited(m, env, code, arm, labels, ts);
    Heights(env, ts, s, under, mid, c);
    var outer, cond, inner := S.ButLast(c.ops, 1), S.Last(c.ops, 1)[0].bits, c.(ops := []);
    var l := V.Label(4, code.ty, code.ty, V.Front(ts, 1) == [], true);
    var s1, f := EnterArm(p, m, env, code, arm, l, labels, ts, c, s, under, mid);
    var end := RecordOf(code).end;
    k, junk := Sim(p, m, env, fuel, arm, [l] + labels, [], inner, s1, under, mid + outer);
    V.Sound(m, env, fuel, arm, [l] + labels, [], inner);
    r := S.Eval(m, fuel, arm, inner);
    OwnPush(s.frames, labels, f, l);
    if code.IfElse? && cond != 0 {
      NormalShape(env, [l] + labels, r);
      k := ThroughElse(p, m, s1, [l] + labels, under, mid + outer, code.thn.EndAt(), end, fuel, r, k, junk,
                       Own(s.frames, labels), Base(f));
    }
    k, junk := Unnest(p, m, env, l, labels, outer, r, s, 1, s1, f, under, mid, end, fuel, k, junk);
    V.OpsTypes(env, ts, c);
    V.TypesSplit(c.ops, 1);
    V.LeaveSound(env, l, labels, outer, r);
    r := S.Leave(code.ty, outer, r);
  }

  lemma ReadyFrames(p: Program, m: S.Module, env: V.Env, labels: seq<V.Label>, code: Code, s: State, height: nat)
    requires Ready(p, m, env, labels, code, s, height)
    ensures Loaded(p, m) && V.ModuleOk(m, env.globals) && 0 < |labels| <= |s.frames|
  {
    hide Loaded, V.ModuleOk, Housed, Placed, Covered, Stacked, FirstOk;
  }

  /** The step into an arm of an `if`. */
  lemma EnterArm(p: Program, m: S.Module, env: V.Env, code: Code, arm: Code, l: V.Label, labels: seq<V.Label>,
                 ts: seq<ValType>, c: Conf, s: State, under: seq<Value>, mid: seq<Value>)
    returns (s1: State, f: Frame)
    requires Ready(p, m, env, labels, code, s, |under| + |env.locals| + |mid|)
    requires code.IfElse? || (code.Block? && code.kind == 4)
    requires V.ConfOk(env, ts, c) && At(s, under, mid, c) && S.Ends(c.ops, [I32])
    requires var cond := S.Last(c.ops, 1)[0].bits;
             if code.IfElse? then arm == (if cond == 0 then code.els else code.thn) else cond != 0 && arm == code.body
    requires l.kind == 4 && l.ends == code.ty
    ensures |c.ops| > 0 && |s.stack| > 0
    ensures var outer := S.ButLast(c.ops, 1);
            Run(p, s, 1) == Next(s1) && s1.frames == s.frames + [f] && At(s1, under, mid + outer, c.(ops := []))
            && Ready(p, m, env, [l] + labels, arm, s1, |under| + |env.locals| + |mid + outer|)
            && FrameFor(f, l, |under| + |env.locals| + |mid| + |outer|, |under|)
            && Stacked(s1.frames, |under| + |env.locals| + |mid| + |outer|)
            && Base(f) == |under| + |env.locals| + |mid| + |outer|
    ensures Housed(s1.frames, |under|, env.locals) && f.block == RecordOf(code) && |code.ty| <= 1
    ensures var end := RecordOf(code).end;
            end < |p.bytes| && p.bytes[end] == 0x0b && f.block.br == end && code.rest.at == end + 1
    ensures code.IfElse? ==>
              code.thn.EndAt() < |p.bytes| && p.bytes[code.thn.EndAt()] == 0x05 && f.block.els == code.thn.EndAt() + 1
  {
    hide Loaded, V.ModuleOk, V.ConfOk, At, Run, FramesOk, Decode, BlockType, Stacked, Housed, S.Ends;
    EndsFits(c.ops, [I32]);
    s1 := EnterIfSim(p, code, s, under, mid, c);
    f := Frame(RecordOf(code), |s.stack| - 1, s.fp, code.at + 2);
    Heights(env, ts, s, under, mid, c);
    Pointer(s1, under, mid + S.ButLast(c.ops, 1), c.(ops := []));
    HousedPush(s.frames, |under|, env.locals, f);
    PushFrameOk(p, m, s.frames, labels, f, l, |under| + |env.locals| + |mid|);
    HigherFrames(p, m, s1.frames, [l] + labels, Base(f), Base(f));
    BlockTypeLength(p, code);
  }

  lemma ArmChecks(m: S.Module, env: V.Env, code: Code, arm: Code, labels: seq<V.Label>, ts: seq<ValType>)
    requires labels != [] && V.Check(m, env, labels, ts, code) && (code.IfElse? || (code.Block? && code.kind == 4))
    requires if code.IfElse? then arm == code.thn || arm == code.els else arm == code.body
    ensures V.EndsIn(ts, [I32]) && (code.Block? ==> code.ty == [])
    ensures V.Check(m, env, [V.Label(4, code.ty, code.ty, V.Front(ts, 1) == [], true)] + labels, [], arm)
  {}

  lemma ArmVisited(m: S.Module, env: V.Env, code: Code, arm: Code, labels: seq<V.Label>, ts: seq<ValType>)
    requires InFunction(m, env, labels, ts, code) && (code.IfElse? || (code.Block? && code.kind == 4)) && ts != []
    requires if code.IfElse? then arm == code.thn || arm == code.els else arm == code.body
    ensures InFunction(m, env, [V.Label(4, code.ty, code.ty, V.Front(ts, 1) == [], true)] + labels, [], arm)
    ensures Visits(m, RecordOf(code).end) && (code.IfElse? ==> Visits(m, code.thn.EndAt()))
  {
    hide InFunction, InModule, Visits;
    var l := V.Label(4, code.ty, code.ty, V.Front(ts, 1) == [], true);
    PremiseInFunction(m, env, labels, ts, code, [l] + labels, [], arm);
    FunctionInModule(m, env, labels, ts, code);
    if code.IfElse? {
      ChildInModule(m, code.thn, code);
      ChildInModule(m, code.els, code);
      EndVisited(m, code.thn);
      EndVisited(m, code.els);
    } else {
      ChildInModule(m, code.body, code);
      EndVisited(m, code.body);
    }
  }

  lemma NormalShape(env: V.Env, labels: seq<V.Label>, r: Result)
    requires labels != [] && V.ResultOk(env, labels, r)
    ensures r.Normal? ==> TypesOf(r.c.locals) == env.locals && S.Ends(r.c.ops, labels[0].ends)
  {
    if r.Normal? { V.EndsFromTypes(r.c.ops, labels[0].ends); }
  }

  lemma StepAgrees(p: Program, m: S.Module, s: State, s1: State, labels: seq<V.Label>, under: seq<Value>,
                   mid: seq<Value>,
                   fuel: nat, c: Conf)
    requires Run(p, s, 1) == Next(s1) && s1.frames == s.frames && At(s1, under, mid, c)
    ensures Agrees(p, m, s, labels, under, mid, s1.pc, fuel, S.Normal(c), 1, [])
  {
    hide Run;
    assert mid + [] == mid;
  }

  // ---------- branches and returns ----------

  lemma JumpAgrees(p: Program, m: S.Module, s: State, s2: State, labels: seq<V.Label>, under: seq<Value>,
                   mid: seq<Value>,
                   c: Conf, d: nat, end: nat, fuel: nat)
    requires Run(p, s, 1) == Branch(s2, d) && s2.frames == s.frames && At(s2, under, mid, c)
    requires d < |labels| <= |s.frames|
    ensures Agrees(p, m, s, labels, under, mid, end, fuel, S.Jump(d, c), 1, [])
  {
    hide Run;
    assert mid + [] == mid;
  }

  lemma ReturnAgrees(p: Program, m: S.Module, s: State, s2: State, labels: seq<V.Label>, under: seq<Value>,
                     mid: seq<Value>,
                     c: Conf, end: nat, fuel: nat, height: nat)
    requires Run(p, s, 1) == ExecReturn(s2) && s2.frames == s.frames && At(s2, under, mid, c)
    requires FramesOk(p, m, s.frames, labels, height)
    ensures Agrees(p, m, s, labels, under, mid, end, fuel, S.Returned(c), 1, [])
  {
    hide Run, Unwind, Stacked;
    assert mid + [] == mid;
    UnwindFinds(s.frames, |labels|);
  }

  lemma BasicAgrees(p: Program, m: S.Module, s: State, s2: State, labels: seq<V.Label>, under: seq<Value>,
                    mid: seq<Value>,
                    fuel: nat, r: Result)
    requires s2.frames == s.frames && Matches(s2, under, mid, r, Run(p, s, 1))
    ensures Agrees(p, m, s, labels, under, mid, s2.pc, fuel, r, 1, [])
  {
    hide Run;
    assert mid + [] == mid;
  }

  lemma {:induction false} OpSim(p: Program, m: S.Module, env: V.Env, fuel: nat, code: Code, labels: seq<V.Label>,
                                 ts: seq<ValType>, c: Conf, s: State, under: seq<Value>, mid: seq<Value>)
    returns (k: nat, junk: seq<Value>)
    requires InFunction(m, env, labels, ts, code)
    requires Ready(p, m, env, labels, code, s, |under| + |env.locals| + |mid|) && code.Simple?
    requires V.Check(m, env, labels, ts, code)
    requires V.ConfOk(env, ts, c) && At(s, under, mid, c)
    ensures Agrees(p, m, s, labels, under, mid, code.rest.at, fuel, S.EvalOp(m, fuel, code.op, c), k, junk)
    ensures S.EvalOp(m, fuel, code.op, c).Normal? ==> junk == []
    ensures Guards(p, m, s, k, under, Own(s.frames, labels))
    decreases fuel, 0, 4
  {
    hide V.ModuleOk, Run, Decode, Agrees, FramesOk, Loaded, Guards, Own, Stacked, InFunction, Keeps, Linked, Placed,
         Covered, Ready, At, V.ConfOk, V.Check;
    ReadySimple(p, m, env, labels, ts, code, s, |under| + |env.locals| + |mid|);
    Heights(env, ts, s, under, mid, c);
    StartGuard(p, m, env, code, labels, ts, c, s, under, mid);
    HigherFrames(p, m, s.frames, labels, |under| + |env.locals| + |mid|, |under| + |env.locals| + |mid|);
    SameLocals(env, ts, c);
    var op, s2 := code.op, s.(pc := code.rest.at);
    StepAt(p, s, op, code.rest.at);
    SamePlace(s, s2, under, mid, c);
    EnoughFrames(p, m, s.frames, labels, |under| + |env.locals| + |mid|);
    k, junk := OpCases(p, m, env, fuel, op, labels, ts, c, s, s2, under, mid);
  }

  /** The instruction has been fetched; s2 is s behind its bytes. */
  lemma {:induction false} OpCases(p: Program, m: S.Module, env: V.Env, fuel: nat, op: Op, labels: seq<V.Label>,
                                   ts: seq<ValType>, c: Conf, s: State, s2: State, under: seq<Value>,
                                   mid: seq<Value>) returns (k: nat, junk: seq<Value>)
    requires Loaded(p, m) && V.ModuleOk(m, env.globals) && IsSimple(op)
    requires FramesOk(p, m, s.frames, labels, |under| + |env.locals| + |mid|) && 0 < |labels| <= |s.frames|
    requires Stacked(s.frames, |under| + |env.locals| + |mid|) && Linked(s.frames, s.fp)
    requires V.CheckOp(m, env, labels, ts, op) && V.ConfOk(env, ts, c)
    requires s2 == s.(pc := s2.pc) && At(s2, under, mid, c) && At(s, under, mid, c)
    requires s.pc < |p.bytes| && Decode(p.bytes, s.pc) == Some(Fetched(op, s2.pc))
    requires Run(p, s, 1) == Exec(p, s.pc, op, s2)
    requires Keeps(p, m, Next(s), under, Own(s.frames, labels)) && Guards(p, m, s, 1, under, Own(s.frames, labels))
    ensures Agrees(p, m, s, labels, under, mid, s2.pc, fuel, S.EvalOp(m, fuel, op, c), k, junk)
    ensures S.EvalOp(m, fuel, op, c).Normal? ==> junk == []
    ensures Guards(p, m, s, k, under, Own(s.frames, labels))
    decreases fuel, 0, 3
  {
    hide V.ModuleOk, Run, Decode, Agrees, FramesOk, Loaded, Guards, Own, Stacked, Keeps, Linked, At, V.ConfOk;
    k, junk := 1, [];
    if op.Br? || op.BrIf? || op.BrTable? {
      BranchSim(p, m, env, fuel, op, labels, ts, c, s, s2, under, mid);
    } else if op.Return? {
      ReturnAgrees(p, m, s, s2, labels, under, mid, c, s2.pc, fuel, |under| + |env.locals| + |mid|);
    } else if op.CallIndirect? && RefusedHere(m, op, s2) {
      HasTop(env, ts, c);
      EntriesOk(m, env.globals);
      k := RefusedAgrees(p, m, labels, s, s2, op, c, under, mid, s2.pc, fuel);
      GuardsFewer(p, m, s, 1, under, Own(s.frames, labels), k);
    } else if op.Call? || op.CallIndirect? {
      FirstFrame(p, m, s.frames, labels, |under| + |env.locals| + |mid|);
      k := CallOpSim(p, m, env, fuel, op, labels, ts, c, s, s2, under, mid);
    } else if op.Trap? || op.Unknown? {
      TrapAgrees(p, m, s, labels, under, mid, s2.pc, fuel, S.EvalOp(m, fuel, op, c));
    } else {
      BasicOpSim(p, m, env, fuel, op, labels, ts, c, s, s2, under, mid);
    }
  }

  /** A call, or a call_indirect through an entry of the expected type. */
  lemma {:induction false} CallOpSim(p: Program, m: S.Module, env: V.Env, fuel: nat, op: Op, labels: seq<V.Label>,
                                     ts: seq<ValType>, c: Conf, s: State, s2: State, under: seq<Value>,
                                     mid: seq<Value>) returns (k: nat)
    requires Loaded(p, m) && V.ModuleOk(m, env.globals) && labels != [] && FirstOk(p, m, s.frames)
    requires Stacked(s.frames, |under| + |env.locals| + |mid|) && Linked(s.frames, s.fp)
    requires V.CheckOp(m, env, labels, ts, op) && V.ConfOk(env, ts, c)
    requires op.Call? || (op.CallIndirect? && !RefusedHere(m, op, s2))
    requires s2 == s.(pc := s2.pc) && At(s2, under, mid, c) && Run(p, s, 1) == Exec(p, s.pc, op, s2)
    requires Keeps(p, m, Next(s), under, Own(s.frames, labels))
    ensures Agrees(p, m, s, labels, under, mid, s2.pc, fuel, S.EvalOp(m, fuel, op, c), k, [])
    ensures Guards(p, m, s, k, under, Own(s.frames, labels))
    decreases fuel, 0, 2
  {
    hide V.ModuleOk, Run, Agrees, Loaded, Guards, Own, Stacked, Keeps, Linked, Called, At, V.ConfOk, CallTo;
    if op.Call? {
      k := CallSim(p, m, env, fuel, op.f, ts, c, s2, under, mid);
    } else {
      HasTop(env, ts, c);
      TopOperand(s2, under, mid, c);
      k := IndirectSim(p, m, env, fuel, op, s.pc, ts, c, s2, under, mid);
    }
    OwnBelow(s.frames, labels);
    k := CalledAgrees(p, m, s, s2, Exec(p, s.pc, op, s2), labels, under, mid, fuel, S.EvalOp(m, fuel, op, c), k);
  }

  /** An instruction without control. */
  lemma BasicOpSim(p: Program, m: S.Module, env: V.Env, fuel: nat, op: Op, labels: seq<V.Label>, ts: seq<ValType>,
                   c: Conf, s: State, s2: State, under: seq<Value>, mid: seq<Value>)
    requires Loaded(p, m) && labels != [] && S.IsBasic(op) && V.CheckOp(m, env, labels, ts, op)
    requires V.ConfOk(env, ts, c) && s2 == s.(pc := s2.pc) && At(s2, under, mid, c)
    requires Run(p, s, 1) == Exec(p, s.pc, op, s2)
    ensures Agrees(p, m, s, labels, under, mid, s2.pc, fuel, S.EvalOp(m, fuel, op, c), 1, [])
  {
    hide Loaded, Run, Exec, Agrees, At, S.EvalBasic, V.BasicType;
    V.BasicSound(m, env, ts, op, c);
    SameAlu(p, m);
    SameLocals(env, ts, c);
    BasicSim(p, m, s.pc, op, c, s2, under, mid);
    BasicAgrees(p, m, s, s2, labels, under, mid, fuel, S.EvalOp(m, fuel, op, c));
  }

  lemma ReadySimple(p: Program, m: S.Module, env: V.Env, labels: seq<V.Label>, ts: seq<ValType>, code: Code, s: State,
                    height: nat)
    requires Ready(p, m, env, labels, code, s, height) && code.Simple? && V.Check(m, env, labels, ts, code)
    ensures Loaded(p, m) && V.ModuleOk(m, env.globals) && FramesOk(p, m, s.frames, labels, height)
    ensures Linked(s.frames, s.fp) && V.CheckOp(m, env, labels, ts, code.op)
    ensures IsSimple(code.op) && s.pc < |p.bytes| && Decode(p.bytes, s.pc) == Some(Fetched(code.op, code.rest.at))
  {
    hide Loaded, V.ModuleOk, FramesOk, Linked, Decode;
  }

  lemma SamePlace(s: State, s2: State, under: seq<Value>, mid: seq<Value>, c: Conf)
    requires At(s, under, mid, c) && s2 == s.(pc := s2.pc)
    ensures At(s2, under, mid, c)
  {}

  lemma GuardsFewer(p: Program, m: S.Module, s: State, k: nat, under: seq<Value>, fs: seq<Frame>, j: nat)
    requires Guards(p, m, s, k, under, fs) && j <= k
    ensures Guards(p, m, s, j, under, fs)
  {
    hide Run, Keeps;
  }

  ghost predicate RefusedHere(m: S.Module, op: Op, s: State)
    requires op.CallIndirect?
  {
    op.t < |m.types| && TopIs(s, I32) && S.Refused(m, op.t, Top(s).bits)
  }

  lemma EntriesOk(m: S.Module, globals: seq<ValType>)
    requires V.ModuleOk(m, globals)
    ensures V.TableOk(m)
  {}

  lemma TrapAgrees(p: Program, m: S.Module, s: State, labels: seq<V.Label>, under: seq<Value>, mid: seq<Value>,
                   end: nat, fuel: nat, r: Result)
    requires r.Fail? && Run(p, s, 1) == Trapped(r.e)
    ensures Agrees(p, m, s, labels, under, mid, end, fuel, r, 1, [])
  {
    hide Run;
  }

  lemma SameAlu(p: Program, m: S.Module)
    requires Loaded(p, m)
    ensures p.alu == m.alu
  {}

  lemma FirstFrame(p: Program, m: S.Module, frames: seq<Frame>, labels: seq<V.Label>, height: nat)
    requires FramesOk(p, m, frames, labels, height)
    ensures FirstOk(p, m, frames)
  {}

  /** br, br_if and br_table: s2 is s after the operands have been read. */
  lemma BranchSim(p: Program, m: S.Module, env: V.Env, fuel: nat, op: Op, labels: seq<V.Label>, ts: seq<ValType>,
                  c: Conf, s: State, s2: State, under: seq<Value>, mid: seq<Value>)
    requires labels != [] && |labels| <= |s.frames| && (op.Br? || op.BrIf? || op.BrTable?)
    requires V.CheckOp(m, env, labels, ts, op) && V.ConfOk(env, ts, c)
    requires s2.frames == s.frames && At(s2, under, mid, c)
    requires Run(p, s, 1) == Exec(p, s.pc, op, s2)
    ensures Agrees(p, m, s, labels, under, mid, s2.pc, fuel, S.EvalOp(m, fuel, op, c), 1, [])
  {
    hide Run, V.EndsIn, S.Ends, Agrees, At, Branch;
    if op.Br? {
      JumpAgrees(p, m, s, s2, labels, under, mid, c, op.depth, s2.pc, fuel);
    } else {
      V.EndsFromTypes(c.ops, [I32]);
      HasTop(env, ts, c);
      TopOperand(s2, under, mid, c);
      var c1 := c.(ops := S.ButLast(c.ops, 1));
      if op.BrTable? {
        var i := Top(s2).bits;
        var d := if i < |op.targets| then op.targets[i] else op.default;
        assert Pick(op.targets, op.default, i) == d;
        JumpAgrees(p, m, s, Pop(s2), labels, under, mid, c1, d, s2.pc, fuel);
      } else if Top(s2).bits != 0 {
        JumpAgrees(p, m, s, Pop(s2), labels, under, mid, c1, op.depth, s2.pc, fuel);
      } else {
        StepAgrees(p, m, s, Pop(s2), labels, under, mid, fuel, c1);
      }
    }
  }

  lemma HasTop(env: V.Env, ts: seq<ValType>, c: Conf)
    requires V.ConfOk(env, ts, c) && V.EndsIn(ts, [I32])
    ensures ts != [] && c.ops != [] && S.Last(c.ops, 1)[0].ty == I32 && S.Ends(c.ops, [I32])
  {
    V.EndsFromTypes(c.ops, [I32]);
    assert TypesOf(S.Last(c.ops, 1))[0] == I32;
  }

  // ---------- calls ----------

  /** k steps after the outcome o of a call instruction. */
  function Resume(p: Program, o: Outcome, k: nat): Outcome { if o.Next? then Run(p, o.s, k) else o }

  /** What k further steps have made of a call made in state s. */
  ghost predicate Called(p: Program, m: S.Module, s: State, o: Outcome, under: seq<Value>, mid: seq<Value>,
                         fuel: nat, r: Result, k: nat)
  {
    (o.Next? ==> Guards(p, m, o.s, k, under, s.frames)) &&
    match r
    case Normal(c) => o.Next? && Matches(s, under, mid, r, Run(p, o.s, k))
    case Fail(e) => FailsAs(p, m, e, Resume(p, o, k), under, s.frames)
    case Wild(t) => Resume(p, o, k) == Stray(t)
    case Timeout => Resume(p, o, k).Next? && k + 1 >= fuel
    case _ => false
  }

  lemma CalledAgrees(p: Program, m: S.Module, s: State, s2: State, o: Outcome, labels: seq<V.Label>,
                     under: seq<Value>, mid: seq<Value>,
                     fuel: nat, r: Result, k1: nat) returns (k: nat)
    requires s2.frames == s.frames && Run(p, s, 1) == o && Called(p, m, s2, o, under, mid, fuel, r, k1)
    requires Keeps(p, m, Next(s), under, Own(s.frames, labels)) && Own(s.frames, labels) <= s.frames
    ensures Agrees(p, m, s, labels, under, mid, s2.pc, fuel, r, k, [])
    ensures Guards(p, m, s, k, under, Own(s.frames, labels))
  {
    hide Run, At, Guards, Own;
    k := k1 + 1;
    RunAdd(p, s, 1, k1);
    assert mid + [] == mid;
    var fs := Own(s.frames, labels);
    if o.Next? {
      GuardsWeaker(p, m, o.s, k1, under, s.frames, under, fs);
      GuardsOne(p, m, s, under, fs);
      GuardsJoin(p, m, s, 1, o.s, k1, under, fs);
    } else {
      StoppedGuard(p, m, s, k, under, fs);
    }
  }

  lemma StoppedGuard(p: Program, m: S.Module, s: State, k: nat, under: seq<Value>, fs: seq<Frame>)
    requires Keeps(p, m, Next(s), under, fs) && !Run(p, s, 1).Next?
    ensures Guards(p, m, s, k, under, fs)
  {
    hide Step, Typed, Stacked;
    forall j: nat | j < k ensures Keeps(p, m, Run(p, s, j), under, fs) {
      if j > 0 { RunAdd(p, s, 1, j - 1); }
    }
  }

  /** The end of a function: the results move down over arguments, locals and leftovers, and the
      caller's program counter, frame pointer and callstack come back. */
  lemma ExitFunction(p: Program, t: State, s: State, b: BlockRec, below: seq<Value>, junk: seq<Value>, c: Conf)
    requires t.pc < |p.bytes| && p.bytes[t.pc] == 0x0b
    requires t.frames == s.frames + [Frame(b, |below| - 1, s.fp, s.pc)] && b.kind == 0
    requires At(t, below, junk, c) && |b.ty.results| <= 1 && S.Ends(c.ops, b.ty.results)
    ensures var s' := s.(stack := below + S.Last(c.ops, |b.ty.results|), globals := c.globals, mem := c.mem);
            Run(p, t, 1) == if s.frames == [] then Halt(s') else Next(s')
  {
    hide Run, Step, Unwound, Decode;
    StepTerminator(p, t);
    var n := |b.ty.results|;
    assert t.frames[..|t.frames| - 1] == s.frames;
    ResultOnTop(t, below, junk, c, b.ty.results);
    assert t.stack == below + (c.locals + junk) + c.ops;
    UnwoundIs(below, c.locals + junk, c.ops, |below| - 1, n);
  }

  /** The outcome of a call that has been set up, as a state: everything is as before the call
      except that the arguments have become the results, and globals and memory. */
  ghost predicate CallOutcome(p: Program, m: S.Module, s: State, below: seq<Value>, fuel: nat, r: Result, o: Outcome,
                              k: nat) {
    match r
    case Normal(c) =>
      var s' := s.(stack := c.ops, globals := c.globals, mem := c.mem);
      o == if s.frames == [] then Halt(s') else Next(s')
    case Fail(e) => FailsAs(p, m, e, o, below, s.frames)
    case Wild(t) => o == Stray(t)
    case Timeout => o.Next? && k >= fuel
    case _ => false
  }

  /** The evaluator's configuration at the start of a call on the given arguments. */
  function StartConf(f: S.Func, args: seq<Value>, s: State): Conf {
    S.Conf([], args + ZerosOf(f.locals), s.globals, s.mem)
  }

  function CallResult(m: S.Module, fuel: nat, f: S.Func, below: seq<Value>, args: seq<Value>, s: State): Result {
    S.Finish(f.ty, S.Conf(below, [], s.globals, s.mem), S.Eval(m, fuel, f.body, StartConf(f, args, s)))
  }

  /** Call and return discipline, at any nesting depth: from setup_call on, the machine runs to
      exactly the state the call's result prescribes, or traps, or is still running. */
  lemma {:induction false} CallExact(p: Program, m: S.Module, globals: seq<ValType>, fuel: nat, i: nat,
                                     s: State, below: seq<Value>, args: seq<Value>) returns (k: nat)
    requires Loaded(p, m) && V.ModuleOk(m, globals) && i < |m.funcs|
    requires s.stack == below + args && TypesOf(args) == m.funcs[i].ty.params
    requires TypesOf(s.globals) == globals && MemoryOk(s.mem) && (s.frames != [] ==> FirstOk(p, m, s.frames))
    requires Stacked(s.frames, |below|) && Linked(s.frames, s.fp)
    ensures SetupCall(s, p.funcs[p.imports + i]).Next?
    ensures CallOutcome(p, m, s, below, fuel, CallResult(m, fuel, m.funcs[i], below, args, s),
                        Run(p, SetupCall(s, p.funcs[p.imports + i]).s, k), k)
    ensures Guards(p, m, SetupCall(s, p.funcs[p.imports + i]).s, k, below, s.frames)
    decreases fuel, 2
  {
    hide Run, Step, S.Eval, S.Ends, V.Check, Placed, Covered, V.EndsIn, Decode, Guards, Stacked, Keeps, Visits,
         InFunction, Housed, Linked;
    var fn, b := m.funcs[i], p.funcs[|m.imports| + i];
    assert FuncLoaded(p, fn, b) && V.CheckFunc(m, globals, fn);
    var s1 := SetupCall(s, b).s;
    var env, labels, c0 := V.FuncEnv(fn, globals), [V.FuncLabel(fn)], StartConf(fn, args, s);
    WholeBody(m, env, fn);
    CallFrames(p, m, s, b, |below|, |below| + |env.locals| + 0);
    HousedCall(s.frames, s.fp, Frame(b, |below| - 1, s.fp, s.pc));
    StartOk(fn, globals, args, s);
    assert s1.stack == below + c0.locals + [] + [];
    var k1, junk := Sim(p, m, env, fuel, fn.body, labels, [], c0, s1, below, []);
    V.Sound(m, env, fuel, fn.body, labels, [], c0);
    var r := S.Eval(m, fuel, fn.body, c0);
    k := k1;
    GuardsWeaker(p, m, s1, k1, below, Own(s1.frames, labels), below, s.frames);
    if r.Normal? || r.Jump? || r.Returned? {
      CallEnds(p, m, env, fn, b, s, s1, below, fuel, r, k1, junk);
      RunAdd(p, s1, k1, 1);
      k := k1 + 1;
      GuardsMore(p, m, s1, k1, below, s.frames);
    } else if r.Fail? && Run(p, s1, k1).Next? {
      KeepsWeaker(p, m, Run(p, s1, k1), below, Own(s1.frames, labels), below, s.frames);
    }
  }

  lemma WholeBody(m: S.Module, env: V.Env, f: S.Func)
    requires f in m.funcs && env == V.FuncEnv(f, env.globals)
    ensures InFunction(m, env, [V.FuncLabel(f)], [], f.body) && Visits(m, f.body.EndAt())
  {
    var j := Judgement([V.FuncLabel(f)], [], f.body);
    assert Occurs(m, env, j, j);
    FunctionInModule(m, env, [V.FuncLabel(f)], [], f.body);
    EndVisited(m, f.body);
  }

  lemma CallFrames(p: Program, m: S.Module, s: State, b: BlockRec, height: nat, height': nat)
    requires b.kind == 0 && b.end < |p.bytes| && p.bytes[b.end] == 0x0b && Visits(m, b.end)
    requires s.frames != [] ==> FirstOk(p, m, s.frames)
    requires Stacked(s.frames, height) && height + |b.ty.params| + |b.locals| == height'
    ensures var frames := s.frames + [Frame(b, height - 1, s.fp, s.pc)];
            forall f: S.Func :: FramesOk(p, m, frames, [V.FuncLabel(f)], height')
  {
    hide Visits;
    var frames := s.frames + [Frame(b, height - 1, s.fp, s.pc)];
    StackedPush(s.frames, height, Frame(b, height - 1, s.fp, s.pc), height');
    assert KindAt(frames, 0) == 0;
  }

  lemma StartOk(f: S.Func, globals: seq<ValType>, args: seq<Value>, s: State)
    requires TypesOf(args) == f.ty.params && TypesOf(s.globals) == globals && MemoryOk(s.mem)
    ensures V.ConfOk(V.FuncEnv(f, globals), [], StartConf(f, args, s))
  {
    V.TypesJoin(args, ZerosOf(f.locals));
    assert TypesOf(ZerosOf(f.locals)) == f.locals;
  }

  /** Whichever way the body ended, the machine is at an end byte with the function on top. */
  lemma CallEnds(p: Program, m: S.Module, env: V.Env, fn: S.Func, b: BlockRec, s: State, s1: State, below: seq<Value>,
                 fuel: nat, r: Result, k1: nat, junk: seq<Value>)
    requires FuncLoaded(p, fn, b) && |fn.ty.results| <= 1 && env.locals == fn.ty.params + fn.locals
    requires s1.frames == s.frames + [Frame(b, |below| - 1, s.fp, s.pc)]
    requires FramesOk(p, m, s1.frames, [V.FuncLabel(fn)], |below| + |env.locals|) && Visits(m, b.end)
    requires Housed(s1.frames, |below|, env.locals)
    requires Agrees(p, m, s1, [V.FuncLabel(fn)], below, [], fn.body.EndAt(), fuel, r, k1, junk)
    requires V.ResultOk(env, [V.FuncLabel(fn)], r) && (r.Normal? || r.Jump? || r.Returned?)
    ensures Run(p, s1, k1).Next? && Keeps(p, m, Run(p, s1, k1), below, s.frames)
    ensures CallOutcome(p, m, s, below, fuel, S.Finish(fn.ty, S.Conf(below, [], s.globals, s.mem), r),
                        Run(p, Run(p, s1, k1).s, 1), k1 + 1)
  {
    hide Run, Step, Placed, Covered, Visits, Keeps, Stacked, S.Ends, S.Last, Housed;
    var t := Run(p, s1, k1).s;
    assert [] + junk == junk;
    assert t.frames == s1.frames;
    if r.Normal? { V.EndsFromTypes(r.c.ops, fn.ty.results); AllOps(r.c.ops); }
    EndsFits(r.c.ops, fn.ty.results);
    ExitFunction(p, t, s, b, below, junk, r.c);
    TerminatorKeeps(p, m, t, below, junk, r.c, s.frames, |below| + |env.locals|);
  }

  lemma {:induction false} CallSim(p: Program, m: S.Module, env: V.Env, fuel: nat, f: nat, ts: seq<ValType>,
                                   c: Conf, s: State, under: seq<Value>, mid: seq<Value>) returns (k: nat)
    requires Loaded(p, m) && V.ModuleOk(m, env.globals) && FirstOk(p, m, s.frames)
    requires Stacked(s.frames, |under| + |env.locals| + |mid|) && Linked(s.frames, s.fp)
    requires m.IsFunc(f) && V.CallType(m.TypeOf(f), ts) && V.ConfOk(env, ts, c) && At(s, under, mid, c)
    ensures Called(p, m, s, CallTo(p, s, f), under, mid, fuel, S.EvalCall(m, fuel, f, c), k)
    decreases fuel, 0, 0
  {
    hide Run, S.Eval, S.Ends, V.EndsIn, V.Check, FuncLoaded, Stacked, Called, Keeps, Visits, CallOutcome, At,
         Guards, SetupCall, S.Finish, Linked;
    var ty := m.TypeOf(f);
    k := 0;
    if f < |m.imports| {
      V.EndsFromTypes(c.ops, ty.params);
      HostSim(p, m, fuel, env, f, c, s, under, mid);
    } else {
      var i, n := f - |m.imports|, |ty.params|;
      ArgsOnTop(env, ts, c, s, under, mid, ty.params);
      var c1, args := c.(ops := S.ButLast(c.ops, n)), S.Last(c.ops, n);
      var below := under + c.locals + mid + c1.ops;
      if fuel > 0 {
        k := CallExact(p, m, env.globals, fuel - 1, i, s, below, args);
        CallMatches(p, m, s, CallTo(p, s, f), ty, c1,
                    S.Eval(m, fuel - 1, m.funcs[i].body, StartConf(m.funcs[i], args, s)), below, under, mid, fuel, k);
      } else {
        assert FuncLoaded(p, m.funcs[i], p.funcs[f]);
        RecordType(p, m.funcs[i], p.funcs[f]);
        SetupRuns(p, m, s, p.funcs[f], n, under, mid);
      }
    }
  }

  /** The arguments of a call lie on top, above everything that has to stay. */
  lemma ArgsOnTop(env: V.Env, ts: seq<ValType>, c: Conf, s: State, under: seq<Value>, mid: seq<Value>,
                  params: seq<ValType>)
    requires V.EndsIn(ts, params) && V.ConfOk(env, ts, c) && At(s, under, mid, c)
    requires Stacked(s.frames, |under| + |env.locals| + |mid|)
    ensures |params| <= |c.ops| && TypesOf(S.Last(c.ops, |params|)) == params && s.fp == |under|
    ensures s.globals == c.globals && s.mem == c.mem && MemoryOk(s.mem) && TypesOf(s.globals) == env.globals
    ensures var below := under + c.locals + mid + S.ButLast(c.ops, |params|);
            s.stack == below + S.Last(c.ops, |params|) && Stacked(s.frames, |below|)
  {
    hide V.EndsIn, Stacked, MemoryOk;
    V.EndsFromTypes(c.ops, params);
    SplitTop(s, under, mid, c, |params|);
    StackedPrefix(s.frames, |under| + |env.locals| + |mid|, s.frames,
                  |under + c.locals + mid + S.ButLast(c.ops, |params|)|);
  }

  lemma RecordType(p: Program, f: S.Func, b: BlockRec)
    requires FuncLoaded(p, f, b)
    ensures b.ty == f.ty
  {}

  lemma SetupRuns(p: Program, m: S.Module, s: State, b: BlockRec, n: nat, under: seq<Value>, mid: seq<Value>)
    requires n == |b.ty.params| <= |s.stack|
    ensures Called(p, m, s, SetupCall(s, b), under, mid, 0, S.Timeout, 0)
  {
    hide Step;
  }

  /** The exact outcome of the call, seen from the caller's configuration. */
  lemma CallMatches(p: Program, m: S.Module, s: State, o: Outcome, ty: FuncType, c1: Conf, r: Result, below: seq<Value>,
                    under: seq<Value>, mid: seq<Value>, fuel: nat, k: nat)
    requires o.Next? && fuel > 0 && s.frames != [] && s.fp == |under|
    requires below == under + c1.locals + mid + c1.ops
    requires CallOutcome(p, m, s, below, fuel - 1, S.Finish(ty, S.Conf(below, [], s.globals, s.mem), r),
                         Run(p, o.s, k), k)
    requires Guards(p, m, o.s, k, below, s.frames)
    ensures Called(p, m, s, o, under, mid, fuel, S.Finish(ty, c1, r), k)
  {
    hide Run, Guards;
    GuardsWeaker(p, m, o.s, k, below, s.frames, under, s.frames);
    if S.Finish(ty, c1, r).Normal? {
      var res := if r.Normal? then r.c.ops else S.Last(r.c.ops, |ty.results|);
      assert below + res == under + c1.locals + mid + (c1.ops + res);
    }
  }

  /** An import runs in one step: the thunk takes the arguments in declaration order. */
  lemma HostSim(p: Program, m: S.Module, fuel: nat, env: V.Env, f: nat, c: Conf, s: State, under: seq<Value>,
                mid: seq<Value>)
    requires Loaded(p, m) && V.ModuleOk(m, env.globals) && f < |m.imports|
    requires S.Ends(c.ops, m.imports[f].params) && At(s, under, mid, c)
    ensures Called(p, m, s, CallTo(p, s, f), under, mid, fuel, S.EvalHost(m, f, c), 0)
  {
    hide Step, V.CheckFunc, FuncLoaded, ThunkFor, ThunkMask, HostResults, Stacked;
    var ty := m.imports[f];
    DispatchIsExact(ty);
    SplitTop(s, under, mid, c, |ty.params|);
    var rs := HostResults(m.host, f, ty, S.Last(c.ops, |ty.params|));
    var kept := S.ButLast(c.ops, |ty.params|);
    assert under + c.locals + mid + kept + rs == under + c.locals + mid + (kept + rs);
    assert Run(p, CallTo(p, s, f).s, 0) == CallTo(p, s, f);
  }

  /** call_indirect through a table entry of the expected type passes the tag comparison. */
  lemma {:induction false} IndirectSim(p: Program, m: S.Module, env: V.Env, fuel: nat, op: Op, at: nat,
                                       ts: seq<ValType>, c: Conf, s: State, under: seq<Value>, mid: seq<Value>)
    returns (k: nat)
    requires Loaded(p, m) && V.ModuleOk(m, env.globals) && FirstOk(p, m, s.frames) && op.CallIndirect?
    requires Stacked(s.frames, |under| + |env.locals| + |mid|) && Linked(s.frames, s.fp)
    requires op.t < |m.types| && V.EndsIn(ts, [I32]) && V.CallType(m.types[op.t], V.Front(ts, 1))
    requires V.ConfOk(env, ts, c) && At(s, under, mid, c) && TopIs(s, I32) && !S.Refused(m, op.t, Top(s).bits)
    ensures Called(p, m, s, Exec(p, at, op, s), under, mid, fuel, S.EvalOp(m, fuel, op, c), k)
    decreases fuel, 0, 1
  {
    hide Loaded, V.ModuleOk, S.EvalCall, CallTo, V.EndsIn, Stacked, Called, CheckIndirect, Linked;
    HasTop(env, ts, c);
    TopOperand(s, under, mid, c);
    var c1, i := c.(ops := S.ButLast(c.ops, 1)), Top(s).bits;
    var f := m.table[i].value;
    EntryLoaded(p, m, i);
    k := CallSim(p, m, env, fuel, f, V.Front(ts, 1), c1, Pop(s), under, mid);
    TagsPass(p, m, env, f, V.Front(ts, 1), c1, Pop(s), under, mid);
    CalledPopped(p, m, s, CallTo(p, Pop(s), f), under, mid, fuel, S.EvalCall(m, fuel, f, c1), k);
  }

  lemma CalledPopped(p: Program, m: S.Module, s: State, o: Outcome, under: seq<Value>, mid: seq<Value>, fuel: nat,
                     r: Result, k: nat)
    requires s.stack != [] && Called(p, m, Pop(s), o, under, mid, fuel, r, k)
    ensures Called(p, m, s, o, under, mid, fuel, r, k)
  {
    hide Run, Guards, At, Keeps, Astray;
  }

  lemma EntryLoaded(p: Program, m: S.Module, i: nat)
    requires Loaded(p, m) && i < |m.table|
    ensures i < |p.table| <= p.tableMax && p.table[i] == if m.table[i].Some? then m.table[i].value else 0
  {}

  /** Where the standard refuses the entry, the machine traps at once or is about to go astray. */
  lemma RefusedAgrees(p: Program, m: S.Module, labels: seq<V.Label>, s: State, s2: State, op: Op, c: Conf,
                      under: seq<Value>, mid: seq<Value>, end: nat, fuel: nat) returns (k: nat)
    requires Loaded(p, m) && op.CallIndirect? && op.t < |m.types| && At(s, under, mid, c) && S.Ends(c.ops, [I32])
    requires V.TableOk(m)
    requires s.pc < |p.bytes| && Decode(p.bytes, s.pc) == Some(Fetched(op, end)) && s2 == s.(pc := end)
    requires TopIs(s, I32) && S.Refused(m, op.t, Top(s).bits) && Keeps(p, m, Next(s), under, Own(s.frames, labels))
    ensures k <= 1 && Agrees(p, m, s, labels, under, mid, end, fuel, S.EvalOp(m, fuel, op, c), k, [])
    ensures S.EvalOp(m, fuel, op, c).Fail?
  {
    hide Decode, CallTo, CheckIndirect, Loaded, Step, Keeps, Own;
    TopOperand(s, under, mid, c);
    StepAt(p, s, op, end);
    RefusalTraps(p, m, s2, op, s.pc);
    k := if Run(p, s, 1).Trapped? then 1 else 0;
    assert Run(p, s, 0) == Next(s);
  }

  /** If the machine traps there, it is with the exception the evaluator gives. */
  lemma RefusalTraps(p: Program, m: S.Module, s: State, op: Op, at: nat)
    requires Loaded(p, m) && op.CallIndirect? && op.t < |m.types| && TopIs(s, I32) && S.Refused(m, op.t, Top(s).bits)
    ensures var o := Exec(p, at, op, s);
            o.Trapped? ==>
              o == Trapped(if Top(s).bits >= |m.table| then UndefinedElement else IndirectSignatureMismatch)
  {
    hide Loaded, ThunkFor, ThunkMask, HostResults;
    var i := Top(s).bits;
    TableSize(p, m);
    if i < |m.table| { EntryLoaded(p, m, i); }
  }

  lemma TableSize(p: Program, m: S.Module)
    requires Loaded(p, m)
    ensures |p.table| == |m.table| <= p.tableMax == m.tableMax
  {}

  /** The tags call_indirect compares are the types of the topmost operands. */
  lemma TagsSeen(p: Program, m: S.Module, env: V.Env, f: nat, ts: seq<ValType>, c: Conf,
                 s: State, under: seq<Value>, mid: seq<Value>)
    requires Loaded(p, m) && m.IsFunc(f) && f >= |m.imports| && V.ConfOk(env, ts, c) && At(s, under, mid, c)
    requires |m.TypeOf(f).params| <= |ts|
    ensures CheckIndirect(p, CallTo(p, s, f), f)
         == if V.EndsIn(ts, m.TypeOf(f).params) then CallTo(p, s, f) else Trapped(IndirectSignatureMismatch)
  {
    hide Placed, Covered, ThunkOut, V.EndsIn;
    var params, b := m.TypeOf(f).params, p.funcs[f];
    var n := |params|;
    assert FuncLoaded(p, m.funcs[f - |m.imports|], b);
    Heights(env, ts, s, under, mid, c);
    SplitTop(s, under, mid, c, n);
    V.EndsFromTypes(c.ops, params);
    AllTypes(env, ts, c);
    SetupTags(s, b, n);
  }

  lemma AllTypes(env: V.Env, ts: seq<ValType>, c: Conf)
    requires V.ConfOk(env, ts, c)
    ensures TypesOf(c.ops) == ts
  {}

  lemma SetupTags(s: State, b: BlockRec, n: nat)
    requires n == |b.ty.params| <= |s.stack|
    ensures var o := SetupCall(s, b);
            o.Next? && o.s.fp == |s.stack| - n && o.s.fp + n <= |o.s.stack|
            && o.s.stack[o.s.fp..o.s.fp + n] == s.stack[|s.stack| - n..]
  {}

  lemma TagsPass(p: Program, m: S.Module, env: V.Env, f: nat, ts: seq<ValType>, c: Conf,
                 s: State, under: seq<Value>, mid: seq<Value>)
    requires Loaded(p, m) && m.IsFunc(f) && V.CallType(m.TypeOf(f), ts) && V.ConfOk(env, ts, c) && At(s, under, mid, c)
    ensures CheckIndirect(p, CallTo(p, s, f), f) == CallTo(p, s, f)
  {
    hide CallTo, FuncLoaded;
    if f >= |m.imports| { TagsSeen(p, m, env, f, ts, c, s, under, mid); }
  }
}
