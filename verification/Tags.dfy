/**
 Type preservation for the whole stack: in every reachable state parameters and locals of all
 activations, and operands pending below all open blocks and calls, have the types validation
 gives them.
 */
module Tags {
  import opened Leb
  import opened Wasm
  import opened Bytecode
  import opened Structure
  import opened Blocks
  import opened Thunks
  import opened Machine
  import opened Integers
  import opened Numerics
  import opened Simulation
  import opened Theorems
  import Locals
  import Refinement
  import S = Structured
  import V = Validation

  // ---------- what lies below a frame ----------

  /** An instruction of some function, with its labels and the operand types before it. */
  datatype Place = Place(env: V.Env, labels: seq<V.Label>, ts: seq<ValType>, code: Code)

  /** op calls a function of type ty. */
  predicate Calls(m: S.Module, op: Op, ty: FuncType) {
    match op
    case Call(f) => m.IsFunc(f) && m.TypeOf(f) == ty
    case CallIndirect(t) => t < |m.types| && m.types[t] == ty
    case _ => false
  }

  /** How many operands the instruction has taken off before the base of its frame. */
  function Taken(b: BlockRec, code: Code): nat {
    if b.kind == 4 then 1
    else if b.kind != 0 then 0
    else |b.ty.params| + (if code.Simple? && code.op.CallIndirect? then 1 else 0)
  }

  /** Frame i has been pushed by the instruction at x: a call that returns behind it, or the block
      whose record it carries, in the function of the activation below and under as many labels as
      that activation had frames. */
  ghost predicate PushedAt(m: S.Module, frames: seq<Frame>, i: nat, x: Place)
    requires 0 < i < |frames|
  {
    var b := frames[i].block;
    InFunction(m, x.env, x.labels, x.ts, x.code) && Taken(b, x.code) <= |x.ts|
    && Unwind(frames[..i]) > 0 && LocalsOf(Activation(frames[..i])) == x.env.locals
    && |x.labels| == i - Unwind(frames[..i]) + 1
    && if b.kind == 0 then x.code.Simple? && frames[i].ra == x.code.rest.at && Calls(m, x.code.op, b.ty)
       else (x.code.Block? || x.code.IfElse?) && b == RecordOf(x.code)
  }

  /** The slots just below hi have the types ts and lie above lo; nothing else does if exact. */
  ghost predicate Pending(stack: seq<Value>, lo: int, hi: int, ts: seq<ValType>, exact: bool) {
    0 <= lo && lo + |ts| <= hi <= |stack| && TypesOf(stack[hi - |ts|..hi]) == ts && (exact ==> lo + |ts| == hi)
  }

  /** Parameters and locals of an activation have the declared types. Below the base of a block lie
      the operands validation has before that block, below the base of a call those that the caller
      keeps, and nothing else, except for what branches have left behind in a loop. */
  ghost predicate FrameTyped(m: S.Module, stack: seq<Value>, frames: seq<Frame>, i: nat)
    requires i < |frames|
  {
    var f := frames[i];
    (f.block.kind == 0 ==>
       0 <= Base(f) && Floor(f) <= |stack| && TypesOf(stack[Base(f)..Floor(f)]) == LocalsOf(f))
    && (i > 0 ==> exists x :: PushedAt(m, frames, i, x) && Below(stack, frames, i, x))
  }

  ghost predicate Below(stack: seq<Value>, frames: seq<Frame>, i: nat, x: Place)
    requires 0 < i < |frames| && Taken(frames[i].block, x.code) <= |x.ts|
  {
    Pending(stack, Floor(frames[i - 1]), Base(frames[i]), V.Front(x.ts, Taken(frames[i].block, x.code)),
            frames[i - 1].block.kind != 3)
  }

  ghost predicate Filled(m: S.Module, s: State) {
    forall i :: 0 <= i < |s.frames| ==> FrameTyped(m, s.stack, s.frames, i)
  }

  // ---------- keeping it ----------

  /** The same tags below n. */
  ghost predicate SameTags(a: seq<Value>, b: seq<Value>, n: int) {
    0 <= n <= |a| && n <= |b| && TypesOf(a[..n]) == TypesOf(b[..n])
  }

  lemma SliceTags(a: seq<Value>, b: seq<Value>, n: int, lo: int, hi: int)
    requires SameTags(a, b, n) && 0 <= lo <= hi <= n
    ensures TypesOf(a[lo..hi]) == TypesOf(b[lo..hi])
  {
    assert TypesOf(a[lo..hi]) == TypesOf(a[..n])[lo..hi];
    assert TypesOf(b[lo..hi]) == TypesOf(b[..n])[lo..hi];
  }

  /** FrameTyped looks only at the frames up to i and the slots below the floor of frame i. */
  lemma FrameKept(m: S.Module, a: seq<Value>, fs: seq<Frame>, b: seq<Value>, gs: seq<Frame>, i: nat, n: int)
    requires i < |fs| && i < |gs| && fs[..i + 1] == gs[..i + 1]
    requires FrameTyped(m, a, fs, i) && SameTags(a, b, n) && Base(fs[i]) <= Floor(fs[i]) <= n
    ensures FrameTyped(m, b, gs, i)
  {
    hide SameTags, InFunction;
    assert fs[i] == fs[..i + 1][i] == gs[..i + 1][i] == gs[i];
    TagBounds(a, b, n);
    if fs[i].block.kind == 0 { SliceTags(a, b, n, Base(fs[i]), Floor(fs[i])); }
    if i > 0 {
      var x :| PushedAt(m, fs, i, x) && Below(a, fs, i, x);
      assert fs[i - 1] == fs[..i + 1][i - 1] == gs[..i + 1][i - 1] == gs[i - 1];
      assert fs[..i] == fs[..i + 1][..i] == gs[..i + 1][..i] == gs[..i];
      var k := |x.ts| - Taken(fs[i].block, x.code);
      SliceTags(a, b, n, Base(fs[i]) - k, Base(fs[i]));
      assert PushedAt(m, gs, i, x) && Below(b, gs, i, x);
    }
  }

  lemma TagBounds(a: seq<Value>, b: seq<Value>, n: int)
    requires SameTags(a, b, n)
    ensures 0 <= n <= |a| && n <= |b|
  {}

  /** Dropping frames from the top and changing the stack only above the others. */
  lemma FilledPrefix(m: S.Module, s: State, t: State, n: int)
    requires Filled(m, s) && t.frames <= s.frames && SameTags(s.stack, t.stack, n)
    requires forall i :: 0 <= i < |t.frames| ==> Base(s.frames[i]) <= Floor(s.frames[i]) <= n
    ensures Filled(m, t)
  {
    hide FrameTyped, SameTags;
    forall i | 0 <= i < |t.frames| ensures FrameTyped(m, t.stack, t.frames, i) {
      assert s.frames[..i + 1] == t.frames[..i + 1];
      FrameKept(m, s.stack, s.frames, t.stack, t.frames, i, n);
    }
  }

  /** Pushing one frame. */
  lemma FilledPush(m: S.Module, s: State, t: State, n: int)
    requires Filled(m, s) && |t.frames| == |s.frames| + 1 && s.frames <= t.frames && SameTags(s.stack, t.stack, n)
    requires forall i :: 0 <= i < |s.frames| ==> Base(s.frames[i]) <= Floor(s.frames[i]) <= n
    requires FrameTyped(m, t.stack, t.frames, |s.frames|)
    ensures Filled(m, t)
  {
    hide FrameTyped, SameTags;
    forall i | 0 <= i < |t.frames| ensures FrameTyped(m, t.stack, t.frames, i) {
      if i < |s.frames| {
        assert s.frames[..i + 1] == t.frames[..i + 1];
        FrameKept(m, s.stack, s.frames, t.stack, t.frames, i, n);
      }
    }
  }

  // ---------- sites ----------

  /** Where own operands begin. */
  function Height(x: Site): nat { |x.under| + |x.c.locals| + |x.mid| }

  /** All frames end below the operands at a site; the topmost exactly there, unless it is a loop. */
  lemma SiteFloors(m: S.Module, s: State, x: Site)
    requires AtSite(m, s, x)
    ensures s.frames != [] && Height(x) + |x.ts| == |s.stack| && |x.c.ops| == |x.ts|
    ensures forall i :: 0 <= i < |s.frames| ==> Base(s.frames[i]) <= Floor(s.frames[i]) <= Height(x)
    ensures s.frames[|s.frames| - 1].block.kind != 3 ==> Floor(s.frames[|s.frames| - 1]) == Height(x)
    ensures 0 <= Floor(s.frames[|s.frames| - 1])
    ensures Unwind(s.frames) > 0 && LocalsOf(Activation(s.frames)) == x.env.locals
    ensures |x.labels| == |s.frames| - Unwind(s.frames) + 1
  {
    hide InFunction, V.Check, Linked;
    Refinement.UnwindFinds(s.frames, |x.labels|);
    assert KindAt(s.frames, 0) == s.frames[|s.frames| - 1].block.kind;
  }

  lemma PrefixTags(a: seq<Value>, b: seq<Value>, n: int, k: int)
    requires 0 <= n <= k <= |a| && a[..k] <= b
    ensures SameTags(a, b, n)
  {
    assert b[..n] == b[..k][..n] == a[..n];
  }

  /** Tags of locals and of everything below own operands, in both states. */
  lemma AtTags(s: State, t: State, x: Site, c: S.Conf)
    requires At(s, x.under, x.mid, x.c) && At(t, x.under, x.mid, c) && TypesOf(c.locals) == TypesOf(x.c.locals)
    ensures SameTags(s.stack, t.stack, Height(x))
  {
    var n := Height(x);
    assert |c.locals| == |TypesOf(c.locals)| == |x.c.locals|;
    assert s.stack[..n] == x.under + x.c.locals + x.mid;
    assert t.stack[..n] == x.under + c.locals + x.mid;
    V.TypesJoin(x.under, x.c.locals);
    V.TypesJoin(x.under, c.locals);
    V.TypesJoin(x.under + x.c.locals, x.mid);
    V.TypesJoin(x.under + c.locals, x.mid);
  }

  lemma BasicFilled(p: Program, m: S.Module, s: State, x: Site, t: State)
    requires Loaded(p, m) && AtSite(m, s, x) && x.code.Simple? && S.IsBasic(x.code.op) && Filled(m, s)
    requires s.pc < |p.bytes| && Decode(p.bytes, s.pc) == Some(Fetched(x.code.op, x.code.rest.at))
    requires Step(p, s) == Next(t)
    ensures Filled(m, t)
  {
    hide Decode, Loaded, InFunction, Housed, At, S.EvalBasic, Step, Exec, Filled, SameTags, Framed;
    var op, s2 := x.code.op, s.(pc := x.code.rest.at);
    V.BasicSound(m, x.env, x.ts, op, x.c);
    Refinement.SameAlu(p, m);
    Locals.SameAt(s, s2, x.under, x.mid, x.c);
    StepAt(p, s, op, x.code.rest.at);
    BasicSim(p, m, s.pc, op, x.c, s2, x.under, x.mid);
    SiteFloors(m, s, x);
    AtTags(s, t, x, S.EvalBasic(m, op, x.c).c);
    FilledPrefix(m, s, t, Height(x));
  }

  lemma FramesCut(p: Program, s: State, t: State, op: Op, next: nat)
    requires s.pc < |p.bytes| && Decode(p.bytes, s.pc) == Some(Fetched(op, next)) && Step(p, s) == Next(t)
    requires op.Trap? || op.Unknown? || op.Return? || op.Br? || op.BrIf? || op.BrTable?
    ensures t.frames <= s.frames
  {
    hide Decode;
  }

  lemma BranchFilled(p: Program, m: S.Module, s: State, x: Site, t: State)
    requires AtSite(m, s, x) && x.code.Simple? && Filled(m, s)
    requires var op := x.code.op; op.Trap? || op.Unknown? || op.Return? || op.Br? || op.BrIf? || op.BrTable?
    requires s.pc < |p.bytes| && Decode(p.bytes, s.pc) == Some(Fetched(x.code.op, x.code.rest.at))
    requires Step(p, s) == Next(t)
    ensures Filled(m, t)
  {
    hide Decode, InFunction, Housed, At, V.ConfOk, Step, Filled, SameTags, Framed;
    SiteFloors(m, s, x);
    var op, k := x.code.op, |s.stack|;
    if op.BrIf? || op.BrTable? {
      Refinement.HasTop(x.env, x.ts, x.c);
      k := k - 1;
    }
    Locals.Truncated(p, s, t, op, x.code.rest.at, k);
    FramesCut(p, s, t, op, x.code.rest.at);
    PrefixTags(s.stack, t.stack, Height(x), k);
    FilledPrefix(m, s, t, Height(x));
  }

  // ---------- frames pushed at a site ----------

  /** The operands a site keeps below a frame whose instruction takes n of them. */
  lemma SitePending(m: S.Module, s: State, x: Site, stack: seq<Value>, n: nat)
    requires AtSite(m, s, x) && n <= |x.ts| && |s.stack| - n <= |stack|
    requires stack[..|s.stack| - n] == s.stack[..|s.stack| - n]
    ensures s.frames != []
    ensures var top := s.frames[|s.frames| - 1];
            Pending(stack, Floor(top), |s.stack| - n, V.Front(x.ts, n), top.block.kind != 3)
  {
    hide InFunction, V.Check, Housed, Framed;
    SiteFloors(m, s, x);
    var hi, k := |s.stack| - n, |x.ts| - n;
    SplitTop(s, x.under, x.mid, x.c, n);
    V.TypesSplit(x.c.ops, n);
    assert stack[hi - k..hi] == stack[..hi][hi - k..] == s.stack[..hi][hi - k..] == S.ButLast(x.c.ops, n);
  }

  lemma {:induction false} PartCovered(lookup: Lookup, part: Code, whole: Code)
    requires Covered(lookup, whole) && IsPart(part, whole)
    ensures Covered(lookup, part)
    decreases whole
  {
    if part != whole {
      match whole
      case Simple(_, _, rest) => PartCovered(lookup, part, rest);
      case Block(_, _, _, body, rest) =>
        if IsPart(part, body) { PartCovered(lookup, part, body); } else { PartCovered(lookup, part, rest); }
      case IfElse(_, _, thn, els, rest) =>
        if IsPart(part, thn) { PartCovered(lookup, part, thn); }
        else if IsPart(part, els) { PartCovered(lookup, part, els); }
        else { PartCovered(lookup, part, rest); }
    }
  }

  lemma ModuleCovered(p: Program, m: S.Module, c: Code)
    requires Loaded(p, m) && InModule(m, c)
    ensures Covered(p.lookup, c)
  {
    hide Placed, Covered, IsPart, TableLoaded;
    var f :| f in m.funcs && IsPart(c, f.body);
    var i :| 0 <= i < |m.funcs| && m.funcs[i] == f;
    assert FuncLoaded(p, m.funcs[i], p.funcs[|m.imports| + i]);
    PartCovered(p.lookup, c, f.body);
  }

  lemma SiteRecord(p: Program, m: S.Module, s: State, x: Site)
    requires Loaded(p, m) && AtSite(m, s, x) && !x.code.Simple?
    ensures !x.code.Done? && s.pc in p.lookup && p.lookup[s.pc] == RecordOf(x.code)
    ensures RecordOf(x.code).kind == Locals.KindOf(x.code)
  {
    hide V.Check, V.ConfOk, InFunction, InModule, Loaded, Housed, Framed, At;
    FunctionInModule(m, x.env, x.labels, x.ts, x.code);
    ModuleCovered(p, m, x.code);
  }

  lemma EnterFilled(p: Program, m: S.Module, s: State, x: Site, t: State)
    requires Loaded(p, m) && AtSite(m, s, x) && !x.code.Simple? && Filled(m, s) && Step(p, s) == Next(t)
    ensures Filled(m, t)
  {
    hide Loaded, InFunction, Housed, At, V.Check, V.ConfOk, Filled, SameTags, Framed, FrameTyped, Decode, RecordOf,
         Step, Pending;
    Locals.SiteDecodes(p, m, s, x);
    SiteRecord(p, m, s, x);
    SiteFloors(m, s, x);
    var kind := Locals.KindOf(x.code);
    var n := if kind == 4 then 1 else 0;
    if kind == 4 { Locals.IfHasCondition(m, s, x); }
    EnterStep(p, s, x.code, kind, t, n);
    PrefixTags(s.stack, t.stack, Height(x), |s.stack| - n);
    if t.frames == s.frames {
      FilledPrefix(m, s, t, Height(x));
    } else {
      SitePending(m, s, x, t.stack, n);
      PushedTyped(m, s, x, t, n);
      FilledPush(m, s, t, Height(x));
    }
  }

  /** A block's frame with what lies below it. */
  lemma PushedTyped(m: S.Module, s: State, x: Site, t: State, n: nat)
    requires AtSite(m, s, x) && !x.code.Simple? && !x.code.Done? && n <= |x.ts| && |s.frames| > 0
    requires |t.frames| == |s.frames| + 1 && s.frames <= t.frames
    requires var f, top := t.frames[|s.frames|], s.frames[|s.frames| - 1];
             f.block == RecordOf(x.code) && f.block.kind != 0 && n == (if f.block.kind == 4 then 1 else 0)
             && Base(f) == |s.stack| - n
             && Pending(t.stack, Floor(top), |s.stack| - n, V.Front(x.ts, n), top.block.kind != 3)
    ensures FrameTyped(m, t.stack, t.frames, |s.frames|)
  {
    hide InFunction, V.Check, V.ConfOk, At, Framed, RecordOf, Pending, Linked;
    var i, y := |s.frames|, Place(x.env, x.labels, x.ts, x.code);
    SiteFloors(m, s, x);
    assert t.frames[..i] == s.frames;
    assert PushedAt(m, t.frames, i, y) && Below(t.stack, t.frames, i, y);
  }

  lemma EnterStep(p: Program, s: State, code: Code, kind: byte, t: State, n: nat)
    requires !code.Simple? && !code.Done? && 2 <= kind <= 4 && kind == RecordOf(code).kind
    requires s.pc < |p.bytes| && Decode(p.bytes, s.pc) == Some(Fetched(Enter(kind), s.pc + 2)) && Step(p, s) == Next(t)
    requires s.pc in p.lookup && p.lookup[s.pc] == RecordOf(code)
    requires n == (if kind == 4 then 1 else 0) && n <= |s.stack|
    ensures t.stack == s.stack[..|s.stack| - n]
    ensures t.frames == s.frames
         || t.frames == s.frames + [Frame(RecordOf(code), |s.stack| - 1, s.fp, s.pc + 2)]
  {
    hide Decode, RecordOf;
  }

  // ---------- calls ----------

  lemma CallFilled(p: Program, m: S.Module, globals: seq<ValType>, s: State, x: Site, f: nat, n: nat, t: State)
    requires Loaded(p, m) && V.ModuleOk(m, globals) && AtSite(m, s, x) && x.code.Simple? && Filled(m, s)
    requires m.IsFunc(f) && Calls(m, x.code.op, m.TypeOf(f)) && n == (if x.code.op.CallIndirect? then 1 else 0)
    requires n <= |x.ts| && V.CallType(m.TypeOf(f), V.Front(x.ts, n))
    requires CallTo(p, s.(pc := x.code.rest.at, stack := s.stack[..|s.stack| - n]), f) == Next(t)
    requires n <= |s.stack|
    ensures Filled(m, t)
  {
    hide Loaded, V.ModuleOk, InFunction, Housed, At, V.Check, V.ConfOk, Filled, SameTags, Framed, FrameTyped, CallTo,
         Pending, V.EndsIn;
    SiteFloors(m, s, x);
    var k := n + |m.TypeOf(f).params|;
    EnoughOperands(V.Front(x.ts, n), m.TypeOf(f).params);
    CallEffect(p, m, globals, s.(pc := x.code.rest.at, stack := s.stack[..|s.stack| - n]), f, t);
    PrefixTags(s.stack, t.stack, Height(x), |s.stack| - k) by {
      assert s.stack[..|s.stack| - n][..|s.stack| - k] == s.stack[..|s.stack| - k];
    }
    if t.frames == s.frames {
      FilledPrefix(m, s, t, Height(x));
    } else {
      assert t.stack[..|s.stack| - k] == s.stack[..|s.stack| - k];
      SitePending(m, s, x, t.stack, k);
      CalleeTyped(p, m, s, x, f, n, t);
      FilledPush(m, s, t, Height(x));
    }
  }

  lemma EnoughOperands(ts: seq<ValType>, params: seq<ValType>)
    requires V.EndsIn(ts, params)
    ensures |params| <= |ts|
  {}

  /** A call leaves what is below its arguments; a defined function gets a frame and its locals. */
  lemma CallEffect(p: Program, m: S.Module, globals: seq<ValType>, s: State, f: nat, t: State)
    requires Loaded(p, m) && V.ModuleOk(m, globals) && m.IsFunc(f) && |m.TypeOf(f).params| <= |s.stack|
    requires CallTo(p, s, f) == Next(t)
    ensures s.stack[..|s.stack| - |m.TypeOf(f).params|] <= t.stack
    ensures f < |m.imports| ==> t.frames == s.frames
    ensures f >= |m.imports| ==>
              f < |p.funcs| && p.funcs[f].kind == 0 && p.funcs[f].ty == m.TypeOf(f)
              && t.frames == s.frames + [Frame(p.funcs[f], |s.stack| - |m.TypeOf(f).params| - 1, s.fp, s.pc)]
              && t.stack == s.stack + ZerosOf(p.funcs[f].locals)
  {
    hide ThunkFor, ThunkMask, HostResults, V.CheckFunc, Placed, Covered, TableLoaded;
    LoadedCounts(p, m);
    if f < |m.imports| {
      DispatchIsExact(m.imports[f]);
    } else {
      assert FuncLoaded(p, m.funcs[f - |m.imports|], p.funcs[f]);
    }
  }

  /** The frame of a function called at x: its arguments and zeroed locals, and the caller's
      operands below. */
  lemma CalleeTyped(p: Program, m: S.Module, s: State, x: Site, f: nat, n: nat, t: State)
    requires AtSite(m, s, x) && x.code.Simple? && m.IsFunc(f) && Calls(m, x.code.op, m.TypeOf(f))
    requires n == (if x.code.op.CallIndirect? then 1 else 0) && n <= |x.ts| && n <= |s.stack|
    requires V.CallType(m.TypeOf(f), V.Front(x.ts, n)) && f < |p.funcs|
    requires p.funcs[f].kind == 0 && p.funcs[f].ty == m.TypeOf(f) && n + |m.TypeOf(f).params| <= |x.ts| <= |s.stack|
    requires t.frames
          == s.frames + [Frame(p.funcs[f], |s.stack| - n - |m.TypeOf(f).params| - 1, s.fp, x.code.rest.at)]
    requires t.stack == s.stack[..|s.stack| - n] + ZerosOf(p.funcs[f].locals)
    requires s.frames != []
    requires var top, k := s.frames[|s.frames| - 1], n + |m.TypeOf(f).params|;
             Pending(t.stack, Floor(top), |s.stack| - k, V.Front(x.ts, k), top.block.kind != 3)
    ensures FrameTyped(m, t.stack, t.frames, |s.frames|)
  {
    hide InFunction, V.Check, At, Framed, Pending, Linked, V.EndsIn, V.ConfOk;
    var i, y := |s.frames|, Place(x.env, x.labels, x.ts, x.code);
    SiteFloors(m, s, x);
    assert t.frames[..i] == s.frames;
    ArgumentTags(s, x, m.TypeOf(f).params, p.funcs[f].locals, n, t.stack);
    assert PushedAt(m, t.frames, i, y);
    assert Below(t.stack, t.frames, i, y);
  }

  lemma ArgumentTags(s: State, x: Site, params: seq<ValType>, locals: seq<ValType>, n: nat, stack: seq<Value>)
    requires At(s, x.under, x.mid, x.c) && V.ConfOk(x.env, x.ts, x.c) && n + |params| <= |x.ts|
    requires V.EndsIn(V.Front(x.ts, n), params) && n <= |s.stack|
    requires stack == s.stack[..|s.stack| - n] + ZerosOf(locals)
    ensures var lo := |s.stack| - n - |params|;
            0 <= lo && lo + |params| + |locals| == |stack|
            && TypesOf(stack[lo..lo + |params| + |locals|]) == params + locals
  {
    hide V.EndsIn;
    var lo := |s.stack| - n - |params|;
    var ops := S.ButLast(x.c.ops, n);
    SplitTop(s, x.under, x.mid, x.c, n);
    V.TypesSplit(x.c.ops, n);
    V.EndsFromTypes(ops, params);
    var args := S.Last(ops, |params|);
    assert s.stack[..|s.stack| - n] == x.under + x.c.locals + x.mid + ops;
    assert stack[lo..] == args + ZerosOf(locals);
    V.TypesJoin(args, ZerosOf(locals));
    assert TypesOf(ZerosOf(locals)) == locals;
  }

  lemma CallOpFilled(p: Program, m: S.Module, globals: seq<ValType>, s: State, x: Site, t: State)
    requires Loaded(p, m) && V.ModuleOk(m, globals) && AtSite(m, s, x) && x.code.Simple? && Filled(m, s)
    requires x.code.op.Call? || x.code.op.CallIndirect?
    requires s.pc < |p.bytes| && Decode(p.bytes, s.pc) == Some(Fetched(x.code.op, x.code.rest.at))
    requires Step(p, s) == Next(t) && !Astray(p, m, s)
    ensures Filled(m, t)
  {
    hide Decode, Loaded, V.ModuleOk, InFunction, Housed, At, V.ConfOk, CallTo, Astray, Step, Filled, Framed, V.EndsIn;
    SiteFloors(m, s, x);
    var op, s2 := x.code.op, s.(pc := x.code.rest.at);
    if op.Call? {
      CallStepIs(p, s, op, x.code.rest.at);
      assert s.stack[..|s.stack| - 0] == s.stack;
      assert V.Front(x.ts, 0) == x.ts;
      CallFilled(p, m, globals, s, x, op.f, 0, t);
    } else {
      Refinement.HasTop(x.env, x.ts, x.c);
      TopOperand(s, x.under, x.mid, x.c);
      Locals.EntryCalled(p, m, s, x, op);
      Entries(m, globals);
      CallFilled(p, m, globals, s, x, m.table[Top(s).bits].value, 1, t);
    }
  }

  lemma CallStepIs(p: Program, s: State, op: Op, next: nat)
    requires s.pc < |p.bytes| && Decode(p.bytes, s.pc) == Some(Fetched(op, next)) && op.Call?
    ensures Step(p, s) == CallTo(p, s.(pc := next), op.f)
  {
    hide Decode, CallTo;
  }

  lemma Entries(m: S.Module, globals: seq<ValType>)
    requires V.ModuleOk(m, globals)
    ensures V.TableOk(m)
  {}

  // ---------- else and end ----------

  lemma EndFilled(p: Program, m: S.Module, s: State, t: State)
    requires Stacked(s.frames, |s.stack|) && AtTerminator(p, m, s) && Step(p, s) == Next(t) && Filled(m, s)
    ensures Filled(m, t)
  {
    hide Decode, Visits, Filled, SameTags, Step;
    DecodeTerminator(p.bytes, s.pc);
    TerminatorEffect(p, s, t);
    var n := if t.frames == s.frames then |s.stack| else Base(s.frames[|s.frames| - 1]);
    PrefixTags(s.stack, t.stack, n, n);
    FilledPrefix(m, s, t, n);
  }

  lemma TerminatorEffect(p: Program, s: State, t: State)
    requires s.pc < |p.bytes| && p.bytes[s.pc] in {0x05, 0x0b} && Step(p, s) == Next(t)
    requires s.frames != [] && 0 <= Base(s.frames[|s.frames| - 1]) <= |s.stack|
    requires Decode(p.bytes, s.pc) == Some(Fetched(if p.bytes[s.pc] == 0x05 then Else else End, s.pc + 1))
    ensures (t.frames == s.frames && t.stack == s.stack)
         || (t.frames == s.frames[..|s.frames| - 1]
             && s.stack[..Base(s.frames[|s.frames| - 1])] <= t.stack)
  {
    hide Decode;
  }

  // ---------- runs ----------

  /** One step. */
  lemma StepFilled(p: Program, m: S.Module, globals: seq<ValType>, s: State, t: State)
    requires Loaded(p, m) && V.ModuleOk(m, globals) && Keeps(p, m, Next(s), [], []) && !Astray(p, m, s)
    requires Step(p, s) == Next(t) && Filled(m, s)
    ensures Filled(m, t)
  {
    hide Loaded, V.ModuleOk, Step, Decode, Stacked, AtSite, AtTerminator, Astray, Linked, Filled, LocalsTyped;
    if x :| AtSite(m, s, x) {
      Locals.SiteDecodes(p, m, s, x);
      if !x.code.Simple? { EnterFilled(p, m, s, x, t); }
      else if S.IsBasic(x.code.op) { BasicFilled(p, m, s, x, t); }
      else if x.code.op.Call? || x.code.op.CallIndirect? { CallOpFilled(p, m, globals, s, x, t); }
      else { BranchFilled(p, m, s, x, t); }
    } else {
      EndFilled(p, m, s, t);
    }
  }

  lemma FirstFilled(m: S.Module, s: State)
    requires |s.frames| == 1 && s.frames[0].block.kind == 0 && LocalsTyped(s)
    ensures Filled(m, s)
  {
    assert Activation(s.frames) == s.frames[0];
  }

  lemma StartedFrames(p: Program, m: S.Module, i: nat, s: State)
    requires Loaded(p, m) && i < |m.funcs| && s.frames == [] && SetupCall(s, p.funcs[p.imports + i]).Next?
    ensures |Started(p, i, s).frames| == 1 && Started(p, i, s).frames[0].block.kind == 0
  {
    hide Placed, Covered, TableLoaded;
    assert FuncLoaded(p, m.funcs[i], p.funcs[|m.imports| + i]);
  }

  /** Type preservation: in every state a run of validated code reaches, the parameters and locals of
      all activations have the tags of their declarations; the slots below every open block and every
      call have those of the operands validation has pending there; and the machine is at an
      instruction with exactly the operand types validation computes there, or at the else or end of
      the innermost block with its results on top. */
  lemma {:induction false} TypesPreserved(p: Program, m: S.Module, globals: seq<ValType>, n: nat, i: nat, s: State,
                                          below: seq<Value>, args: seq<Value>)
    requires Invocation(p, m, globals, i, s, below, args)
    ensures SetupCall(s, p.funcs[p.imports + i]).Next?
    ensures var o := Run(p, Started(p, i, s), n);
            o.Next? && !WentAstray(p, m, Started(p, i, s), n) ==>
              LocalsTyped(o.s) && Filled(m, o.s) && ((exists x :: AtSite(m, o.s, x)) || AtTerminator(p, m, o.s))
    decreases n
  {
    hide Run, V.ModuleOk, Loaded, SetupCall, AtSite, AtTerminator, Stacked, Filled, Linked, Astray, LocalsTyped, Step;
    LoadedCounts(p, m);
    NoFrames();
    SitesReached(p, m, globals, n, i, s, below, args);
    var s1 := Started(p, i, s);
    if n == 0 {
      StartedFrames(p, m, i, s);
      RunNone(p, s1);
      FirstFilled(m, s1);
    } else if Run(p, s1, n).Next? && !WentAstray(p, m, s1, n) {
      RunStays(p, s1, n - 1, n);
      Locals.SoFar(p, m, s1, n - 1);
      TypesPreserved(p, m, globals, n - 1, i, s, below, args);
      CallDiscipline(p, m, globals, n - 1, i, s, below, args);
      var o := Run(p, s1, n - 1);
      KeepsWeaker(p, m, o, below, [], [], []);
      RunAdd(p, s1, n - 1, 1);
      RunOne(p, o.s);
      StepFilled(p, m, globals, o.s, Run(p, s1, n).s);
    }
  }

  lemma RunNone(p: Program, s: State)
    ensures Run(p, s, 0) == Next(s)
  {}
}
