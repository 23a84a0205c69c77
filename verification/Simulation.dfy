/**
 The byte-level interpreter against the reference semantics: from the start of any validated
 instruction sequence, running the machine has the outcome the evaluator computes.
 */
module Simulation {
  import opened Leb
  import opened Wasm
  import opened Integers
  import opened Numerics
  import opened Bytecode
  import opened Structure
  import opened Blocks
  import opened Thunks
  import opened Machine
  import S = Structured
  import V = Validation

  type Conf = S.Conf
  type Result = S.Result

  // ---------- a loaded module ----------

  /** Every block of c has its record in the lookup table. */
  predicate Covered(t: Lookup, c: Code) {
    match c
    case Done(_) => true
    case Simple(_, _, rest) => Covered(t, rest)
    case Block(at, _, _, body, rest) =>
      at in t && t[at] == RecordOf(c) && Covered(t, body) && Covered(t, rest)
    case IfElse(at, _, thn, els, rest) =>
      at in t && t[at] == RecordOf(c) && Covered(t, thn) && Covered(t, els) && Covered(t, rest)
  }

  /** What find_blocks leaves in block_lookup covers the body. */
  lemma {:induction false} ContainsCovers(bytes: seq<byte>, t: Lookup, c: Code)
    requires Placed(bytes, c) && Contains(t, Entries(c))
    ensures Covered(t, c)
    decreases c
  {
    hide NodePlaced, Contains;
    match c
    case Done(_) =>
    case Simple(_, _, rest) => ContainsCovers(bytes, t, rest);
    case Block(at, _, _, body, rest) =>
      BlockParts(bytes, t, c);
      ContainsCovers(bytes, t, body);
      ContainsCovers(bytes, t, rest);
    case IfElse(at, _, thn, els, rest) =>
      IfParts(bytes, t, c);
      ContainsCovers(bytes, t, thn);
      ContainsCovers(bytes, t, els);
      ContainsCovers(bytes, t, rest);
  }

  lemma OwnRecord(t: Lookup, at: nat, b: BlockRec)
    requires Contains(t, map[at := b])
    ensures at in t && t[at] == b
  {
    assert at in map[at := b];
  }

  lemma BlockParts(bytes: seq<byte>, t: Lookup, c: Code)
    requires c.Block? && Placed(bytes, c) && Contains(t, Entries(c))
    ensures c.at in t && t[c.at] == RecordOf(c) && Contains(t, Entries(c.body)) && Contains(t, Entries(c.rest))
  {
    hide Decode, BlockType, Contains, RecordOf;
    EntriesSpan(bytes, c.body);
    EntriesSpan(bytes, c.rest);
    var own := map[c.at := RecordOf(c)];
    JoinContains(t, own + Entries(c.body), Entries(c.rest));
    JoinContains(t, own, Entries(c.body));
    OwnRecord(t, c.at, RecordOf(c));
  }

  lemma IfParts(bytes: seq<byte>, t: Lookup, c: Code)
    requires c.IfElse? && Placed(bytes, c) && Contains(t, Entries(c))
    ensures c.at in t && t[c.at] == RecordOf(c)
    ensures Contains(t, Entries(c.thn)) && Contains(t, Entries(c.els)) && Contains(t, Entries(c.rest))
  {
    hide Decode, BlockType, Contains, RecordOf;
    EntriesSpan(bytes, c.thn);
    EntriesSpan(bytes, c.els);
    EntriesSpan(bytes, c.rest);
    var own := map[c.at := RecordOf(c)];
    JoinContains(t, own + Entries(c.thn) + Entries(c.els), Entries(c.rest));
    JoinContains(t, own + Entries(c.thn), Entries(c.els));
    JoinContains(t, own, Entries(c.thn));
    OwnRecord(t, c.at, RecordOf(c));
  }

  /** The record and the bytes of one function carry its type, locals and body. */
  ghost predicate FuncLoaded(p: Program, f: S.Func, b: BlockRec) {
    b.kind == 0 && b.ty == f.ty && b.locals == f.locals
    && b.start == f.body.at && b.end == b.br == f.body.EndAt()
    && Placed(p.bytes, f.body) && b.end < |p.bytes| && p.bytes[b.end] == 0x0b
    && Covered(p.lookup, f.body)
  }

  /** The table as load_module leaves it: entries never written are 0. Its maximum is capped. */
  ghost predicate TableLoaded(p: Program, m: S.Module) {
    |p.table| == |m.table| <= p.tableMax == m.tableMax
    && forall i :: 0 <= i < |m.table| ==> p.table[i] == if m.table[i].Some? then m.table[i].value else 0
  }

  ghost predicate Loaded(p: Program, m: S.Module) {
    p.imports == |m.imports| && |p.funcs| == |m.imports| + |m.funcs|
    && TableLoaded(p, m) && p.alu == m.alu && p.host == m.host
    && (forall i :: 0 <= i < |m.imports| ==> p.funcs[i].ty == m.imports[i])
    && (forall i :: 0 <= i < |m.funcs| ==> FuncLoaded(p, m.funcs[i], p.funcs[|m.imports| + i]))
  }

  // ---------- addresses of a module's code ----------

  /** part is whole itself or one of the instruction sequences inside it. */
  predicate IsPart(part: Code, whole: Code) {
    part == whole ||
    match whole
    case Done(_) => false
    case Simple(_, _, rest) => IsPart(part, rest)
    case Block(_, _, _, body, rest) => IsPart(part, body) || IsPart(part, rest)
    case IfElse(_, _, thn, els, rest) => IsPart(part, thn) || IsPart(part, els) || IsPart(part, rest)
  }

  predicate IsChild(part: Code, c: Code) {
    match c
    case Done(_) => false
    case Simple(_, _, rest) => part == rest
    case Block(_, _, _, body, rest) => part == body || part == rest
    case IfElse(_, _, thn, els, rest) => part == thn || part == els || part == rest
  }

  lemma {:induction false} ChildIsPart(part: Code, c: Code, whole: Code)
    requires IsChild(part, c) && IsPart(c, whole)
    ensures IsPart(part, whole)
    decreases whole
  {
    if c != whole {
      match whole
      case Simple(_, _, rest) => ChildIsPart(part, c, rest);
      case Block(_, _, _, body, rest) =>
        if IsPart(c, body) { ChildIsPart(part, c, body); } else { ChildIsPart(part, c, rest); }
      case IfElse(_, _, thn, els, rest) =>
        if IsPart(c, thn) { ChildIsPart(part, c, thn); }
        else if IsPart(c, els) { ChildIsPart(part, c, els); }
        else { ChildIsPart(part, c, rest); }
    }
  }

  ghost predicate InModule(m: S.Module, c: Code) { exists f :: f in m.funcs && IsPart(c, f.body) }

  /** at is the address of an instruction, an else or an end of some function. */
  ghost predicate Visits(m: S.Module, at: nat) { exists c :: InModule(m, c) && c.at == at }

  lemma ChildInModule(m: S.Module, part: Code, c: Code)
    requires InModule(m, c) && IsChild(part, c)
    ensures InModule(m, part)
  {
    var f :| f in m.funcs && IsPart(c, f.body);
    ChildIsPart(part, c, f.body);
  }

  lemma {:induction false} EndVisited(m: S.Module, c: Code)
    requires InModule(m, c)
    ensures Visits(m, c.EndAt())
    decreases c
  {
    hide InModule;
    match c
    case Done(at) => assert c.at == at;
    case Simple(_, _, rest) => ChildInModule(m, rest, c); EndVisited(m, rest);
    case Block(_, _, _, _, rest) => ChildInModule(m, rest, c); EndVisited(m, rest);
    case IfElse(_, _, _, _, rest) => ChildInModule(m, rest, c); EndVisited(m, rest);
  }

  // ---------- the types validation gives a place in the code ----------

  /** A sequence with the labels around it and the operand types before it. */
  datatype Judgement = Judgement(labels: seq<V.Label>, ts: seq<ValType>, code: Code)

  /** Validating j leads to validating q. */
  ghost predicate Premise(m: S.Module, env: V.Env, q: Judgement, j: Judgement) {
    match j.code
    case Done(_) => false
    case Simple(_, op, rest) => !V.Stops(op) && q == Judgement(j.labels, V.After(m, env, j.ts, op), rest)
    case Block(_, kind, ty, body, rest) =>
      if kind == 4 then |j.ts| >= 1 && IfPremise(q, j, ty, body, rest)
      else
        q == Judgement(j.labels, j.ts + ty, rest)
        || q == Judgement([V.Label(kind, if kind == 3 then [] else ty, ty, j.ts == [], false)] + j.labels, [], body)
        || (kind == 3 && q == Judgement([V.Label(kind, [], ty, j.ts == [], true)] + j.labels, [], body))
    case IfElse(_, ty, thn, els, rest) =>
      |j.ts| >= 1 && (IfPremise(q, j, ty, thn, rest) || IfPremise(q, j, ty, els, rest))
  }

  predicate IfPremise(q: Judgement, j: Judgement, ty: seq<ValType>, arm: Code, rest: Code)
    requires |j.ts| >= 1
  {
    q == Judgement(j.labels, V.Front(j.ts, 1) + ty, rest)
    || q == Judgement([V.Label(4, ty, ty, V.Front(j.ts, 1) == [], true)] + j.labels, [], arm)
  }

  /** Validating j comes by q. */
  ghost predicate Occurs(m: S.Module, env: V.Env, q: Judgement, j: Judgement)
    decreases j.code
  {
    q == j || exists r :: Premise(m, env, r, j) && Occurs(m, env, q, r)
  }

  lemma {:induction false} PremiseOccurs(m: S.Module, env: V.Env, r: Judgement, q: Judgement, j: Judgement)
    requires Premise(m, env, r, q) && Occurs(m, env, q, j)
    ensures Occurs(m, env, r, j)
    decreases j.code
  {
    if q == j {
      assert Occurs(m, env, r, r);
    } else {
      var k :| Premise(m, env, k, j) && Occurs(m, env, q, k);
      PremiseOccurs(m, env, r, q, k);
    }
  }

  lemma {:induction false} OccursIsPart(m: S.Module, env: V.Env, q: Judgement, j: Judgement)
    requires Occurs(m, env, q, j)
    ensures IsPart(q.code, j.code)
    decreases j.code
  {
    if q != j {
      var k :| Premise(m, env, k, j) && Occurs(m, env, q, k);
      OccursIsPart(m, env, q, k);
    }
  }

  /** Validation of some function of m, with its locals and the module's globals, comes by c with
      these labels and operand types. */
  ghost predicate InFunction(m: S.Module, env: V.Env, labels: seq<V.Label>, ts: seq<ValType>, c: Code) {
    exists f :: f in m.funcs && env == V.FuncEnv(f, env.globals)
      && Occurs(m, env, Judgement(labels, ts, c), Judgement([V.FuncLabel(f)], [], f.body))
  }

  lemma PremiseInFunction(m: S.Module, env: V.Env, labels: seq<V.Label>, ts: seq<ValType>, c: Code,
                          labels': seq<V.Label>, ts': seq<ValType>, c': Code)
    requires InFunction(m, env, labels, ts, c)
    requires Premise(m, env, Judgement(labels', ts', c'), Judgement(labels, ts, c))
    ensures InFunction(m, env, labels', ts', c')
  {
    hide Premise, Occurs;
    var f :| f in m.funcs && env == V.FuncEnv(f, env.globals)
      && Occurs(m, env, Judgement(labels, ts, c), Judgement([V.FuncLabel(f)], [], f.body));
    PremiseOccurs(m, env, Judgement(labels', ts', c'), Judgement(labels, ts, c),
                  Judgement([V.FuncLabel(f)], [], f.body));
  }

  lemma FunctionInModule(m: S.Module, env: V.Env, labels: seq<V.Label>, ts: seq<ValType>, c: Code)
    requires InFunction(m, env, labels, ts, c)
    ensures InModule(m, c)
  {
    hide Occurs, IsPart;
    var f :| f in m.funcs && env == V.FuncEnv(f, env.globals)
      && Occurs(m, env, Judgement(labels, ts, c), Judgement([V.FuncLabel(f)], [], f.body));
    OccursIsPart(m, env, Judgement(labels, ts, c), Judgement([V.FuncLabel(f)], [], f.body));
  }

  // ---------- relating machine states to configurations ----------

  /** The machine's stack: what lies below the current function, its locals, operands pending
      in enclosing labels together with what branches to loops left behind, own operands. */
  ghost predicate At(s: State, under: seq<Value>, mid: seq<Value>, c: Conf) {
    s.stack == under + c.locals + mid + c.ops && s.fp == |under|
    && s.globals == c.globals && s.mem == c.mem
  }

  /** callstack[0] is a function whose end byte is in place: what `return` relies on. */
  ghost predicate FirstOk(p: Program, m: S.Module, frames: seq<Frame>) {
    frames != [] && frames[0].block.kind == 0 && Visits(m, frames[0].block.end)
    && frames[0].block.end < |p.bytes| && p.bytes[frames[0].block.end] == 0x0b
  }

  /** Kind of the frame a branch of depth j reaches. */
  function KindAt(frames: seq<Frame>, j: nat): nat
    requires j < |frames|
  {
    frames[|frames| - 1 - j].block.kind
  }

  /** Where the operands of a frame begin; an `if` has counted its condition in. */
  function Base(f: Frame): int { if f.block.kind == 4 then f.sp else f.sp + 1 }

  /** Where a frame's own part of the stack ends at least: a function's parameters and locals lie
      at its base. */
  function Floor(f: Frame): int {
    if f.block.kind == 0 then Base(f) + |f.block.ty.params| + |f.block.locals| else Base(f)
  }

  /** Operand bases are ordered along the callstack, above the parameters and locals of every
      activation further down, and none lies above the given height. */
  ghost predicate Stacked(frames: seq<Frame>, height: nat) {
    (forall i :: 0 <= i < |frames| ==> 0 <= Base(frames[i]) && Floor(frames[i]) <= height)
    && (forall i, j :: 0 <= i < j < |frames| ==> Floor(frames[i]) <= Base(frames[j]))
  }

  lemma StackedPush(frames: seq<Frame>, height: nat, f: Frame, height': nat)
    requires Stacked(frames, height) && height <= Base(f) && Floor(f) <= height'
    ensures Stacked(frames + [f], height')
  {}

  lemma StackedPrefix(frames: seq<Frame>, height: nat, frames': seq<Frame>, height': nat)
    requires Stacked(frames, height) && frames' <= frames && height <= height'
    ensures Stacked(frames', height')
  {}

  /** Every frame has saved the frame pointer of the activation it was pushed in, which is the base
      of that activation's function frame; fp is the current one. */
  ghost predicate Linked(frames: seq<Frame>, fp: int) {
    frames == [] ||
    var n := |frames| - 1;
    if frames[n].block.kind == 0 then fp == Base(frames[n]) && Linked(frames[..n], frames[n].fp)
    else frames[n].fp == fp && Linked(frames[..n], fp)
  }

  /** The function frame of the current activation. */
  function Activation(frames: seq<Frame>): Frame
    requires Unwind(frames) > 0
  {
    frames[Unwind(frames) - 1]
  }

  function LocalsOf(f: Frame): seq<ValType> { f.block.ty.params + f.block.locals }

  /** The current activation has its frame pointer, and parameters and locals of these types. */
  ghost predicate Housed(frames: seq<Frame>, fp: int, locals: seq<ValType>) {
    Unwind(frames) > 0 && Linked(frames, fp) && LocalsOf(Activation(frames)) == locals
  }

  lemma HousedPush(frames: seq<Frame>, fp: int, locals: seq<ValType>, f: Frame)
    requires Housed(frames, fp, locals) && f.block.kind != 0 && f.fp == fp
    ensures Housed(frames + [f], fp, locals)
  {
    assert (frames + [f])[..|frames|] == frames;
  }

  lemma HousedCall(frames: seq<Frame>, fp: int, f: Frame)
    requires Linked(frames, fp) && f.block.kind == 0 && f.fp == fp
    ensures Housed(frames + [f], Base(f), LocalsOf(f))
  {
    assert (frames + [f])[..|frames|] == frames;
  }

  /** Slots and tags of the current activation's parameters and locals. */
  ghost predicate LocalsTyped(s: State) {
    Unwind(s.frames) > 0 && Linked(s.frames, s.fp) && 0 <= s.fp
    && var locals := LocalsOf(Activation(s.frames));
       s.fp + |locals| <= |s.stack| && TypesOf(s.stack[s.fp..s.fp + |locals|]) == locals
  }

  lemma HousedTyped(s: State, under: seq<Value>, mid: seq<Value>, c: Conf)
    requires At(s, under, mid, c) && Housed(s.frames, |under|, TypesOf(c.locals))
    ensures LocalsTyped(s)
  {
    assert s.stack[|under|..|under| + |c.locals|] == c.locals;
  }

  /** The topmost frames are those of the enclosing labels; the last of them is a function. Own
      operands begin at the given height: behind the locals, or at the base of the block, unless
      branches have left something behind in a loop. */
  ghost predicate Framed(frames: seq<Frame>, labels: seq<V.Label>, height: nat) {
    0 < |labels| <= |frames| && Stacked(frames, height)
    && (KindAt(frames, 0) != 3 ==> Floor(frames[|frames| - 1]) == height)
    && forall j :: 0 <= j < |labels| ==> (KindAt(frames, j) == 0 <==> j == |labels| - 1)
  }

  ghost predicate FramesOk(p: Program, m: S.Module, frames: seq<Frame>, labels: seq<V.Label>, height: nat) {
    FirstOk(p, m, frames) && Framed(frames, labels, height)
  }

  /** About to go astray: the next instruction is a call_indirect at which the standard traps and
      the code does not. */
  ghost predicate Astray(p: Program, m: S.Module, s: State) {
    s.pc < |p.bytes| && Decode(p.bytes, s.pc).Some? && TopIs(s, I32)
    && match Decode(p.bytes, s.pc).value.op
       case CallIndirect(t) => t < |m.types| && S.Refused(m, t, Top(s).bits) && !Step(p, s).Trapped?
       case _ => false
  }

  // ---------- what holds at every step ----------

  /** A place in validated code, and what the machine's stack consists of there. */
  datatype Site = Site(code: Code, env: V.Env, labels: seq<V.Label>, ts: seq<ValType>,
                       under: seq<Value>, mid: seq<Value>, c: Conf)

  /** The state is at an instruction of the function whose activation is current, with operands and
      locals of the types validation gives them. */
  ghost predicate AtSite(m: S.Module, s: State, x: Site) {
    InFunction(m, x.env, x.labels, x.ts, x.code) && s.pc == x.code.at
    && x.labels != [] && V.Check(m, x.env, x.labels, x.ts, x.code)
    && At(s, x.under, x.mid, x.c) && V.ConfOk(x.env, x.ts, x.c) && !x.code.Done?
    && Housed(s.frames, s.fp, x.env.locals) && Framed(s.frames, x.labels, |x.under| + |x.c.locals| + |x.mid|)
  }

  /** pc is at the end byte of the topmost frame, at the else byte before its second arm, or, with a
      function on top, where return goes: at the end byte of callstack[0]. */
  predicate AtEndOf(p: Program, frames: seq<Frame>, pc: nat)
    requires frames != [] && pc < |p.bytes|
  {
    var f := frames[|frames| - 1];
    if p.bytes[pc] == 0x05 then pc + 1 == f.block.els
    else p.bytes[pc] == 0x0b && (pc == f.block.end || (f.block.kind == 0 && pc == frames[0].block.end))
  }

  /** The state is at an else or end of the innermost block, with results of its type on top, above
      everything that lies below the block. */
  ghost predicate AtTerminator(p: Program, m: S.Module, s: State) {
    s.pc < |p.bytes| && s.frames != [] && AtEndOf(p, s.frames, s.pc) && Visits(m, s.pc)
    && var f := s.frames[|s.frames| - 1];
       var results := f.block.ty.results;
       |results| <= 1 && Floor(f) + |results| <= |s.stack| && |results| <= |s.stack|
       && TypesOf(s.stack[|s.stack| - |results|..]) == results
  }

  ghost predicate Typed(p: Program, m: S.Module, s: State) {
    (exists x :: AtSite(m, s, x)) || AtTerminator(p, m, s)
  }

  /** A state that has not touched the stack below `under` nor the frames fs at the bottom, whose
      frames are laid out in order, and which is well typed. */
  ghost predicate Keeps(p: Program, m: S.Module, o: Outcome, under: seq<Value>, fs: seq<Frame>) {
    o.Next? ==> under <= o.s.stack && fs <= o.s.frames && Stacked(o.s.frames, |o.s.stack|)
                && LocalsTyped(o.s) && Typed(p, m, o.s)
  }

  /** All of the next k states are. */
  ghost predicate Guards(p: Program, m: S.Module, s: State, k: nat, under: seq<Value>, fs: seq<Frame>) {
    forall j: nat :: j < k ==> Keeps(p, m, Run(p, s, j), under, fs)
  }

  /** The callers' frames and the current function's own. */
  function Own(frames: seq<Frame>, labels: seq<V.Label>): seq<Frame> {
    if 0 < |labels| <= |frames| then frames[..|frames| - |labels| + 1] else []
  }

  lemma OwnPush(frames: seq<Frame>, labels: seq<V.Label>, f: Frame, l: V.Label)
    requires 0 < |labels| <= |frames|
    ensures Own(frames + [f], [l] + labels) == Own(frames, labels)
    ensures Own(frames, labels) <= frames
  {}

  lemma SiteKeeps(p: Program, m: S.Module, s: State, x: Site, fs: seq<Frame>)
    requires AtSite(m, s, x) && fs <= s.frames
    ensures Keeps(p, m, Next(s), x.under, fs)
  {
    hide InFunction, V.Check, Housed, Linked;
    HousedTyped(s, x.under, x.mid, x.c);
    StackedPrefix(s.frames, |x.under| + |x.c.locals| + |x.mid|, s.frames, |s.stack|);
    hide Stacked;
  }

  lemma TerminatorKeeps(p: Program, m: S.Module, s: State, under: seq<Value>, mid: seq<Value>, c: Conf,
                        fs: seq<Frame>, height: nat)
    requires s.pc < |p.bytes| && s.frames != [] && AtEndOf(p, s.frames, s.pc) && Visits(m, s.pc)
    requires var results := s.frames[|s.frames| - 1].block.ty.results; |results| <= 1 && S.Ends(c.ops, results)
    requires At(s, under, mid, c) && fs <= s.frames && Housed(s.frames, |under|, TypesOf(c.locals))
    requires Stacked(s.frames, height) && height <= |under| + |c.locals| + |mid|
    ensures Keeps(p, m, Next(s), under, fs)
  {
    hide Visits, AtSite, Housed, Linked;
    HousedTyped(s, under, mid, c);
    SplitTop(s, under, mid, c, |s.frames[|s.frames| - 1].block.ty.results|);
    ResultOnTop(s, under, mid, c, s.frames[|s.frames| - 1].block.ty.results);
    StackedPrefix(s.frames, height, s.frames, |s.stack|);
    hide Stacked;
  }

  lemma ResultOnTop(t: State, under: seq<Value>, mid: seq<Value>, c: Conf, ty: seq<ValType>)
    requires At(t, under, mid, c) && |ty| <= 1 && S.Ends(c.ops, ty)
    ensures |ty| == 1 ==> t.stack != [] && Top(t).ty == ty[0]
  {
    if |ty| == 1 {
      TopOperand(t, under, mid, c);
      assert TypesOf(S.Last(c.ops, 1))[0] == ty[0];
    }
  }

  lemma GuardsMore(p: Program, m: S.Module, s: State, k: nat, under: seq<Value>, fs: seq<Frame>)
    requires Guards(p, m, s, k, under, fs) && Keeps(p, m, Run(p, s, k), under, fs)
    ensures Guards(p, m, s, k + 1, under, fs)
  {
    hide Run, Keeps;
  }

  lemma GuardsOne(p: Program, m: S.Module, s: State, under: seq<Value>, fs: seq<Frame>)
    requires Keeps(p, m, Next(s), under, fs)
    ensures Guards(p, m, s, 1, under, fs)
  {
    assert Run(p, s, 0) == Next(s);
    hide Run, Keeps;
  }

  lemma GuardsJoin(p: Program, m: S.Module, s: State, i: nat, s1: State, k: nat, under: seq<Value>, fs: seq<Frame>)
    requires Guards(p, m, s, i, under, fs) && Run(p, s, i) == Next(s1) && Guards(p, m, s1, k, under, fs)
    ensures Guards(p, m, s, i + k, under, fs)
  {
    hide Run, Keeps;
    forall j: nat | j < i + k ensures Keeps(p, m, Run(p, s, j), under, fs) {
      if j >= i {
        RunAdd(p, s, i, j - i);
        assert Keeps(p, m, Run(p, s1, j - i), under, fs);
      }
    }
  }

  lemma KeepsWeaker(p: Program, m: S.Module, o: Outcome, under: seq<Value>, fs: seq<Frame>,
                    under': seq<Value>, fs': seq<Frame>)
    requires Keeps(p, m, o, under, fs) && under' <= under && fs' <= fs
    ensures Keeps(p, m, o, under', fs')
  {
    hide Typed, Stacked, LocalsTyped;
  }

  lemma GuardsWeaker(p: Program, m: S.Module, s: State, k: nat, under: seq<Value>, fs: seq<Frame>,
                     under': seq<Value>, fs': seq<Frame>)
    requires Guards(p, m, s, k, under, fs) && under' <= under && fs' <= fs
    ensures Guards(p, m, s, k, under', fs')
  {
    hide Run, Typed, Stacked, LocalsTyped;
    forall j: nat | j < k ensures Keeps(p, m, Run(p, s, j), under', fs') {
      assert Keeps(p, m, Run(p, s, j), under, fs);
    }
  }

  // ---------- agreement with the evaluator ----------

  /** What the machine does where the standard traps. */
  ghost predicate FailsAs(p: Program, m: S.Module, e: Exception, o: Outcome, under: seq<Value>, fs: seq<Frame>) {
    o == Trapped(e) || (o.Next? && Astray(p, m, o.s) && Keeps(p, m, o, under, fs))
  }

  /** The outcome of running k steps from s agrees with the evaluator's result r. Operands left
      behind below the live ones are junk; none are left when the label reached is strict. */
  ghost predicate Agrees(p: Program, m: S.Module, s: State, labels: seq<V.Label>, under: seq<Value>, mid: seq<Value>,
                         end: nat, fuel: nat, r: Result, k: nat, junk: seq<Value>)
  {
    var o := Run(p, s, k);
    match r
    case Normal(c) => o.Next? && o.s.pc == end && o.s.frames == s.frames && At(o.s, under, mid + junk, c)
    case Jump(d, c) =>
      d < |labels| <= |s.frames| && k > 0 && o.Next? && o.s.frames == s.frames[..|s.frames| - d]
      && o.s.pc == o.s.frames[|o.s.frames| - 1].block.br && At(o.s, under, mid + junk, c)
      && (labels[d].strict ==> junk == [])
    case Returned(c) =>
      0 < |labels| <= |s.frames| && o.Next? && o.s.frames == s.frames[..|s.frames| - |labels| + 1]
      && o.s.pc == s.frames[0].block.end && At(o.s, under, mid + junk, c)
    case Fail(e) => FailsAs(p, m, e, o, under, Own(s.frames, labels))
    case Wild(t) => o == Stray(t)
    case Timeout => o.Next? && k >= fuel
    case Stuck => false
  }

  lemma AgreesAfter(p: Program, m: S.Module, s: State, i: nat, s1: State, labels: seq<V.Label>, under: seq<Value>,
                    mid: seq<Value>,
                    end: nat, fuel: nat, r: Result, k: nat, junk: seq<Value>)
    requires Run(p, s, i) == Next(s1) && s1.frames == s.frames
    requires Agrees(p, m, s1, labels, under, mid, end, fuel, r, k, junk)
    ensures Agrees(p, m, s, labels, under, mid, end, fuel, r, i + k, junk)
  {
    hide At, Run, Keeps, Own;
    RunAdd(p, s, i, k);
  }

  lemma StepAt(p: Program, s: State, op: Op, next: nat)
    requires s.pc < |p.bytes| && Decode(p.bytes, s.pc) == Some(Fetched(op, next))
    ensures Run(p, s, 1) == Step(p, s) == Exec(p, s.pc, op, s.(pc := next))
  {
    hide Exec;
    RunOne(p, s);
  }

  lemma StepTerminator(p: Program, s: State)
    requires s.pc < |p.bytes|
    ensures p.bytes[s.pc] == 0x0b ==> Run(p, s, 1) == ExecEnd(s.(pc := s.pc + 1))
    ensures p.bytes[s.pc] == 0x05 ==> Run(p, s, 1) == ExecElse(s.(pc := s.pc + 1))
  {
    hide ExecEnd, ExecElse, Decode;
    if p.bytes[s.pc] == 0x0b { DecodeTerminator(p.bytes, s.pc); StepAt(p, s, End, s.pc + 1); }
    if p.bytes[s.pc] == 0x05 { DecodeTerminator(p.bytes, s.pc); StepAt(p, s, Else, s.pc + 1); }
  }

  lemma DecodeTerminator(bytes: seq<byte>, at: nat)
    requires at < |bytes|
    ensures bytes[at] == 0x0b ==> Decode(bytes, at) == Some(Fetched(End, at + 1))
    ensures bytes[at] == 0x05 ==> Decode(bytes, at) == Some(Fetched(Else, at + 1))
  {}

  lemma DecodeOpener(bytes: seq<byte>, at: nat)
    requires at + 1 < |bytes| && 2 <= bytes[at] <= 4 && BlockType(bytes[at + 1]).Some?
    ensures Decode(bytes, at) == Some(Fetched(Enter(bytes[at]), at + 2))
  {}

  // ---------- instructions without control ----------

  /** Splitting the operands off the machine's stack. */
  lemma SplitTop(s: State, under: seq<Value>, mid: seq<Value>, c: Conf, n: nat)
    requires At(s, under, mid, c) && n <= |c.ops|
    ensures s.stack[|s.stack| - n..] == S.Last(c.ops, n)
    ensures s.stack[..|s.stack| - n] == under + c.locals + mid + S.ButLast(c.ops, n)
  {}

  lemma TopOperand(s: State, under: seq<Value>, mid: seq<Value>, c: Conf)
    requires At(s, under, mid, c) && c.ops != []
    ensures s.stack != [] && Top(s) == S.Last(c.ops, 1)[0]
    ensures S.Ends(c.ops, [Top(s).ty])
    ensures At(Pop(s), under, mid, c.(ops := S.ButLast(c.ops, 1)))
  {
    SplitTop(s, under, mid, c, 1);
    assert S.Last(c.ops, 1) == [Top(s)];
  }

  lemma PushOperand(s: State, under: seq<Value>, mid: seq<Value>, c: Conf, v: Value)
    requires At(s, under, mid, c)
    ensures At(Push(s, v), under, mid, S.PushOp(c, v))
  {}

  /** The relation between one machine step and one evaluated instruction. */
  ghost predicate Matches(s: State, under: seq<Value>, mid: seq<Value>, r: Result, o: Outcome) {
    match r
    case Normal(c) => o.Next? && o.s.pc == s.pc && o.s.frames == s.frames && At(o.s, under, mid, c)
    case Fail(e) => o == Trapped(e)
    case Wild(t) => o == Stray(t)
    case _ => false
  }

  /** A local's slot, and the configuration after it has been overwritten. */
  lemma LocalSlot(s: State, under: seq<Value>, mid: seq<Value>, c: Conf, i: nat, v: Value)
    requires At(s, under, mid, c) && i < |c.locals|
    ensures 0 <= s.fp + i < |s.stack| && s.stack[s.fp + i] == c.locals[i]
    ensures At(s.(stack := s.stack[s.fp + i := v]), under, mid, c.(locals := c.locals[i := v]))
  {
    var k := s.fp + i;
    assert under + c.locals[i := v] + mid + c.ops == (under + c.locals + mid + c.ops)[k := v];
  }

  lemma GetLocalSim(p: Program, m: S.Module, at: nat, op: Op, c: Conf, s: State, under: seq<Value>, mid: seq<Value>)
    requires At(s, under, mid, c) && op.GetLocal? && !S.EvalBasic(m, op, c).Stuck?
    ensures Matches(s, under, mid, S.EvalBasic(m, op, c), Exec(p, at, op, s))
  {
    hide At;
    LocalSlot(s, under, mid, c, op.i, c.locals[op.i]);
    PushOperand(s, under, mid, c, c.locals[op.i]);
  }

  lemma SetLocalSim(p: Program, m: S.Module, at: nat, op: Op, c: Conf, s: State, under: seq<Value>, mid: seq<Value>)
    requires At(s, under, mid, c) && (op.SetLocal? || op.TeeLocal?) && !S.EvalBasic(m, op, c).Stuck?
    ensures Matches(s, under, mid, S.EvalBasic(m, op, c), Exec(p, at, op, s))
  {
    hide At;
    TopOperand(s, under, mid, c);
    LocalSlot(s, under, mid, c, op.i, Top(s));
    var s1, c1 := s.(stack := s.stack[s.fp + op.i := Top(s)]), c.(locals := c.locals[op.i := Top(s)]);
    if op.SetLocal? { TopOperand(s1, under, mid, c1); }
  }

  lemma MemoryFacts(m: Memory, addr: u32, offset: u32, size: nat)
    requires MemoryOk(m)
    ensures InBounds(m, addr, offset, size) <==> addr + offset + size <= |m.bytes|
  {}

  lemma LoadSim(p: Program, m: S.Module, at: nat, op: Op, c: Conf, s: State, under: seq<Value>, mid: seq<Value>)
    requires At(s, under, mid, c) && op.Load? && !S.EvalBasic(m, op, c).Stuck? && MemoryOk(c.mem)
    ensures Matches(s, under, mid, S.EvalBasic(m, op, c), Exec(p, at, op, s))
  {
    hide ReadMemory, Access, InBounds, MemoryOk;
    TopOperand(s, under, mid, c);
    MemoryFacts(c.mem, Top(s).bits, op.offset, Access(op.code).size);
  }

  /** The two topmost operands. */
  lemma TopTwo(s: State, under: seq<Value>, mid: seq<Value>, c: Conf)
    requires At(s, under, mid, c) && |c.ops| >= 2
    ensures |s.stack| >= 2 && Pop(s).stack != []
    ensures var args := S.Last(c.ops, 2); Top(s) == args[1] && Top(Pop(s)) == args[0]
    ensures At(Pop(Pop(s)), under, mid, c.(ops := S.ButLast(c.ops, 2)))
  {
    hide At;
    var c1 := c.(ops := S.ButLast(c.ops, 1));
    TopOperand(s, under, mid, c);
    TopOperand(Pop(s), under, mid, c1);
    assert S.ButLast(c1.ops, 1) == S.ButLast(c.ops, 2);
  }

  lemma StoreSim(p: Program, m: S.Module, at: nat, op: Op, c: Conf, s: State, under: seq<Value>, mid: seq<Value>)
    requires At(s, under, mid, c) && op.Store? && !S.EvalBasic(m, op, c).Stuck? && MemoryOk(c.mem)
    ensures Matches(s, under, mid, S.EvalBasic(m, op, c), Exec(p, at, op, s))
  {
    hide WriteMemory, Access, InBounds, MemoryOk;
    var args := S.Last(c.ops, 2);
    TopTwo(s, under, mid, c);
    assert TypesOf(args)[1] == Access(op.code).ty && TypesOf(args)[0] == I32;
    MemoryFacts(c.mem, args[0].bits, op.offset, Access(op.code).size);
  }

  lemma GrowSim(p: Program, m: S.Module, at: nat, op: Op, c: Conf, s: State, under: seq<Value>, mid: seq<Value>)
    requires At(s, under, mid, c) && op.GrowMemory? && !S.EvalBasic(m, op, c).Stuck? && MemoryOk(c.mem)
    ensures Matches(s, under, mid, S.EvalBasic(m, op, c), Exec(p, at, op, s))
  {
    TopOperand(s, under, mid, c);
    assert c.mem.bytes + Zeros(0) == c.mem.bytes;
  }

  lemma SelectSim(p: Program, m: S.Module, at: nat, op: Op, c: Conf, s: State, under: seq<Value>, mid: seq<Value>)
    requires At(s, under, mid, c) && op.Select? && !S.EvalBasic(m, op, c).Stuck?
    ensures Matches(s, under, mid, S.EvalBasic(m, op, c), Exec(p, at, op, s))
  {
    hide At;
    TopThree(s, under, mid, c);
    var args, n := S.Last(c.ops, 3), |s.stack|;
    TopOperand(s, under, mid, c);
    SetOperands(s, under, mid, c, 3, [if Top(s).bits == 0 then s.stack[n - 2] else s.stack[n - 3]]);
  }

  lemma TopThree(s: State, under: seq<Value>, mid: seq<Value>, c: Conf)
    requires At(s, under, mid, c) && |c.ops| >= 3
    ensures |s.stack| >= 3 && s.stack[|s.stack| - 3..] == S.Last(c.ops, 3)
    ensures var n := |s.stack|; S.Last(c.ops, 3) == [s.stack[n - 3], s.stack[n - 2], s.stack[n - 1]]
  {
    SplitTop(s, under, mid, c, 3);
  }

  /** Replacing the n topmost operands. */
  lemma SetOperands(s: State, under: seq<Value>, mid: seq<Value>, c: Conf, n: nat, vs: seq<Value>)
    requires At(s, under, mid, c) && n <= |c.ops|
    ensures n <= |s.stack|
    ensures At(s.(stack := s.stack[..|s.stack| - n] + vs), under, mid, c.(ops := S.ButLast(c.ops, n) + vs))
  {
    SplitTop(s, under, mid, c, n);
    var kept := S.ButLast(c.ops, n);
    assert under + c.locals + mid + kept + vs == under + c.locals + mid + (kept + vs);
  }

  lemma NumSim(p: Program, m: S.Module, at: nat, op: Op, c: Conf, s: State, under: seq<Value>, mid: seq<Value>)
    requires At(s, under, mid, c) && op.Num? && !S.EvalBasic(m, op, c).Stuck? && p.alu == m.alu
    ensures Matches(s, under, mid, S.EvalBasic(m, op, c), Exec(p, at, op, s))
  {
    hide NumSig, NumArgs, SwitchNum, StandardNum, FarShift, EarlyTrap;
    var n := NumSig(op.code).arity;
    SplitTop(s, under, mid, c, n);
    NumExact(p.alu, op.code, S.Last(c.ops, n));
  }

  /** Each instruction without control: the machine step is the evaluator's, in place. */
  lemma BasicSim(p: Program, m: S.Module, at: nat, op: Op, c: Conf, s: State, under: seq<Value>, mid: seq<Value>)
    requires At(s, under, mid, c) && S.IsBasic(op) && !S.EvalBasic(m, op, c).Stuck?
    requires MemoryOk(c.mem) && p.alu == m.alu
    ensures Matches(s, under, mid, S.EvalBasic(m, op, c), Exec(p, at, op, s))
  {
    match op
    case Nop =>
    case Drop => TopOperand(s, under, mid, c);
    case Select => SelectSim(p, m, at, op, c, s, under, mid);
    case GetLocal(_) => GetLocalSim(p, m, at, op, c, s, under, mid);
    case SetLocal(_) => SetLocalSim(p, m, at, op, c, s, under, mid);
    case TeeLocal(_) => SetLocalSim(p, m, at, op, c, s, under, mid);
    case GetGlobal(i) => PushOperand(s, under, mid, c, c.globals[i]);
    case SetGlobal(_) => TopOperand(s, under, mid, c);
    case Load(_, _) => LoadSim(p, m, at, op, c, s, under, mid);
    case Store(_, _) => StoreSim(p, m, at, op, c, s, under, mid);
    case CurrentMemory => PushOperand(s, under, mid, c, MkValue(I32, c.mem.pages));
    case GrowMemory => GrowSim(p, m, at, op, c, s, under, mid);
    case Const(v) => PushOperand(s, under, mid, c, v);
    case Num(_) => NumSim(p, m, at, op, c, s, under, mid);
  }
}
