/**
 The typing rules of section 3.3 of WebAssembly Core 1.0, instruction by instruction, and what the
 checks of Validation make of them: they accept nothing else, and everything but branches that carry
 a surplus to an `if`.
 */
module Rules {
  import opened Leb
  import opened Wasm
  import opened Structure
  import opened Validation
  import opened Instructions
  import S = Structured

  /** An instruction takes operands of the types ins and leaves operands of the types outs. */
  datatype Rule = Rule(ins: seq<ValType>, outs: seq<ValType>)

  /** Types a branch to a label and its end provide. */
  datatype Target = Target(brs: seq<ValType>, ends: seq<ValType>)

  function Targets(labels: seq<Label>): (ls: seq<Target>)
    ensures |ls| == |labels| && forall i :: 0 <= i < |ls| ==> ls[i] == Target(labels[i].brs, labels[i].ends)
  {
    seq(|labels|, i requires 0 <= i < |labels| => Target(labels[i].brs, labels[i].ends))
  }

  /** Section 3.3.4: the type of what a load yields and a store takes. */
  function MemoryType(code: byte): ValType {
    if code in {0x28, 0x2c, 0x2d, 0x2e, 0x2f, 0x36, 0x3a, 0x3b} then I32
    else if code in {0x2a, 0x38} then F32
    else if code in {0x2b, 0x39} then F64
    else I64
  }

  /** Sections 3.3.1 to 3.3.5 for instructions behind which execution goes on; t is the type drop and
      select are used at. */
  function RuleOf(m: S.Module, env: Env, ls: seq<Target>, op: Op, t: ValType): Option<Rule> {
    match op
    case Nop => Some(Rule([], []))
    case Const(v) => Some(Rule([], [v.ty]))
    case Num(code) =>
      if 0x45 <= code <= 0xbf then
        Some(Rule(NumericType(NameOf(code)).params, NumericType(NameOf(code)).results)) else None
    case Drop => Some(Rule([t], []))
    case Select => Some(Rule([t, t, I32], [t]))
    case GetLocal(i) => if i < |env.locals| then Some(Rule([], [env.locals[i]])) else None
    case SetLocal(i) => if i < |env.locals| then Some(Rule([env.locals[i]], [])) else None
    case TeeLocal(i) => if i < |env.locals| then Some(Rule([env.locals[i]], [env.locals[i]])) else None
    case GetGlobal(i) => if i < |env.globals| then Some(Rule([], [env.globals[i]])) else None
    case SetGlobal(i) => if i < |env.globals| then Some(Rule([env.globals[i]], [])) else None
    case Load(code, _) => if 0x28 <= code <= 0x35 then Some(Rule([I32], [MemoryType(code)])) else None
    case Store(code, _) => if 0x36 <= code <= 0x3e then Some(Rule([I32, MemoryType(code)], [])) else None
    case CurrentMemory => Some(Rule([], [I32]))
    case GrowMemory => Some(Rule([I32], [I32]))
    case BrIf(d) => if d < |ls| then Some(Rule(ls[d].brs + [I32], ls[d].brs)) else None
    case Call(f) => if m.IsFunc(f) then Some(Rule(m.TypeOf(f).params, m.TypeOf(f).results)) else None
    case CallIndirect(i) => if i < |m.types| then Some(Rule(m.types[i].params + [I32], m.types[i].results)) else None
    case _ => None
  }

  /** The topmost operands are of the types a label asks for. */
  predicate Provides(ts: seq<ValType>, brs: seq<ValType>) {
    |brs| <= |ts| && forall i :: 0 <= i < |brs| ==> ts[|ts| - |brs| + i] == brs[i]
  }

  /** Instructions behind which execution does not go on. Bytes without meaning count as traps. */
  predicate Leaves(ls: seq<Target>, op: Op, ts: seq<ValType>)
    requires ls != []
  {
    match op
    case Trap => true
    case Unknown(_) => true
    case Br(d) => d < |ls| && Provides(ts, ls[d].brs)
    case BrTable(ds, d) =>
      |ts| > 0 && ts[|ts| - 1] == I32 && d < |ls| && Provides(ts[..|ts| - 1], ls[d].brs)
      && forall i :: 0 <= i < |ds| ==> ds[i] < |ls| && Provides(ts[..|ts| - 1], ls[ds[i]].brs)
    case Return => Provides(ts, ls[|ls| - 1].ends)
    case _ => false
  }

  /** Section 3.3.6: a sequence with operand types ts before it, under the given labels. */
  ghost predicate WellTyped(m: S.Module, env: Env, ls: seq<Target>, ts: seq<ValType>, code: Code)
    requires ls != []
    decreases code
  {
    match code
    case Done(_) => ts == ls[0].ends
    case Simple(_, op, rest) =>
      Leaves(ls, op, ts)
      || exists t, base: seq<ValType>, r ::
           RuleOf(m, env, ls, op, t) == Some(r) && ts == base + r.ins && WellTyped(m, env, ls, base + r.outs, rest)
    case Block(_, kind, ty, body, rest) =>
      if kind == 2 then WellTyped(m, env, [Target(ty, ty)] + ls, [], body) && WellTyped(m, env, ls, ts + ty, rest)
      else if kind == 3 then WellTyped(m, env, [Target([], ty)] + ls, [], body) && WellTyped(m, env, ls, ts + ty, rest)
      else
        kind == 4 && ty == [] && |ts| > 0 && ts[|ts| - 1] == I32
        && WellTyped(m, env, [Target([], [])] + ls, [], body) && WellTyped(m, env, ls, ts[..|ts| - 1], rest)
    case IfElse(_, ty, thn, els, rest) =>
      |ts| > 0 && ts[|ts| - 1] == I32
      && WellTyped(m, env, [Target(ty, ty)] + ls, [], thn) && WellTyped(m, env, [Target(ty, ty)] + ls, [], els)
      && WellTyped(m, env, ls, ts[..|ts| - 1] + ty, rest)
  }

  // ---------- one instruction ----------

  lemma ProvidesEnds(ts: seq<ValType>, brs: seq<ValType>)
    ensures Provides(ts, brs) <==> EndsIn(ts, brs)
  {
    if EndsIn(ts, brs) {
      forall i | 0 <= i < |brs| ensures ts[|ts| - |brs| + i] == brs[i] { assert ts[|ts| - |brs|..][i] == brs[i]; }
    }
  }

  lemma JoinEnds(base: seq<ValType>, ins: seq<ValType>)
    ensures EndsIn(base + ins, ins) && Front(base + ins, |ins|) == base
  {}

  lemma EndsJoin(ts: seq<ValType>, ins: seq<ValType>)
    requires EndsIn(ts, ins)
    ensures ts == Front(ts, |ins|) + ins
  {}

  lemma EndsShort(ts: seq<ValType>, ins: seq<ValType>)
    requires EndsIn(ts, ins)
    ensures |ins| <= |ts|
  {}

  lemma MemoryTyped(code: byte)
    requires 0x28 <= code <= 0x3e
    ensures Access(code).ty == MemoryType(code)
  {}

  lemma NumericRule(code: byte, ts: seq<ValType>)
    requires 0x45 <= code <= 0xbf
    ensures var n := NumericType(NameOf(code));
            n.params == seq(NumSig(code).arity, _ => NumSig(code).arg) && n.results == [NumSig(code).res]
  {
    hide NumericType, NumSig, Opcode, NameOf;
    OpcodesCover(code);
    NumericTyped(NameOf(code));
  }

  /** Every rule is accepted, on top of any operands. */
  lemma OpAccepted(m: S.Module, env: Env, labels: seq<Label>, op: Op, t: ValType, base: seq<ValType>)
    requires labels != [] && RuleOf(m, env, Targets(labels), op, t).Some?
    requires op.BrIf? ==> !labels[op.depth].strict
    ensures var r := RuleOf(m, env, Targets(labels), op, t).value;
            CheckOp(m, env, labels, base + r.ins, op) && !Stops(op)
            && After(m, env, base + r.ins, op) == base + r.outs
  {
    hide BasicType, RuleOf;
    RuleKinds(m, env, Targets(labels), op, t);
    if S.IsBasic(op) {
      BasicAccepted(m, env, Targets(labels), op, t, base);
    } else {
      ControlAccepted(m, env, labels, op, t, base);
    }
  }

  lemma RuleKinds(m: S.Module, env: Env, ls: seq<Target>, op: Op, t: ValType)
    ensures RuleOf(m, env, ls, op, t).Some? && !S.IsBasic(op) ==> op.BrIf? || op.Call? || op.CallIndirect?
  {}

  lemma ControlAccepted(m: S.Module, env: Env, labels: seq<Label>, op: Op, t: ValType, base: seq<ValType>)
    requires labels != [] && RuleOf(m, env, Targets(labels), op, t).Some?
    requires (op.BrIf? && !labels[op.depth].strict) || op.Call? || op.CallIndirect?
    ensures var r := RuleOf(m, env, Targets(labels), op, t).value;
            CheckOp(m, env, labels, base + r.ins, op) && !Stops(op)
            && After(m, env, base + r.ins, op) == base + r.outs
  {
    hide EndsIn, Front;
    match op
    case BrIf(d) => BrIfAccepted(labels, d, base);
    case Call(f) => JoinEnds(base, m.TypeOf(f).params);
    case CallIndirect(i) => CallAccepted(m, i, base);
  }

  lemma BasicAccepted(m: S.Module, env: Env, ls: seq<Target>, op: Op, t: ValType, base: seq<ValType>)
    requires S.IsBasic(op) && RuleOf(m, env, ls, op, t).Some?
    ensures var r := RuleOf(m, env, ls, op, t).value; BasicType(op, env, base + r.ins) == Some(base + r.outs)
  {
    hide BasicType, RuleOf;
    if op.Load? || op.Store? || op.CurrentMemory? || op.GrowMemory? { MemoryAccepted(m, env, ls, op, t, base); }
    else if op.Num? { NumAccepted(m, env, ls, op.code, t, base); }
    else { PlainAccepted(m, env, ls, op, t, base); }
  }

  lemma MemoryAccepted(m: S.Module, env: Env, ls: seq<Target>, op: Op, t: ValType, base: seq<ValType>)
    requires (op.Load? || op.Store? || op.CurrentMemory? || op.GrowMemory?) && RuleOf(m, env, ls, op, t).Some?
    ensures var r := RuleOf(m, env, ls, op, t).value; BasicType(op, env, base + r.ins) == Some(base + r.outs)
  {
    hide Access, MemoryType, EndsIn, Front;
    var r := RuleOf(m, env, ls, op, t).value;
    JoinEnds(base, r.ins);
    assert base + [] == base;
    if op.Load? || op.Store? { MemoryTyped(op.code); }
  }

  lemma NumAccepted(m: S.Module, env: Env, ls: seq<Target>, code: byte, t: ValType, base: seq<ValType>)
    requires RuleOf(m, env, ls, Num(code), t).Some?
    ensures var r := RuleOf(m, env, ls, Num(code), t).value;
            BasicType(Num(code), env, base + r.ins) == Some(base + r.outs)
  {
    hide NumSig, NumericType, NameOf, EndsIn, Front;
    var r := RuleOf(m, env, ls, Num(code), t).value;
    JoinEnds(base, r.ins);
    NumericRule(code, base + r.ins);
  }

  lemma PlainAccepted(m: S.Module, env: Env, ls: seq<Target>, op: Op, t: ValType, base: seq<ValType>)
    requires S.IsBasic(op) && !op.Load? && !op.Store? && !op.CurrentMemory? && !op.GrowMemory? && !op.Num?
    requires RuleOf(m, env, ls, op, t).Some?
    ensures var r := RuleOf(m, env, ls, op, t).value; BasicType(op, env, base + r.ins) == Some(base + r.outs)
  {
    hide RuleOf, BasicType;
    if op.Drop? || op.Select? { PopAccepted(m, env, ls, op, t, base); }
    else if op.SetLocal? || op.SetGlobal? || op.TeeLocal? { SetAccepted(m, env, ls, op, t, base); }
    else { PushAccepted(m, env, ls, op, t, base); }
  }

  lemma PopAccepted(m: S.Module, env: Env, ls: seq<Target>, op: Op, t: ValType, base: seq<ValType>)
    requires op.Drop? || op.Select?
    requires RuleOf(m, env, ls, op, t).Some?
    ensures var r := RuleOf(m, env, ls, op, t).value; BasicType(op, env, base + r.ins) == Some(base + r.outs)
  {
    JoinEnds(base, [t]);
    assert base + [] == base;
    SelectAccepted(base, t);
  }

  lemma SetAccepted(m: S.Module, env: Env, ls: seq<Target>, op: Op, t: ValType, base: seq<ValType>)
    requires op.SetLocal? || op.SetGlobal? || op.TeeLocal?
    requires RuleOf(m, env, ls, op, t).Some?
    ensures var r := RuleOf(m, env, ls, op, t).value; BasicType(op, env, base + r.ins) == Some(base + r.outs)
  {
    hide EndsIn, Front;
    JoinEnds(base, [if op.SetGlobal? then env.globals[op.i] else env.locals[op.i]]);
    assert base + [] == base;
  }

  lemma PushAccepted(m: S.Module, env: Env, ls: seq<Target>, op: Op, t: ValType, base: seq<ValType>)
    requires op.Nop? || op.Const? || op.GetLocal? || op.GetGlobal?
    requires RuleOf(m, env, ls, op, t).Some?
    ensures var r := RuleOf(m, env, ls, op, t).value; BasicType(op, env, base + r.ins) == Some(base + r.outs)
  {
    assert base + [] == base;
  }

  lemma BrIfAccepted(labels: seq<Label>, d: u32, base: seq<ValType>)
    requires d < |labels| && !labels[d].strict
    ensures var ts := base + (labels[d].brs + [I32]);
            EndsIn(ts, [I32]) && Front(ts, 1) == base + labels[d].brs && CheckBr(labels, Front(ts, 1), d)
  {
    hide EndsIn, Front;
    var ts := base + (labels[d].brs + [I32]);
    assert ts == base + labels[d].brs + [I32];
    JoinEnds(base + labels[d].brs, [I32]);
    JoinEnds(base, labels[d].brs);
  }

  lemma CallAccepted(m: S.Module, i: nat, base: seq<ValType>)
    requires i < |m.types|
    ensures var ps := m.types[i].params;
            var ts := base + (ps + [I32]);
            EndsIn(ts, [I32]) && CallType(m.types[i], Front(ts, 1)) && Front(Front(ts, 1), |ps|) == base
  {
    hide EndsIn, Front;
    var ps := m.types[i].params;
    assert base + (ps + [I32]) == base + ps + [I32];
    JoinEnds(base + ps, [I32]);
    JoinEnds(base, ps);
  }

  lemma SelectAccepted(base: seq<ValType>, t: ValType)
    ensures var ts := base + [t, t, I32];
            |ts| >= 3 && ts[|ts| - 1] == I32 && ts[|ts| - 2] == ts[|ts| - 3] == t && Front(ts, 2) == base + [t]
  {}

  /** Nothing else is. */
  lemma OpRuled(m: S.Module, env: Env, labels: seq<Label>, ts: seq<ValType>, op: Op)
    returns (t: ValType, base: seq<ValType>)
    requires labels != [] && CheckOp(m, env, labels, ts, op) && !Stops(op)
    ensures RuleOf(m, env, Targets(labels), op, t).Some?
    ensures var r := RuleOf(m, env, Targets(labels), op, t).value;
            ts == base + r.ins && After(m, env, ts, op) == base + r.outs
  {
    hide BasicType, RuleOf;
    if S.IsBasic(op) { t, base := BasicRuled(m, env, Targets(labels), ts, op); }
    else { t, base := ControlRuled(m, env, labels, ts, op); }
  }

  lemma ControlRuled(m: S.Module, env: Env, labels: seq<Label>, ts: seq<ValType>, op: Op)
    returns (t: ValType, base: seq<ValType>)
    requires labels != [] && CheckOp(m, env, labels, ts, op) && (op.BrIf? || op.Call? || op.CallIndirect?)
    ensures RuleOf(m, env, Targets(labels), op, t).Some?
    ensures var r := RuleOf(m, env, Targets(labels), op, t).value;
            ts == base + r.ins && After(m, env, ts, op) == base + r.outs
  {
    hide EndsIn, Front;
    t := I32;
    match op
    case BrIf(d) => base := BrIfRuled(labels, d, ts);
    case Call(f) => EndsJoin(ts, m.TypeOf(f).params); base := Front(ts, |m.TypeOf(f).params|);
    case CallIndirect(i) => base := CallRuled(m, i, ts);
  }

  lemma BasicRuled(m: S.Module, env: Env, ls: seq<Target>, ts: seq<ValType>, op: Op)
    returns (t: ValType, base: seq<ValType>)
    requires S.IsBasic(op) && BasicType(op, env, ts).Some?
    ensures RuleOf(m, env, ls, op, t).Some?
    ensures var r := RuleOf(m, env, ls, op, t).value;
            ts == base + r.ins && BasicType(op, env, ts) == Some(base + r.outs)
  {
    hide BasicType, RuleOf;
    if op.Load? || op.Store? || op.CurrentMemory? || op.GrowMemory? { t, base := MemoryRuled(m, env, ls, ts, op); }
    else if op.Num? { t, base := NumRuled(m, env, ls, ts, op.code); }
    else { t, base := PlainRuled(m, env, ls, ts, op); }
  }

  lemma MemoryRuled(m: S.Module, env: Env, ls: seq<Target>, ts: seq<ValType>, op: Op)
    returns (t: ValType, base: seq<ValType>)
    requires (op.Load? || op.Store? || op.CurrentMemory? || op.GrowMemory?) && BasicType(op, env, ts).Some?
    ensures RuleOf(m, env, ls, op, t).Some?
    ensures var r := RuleOf(m, env, ls, op, t).value;
            ts == base + r.ins && BasicType(op, env, ts) == Some(base + r.outs)
  {
    hide RuleOf, BasicType;
    t := I32;
    if op.Load? { base := LoadRuled(m, env, ls, ts, op); }
    else if op.Store? { base := StoreRuled(m, env, ls, ts, op); }
    else { base := SizeRuled(m, env, ls, ts, op); }
  }

  lemma LoadRuled(m: S.Module, env: Env, ls: seq<Target>, ts: seq<ValType>, op: Op) returns (base: seq<ValType>)
    requires op.Load? && BasicType(op, env, ts).Some?
    ensures RuleOf(m, env, ls, op, I32).Some?
    ensures var r := RuleOf(m, env, ls, op, I32).value;
            ts == base + r.ins && BasicType(op, env, ts) == Some(base + r.outs)
  {
    hide Access, MemoryType, EndsIn, Front;
    MemoryTyped(op.code);
    EndsJoin(ts, [I32]);
    base := Front(ts, 1);
  }

  lemma StoreRuled(m: S.Module, env: Env, ls: seq<Target>, ts: seq<ValType>, op: Op) returns (base: seq<ValType>)
    requires op.Store? && BasicType(op, env, ts).Some?
    ensures RuleOf(m, env, ls, op, I32).Some?
    ensures var r := RuleOf(m, env, ls, op, I32).value;
            ts == base + r.ins && BasicType(op, env, ts) == Some(base + r.outs)
  {
    hide Access, MemoryType, EndsIn, Front;
    MemoryTyped(op.code);
    EndsJoin(ts, [I32, MemoryType(op.code)]);
    base := Front(ts, 2);
    assert base + [] == base;
  }

  lemma SizeRuled(m: S.Module, env: Env, ls: seq<Target>, ts: seq<ValType>, op: Op) returns (base: seq<ValType>)
    requires (op.CurrentMemory? || op.GrowMemory?) && BasicType(op, env, ts).Some?
    ensures RuleOf(m, env, ls, op, I32).Some?
    ensures var r := RuleOf(m, env, ls, op, I32).value;
            ts == base + r.ins && BasicType(op, env, ts) == Some(base + r.outs)
  {
    hide EndsIn, Front;
    base := ts;
    if op.CurrentMemory? {
      assert ts == ts + [];
    } else {
      EndsShort(ts, [I32]);
      EndsJoin(ts, [I32]);
      base := Front(ts, 1);
    }
  }

  lemma NumRuled(m: S.Module, env: Env, ls: seq<Target>, ts: seq<ValType>, code: byte)
    returns (t: ValType, base: seq<ValType>)
    requires BasicType(Num(code), env, ts).Some?
    ensures RuleOf(m, env, ls, Num(code), t).Some?
    ensures var r := RuleOf(m, env, ls, Num(code), t).value;
            ts == base + r.ins && BasicType(Num(code), env, ts) == Some(base + r.outs)
  {
    hide NumSig, NumericType, NameOf;
    t := I32;
    NumericRule(code, ts);
    NumericOps(code, ts);
    base := Front(ts, NumSig(code).arity);
  }

  lemma PlainRuled(m: S.Module, env: Env, ls: seq<Target>, ts: seq<ValType>, op: Op)
    returns (t: ValType, base: seq<ValType>)
    requires S.IsBasic(op) && !op.Load? && !op.Store? && !op.CurrentMemory? && !op.GrowMemory? && !op.Num?
    requires BasicType(op, env, ts).Some?
    ensures RuleOf(m, env, ls, op, t).Some?
    ensures var r := RuleOf(m, env, ls, op, t).value;
            ts == base + r.ins && BasicType(op, env, ts) == Some(base + r.outs)
  {
    hide RuleOf, BasicType;
    if op.Drop? || op.Select? { t, base := PopRuled(m, env, ls, ts, op); }
    else if op.SetLocal? || op.SetGlobal? || op.TeeLocal? { t := I32; base := SetRuled(m, env, ls, ts, op); }
    else { t, base := I32, ts; PushRuled(m, env, ls, ts, op); }
  }

  lemma PopRuled(m: S.Module, env: Env, ls: seq<Target>, ts: seq<ValType>, op: Op)
    returns (t: ValType, base: seq<ValType>)
    requires (op.Drop? || op.Select?) && BasicType(op, env, ts).Some?
    ensures RuleOf(m, env, ls, op, t).Some?
    ensures var r := RuleOf(m, env, ls, op, t).value;
            ts == base + r.ins && BasicType(op, env, ts) == Some(base + r.outs)
  {
    var n := |ts|;
    if op.Drop? {
      t, base := ts[n - 1], Front(ts, 1);
      assert base + [] == base && ts == base + [t];
    } else {
      t, base := ts[n - 2], Front(ts, 3);
      assert ts == base + [t, t, I32] && Front(ts, 2) == base + [t];
    }
  }

  lemma SetRuled(m: S.Module, env: Env, ls: seq<Target>, ts: seq<ValType>, op: Op) returns (base: seq<ValType>)
    requires (op.SetLocal? || op.SetGlobal? || op.TeeLocal?) && BasicType(op, env, ts).Some?
    ensures RuleOf(m, env, ls, op, I32).Some?
    ensures var r := RuleOf(m, env, ls, op, I32).value;
            ts == base + r.ins && BasicType(op, env, ts) == Some(base + r.outs)
  {
    hide EndsIn, Front;
    EndsJoin(ts, [if op.SetGlobal? then env.globals[op.i] else env.locals[op.i]]);
    base := Front(ts, 1);
    assert base + [] == base;
  }

  lemma PushRuled(m: S.Module, env: Env, ls: seq<Target>, ts: seq<ValType>, op: Op)
    requires (op.Nop? || op.Const? || op.GetLocal? || op.GetGlobal?) && BasicType(op, env, ts).Some?
    ensures RuleOf(m, env, ls, op, I32).Some?
    ensures var r := RuleOf(m, env, ls, op, I32).value; ts == ts + r.ins && BasicType(op, env, ts) == Some(ts + r.outs)
  {
    assert ts + [] == ts;
  }

  lemma NumericOps(code: byte, ts: seq<ValType>)
    requires 0x45 <= code <= 0xbf && NumSig(code).arity <= |ts|
    requires forall i :: |ts| - NumSig(code).arity <= i < |ts| ==> ts[i] == NumSig(code).arg
    ensures ts == Front(ts, NumSig(code).arity) + seq(NumSig(code).arity, _ => NumSig(code).arg)
  {
    hide NumSig;
  }

  lemma BrIfRuled(labels: seq<Label>, d: u32, ts: seq<ValType>) returns (base: seq<ValType>)
    requires EndsIn(ts, [I32]) && CheckBr(labels, Front(ts, 1), d)
    ensures ts == base + (labels[d].brs + [I32]) && Front(ts, 1) == base + labels[d].brs
  {
    hide EndsIn, Front;
    EndsJoin(ts, [I32]);
    EndsJoin(Front(ts, 1), labels[d].brs);
    base := Front(Front(ts, 1), |labels[d].brs|);
    assert base + labels[d].brs + [I32] == base + (labels[d].brs + [I32]);
  }

  lemma CallRuled(m: S.Module, i: nat, ts: seq<ValType>) returns (base: seq<ValType>)
    requires i < |m.types| && EndsIn(ts, [I32]) && CallType(m.types[i], Front(ts, 1))
    ensures var ps := m.types[i].params; ts == base + (ps + [I32]) && Front(Front(ts, 1), |ps|) == base
  {
    hide EndsIn, Front;
    var ps := m.types[i].params;
    EndsJoin(ts, [I32]);
    EndsJoin(Front(ts, 1), ps);
    base := Front(Front(ts, 1), |ps|);
    assert base + ps + [I32] == base + (ps + [I32]);
  }

  // ---------- instructions that leave ----------

  /** br, br_table and return are accepted exactly where the rules allow them, unless the label is strict. */
  lemma LeavingRuled(m: S.Module, env: Env, labels: seq<Label>, ts: seq<ValType>, op: Op)
    requires labels != []
    ensures Stops(op) && CheckOp(m, env, labels, ts, op) ==> Leaves(Targets(labels), op, ts)
    ensures Leaves(Targets(labels), op, ts) && Unrestricted(labels, op) ==> Stops(op) && CheckOp(m, env, labels, ts, op)
  {
    hide CheckBr, Provides, EndsIn, BasicType, Targets;
    match op
    case Br(d) => BrRuled(labels, ts, d);
    case BrTable(ds, d) => TableRuled(m, env, labels, ts, op);
    case Return => ProvidesEnds(ts, labels[|labels| - 1].ends);
    case _ =>
  }

  lemma BrRuled(labels: seq<Label>, ts: seq<ValType>, d: nat)
    ensures CheckBr(labels, ts, d) ==> d < |labels| && Provides(ts, labels[d].brs)
    ensures d < |labels| && Provides(ts, labels[d].brs) && !labels[d].strict ==> CheckBr(labels, ts, d)
  {
    if d < |labels| { ProvidesEnds(ts, labels[d].brs); }
  }

  lemma TableRuled(m: S.Module, env: Env, labels: seq<Label>, ts: seq<ValType>, op: Op)
    requires labels != [] && op.BrTable?
    ensures CheckOp(m, env, labels, ts, op) ==> Leaves(Targets(labels), op, ts)
    ensures Leaves(Targets(labels), op, ts) && Unrestricted(labels, op) ==> CheckOp(m, env, labels, ts, op)
  {
    if |ts| > 0 && ts[|ts| - 1] == I32 {
      var front := Front(ts, 1);
      assert ts[|ts| - 1..] == [I32];
      if op.default < |labels| { ProvidesEnds(front, labels[op.default].brs); }
      forall i | 0 <= i < |op.targets| && op.targets[i] < |labels|
        ensures Provides(front, labels[op.targets[i]].brs) <==> EndsIn(front, labels[op.targets[i]].brs)
      {
        ProvidesEnds(front, labels[op.targets[i]].brs);
      }
    }
  }

  /** A branch that goes to no strict label, by a table of at most 2^31 targets. */
  predicate Unrestricted(labels: seq<Label>, op: Op) {
    match op
    case Br(d) => d < |labels| ==> !labels[d].strict
    case BrIf(d) => d < |labels| ==> !labels[d].strict
    case BrTable(ds, d) =>
      |ds| <= 0x8000_0000 && (d < |labels| ==> !labels[d].strict)
      && forall i :: 0 <= i < |ds| && ds[i] < |labels| ==> !labels[ds[i]].strict
    case _ => true
  }

  // ---------- sequences ----------

  lemma MoreTargets(l: Label, labels: seq<Label>)
    ensures Targets([l] + labels) == [Target(l.brs, l.ends)] + Targets(labels)
  {}

  /** Accepted code is well typed. */
  lemma {:induction false} CheckRuled(m: S.Module, env: Env, labels: seq<Label>, ts: seq<ValType>, code: Code)
    requires labels != [] && Check(m, env, labels, ts, code)
    ensures WellTyped(m, env, Targets(labels), ts, code)
    decreases code
  {
    hide CheckOp, After, RuleOf, Leaves;
    match code
    case Done(_) =>
    case Simple(_, op, rest) =>
      LeavingRuled(m, env, labels, ts, op);
      if !Stops(op) {
        var t, base := OpRuled(m, env, labels, ts, op);
        var r := RuleOf(m, env, Targets(labels), op, t).value;
        CheckRuled(m, env, labels, base + r.outs, rest);
      }
    case Block(_, kind, ty, body, rest) => BlockRuled(m, env, labels, ts, code);
    case IfElse(_, ty, thn, els, rest) =>
      var l := Label(4, ty, ty, Front(ts, 1) == [], true);
      CheckRuled(m, env, [l] + labels, [], thn);
      CheckRuled(m, env, [l] + labels, [], els);
      CheckRuled(m, env, labels, Front(ts, 1) + ty, rest);
      MoreTargets(l, labels);
      EndsJoin(ts, [I32]);
  }

  lemma {:induction false} BlockRuled(m: S.Module, env: Env, labels: seq<Label>, ts: seq<ValType>, code: Code)
    requires labels != [] && Check(m, env, labels, ts, code) && code.Block?
    ensures WellTyped(m, env, Targets(labels), ts, code)
    decreases code, 0
  {
    var ty, body, rest := code.ty, code.body, code.rest;
    if code.kind == 4 {
      var l := Label(4, [], [], Front(ts, 1) == [], true);
      CheckRuled(m, env, [l] + labels, [], body);
      CheckRuled(m, env, labels, Front(ts, 1), rest);
      MoreTargets(l, labels);
      EndsJoin(ts, [I32]);
    } else {
      var l := PickLabel(m, env, code, labels, ts);
      CheckRuled(m, env, [l] + labels, [], body);
      CheckRuled(m, env, labels, ts + ty, rest);
      MoreTargets(l, labels);
    }
  }

  /** No branch goes to an `if`, and no br_table has more than 2^31 targets; ifs says which of the labels
      around the code are ifs. */
  predicate AvoidsIfs(ifs: seq<bool>, code: Code)
    decreases code
  {
    match code
    case Done(_) => true
    case Simple(_, op, rest) => Avoids(ifs, op) && AvoidsIfs(ifs, rest)
    case Block(_, kind, _, body, rest) => AvoidsIfs([kind == 4] + ifs, body) && AvoidsIfs(ifs, rest)
    case IfElse(_, _, thn, els, rest) =>
      AvoidsIfs([true] + ifs, thn) && AvoidsIfs([true] + ifs, els) && AvoidsIfs(ifs, rest)
  }

  predicate Avoids(ifs: seq<bool>, op: Op) {
    match op
    case Br(d) => d < |ifs| ==> !ifs[d]
    case BrIf(d) => d < |ifs| ==> !ifs[d]
    case BrTable(ds, d) =>
      |ds| <= 0x8000_0000 && (d < |ifs| ==> !ifs[d]) && forall i :: 0 <= i < |ds| && ds[i] < |ifs| ==> !ifs[ds[i]]
    case _ => true
  }

  predicate Marks(ifs: seq<bool>, labels: seq<Label>) {
    |ifs| == |labels| && forall i :: 0 <= i < |ifs| ==> (labels[i].strict ==> ifs[i])
  }

  lemma AvoidsUnrestricted(ifs: seq<bool>, labels: seq<Label>, op: Op)
    requires Marks(ifs, labels) && Avoids(ifs, op)
    ensures Unrestricted(labels, op)
  {}

  lemma MoreMarks(ifs: seq<bool>, labels: seq<Label>, b: bool, l: Label)
    requires Marks(ifs, labels) && (l.strict ==> b)
    ensures Marks([b] + ifs, [l] + labels)
  {}

  /** Well-typed code whose branches avoid ifs is accepted. */
  lemma {:induction false} RulesChecked(m: S.Module, env: Env, ifs: seq<bool>, labels: seq<Label>, ts: seq<ValType>,
                                        code: Code)
    requires labels != [] && Marks(ifs, labels) && AvoidsIfs(ifs, code)
    requires WellTyped(m, env, Targets(labels), ts, code)
    ensures Check(m, env, labels, ts, code)
    decreases code
  {
    hide CheckOp, After, RuleOf, Leaves, Marks, Avoids, Unrestricted;
    match code
    case Done(_) =>
    case Simple(_, op, rest) =>
      AvoidsUnrestricted(ifs, labels, op);
      LeavingRuled(m, env, labels, ts, op);
      if !Leaves(Targets(labels), op, ts) {
        var t, base: seq<ValType>, r :|
          RuleOf(m, env, Targets(labels), op, t) == Some(r) && ts == base + r.ins
          && WellTyped(m, env, Targets(labels), base + r.outs, rest);
        NotStrict(m, env, labels, op, t);
        OpAccepted(m, env, labels, op, t, base);
        RulesChecked(m, env, ifs, labels, base + r.outs, rest);
      }
    case Block(_, _, _, _, _) => BlockChecked(m, env, ifs, labels, ts, code);
    case IfElse(_, ty, thn, els, rest) =>
      var l := Label(4, ty, ty, Front(ts, 1) == [], true);
      MoreMarks(ifs, labels, true, l);
      MoreTargets(l, labels);
      RulesChecked(m, env, [true] + ifs, [l] + labels, [], thn);
      RulesChecked(m, env, [true] + ifs, [l] + labels, [], els);
      RulesChecked(m, env, ifs, labels, Front(ts, 1) + ty, rest);
  }

  lemma NotStrict(m: S.Module, env: Env, labels: seq<Label>, op: Op, t: ValType)
    requires Unrestricted(labels, op) && RuleOf(m, env, Targets(labels), op, t).Some?
    ensures op.BrIf? ==> op.depth < |labels| && !labels[op.depth].strict
  {}

  lemma {:induction false} BlockChecked(m: S.Module, env: Env, ifs: seq<bool>, labels: seq<Label>, ts: seq<ValType>,
                                        code: Code)
    requires labels != [] && Marks(ifs, labels) && AvoidsIfs(ifs, code) && code.Block?
    requires WellTyped(m, env, Targets(labels), ts, code)
    ensures Check(m, env, labels, ts, code)
    decreases code, 0
  {
    hide Marks;
    var kind, ty, body, rest := code.kind, code.ty, code.body, code.rest;
    if kind == 4 {
      var l := Label(4, [], [], Front(ts, 1) == [], true);
      MoreMarks(ifs, labels, true, l);
      MoreTargets(l, labels);
      RulesChecked(m, env, [true] + ifs, [l] + labels, [], body);
      RulesChecked(m, env, ifs, labels, Front(ts, 1), rest);
    } else {
      var l := Label(kind, if kind == 3 then [] else ty, ty, ts == [], false);
      MoreMarks(ifs, labels, false, l);
      MoreTargets(l, labels);
      RulesChecked(m, env, [false] + ifs, [l] + labels, [], body);
      RulesChecked(m, env, ifs, labels, ts + ty, rest);
    }
  }

  /** Functions: accepted ones are well typed, and well-typed ones whose branches avoid ifs are accepted. */
  lemma FunctionRules(m: S.Module, globals: seq<ValType>, f: S.Func)
    requires |f.ty.results| <= 1
    ensures var env, ls := Env(f.ty.params + f.locals, globals), [Target(f.ty.results, f.ty.results)];
            (CheckFunc(m, globals, f) ==> WellTyped(m, env, ls, [], f.body))
            && (WellTyped(m, env, ls, [], f.body) && AvoidsIfs([false], f.body) ==> CheckFunc(m, globals, f))
  {
    var env, l := FuncEnv(f, globals), FuncLabel(f);
    assert Targets([l]) == [Target(f.ty.results, f.ty.results)];
    if CheckFunc(m, globals, f) { CheckRuled(m, env, [l], [], f.body); }
    if WellTyped(m, env, Targets([l]), [], f.body) && AvoidsIfs([false], f.body) {
      RulesChecked(m, env, [false], [l], [], f.body);
    }
  }
}
