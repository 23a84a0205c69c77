/**
 What a branch and the end it leads to leave on the operand stack when it carries more operands
 than its label asks for.
 */
module Branches {
  import opened Leb
  import opened Wasm
  import opened Bytecode
  import opened Blocks
  import opened Machine
  import opened Simulation
  import opened Refinement
  import S = Structured

  /** A br, or a br_if or br_table with its operand on the stack. */
  predicate IsBranch(s: State, op: Op) { op.Br? || ((op.BrIf? || op.BrTable?) && TopIs(s, I32)) }

  /** The state in which br, br_if or br_table branches: its operand, if it has one, has been read. */
  function Reading(s: State, op: Op, next: nat): State
    requires IsBranch(s, op)
  {
    var s1 := s.(pc := next);
    if op.Br? then s1 else Pop(s1)
  }

  /** The depth to which it branches, if it does. */
  function Target(s: State, op: Op): Option<u32>
    requires IsBranch(s, op)
  {
    match op
    case Br(d) => Some(d)
    case BrIf(d) => if Top(s).bits != 0 then Some(d) else None
    case BrTable(ds, d) => Some(Pick(ds, d, Top(s).bits))
  }

  /** A br, br_if or br_table to the frame f, whose label is its end, with surplus operands above what
      lies below. */
  ghost predicate Branching(p: Program, s: State, op: Op, next: nat, f: Frame, base: seq<Value>,
                            surplus: seq<Value>, results: seq<Value>) {
    s.pc < |p.bytes| && Decode(p.bytes, s.pc) == Some(Fetched(op, next))
    && IsBranch(s, op) && Target(s, op).Some?
    && var d := Target(s, op).value;
    d < |s.frames| && f == s.frames[|s.frames| - 1 - d] && f.block.kind in {2, 4}
    && f.block.br < |p.bytes| && p.bytes[f.block.br] == 0x0b
    && |results| <= 1 && TypesOf(results) == f.block.ty.results
    && Reading(s, op, next).stack == base + surplus + results && Base(f) == |base|
  }

  /** Behind the end of f the frames are those below it. */
  ghost predicate Outside(s: State, op: Op, t: State, f: Frame)
    requires IsBranch(s, op) && Target(s, op).Some?
  {
    Target(s, op).value < |s.frames| && t.pc == f.block.br + 1
    && t.frames == s.frames[..|s.frames| - 1 - Target(s, op).value]
  }

  lemma TakesBranch(p: Program, s: State, op: Op, next: nat)
    requires s.pc < |p.bytes| && Decode(p.bytes, s.pc) == Some(Fetched(op, next))
    requires IsBranch(s, op) && Target(s, op).Some?
    ensures Run(p, s, 1) == Branch(Reading(s, op, next), Target(s, op).value)
  {
    hide Decode, Branch;
    StepAt(p, s, op, next);
  }

  /** The end byte of a block or if, with its frame on top and its results on the stack. */
  lemma EndOfBlock(p: Program, s: State, f: Frame, rest: seq<Frame>, below: seq<Value>, results: seq<Value>)
    requires s.pc < |p.bytes| && p.bytes[s.pc] == 0x0b && s.frames == rest + [f] && f.block.kind in {2, 4}
    requires s.stack == below + results && TypesOf(results) == f.block.ty.results && |results| <= 1 && f.sp >= -1
    ensures Run(p, s, 1).Next?
    ensures var t := Run(p, s, 1).s;
            t.pc == s.pc + 1 && t.frames == rest && t.stack == Unwound(s.stack, f.sp, |results|)
  {
    hide Decode, Unwound, Run, Step;
    StepTerminator(p, s);
    assert s.frames[..|s.frames| - 1] == rest;
    if |results| == 1 { assert s.stack[|s.stack| - 1] == results[0] && TypesOf(results)[0] == results[0].ty; }
  }

  /** The branch and the end: the frame is gone, and the stack has been cut at its sp. */
  lemma BranchAndEnd(p: Program, s: State, op: Op, next: nat, f: Frame, base: seq<Value>, surplus: seq<Value>,
                     results: seq<Value>)
    requires Branching(p, s, op, next, f, base, surplus, results)
    ensures Run(p, s, 2).Next? && Outside(s, op, Run(p, s, 2).s, f)
    ensures Run(p, s, 2).s.stack == Unwound(base + surplus + results, f.sp, |results|)
  {
    hide Decode, Unwound, Run, Step;
    TakesBranch(p, s, op, next);
    var d, s1 := Target(s, op).value, Run(p, s, 1).s;
    var rest := s.frames[..|s.frames| - 1 - d];
    assert s1.frames == rest + [f];
    EndOfBlock(p, s1, f, rest, base + surplus, results);
    RunAdd(p, s, 1, 1);
  }

  /** An `if` has recorded the height with its condition still on the stack. Branching to it leaves
      what lay below and the results if and only if there is no surplus; otherwise exactly one
      surplus operand stays in between. */
  lemma IfExitExact(p: Program, s: State, op: Op, next: nat, f: Frame, base: seq<Value>, surplus: seq<Value>,
                    results: seq<Value>)
    requires Branching(p, s, op, next, f, base, surplus, results) && f.block.kind == 4
    ensures Run(p, s, 2).Next? && Outside(s, op, Run(p, s, 2).s, f)
    ensures var t := Run(p, s, 2).s;
            (t.stack == base + results <==> surplus == [])
            && (surplus != [] ==> t.stack == base + surplus[..1] + results)
  {
    hide Run, Unwound, Branching;
    BranchAndEnd(p, s, op, next, f, base, surplus, results);
    BranchingParts(p, s, op, next, f, base, surplus, results);
    IfUnwound(base, surplus, results);
  }

  lemma BranchingParts(p: Program, s: State, op: Op, next: nat, f: Frame, base: seq<Value>, surplus: seq<Value>,
                       results: seq<Value>)
    requires Branching(p, s, op, next, f, base, surplus, results)
    ensures |results| <= 1 && f.sp == |base| - (if f.block.kind == 4 then 0 else 1)
  {
    hide Decode;
  }

  lemma IfUnwound(base: seq<Value>, surplus: seq<Value>, results: seq<Value>)
    requires |results| <= 1
    ensures var left := Unwound(base + surplus + results, |base|, |results|);
            (left == base + results <==> surplus == [])
            && (surplus != [] ==> left == base + surplus[..1] + results)
  {
    var all := base + surplus + results;
    if surplus == [] {
      assert all == base + results;
    } else {
      assert |base + surplus[..1] + results| == |base + results| + 1;
      if |all| > |base| + 1 {
        assert all[..|base| + 1] == base + surplus[..1];
        if |results| == 1 { assert results == [all[|all| - 1]]; }
      } else {
        assert results == [] && surplus[..1] == surplus;
      }
    }
  }

  /** A branch to a block drops any surplus. */
  lemma BlockExitExact(p: Program, s: State, op: Op, next: nat, f: Frame, base: seq<Value>, surplus: seq<Value>,
                       results: seq<Value>)
    requires Branching(p, s, op, next, f, base, surplus, results) && f.block.kind == 2
    ensures Run(p, s, 2).Next? && Outside(s, op, Run(p, s, 2).s, f)
    ensures Run(p, s, 2).s.stack == base + results
  {
    hide Run, Unwound, Branching;
    BranchAndEnd(p, s, op, next, f, base, surplus, results);
    BranchingParts(p, s, op, next, f, base, surplus, results);
    UnwoundIs(base, surplus, results, |base| - 1, |results|);
    AllOps(results);
  }
}
