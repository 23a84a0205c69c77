/**
 Matching imports against what they are bound to: the four wasmjit_typecheck functions, and
 section 4.5.3 of WebAssembly Core 1.0 (import matching).
 */
module Imports {
  import opened Leb

  /** A function type: value types by their codes, at most one result. */
  datatype Sig = Sig(inputs: seq<nat>, output: Option<nat>)

  /** struct Limits; a maximum of 0 stands for none. */
  datatype Limits = Limits(min: u32, max: u32)

  /** What the module asks for, and what it is given: the fields of the FuncInst, TableInst, MemInst
      or GlobalInst. Sizes of memories are in bytes. */
  datatype FuncImport = FuncImport(expected: Sig, actual: Sig)
  datatype TableImport = TableImport(elem: nat, limits: Limits, actualElem: nat, length: u64, max: u64)
  datatype MemoryImport = MemoryImport(limits: Limits, size: u64, max: u64)
  datatype GlobalImport = GlobalImport(ty: nat, mutable_: nat, actualTy: nat, actualMutable: nat)

  method TypelistEqual(a: seq<nat>, b: seq<nat>) returns (equal: bool)
    ensures equal <==> a == b
  {
    if |a| != |b| { return false; }
    var i := 0;
    while i < |a|
      invariant 0 <= i <= |a| && a[..i] == b[..i]
    {
      if a[i] != b[i] { return false; }
      i := i + 1;
    }
    assert a == a[..i] && b == b[..i];
    equal := true;
  }

  function Outputs(s: Sig): seq<nat> { if s.output.None? then [] else [s.output.value] }

  method TypecheckFunc(x: FuncImport) returns (ok: bool)
    ensures ok <==> x.expected == x.actual
  {
    ok := TypelistEqual(x.expected.inputs, x.actual.inputs);
    if ok { ok := TypelistEqual(Outputs(x.expected), Outputs(x.actual)); }
    OutputsDecide(x.expected, x.actual);
  }

  lemma OutputsDecide(a: Sig, b: Sig)
    ensures Outputs(a) == Outputs(b) <==> a.output == b.output
  {
    if Outputs(a) == Outputs(b) && a.output.Some? { assert Outputs(a)[0] == Outputs(b)[0]; }
  }

  /** The comparison of sizes in the checks of tables and memories. */
  predicate LimitsPass(limits: Limits, size: nat, max: nat) {
    size >= limits.min && (limits.max == 0 || (max != 0 && max <= limits.max))
  }

  predicate TypecheckTable(x: TableImport) { x.actualElem == x.elem && LimitsPass(x.limits, x.length, x.max) }

  predicate TypecheckMemory(x: MemoryImport) { LimitsPass(x.limits, x.size / 0x1_0000, x.max / 0x1_0000) }

  predicate TypecheckGlobal(x: GlobalImport) { x.actualTy == x.ty && x.actualMutable == x.mutable_ }

  // ---------- the standard ----------

  /** Limits of the standard. */
  datatype Range = Range(min: nat, max: Option<nat>)

  /** The source's encoding of a maximum. */
  function Encoded(max: Option<nat>): nat { if max.None? then 0 else max.value }

  /** The limits `has` match the limits `want`. */
  predicate Within(has: Range, want: Range) {
    has.min >= want.min && (want.max.None? || (has.max.Some? && has.max.value <= want.max.value))
  }

  /** The comparison gives the standard's verdict if and only if the size is too small anyway, no
      maximum is asked for, or both maxima are zero or neither is: zero is taken for none. */
  lemma LimitsExact(has: Range, want: Range)
    requires want.min < 0x1_0000_0000 && Encoded(want.max) < 0x1_0000_0000
    ensures (LimitsPass(Limits(want.min, Encoded(want.max)), has.min, Encoded(has.max)) <==> Within(has, want))
       <==> has.min < want.min || want.max.None? || (want.max == Some(0) <==> has.max == Some(0))
  {}

  /** External types of the standard; value and element types by their codes. */
  datatype External =
    | OfFunc(sig: Sig)
    | OfTable(limits: Range, elem: nat)
    | OfMemory(limits: Range)
    | OfGlobal(ty: nat, mutable_: bool)

  predicate Matches(has: External, want: External) {
    match (has, want)
    case (OfFunc(a), OfFunc(b)) => a.inputs == b.inputs && a.output == b.output
    case (OfTable(a, x), OfTable(b, y)) => Within(a, b) && x == y
    case (OfMemory(a), OfMemory(b)) => Within(a, b)
    case (OfGlobal(x, m), OfGlobal(y, n)) => x == y && m == n
    case _ => false
  }

  /** The encoding of limits is faithful for this pair: see LimitsExact. */
  predicate ZeroesAgree(has: Range, want: Range) {
    has.min < want.min || want.max.None? || (want.max == Some(0) <==> has.max == Some(0))
  }

  function Flag(b: bool): nat { if b then 1 else 0 }

  lemma FuncMatches(has: Sig, want: Sig)
    ensures FuncImport(want, has).expected == FuncImport(want, has).actual <==> Matches(OfFunc(has), OfFunc(want))
  {}

  /** Tables: of the same element type, and within the limits unless a zero maximum misleads. */
  lemma TableMatches(has: Range, want: Range, elem: nat, wanted: nat)
    requires want.min < 0x1_0000_0000 && Encoded(want.max) < 0x1_0000_0000
    requires has.min < 0x1_0000_0000_0000_0000 && Encoded(has.max) < 0x1_0000_0000_0000_0000
    ensures var x := TableImport(wanted, Limits(want.min, Encoded(want.max)), elem, has.min, Encoded(has.max));
            (TypecheckTable(x) <==> Matches(OfTable(has, elem), OfTable(want, wanted)))
            <==> elem != wanted || ZeroesAgree(has, want)
  {
    LimitsExact(has, want);
  }

  /** Memories: sizes in bytes stand for whole pages of 65536. */
  lemma MemoryMatches(has: Range, want: Range)
    requires want.min < 0x1_0000_0000 && Encoded(want.max) < 0x1_0000_0000
    requires has.min < 0x1_0000_0000_0000 && Encoded(has.max) < 0x1_0000_0000_0000
    ensures var x := MemoryImport(Limits(want.min, Encoded(want.max)), has.min * 0x1_0000, Encoded(has.max) * 0x1_0000);
            (TypecheckMemory(x) <==> Matches(OfMemory(has), OfMemory(want))) <==> ZeroesAgree(has, want)
  {
    LimitsExact(has, want);
    assert has.min * 0x1_0000 / 0x1_0000 == has.min && Encoded(has.max) * 0x1_0000 / 0x1_0000 == Encoded(has.max);
  }

  lemma GlobalMatches(ty: nat, mutable_: bool, wanted: nat, wantedMutable: bool)
    ensures TypecheckGlobal(GlobalImport(wanted, Flag(wantedMutable), ty, Flag(mutable_)))
       <==> Matches(OfGlobal(ty, mutable_), OfGlobal(wanted, wantedMutable))
  {}

  /** An import of a memory that may not have a page is given one without bounds. */
  lemma ZeroIsUnbounded()
    ensures TypecheckMemory(MemoryImport(Limits(0, 0), 0x1_0000, 0)) && !Within(Range(1, None), Range(0, Some(0)))
  {
    assert 0x1_0000 / 0x1_0000 == 1;
  }
}
