/**
 The code section of load_module: for every body the compressed local declarations are read
 twice, once to size the array and once to fill it, and the extent of the code is recorded.
 Together with find_blocks this turns section bytes into what the interpreter runs.
 */
module CodeSection {
  import opened Leb
  import opened Wasm
  import opened Bytecode
  import opened Blocks
  import opened Machine
  import opened Simulation
  import opened Theorems
  import S = Structured

  // ---------- the format, section 5.5.13 of WebAssembly Core 1.0 ----------

  /** A declaration of count locals of one type. */
  datatype Group = Group(count: u32, ty: ValType)

  datatype Body = Body(groups: seq<Group>, code: Extent)

  function TypeOfTag(tag: u32): Option<ValType> {
    if tag == 0x7f then Some(I32) else if tag == 0x7e then Some(I64)
    else if tag == 0x7d then Some(F32) else if tag == 0x7c then Some(F64) else None
  }

  function Total(gs: seq<Group>): nat { if gs == [] then 0 else gs[0].count + Total(gs[1..]) }

  /** Type of the i-th local: that of the declaration whose range it falls in. */
  function LocalType(gs: seq<Group>, i: nat): ValType
    requires i < Total(gs)
  {
    if i < gs[0].count then gs[0].ty else LocalType(gs[1..], i - gs[0].count)
  }

  function Locals(gs: seq<Group>): (ts: seq<ValType>)
    ensures |ts| == Total(gs)
  {
    seq(Total(gs), i requires 0 <= i < Total(gs) => LocalType(gs, i))
  }

  /** The declarations written out: count locals of the first type, then the rest. */
  lemma LocalsExpand(gs: seq<Group>)
    ensures Locals([]) == []
    ensures gs != [] ==> Locals(gs) == seq(gs[0].count, _ => gs[0].ty) + Locals(gs[1..])
  {}

  // ---------- reading it ----------

  function ReadGroup(bytes: seq<byte>, pos: nat): (r: Option<(Group, nat)>)
    ensures r.Some? ==> pos < r.value.1 <= |bytes|
  {
    match ReadU32(bytes, pos)
    case None => None
    case Some((n, p)) =>
      match ReadU32(bytes, p)
      case None => None
      case Some((tag, q)) => if TypeOfTag(tag).None? then None else Some((Group(n, TypeOfTag(tag).value), q))
  }

  function ReadGroups(bytes: seq<byte>, pos: nat, n: nat): (r: Option<(seq<Group>, nat)>)
    ensures r.Some? ==> |r.value.0| == n && pos <= r.value.1 && (n > 0 ==> r.value.1 <= |bytes|)
    decreases n
  {
    if n == 0 then Some(([], pos))
    else match ReadGroup(bytes, pos)
         case None => None
         case Some((g, p)) =>
           match ReadGroups(bytes, p, n - 1)
           case None => None
           case Some((gs, q)) => Some(([g] + gs, q))
  }

  /** One entry: its size, the declarations, and the code up to the last byte, an `end`. */
  function ReadBody(bytes: seq<byte>, pos: nat): (r: Option<(Body, nat)>)
    ensures r.Some? ==>
              pos < r.value.0.code.start <= r.value.0.code.end < |bytes| && bytes[r.value.0.code.end] == 0x0b
              && r.value.1 == r.value.0.code.end + 1 && Total(r.value.0.groups) < 0x1_0000_0000
  {
    match ReadU32(bytes, pos)
    case None => None
    case Some((size, payload)) =>
      match ReadU32(bytes, payload)
      case None => None
      case Some((n, first)) =>
        match ReadGroups(bytes, first, n)
        case None => None
        case Some((gs, start)) =>
          var end := payload + size - 1;
          if start <= end < |bytes| && bytes[end] == 0x0b && Total(gs) < 0x1_0000_0000
          then Some((Body(gs, Extent(start, end)), end + 1)) else None
  }

  function ReadBodies(bytes: seq<byte>, pos: nat, n: nat): (r: Option<(seq<Body>, nat)>)
    ensures r.Some? ==> |r.value.0| == n && pos <= r.value.1
    decreases n
  {
    if n == 0 then Some(([], pos))
    else match ReadBody(bytes, pos)
         case None => None
         case Some((b, p)) =>
           match ReadBodies(bytes, p, n - 1)
           case None => None
           case Some((bs, q)) => Some(([b] + bs, q))
  }

  function Extents(bs: seq<Body>): (fs: seq<Extent>)
    ensures |fs| == |bs|
  {
    seq(|bs|, i requires 0 <= i < |bs| => bs[i].code)
  }

  // ---------- the loops of load_module ----------

  method FetchGroup(bytes: seq<byte>, start: nat) returns (g: Group, pos: nat)
    requires ReadGroup(bytes, start).Some?
    ensures ReadGroup(bytes, start) == Some((g, pos))
  {
    hide ReadU32;
    var count, tag: u32;
    count, pos := FetchU32(bytes, start);
    tag, pos := FetchU32(bytes, pos);
    g := Group(count, TypeOfTag(tag).value);
  }

  /** First pass: local_count, a 32-bit sum. */
  method CountLocals(bytes: seq<byte>, start: nat, n: nat) returns (count: u32)
    requires ReadGroups(bytes, start, n).Some? && Total(ReadGroups(bytes, start, n).value.0) < 0x1_0000_0000
    ensures count == Total(ReadGroups(bytes, start, n).value.0)
  {
    hide ReadGroup;
    var pos, l, g := start, 0, Group(0, I32);
    count := 0;
    while l < n
      invariant 0 <= l <= n && ReadGroups(bytes, pos, n - l).Some?
      invariant count + Total(ReadGroups(bytes, pos, n - l).value.0) == Total(ReadGroups(bytes, start, n).value.0)
    {
      g, pos := FetchGroup(bytes, pos);
      count := (count + g.count) % 0x1_0000_0000;
      l := l + 1;
    }
  }

  /** Second pass: the array the first pass has sized is filled, group by group. */
  method LoadLocals(bytes: seq<byte>, start: nat, n: nat) returns (locals: array<ValType>, pos: nat)
    requires ReadGroups(bytes, start, n).Some? && Total(ReadGroups(bytes, start, n).value.0) < 0x1_0000_0000
    ensures fresh(locals) && locals[..] == Locals(ReadGroups(bytes, start, n).value.0)
    ensures pos == ReadGroups(bytes, start, n).value.1
  {
    hide ReadGroup, LocalType, ReadGroups, Locals, Total;
    ghost var all := ReadGroups(bytes, start, n).value.0;
    var count := CountLocals(bytes, start, n);
    locals := new ValType[count];
    pos := start;
    var l, lidx, g := 0, 0, Group(0, I32);
    ReadNothing(bytes, start, n);
    while l < n
      invariant 0 <= l <= n && ReadGroups(bytes, pos, n - l).Some?
      invariant ReadGroups(bytes, pos, n - l).value.1 == ReadGroups(bytes, start, n).value.1
      invariant all[l..] == ReadGroups(bytes, pos, n - l).value.0
      invariant 0 <= lidx && lidx + Total(all[l..]) == Total(all) == locals.Length
      invariant locals[..lidx] + Locals(all[l..]) == Locals(all)
    {
      ghost var rest, done := all[l..], locals[..lidx];
      GroupsStep(bytes, pos, n - l);
      g, pos := FetchGroup(bytes, pos);
      assert rest[0] == g && rest[1..] == all[l + 1..];
      LocalsExpand(rest);
      TotalStep(rest);
      FillLocals(locals, lidx, g);
      lidx := lidx + g.count;
      assert done + Locals(rest) == done + seq(g.count, i => g.ty) + Locals(rest[1..]);
      l := l + 1;
    }
    ReadNothing(bytes, pos, 0);
    LocalsExpand([]);
    assert all[n..] == [];
  }

  lemma GroupsStep(bytes: seq<byte>, pos: nat, n: nat)
    requires n > 0 && ReadGroups(bytes, pos, n).Some?
    ensures ReadGroup(bytes, pos).Some?
    ensures var (g, p) := ReadGroup(bytes, pos).value;
            ReadGroups(bytes, p, n - 1).Some?
            && ReadGroups(bytes, pos, n).value.0 == [g] + ReadGroups(bytes, p, n - 1).value.0
            && ReadGroups(bytes, pos, n).value.1 == ReadGroups(bytes, p, n - 1).value.1
  {
    hide ReadGroup;
  }

  lemma ReadNothing(bytes: seq<byte>, pos: nat, n: nat)
    ensures Total([]) == 0
    ensures n == 0 ==> ReadGroups(bytes, pos, n) == Some(([], pos))
    ensures ReadGroups(bytes, pos, n).Some? ==> |ReadGroups(bytes, pos, n).value.0| == n
  {}

  lemma TotalStep(gs: seq<Group>)
    requires gs != []
    ensures Total(gs) == gs[0].count + Total(gs[1..])
  {}

  method FillLocals(locals: array<ValType>, at: nat, g: Group)
    requires at + g.count <= locals.Length
    modifies locals
    ensures locals[..at + g.count] == old(locals[..at]) + seq(g.count, i => g.ty)
  {
    var l := 0;
    while l < g.count
      invariant 0 <= l <= g.count
      invariant locals[..at + l] == old(locals[..at]) + seq(l, i => g.ty)
    {
      locals[at + l] := g.ty;
      l := l + 1;
      assert locals[..at + l] == locals[..at + l - 1] + [g.ty];
    }
  }

  /** The record of one function; result type and parameters come from the function section. */
  function RecordOfBody(b: Body, ty: FuncType): BlockRec {
    BlockRec(0, ty, Locals(b.groups), b.code.start, b.code.end, 0, b.code.end)
  }

  method LoadBody(bytes: seq<byte>, start: nat, ty: FuncType) returns (rec: BlockRec, pos: nat)
    requires ReadBody(bytes, start).Some?
    ensures rec == RecordOfBody(ReadBody(bytes, start).value.0, ty) && pos == ReadBody(bytes, start).value.1
  {
    hide ReadU32, ReadGroups;
    var size, n: u32;
    size, pos := FetchU32(bytes, start);
    var payload := pos;
    n, pos := FetchU32(bytes, pos);
    var locals;
    locals, pos := LoadLocals(bytes, pos, n);
    var end := payload + size - 1;
    rec := BlockRec(0, ty, locals[..], pos, end, 0, end);
    pos := end + 1;
  }

  /** The section: body b belongs to function import_count + b. */
  method LoadCode(bytes: seq<byte>, start: nat, imports: seq<BlockRec>, types: seq<FuncType>)
    returns (functions: seq<BlockRec>, pos: nat)
    requires ReadBodies(bytes, start, |types|).Some?
    ensures var bs := ReadBodies(bytes, start, |types|).value.0;
            functions == imports + seq(|types|, i requires 0 <= i < |types| => RecordOfBody(bs[i], types[i]))
    ensures pos == ReadBodies(bytes, start, |types|).value.1
  {
    hide ReadBody, RecordOfBody;
    ghost var all := ReadBodies(bytes, start, |types|).value.0;
    functions, pos := imports, start;
    var b := 0;
    while b < |types|
      invariant 0 <= b <= |types| && ReadBodies(bytes, pos, |types| - b).Some?
      invariant all[b..] == ReadBodies(bytes, pos, |types| - b).value.0
      invariant ReadBodies(bytes, pos, |types| - b).value.1 == ReadBodies(bytes, start, |types|).value.1
      invariant functions == imports + seq(b, i requires 0 <= i < b => RecordOfBody(all[i], types[i]))
    {
      ghost var rest := all[b..];
      var rec;
      rec, pos := LoadBody(bytes, pos, types[b]);
      assert all[b] == rest[0] && all[b + 1..] == rest[1..];
      functions := functions + [rec];
      b := b + 1;
    }
  }

  // ---------- what the loops establish ----------

  /** Bodies never overlap and keep the order of the section. */
  lemma {:induction false} BodiesOrdered(bytes: seq<byte>, pos: nat, n: nat)
    requires ReadBodies(bytes, pos, n).Some?
    ensures var bs := ReadBodies(bytes, pos, n).value.0;
            Ordered(Extents(bs)) && (forall i :: 0 <= i < n ==> pos < bs[i].code.start)
    decreases n
  {
    hide ReadBody;
    if n > 0 {
      var b := ReadBody(bytes, pos).value;
      BodiesOrdered(bytes, b.1, n - 1);
      var bs, rest := ReadBodies(bytes, pos, n).value.0, ReadBodies(bytes, b.1, n - 1).value.0;
      assert forall i :: 0 < i < n ==> bs[i] == rest[i - 1];
      forall i, j | 0 <= i < j < n ensures Extents(bs)[i].end < Extents(bs)[j].start {
        if i > 0 { assert Extents(rest)[i - 1].end < Extents(rest)[j - 1].start; }
      }
    }
  }

  /** From section bytes to a runnable program: bodies read from the code section, records
      filled in by LoadCode and a lookup table filled in by find_blocks are all the simulation
      asks for, provided every body is well nested. */
  lemma LoadedFromBytes(p: Program, m: S.Module, pos: nat, types: seq<FuncType>)
    requires ReadBodies(p.bytes, pos, |types|).Some? && |m.funcs| == |types|
    requires var bs := ReadBodies(p.bytes, pos, |types|).value.0;
             (forall i :: 0 <= i < |types| ==>
                IsBody(p.bytes, bs[i].code)
                && m.funcs[i] == S.Func(types[i], Locals(bs[i].groups), BodyOf(p.bytes, bs[i].code)))
             && ScanAll(p.bytes, Extents(bs), map[]) == Some(p.lookup)
             && p.imports == |m.imports| <= |p.funcs|
             && p.funcs[p.imports..] == seq(|types|, i requires 0 <= i < |types| => RecordOfBody(bs[i], types[i]))
    requires TableLoaded(p, m) && p.alu == m.alu && p.host == m.host
    requires forall i :: 0 <= i < |m.imports| ==> p.funcs[i].ty == m.imports[i]
    ensures Loaded(p, m)
  {
    hide ReadBodies, ScanAll, Ordered, IsBody, BodyOf, Loaded, Locals, Extents, RecordOfBody, RecordsBody, TableLoaded;
    var bs := ReadBodies(p.bytes, pos, |types|).value.0;
    var fs := Extents(bs);
    BodiesOrdered(p.bytes, pos, |types|);
    forall i | 0 <= i < |fs| ensures RecordsBody(p.bytes, m.funcs[i], fs[i], p.funcs[|m.imports| + i]) {
      ExtentAt(bs, i);
      RecordAt(p.funcs, p.imports, bs, types, i);
      RecordMatches(p.bytes, bs[i], types[i]);
    }
    LoadedByFindBlocks(p, m, fs);
  }

  lemma RecordAt(funcs: seq<BlockRec>, imports: nat, bs: seq<Body>, types: seq<FuncType>, i: nat)
    requires imports <= |funcs| && |bs| == |types| && i < |types|
    requires funcs[imports..] == seq(|types|, k requires 0 <= k < |types| => RecordOfBody(bs[k], types[k]))
    ensures imports + i < |funcs| && funcs[imports + i] == RecordOfBody(bs[i], types[i])
  {
    hide RecordOfBody;
    assert funcs[imports + i] == funcs[imports..][i];
  }

  lemma ExtentAt(bs: seq<Body>, i: nat)
    requires i < |bs|
    ensures Extents(bs)[i] == bs[i].code
  {}

  lemma RecordMatches(bytes: seq<byte>, b: Body, ty: FuncType)
    requires IsBody(bytes, b.code)
    ensures RecordsBody(bytes, S.Func(ty, Locals(b.groups), BodyOf(bytes, b.code)), b.code, RecordOfBody(b, ty))
  {
    hide IsBody, BodyOf, Locals;
  }

  // ---------- round trip ----------

  function EncodeGroups(gs: seq<Group>): seq<byte> {
    if gs == [] then [] else Encode(gs[0].count) + [TagOf(gs[0].ty)] + EncodeGroups(gs[1..])
  }

  function Payload(gs: seq<Group>, code: seq<byte>): seq<byte> { Encode(|gs|) + EncodeGroups(gs) + code }

  function EncodeBody(gs: seq<Group>, code: seq<byte>): seq<byte> {
    Encode(|Payload(gs, code)|) + Payload(gs, code)
  }

  lemma GroupReadsBack(g: Group, bytes: seq<byte>, pos: nat)
    requires Holds(bytes, pos, Encode(g.count) + [TagOf(g.ty)])
    ensures ReadGroup(bytes, pos) == Some((g, pos + |Encode(g.count)| + 1))
  {
    hide ReadU32;
    HoldsParts(bytes, pos, Encode(g.count), [TagOf(g.ty)]);
    ReadsBack(g.count, bytes, pos);
    assert Encode(TagOf(g.ty)) == [TagOf(g.ty)];
    ReadsBack(TagOf(g.ty), bytes, pos + |Encode(g.count)|);
  }

  lemma {:induction false} GroupsReadBack(gs: seq<Group>, bytes: seq<byte>, pos: nat)
    requires Holds(bytes, pos, EncodeGroups(gs))
    ensures ReadGroups(bytes, pos, |gs|) == Some((gs, pos + |EncodeGroups(gs)|))
    decreases gs
  {
    hide ReadGroup, Encode, Holds;
    if gs != [] {
      var one := Encode(gs[0].count) + [TagOf(gs[0].ty)];
      assert EncodeGroups(gs) == one + EncodeGroups(gs[1..]);
      HoldsParts(bytes, pos, one, EncodeGroups(gs[1..]));
      GroupReadsBack(gs[0], bytes, pos);
      GroupsReadBack(gs[1..], bytes, pos + |one|);
      assert [gs[0]] + gs[1..] == gs;
    }
  }

  /** An encoded body placed anywhere is read back: the same declarations, and an extent that
      holds exactly the code bytes and ends where the entry ends. */
  lemma BodyRoundTrip(gs: seq<Group>, code: seq<byte>, bytes: seq<byte>, pos: nat)
    requires Holds(bytes, pos, EncodeBody(gs, code)) && |Payload(gs, code)| < 0x1_0000_0000
    requires Total(gs) < 0x1_0000_0000 && code != [] && code[|code| - 1] == 0x0b
    ensures ReadBody(bytes, pos).Some?
    ensures var (b, next) := ReadBody(bytes, pos).value;
            b.groups == gs && bytes[b.code.start..b.code.end + 1] == code && next == pos + |EncodeBody(gs, code)|
  {
    hide ReadU32, ReadGroups, Encode, EncodeGroups, Total;
    var payload := Payload(gs, code);
    HoldsParts(bytes, pos, Encode(|payload|), payload);
    ReadsBack(|payload|, bytes, pos);
    var first := pos + |Encode(|payload|)|;
    HoldsParts(bytes, first, Encode(|gs|) + EncodeGroups(gs), code);
    HoldsParts(bytes, first, Encode(|gs|), EncodeGroups(gs));
    GroupCount(gs, code);
    ReadsBack(|gs|, bytes, first);
    GroupsReadBack(gs, bytes, first + |Encode(|gs|)|);
  }

  lemma GroupCount(gs: seq<Group>, code: seq<byte>)
    ensures |gs| <= |Payload(gs, code)|
  {
    ManyGroups(gs);
  }

  lemma {:induction false} ManyGroups(gs: seq<Group>)
    ensures |gs| <= |EncodeGroups(gs)|
  {
    if gs != [] { ManyGroups(gs[1..]); }
  }
}
