/**
 The addresses find_blocks stops at while it scans a function are exactly those of the
 instructions, else and end bytes of the function's nesting structure.
 */
module Boundaries {
  import opened Leb
  import opened Wasm
  import opened Bytecode
  import opened Structure
  import opened Blocks
  import opened Simulation
  import S = Structured

  /** Addresses at which the loop `while (pos <= end_addr)` looks at an opcode. */
  function Visited(bytes: seq<byte>, end: nat, pos: nat): set<nat>
    decreases end + 1 - pos
  {
    if pos > end || pos >= |bytes| then {}
    else {pos} + match Skip(bytes, pos) case None => {} case Some(next) => Visited(bytes, end, next)
  }

  function Addresses(c: Code): set<nat> {
    match c
    case Done(at) => {at}
    case Simple(at, _, rest) => {at} + Addresses(rest)
    case Block(at, _, _, body, rest) => {at} + Addresses(body) + Addresses(rest)
    case IfElse(at, _, thn, els, rest) => {at} + Addresses(thn) + Addresses(els) + Addresses(rest)
  }

  lemma {:induction false} PartsHaveAddresses(c: Code, at: nat)
    ensures at in Addresses(c) <==> exists d :: IsPart(d, c) && d.at == at
    decreases c
  {
    assert IsPart(c, c);
    match c
    case Done(_) =>
    case Simple(_, _, rest) => PartsHaveAddresses(rest, at);
    case Block(_, _, _, body, rest) =>
      PartsHaveAddresses(body, at);
      PartsHaveAddresses(rest, at);
    case IfElse(_, _, thn, els, rest) =>
      PartsHaveAddresses(thn, at);
      PartsHaveAddresses(els, at);
      PartsHaveAddresses(rest, at);
  }

  lemma VisitOne(bytes: seq<byte>, end: nat, pos: nat, next: nat)
    requires pos <= end < |bytes| && Skip(bytes, pos) == Some(next)
    ensures Visited(bytes, end, pos) == {pos} + Visited(bytes, end, next)
  {}

  /** Scanning a placed sequence visits its addresses and goes on behind it. */
  lemma {:induction false} VisitsPlaced(bytes: seq<byte>, end: nat, c: Code)
    requires Placed(bytes, c) && c.EndAt() <= end < |bytes|
    ensures c.EndAt() in Visited(bytes, end, c.EndAt())
    ensures Visited(bytes, end, c.at) == Addresses(c) + Visited(bytes, end, c.EndAt())
    decreases c
  {
    hide NodePlaced, Visited;
    PlacedSpan(bytes, c);
    match c
    case Done(at) => EndItself(bytes, end, at);
    case Simple(_, _, rest) =>
      VisitSimple(bytes, end, c);
      VisitsPlaced(bytes, end, rest);
    case Block(at, _, _, body, rest) =>
      SpanInside(bytes, c);
      VisitBlock(bytes, end, c);
      VisitsPlaced(bytes, end, body);
      VisitsPlaced(bytes, end, rest);
      HasEnd(body);
    case IfElse(at, _, thn, els, rest) =>
      SpanInside(bytes, c);
      VisitBlock(bytes, end, c);
      VisitsPlaced(bytes, end, thn);
      VisitsPlaced(bytes, end, els);
      VisitsPlaced(bytes, end, rest);
      HasEnd(thn);
      HasEnd(els);
  }

  lemma EndItself(bytes: seq<byte>, end: nat, at: nat)
    requires at <= end < |bytes|
    ensures at in Visited(bytes, end, at)
  {}

  lemma VisitSimple(bytes: seq<byte>, end: nat, c: Code)
    requires Placed(bytes, c) && c.Simple? && c.EndAt() <= end < |bytes|
    ensures Visited(bytes, end, c.at) == {c.at} + Visited(bytes, end, c.rest.at)
  {
    hide Skip, Decode, Visited;
    PlacedSpan(bytes, c.rest);
    DecodersAgree(bytes, c.at);
    DecodedKind(bytes, c.at);
    VisitOne(bytes, end, c.at, c.rest.at);
  }

  lemma SpanInside(bytes: seq<byte>, c: Code)
    requires Placed(bytes, c)
    ensures c.Block? ==> c.body.EndAt() <= c.EndAt()
    ensures c.IfElse? ==> c.thn.EndAt() <= c.els.EndAt() <= c.EndAt()
  {
    hide Decode, BlockType;
    if c.Block? { PlacedSpan(bytes, c.rest); }
    if c.IfElse? { PlacedSpan(bytes, c.els); PlacedSpan(bytes, c.rest); }
  }

  /** The opener and the terminators of a block. */
  lemma VisitBlock(bytes: seq<byte>, end: nat, c: Code)
    requires Placed(bytes, c) && !c.Done? && !c.Simple? && c.EndAt() <= end < |bytes|
    ensures c.Block? ==>
              Visited(bytes, end, c.at) == {c.at} + Visited(bytes, end, c.body.at)
              && Visited(bytes, end, c.body.EndAt()) == {c.body.EndAt()} + Visited(bytes, end, c.rest.at)
    ensures c.IfElse? ==>
              Visited(bytes, end, c.at) == {c.at} + Visited(bytes, end, c.thn.at)
              && Visited(bytes, end, c.thn.EndAt()) == {c.thn.EndAt()} + Visited(bytes, end, c.els.at)
              && Visited(bytes, end, c.els.EndAt()) == {c.els.EndAt()} + Visited(bytes, end, c.rest.at)
  {
    hide Skip, Decode, BlockType, Visited;
    PlacedSpan(bytes, c);
    SpanInside(bytes, c);
    SkipOpener(bytes, c.at);
    VisitOne(bytes, end, c.at, c.at + 2);
    if c.Block? {
      SkipPlain(bytes, c.body.EndAt());
      VisitOne(bytes, end, c.body.EndAt(), c.rest.at);
    } else {
      SkipPlain(bytes, c.thn.EndAt());
      SkipPlain(bytes, c.els.EndAt());
      VisitOne(bytes, end, c.thn.EndAt(), c.els.at);
      VisitOne(bytes, end, c.els.EndAt(), c.rest.at);
    }
  }

  lemma {:induction false} HasEnd(c: Code)
    ensures c.EndAt() in Addresses(c)
    decreases c
  {
    match c
    case Done(_) =>
    case Simple(_, _, rest) => HasEnd(rest);
    case Block(_, _, _, _, rest) => HasEnd(rest);
    case IfElse(_, _, _, _, rest) => HasEnd(rest);
  }

  /** The scan of a function visits exactly the addresses of its body. */
  lemma ScanVisitsBody(bytes: seq<byte>, f: Extent)
    requires IsBody(bytes, f)
    ensures Visited(bytes, f.end, f.start) == Addresses(BodyOf(bytes, f))
  {
    hide Match, Placed, Addresses;
    var c := BodyOf(bytes, f);
    VisitsPlaced(bytes, f.end, c);
    SkipPlain(bytes, f.end);
    HasEnd(c);
  }

  /** An address of the module's code is one the scan of some function visits. */
  lemma VisitsAreScanned(m: S.Module, bytes: seq<byte>, fs: seq<Extent>, at: nat)
    requires |fs| == |m.funcs|
    requires forall i :: 0 <= i < |fs| ==> IsBody(bytes, fs[i]) && m.funcs[i].body == BodyOf(bytes, fs[i])
    ensures Visits(m, at) <==> exists i :: 0 <= i < |fs| && at in Visited(bytes, fs[i].end, fs[i].start)
  {
    hide IsBody, BodyOf, Visited, Addresses, IsPart;
    forall i | 0 <= i < |fs|
      ensures at in Visited(bytes, fs[i].end, fs[i].start) <==> exists c :: IsPart(c, m.funcs[i].body) && c.at == at
    {
      ScanVisitsBody(bytes, fs[i]);
      PartsHaveAddresses(m.funcs[i].body, at);
    }
    if Visits(m, at) {
      var c :| InModule(m, c) && c.at == at;
      var f :| f in m.funcs && IsPart(c, f.body);
      var i :| 0 <= i < |fs| && m.funcs[i] == f;
      assert at in Visited(bytes, fs[i].end, fs[i].start);
    }
    if i :| 0 <= i < |fs| && at in Visited(bytes, fs[i].end, fs[i].start) {
      var c :| IsPart(c, m.funcs[i].body) && c.at == at;
      assert m.funcs[i] in m.funcs && InModule(m, c);
    }
  }
}
