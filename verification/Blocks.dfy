/**
 find_blocks: the linear scan that fills block_lookup, against the nesting structure.
 Blocks are identified by their start address, which stands for the Block pointer.
 */
module Blocks {
  import opened Leb
  import opened Wasm
  import opened Bytecode
  import opened Structure

  /** struct Block of wa.h. Kinds: 0 function, 1 initialiser, 2 block, 3 loop, 4 if. */
  datatype BlockRec = BlockRec(
    kind: nat, ty: FuncType, locals: seq<ValType>, start: nat, end: nat, els: nat, br: nat)

  type Lookup = map<nat, BlockRec>

  /** The record of the block node c, read off the nesting structure. */
  function RecordOf(c: Code): BlockRec
    requires !c.Done? && !c.Simple?
  {
    match c
    case Block(at, kind, ty, body, _) =>
      BlockRec(kind, FuncType([], ty), [], at, body.EndAt(), 0, if kind == 3 then at + 2 else body.EndAt())
    case IfElse(at, ty, thn, els, _) =>
      BlockRec(4, FuncType([], ty), [], at, els.EndAt(), thn.EndAt() + 1, els.EndAt())
  }

  /** The lookup table the nesting structure calls for. */
  function Entries(c: Code): Lookup {
    match c
    case Done(_) => map[]
    case Simple(_, _, rest) => Entries(rest)
    case Block(at, _, _, body, rest) => map[at := RecordOf(c)] + Entries(body) + Entries(rest)
    case IfElse(at, _, thn, els, rest) =>
      map[at := RecordOf(c)] + Entries(thn) + Entries(els) + Entries(rest)
  }

  // ---------- the scan ----------

  datatype Scan = Scan(open: seq<nat>, table: Lookup)

  ghost predicate ScanOk(s: Scan) { forall i :: 0 <= i < |s.open| ==> s.open[i] in s.table }

  /** The switch of find_blocks. None: an invalid block type, or a pop of the empty stack,
      which the source reports and then leaves to chance. */
  function ScanOp(bytes: seq<byte>, end: nat, pos: nat, s: Scan): (r: Option<Scan>)
    requires pos < |bytes| && ScanOk(s)
    ensures r.Some? ==> ScanOk(r.value)
  {
    var c := bytes[pos];
    var top := |s.open| - 1;
    if 2 <= c <= 4 then
      if pos + 1 >= |bytes| || BlockType(bytes[pos + 1]).None? then None
      else Some(Scan(s.open + [pos],
                     s.table[pos := BlockRec(c, FuncType([], BlockType(bytes[pos + 1]).value), [], pos, 0, 0, 0)]))
    else if c == 0x05 then
      if top < 0 then None
      else Some(s.(table := s.table[s.open[top] := s.table[s.open[top]].(els := pos + 1)]))
    else if c == 0x0b && pos != end then
      if top < 0 then None
      else
        var b := s.table[s.open[top]];
        var done := b.(end := pos, br := if b.kind == 3 then b.start + 2 else pos);
        Some(Scan(s.open[..top], s.table[s.open[top] := done]))
    else Some(s)
  }

  /** The loop `while (pos <= end_addr)`; None when an instruction is unterminated. */
  function ScanFrom(bytes: seq<byte>, end: nat, pos: nat, s: Scan): (r: Option<Scan>)
    requires end < |bytes| && ScanOk(s)
    ensures r.Some? ==> ScanOk(r.value)
    decreases end + 1 - pos
  {
    if pos > end then Some(s)
    else
      match ScanOp(bytes, end, pos, s)
      case None => None
      case Some(s') =>
        match Skip(bytes, pos)
        case None => None
        case Some(next) => ScanFrom(bytes, end, next, s')
  }

  /** Extents of the functions find_blocks visits. */
  datatype Extent = Extent(start: nat, end: nat)

  /** All functions, one after the other; a scan must leave its block stack empty. */
  function ScanAll(bytes: seq<byte>, fs: seq<Extent>, table: Lookup): Option<Lookup> {
    if fs == [] then Some(table)
    else if fs[0].end >= |bytes| then None
    else
      match ScanFrom(bytes, fs[0].end, fs[0].start, Scan([], table))
      case None => None
      case Some(s) => if s.open != [] then None else ScanAll(bytes, fs[1..], s.table)
  }

  method FindBlocks(bytes: seq<byte>, fs: seq<Extent>) returns (lookup: Lookup)
    requires ScanAll(bytes, fs, map[]).Some?
    ensures lookup == ScanAll(bytes, fs, map[]).value
  {
    lookup := map[];
    var f := 0;
    while f < |fs|
      invariant 0 <= f <= |fs|
      invariant ScanAll(bytes, fs[f..], lookup) == ScanAll(bytes, fs, map[])
    {
      assert fs[f..][1..] == fs[f + 1..];
      lookup := FindBlocksIn(bytes, fs[f], lookup);
      f := f + 1;
    }
  }

  method FindBlocksIn(bytes: seq<byte>, f: Extent, before: Lookup) returns (lookup: Lookup)
    requires f.end < |bytes| && ScanFrom(bytes, f.end, f.start, Scan([], before)).Some?
    ensures lookup == ScanFrom(bytes, f.end, f.start, Scan([], before)).value.table
  {
    hide Skip, BlockType;
    var pos := f.start;
    var blockstack: seq<nat> := [];
    lookup := before;
    while pos <= f.end
      invariant ScanOk(Scan(blockstack, lookup))
      invariant ScanFrom(bytes, f.end, pos, Scan(blockstack, lookup))
             == ScanFrom(bytes, f.end, f.start, Scan([], before))
      decreases f.end + 1 - pos
    {
      ghost var s := Scan(blockstack, lookup);
      assert ScanOp(bytes, f.end, pos, s).Some?;
      var opcode := bytes[pos];
      var top := |blockstack| - 1;
      if 0x02 <= opcode <= 0x04 {
        var block := BlockRec(opcode, FuncType([], BlockType(bytes[pos + 1]).value), [], pos, 0, 0, 0);
        blockstack := blockstack + [pos];
        lookup := lookup[pos := block];
      } else if opcode == 0x05 {
        lookup := lookup[blockstack[top] := lookup[blockstack[top]].(els := pos + 1)];
      } else if opcode == 0x0b {
        if pos != f.end {
          var start := blockstack[top];
          blockstack := blockstack[..top];
          lookup := lookup[start := lookup[start].(end := pos)];
          if lookup[start].kind == 0x03 {
            lookup := lookup[start := lookup[start].(br := lookup[start].start + 2)];
          } else {
            lookup := lookup[start := lookup[start].(br := pos)];
          }
        }
      }
      assert Scan(blockstack, lookup) == ScanOp(bytes, f.end, pos, s).value;
      pos := SkipImmediates(bytes, pos);
    }
  }

  // ---------- the scan computes the nesting structure ----------

  /** Every record of the table starts at its key and ends inside the given range. */
  ghost predicate Within(t: Lookup, lo: nat, hi: nat) {
    forall k :: k in t ==> lo <= k == t[k].start < t[k].end < hi
  }

  lemma JoinWithin(t: Lookup, lo: nat, hi: nat, t': Lookup, lo': nat, hi': nat, from: nat, to: nat)
    requires Within(t, lo, hi) && Within(t', lo', hi') && from <= lo && from <= lo' && hi <= to && hi' <= to
    ensures Within(t + t', from, to)
  {}

  /** Where the parts of a block lie. */
  lemma PartSpans(bytes: seq<byte>, c: Code)
    requires NodePlaced(bytes, c)
    ensures c.at < |bytes| && (c.Simple? ==> c.at < c.rest.at)
    ensures c.Block? ==> c.at < c.body.at && c.rest.at == c.body.EndAt() + 1
    ensures c.IfElse? ==> c.at < c.thn.at && c.els.at == c.thn.EndAt() + 1 && c.rest.at == c.els.EndAt() + 1
  {
    hide BlockType;
    if c.Simple? { DecodersAgree(bytes, c.at); }
    hide Decode;
  }

  lemma {:induction false} EntriesSpan(bytes: seq<byte>, c: Code)
    requires Placed(bytes, c)
    ensures c.at <= c.EndAt() < |bytes| && Within(Entries(c), c.at, c.EndAt())
    decreases c
  {
    hide NodePlaced, Within;
    PartSpans(bytes, c);
    match c
    case Done(_) => NothingWithin(c.at);
    case Simple(_, _, rest) =>
      EntriesSpan(bytes, rest);
      WiderWithin(Entries(rest), rest.at, rest.EndAt(), c.at);
    case Block(_, _, _, body, rest) =>
      EntriesSpan(bytes, body);
      EntriesSpan(bytes, rest);
      BlockWithin(c);
    case IfElse(_, _, thn, els, rest) =>
      EntriesSpan(bytes, thn);
      EntriesSpan(bytes, els);
      EntriesSpan(bytes, rest);
      IfWithin(c);
  }

  lemma NothingWithin(at: nat)
    ensures Within(map[], at, at)
  {}

  lemma WiderWithin(t: Lookup, lo: nat, hi: nat, from: nat)
    requires Within(t, lo, hi) && from <= lo
    ensures Within(t, from, hi)
  {}

  lemma BlockWithin(c: Code)
    requires c.Block? && c.at < c.body.at <= c.body.EndAt() < c.rest.at <= c.EndAt()
    requires Within(Entries(c.body), c.body.at, c.body.EndAt()) && Within(Entries(c.rest), c.rest.at, c.EndAt())
    ensures Within(Entries(c), c.at, c.EndAt())
  {
    hide Within, RecordOf;
    var own, body, rest := map[c.at := RecordOf(c)], c.body, c.rest;
    SelfWithin(c);
    JoinWithin(own, c.at, rest.at, Entries(body), body.at, body.EndAt(), c.at, rest.at);
    JoinWithin(own + Entries(body), c.at, rest.at, Entries(rest), rest.at, c.EndAt(), c.at, c.EndAt());
  }

  lemma IfWithin(c: Code)
    requires c.IfElse? && c.at < c.thn.at <= c.thn.EndAt() < c.els.at <= c.els.EndAt() < c.rest.at <= c.EndAt()
    requires Within(Entries(c.thn), c.thn.at, c.thn.EndAt()) && Within(Entries(c.els), c.els.at, c.els.EndAt())
    requires Within(Entries(c.rest), c.rest.at, c.EndAt())
    ensures Within(Entries(c), c.at, c.EndAt())
  {
    hide Within, RecordOf;
    var own, thn, els, rest := map[c.at := RecordOf(c)], c.thn, c.els, c.rest;
    SelfWithin(c);
    JoinWithin(own, c.at, rest.at, Entries(thn), thn.at, thn.EndAt(), c.at, rest.at);
    JoinWithin(own + Entries(thn), c.at, rest.at, Entries(els), els.at, els.EndAt(), c.at, rest.at);
    JoinWithin(own + Entries(thn) + Entries(els), c.at, rest.at, Entries(rest), rest.at, c.EndAt(), c.at, c.EndAt());
  }

  lemma SelfWithin(c: Code)
    requires (c.Block? && c.at < c.body.EndAt() < c.rest.at) || (c.IfElse? && c.at < c.els.EndAt() < c.rest.at)
    ensures Within(map[c.at := RecordOf(c)], c.at, c.rest.at)
  {}

  /** One byte of block type: the matcher and both decoders step over exactly two bytes. */
  lemma SkipOpener(bytes: seq<byte>, at: nat)
    requires at + 1 < |bytes| && 2 <= bytes[at] <= 4 && BlockType(bytes[at + 1]).Some?
    ensures Skip(bytes, at) == Some(at + 2)
  {}

  lemma SkipPlain(bytes: seq<byte>, at: nat)
    requires at < |bytes| && (bytes[at] == 0x05 || bytes[at] == 0x0b)
    ensures Skip(bytes, at) == Some(at + 1)
  {}

  /** Scanning a placed sequence adds exactly its entries and leaves the stack as it was. */
  lemma {:induction false} ScanPlaced(bytes: seq<byte>, end: nat, c: Code, s: Scan)
    requires Placed(bytes, c) && c.EndAt() <= end < |bytes| && ScanOk(s)
    requires forall i :: 0 <= i < |s.open| ==> s.open[i] < c.at
    ensures ScanOk(Scan(s.open, s.table + Entries(c)))
    ensures ScanFrom(bytes, end, c.at, s) == ScanFrom(bytes, end, c.EndAt(), Scan(s.open, s.table + Entries(c)))
    decreases c
  {
    hide ScanFrom, RecordOf, NodePlaced;
    match c
    case Done(_) =>
      assert s.table + Entries(c) == s.table;
    case Simple(_, _, rest) =>
      ScanSimple(bytes, end, c, s);
      ScanPlaced(bytes, end, rest, s);
    case Block(at, _, _, body, rest) =>
      var s' := ScanBlock(bytes, end, c, s);
      ScanPlaced(bytes, end, rest, s');
      Regroup3(s.table, map[at := RecordOf(c)] + Entries(body), Entries(rest));
    case IfElse(at, _, thn, els, rest) =>
      var s' := ScanIfElse(bytes, end, c, s);
      ScanPlaced(bytes, end, rest, s');
      Regroup3(map[at := RecordOf(c)], Entries(thn), Entries(els));
      Regroup3(s.table, map[at := RecordOf(c)] + Entries(thn) + Entries(els), Entries(rest));
  }

  lemma Regroup3(a: Lookup, b: Lookup, c: Lookup)
    ensures a + b + c == a + (b + c)
  {}

  lemma ScanSimple(bytes: seq<byte>, end: nat, c: Code, s: Scan)
    requires Placed(bytes, c) && c.Simple? && c.EndAt() <= end < |bytes| && ScanOk(s)
    ensures c.at < c.rest.at
    ensures ScanFrom(bytes, end, c.at, s) == ScanFrom(bytes, end, c.rest.at, s)
  {
    hide Skip, BlockType, Decode;
    PlacedSpan(bytes, c.rest);
    DecodersAgree(bytes, c.at);
    DecodedKind(bytes, c.at);
  }

  lemma ScanBlock(bytes: seq<byte>, end: nat, c: Code, s: Scan) returns (s': Scan)
    requires Placed(bytes, c) && c.Block? && c.EndAt() <= end < |bytes| && ScanOk(s)
    requires forall i :: 0 <= i < |s.open| ==> s.open[i] < c.at
    ensures s' == Scan(s.open, s.table + (map[c.at := RecordOf(c)] + Entries(c.body))) && ScanOk(s')
    ensures c.at < c.rest.at
    ensures ScanFrom(bytes, end, c.at, s) == ScanFrom(bytes, end, c.rest.at, s')
    decreases c, 0
  {
    hide Skip, BlockType, Decode, ScanFrom, ScanOp;
    EntriesSpan(bytes, c.body);
    PlacedSpan(bytes, c.rest);
    var s1 := ScanOpen(bytes, end, c, s);
    ScanPlaced(bytes, end, c.body, s1);
    s' := ScanClose(bytes, end, c, s, s1, Entries(c.body), c.body);
  }

  lemma ScanIfElse(bytes: seq<byte>, end: nat, c: Code, s: Scan) returns (s': Scan)
    requires Placed(bytes, c) && c.IfElse? && c.EndAt() <= end < |bytes| && ScanOk(s)
    requires forall i :: 0 <= i < |s.open| ==> s.open[i] < c.at
    ensures c.at < c.rest.at
    ensures s' == Scan(s.open, s.table + (map[c.at := RecordOf(c)] + (Entries(c.thn) + Entries(c.els)))) && ScanOk(s')
    ensures ScanFrom(bytes, end, c.at, s) == ScanFrom(bytes, end, c.rest.at, s')
    decreases c, 0
  {
    hide Skip, BlockType, Decode, ScanFrom, ScanOp, RecordOf, Entries, ScanOk;
    EntriesSpan(bytes, c.thn);
    EntriesSpan(bytes, c.els);
    PlacedSpan(bytes, c.rest);
    var s1 := ScanOpen(bytes, end, c, s);
    ScanPlaced(bytes, end, c.thn, s1);
    var s2 := ScanElse(bytes, end, c, s1, Entries(c.thn), c.thn);
    ScanPlaced(bytes, end, c.els, s2);
    ArmTables(s.table, s1.table, s2.table, c.at, Entries(c.thn), Entries(c.els));
    ElseRecord(c);
    s' := ScanClose(bytes, end, c, s, s2, Entries(c.thn) + Entries(c.els), c.els);
  }

  /** The tables before an if, behind its opcode and behind its else differ in its own record and those
      of the first arm. */
  lemma ArmTables(t: Lookup, t1: Lookup, t2: Lookup, at: nat, thn: Lookup, els: Lookup)
    requires at in t1 && t1 == t[at := t1[at]] && at in t2 && t2 == (t1 + thn)[at := t2[at]] && at !in thn && at !in els
    ensures t2 + els == t2 + (thn + els) && at !in thn + els
    ensures forall k :: k != at && k !in thn + els ==> (k in t2 <==> k in t) && (k in t ==> t2[k] == t[k])
  {}

  lemma ElseRecord(c: Code)
    requires c.IfElse? && c.els.at == c.thn.EndAt() + 1
    ensures RecordOf(c).els == c.els.at
  {}

  /** The record an open block has before its end is seen. */
  function OpenRecord(c: Code, els: nat): BlockRec
    requires !c.Done? && !c.Simple?
  {
    RecordOf(c).(end := 0, els := els, br := 0)
  }

  lemma ScanOpen(bytes: seq<byte>, end: nat, c: Code, s: Scan) returns (s': Scan)
    requires NodePlaced(bytes, c) && !c.Done? && !c.Simple? && c.at <= end < |bytes| && ScanOk(s)
    ensures s' == Scan(s.open + [c.at], s.table[c.at := OpenRecord(c, 0)]) && ScanOk(s')
    ensures ScanFrom(bytes, end, c.at, s) == ScanFrom(bytes, end, c.at + 2, s')
  {
    hide Skip, BlockType;
    SkipOpener(bytes, c.at);
    s' := ScanOp(bytes, end, c.at, s).value;
  }

  /** The else byte notes its address in the record of the open if. */
  lemma ScanElse(bytes: seq<byte>, end: nat, c: Code, s1: Scan, inner: Lookup, thn: Code) returns (s': Scan)
    requires c.IfElse? && thn == c.thn && Terminated(bytes, thn, 0x05, c.els) && thn.EndAt() <= end < |bytes|
    requires |s1.open| > 0 && s1.open[|s1.open| - 1] == c.at && ScanOk(s1)
    requires c.at in s1.table && s1.table[c.at] == OpenRecord(c, 0) && c.at !in inner
    ensures s' == Scan(s1.open, (s1.table + inner)[c.at := OpenRecord(c, c.els.at)]) && ScanOk(s')
    ensures ScanOk(Scan(s1.open, s1.table + inner))
    ensures ScanFrom(bytes, end, thn.EndAt(), Scan(s1.open, s1.table + inner)) == ScanFrom(bytes, end, c.els.at, s')
  {
    hide Skip, BlockType;
    SkipPlain(bytes, thn.EndAt());
    s' := ScanOp(bytes, end, thn.EndAt(), Scan(s1.open, s1.table + inner)).value;
  }

  /** The end byte completes the record of the open block and pops it. */
  lemma ScanClose(bytes: seq<byte>, end: nat, c: Code, s: Scan, s1: Scan, inner: Lookup, last: Code)
    returns (s': Scan)
    requires !c.Done? && !c.Simple? && last == (if c.Block? then c.body else c.els)
    requires Terminated(bytes, last, 0x0b, c.rest) && last.EndAt() < end < |bytes|
    requires s1.open == s.open + [c.at] && ScanOk(s) && ScanOk(s1)
    requires c.at in s1.table && s1.table[c.at] == OpenRecord(c, RecordOf(c).els) && c.at !in inner
    requires forall k :: k != c.at && k !in inner ==>
               (k in s1.table <==> k in s.table) && (k in s.table ==> s1.table[k] == s.table[k])
    ensures s' == Scan(s.open, s.table + (map[c.at := RecordOf(c)] + inner)) && ScanOk(s')
    ensures ScanOk(Scan(s1.open, s1.table + inner))
    ensures ScanFrom(bytes, end, last.EndAt(), Scan(s1.open, s1.table + inner)) == ScanFrom(bytes, end, c.rest.at, s')
  {
    hide Skip, BlockType;
    SkipPlain(bytes, last.EndAt());
    var mid := Scan(s1.open, s1.table + inner);
    s' := ScanOp(bytes, end, last.EndAt(), mid).value;
    assert s'.open == s.open;
    assert s'.table == s.table + (map[c.at := RecordOf(c)] + inner);
  }

  // ---------- whole modules ----------

  /** The recursive-descent matcher finds a body that spans exactly the function's extent. */
  predicate IsBody(bytes: seq<byte>, f: Extent) {
    f.end < |bytes| && bytes[f.end] == 0x0b
    && Match(bytes, f.start).Some? && Match(bytes, f.start).value.EndAt() == f.end
  }

  function BodyOf(bytes: seq<byte>, f: Extent): (c: Code)
    requires IsBody(bytes, f)
    ensures Placed(bytes, c) && c.at == f.start && c.EndAt() == f.end
  {
    Match(bytes, f.start).value
  }

  /** Bodies lie one behind the other, as the code section lists them. */
  ghost predicate Ordered(fs: seq<Extent>) {
    forall i, j :: 0 <= i < j < |fs| ==> fs[i].end < fs[j].start
  }

  /** One function: the scan starts and ends with an empty block stack. */
  lemma ScanBody(bytes: seq<byte>, f: Extent, table: Lookup)
    requires IsBody(bytes, f)
    ensures ScanFrom(bytes, f.end, f.start, Scan([], table)) == Some(Scan([], table + Entries(BodyOf(bytes, f))))
  {
    hide Match, Placed, Skip;
    ScanPlaced(bytes, f.end, BodyOf(bytes, f), Scan([], table));
    SkipPlain(bytes, f.end);
  }

  /** The records of all bodies, added to a table in order. */
  function AllEntries(bytes: seq<byte>, fs: seq<Extent>, before: Lookup): Lookup
    requires forall i :: 0 <= i < |fs| ==> IsBody(bytes, fs[i])
  {
    if fs == [] then before
    else AllEntries(bytes, fs[1..], before + Entries(BodyOf(bytes, fs[0])))
  }

  ghost predicate Contains(table: Lookup, part: Lookup) {
    forall k :: k in part ==> k in table && table[k] == part[k]
  }

  lemma {:induction false} ScanAllBodies(bytes: seq<byte>, fs: seq<Extent>, before: Lookup)
    requires forall i :: 0 <= i < |fs| ==> IsBody(bytes, fs[i])
    ensures ScanAll(bytes, fs, before) == Some(AllEntries(bytes, fs, before))
    decreases |fs|
  {
    hide BodyOf, Entries, ScanFrom;
    if fs != [] {
      ScanBody(bytes, fs[0], before);
      ScanAllBodies(bytes, fs[1..], before + Entries(BodyOf(bytes, fs[0])));
    }
  }

  lemma {:induction false} AllEntriesIs(bytes: seq<byte>, fs: seq<Extent>, before: Lookup)
    requires Ordered(fs) && forall i :: 0 <= i < |fs| ==> IsBody(bytes, fs[i])
    requires forall k, i :: k in before && 0 <= i < |fs| ==> k < fs[i].start
    ensures Contains(AllEntries(bytes, fs, before), before)
    ensures forall i :: 0 <= i < |fs| ==> Contains(AllEntries(bytes, fs, before), Entries(BodyOf(bytes, fs[i])))
    ensures forall k :: k in AllEntries(bytes, fs, before) ==>
              k in before || exists i :: 0 <= i < |fs| && k in Entries(BodyOf(bytes, fs[i]))
    decreases |fs|
  {
    hide IsBody, BodyOf, Entries;
    if fs != [] {
      var own, rest := Entries(BodyOf(bytes, fs[0])), fs[1..];
      FunctionSpan(bytes, fs[0]);
      assert forall i :: 0 <= i < |rest| ==> rest[i] == fs[i + 1];
      AllEntriesIs(bytes, rest, before + own);
      var table := AllEntries(bytes, fs, before);
      JoinContains(table, before, own);
      forall i | 0 <= i < |fs| ensures Contains(table, Entries(BodyOf(bytes, fs[i]))) {
        if i > 0 { assert fs[i] == rest[i - 1]; }
      }
      forall k | k in table && k !in before && k !in own
        ensures exists i :: 0 <= i < |fs| && k in Entries(BodyOf(bytes, fs[i]))
      {
        var i :| 0 <= i < |rest| && k in Entries(BodyOf(bytes, rest[i]));
        assert fs[i + 1] == rest[i];
      }
    }
  }

  lemma JoinContains(table: Lookup, a: Lookup, b: Lookup)
    requires Contains(table, a + b) && forall k :: k in a ==> k !in b
    ensures Contains(table, a) && Contains(table, b)
  {
    forall k | k in a ensures k in table && table[k] == a[k] { assert k in a + b; }
    forall k | k in b ensures k in table && table[k] == b[k] { assert k in a + b; }
  }

  /** find_blocks computes, at every address of every body, the record that recursive descent
      assigns to it, and nothing else; in particular no block stack is left over. */
  lemma FindBlocksMatches(bytes: seq<byte>, fs: seq<Extent>)
    requires Ordered(fs) && forall i :: 0 <= i < |fs| ==> IsBody(bytes, fs[i])
    ensures ScanAll(bytes, fs, map[]).Some?
    ensures forall i :: 0 <= i < |fs| ==>
              Contains(ScanAll(bytes, fs, map[]).value, Entries(BodyOf(bytes, fs[i])))
    ensures forall k :: k in ScanAll(bytes, fs, map[]).value ==>
              exists i :: 0 <= i < |fs| && k in Entries(BodyOf(bytes, fs[i]))
  {
    hide IsBody, BodyOf, Entries;
    ScanAllBodies(bytes, fs, map[]);
    AllEntriesIs(bytes, fs, map[]);
  }

  lemma FunctionSpan(bytes: seq<byte>, f: Extent)
    requires IsBody(bytes, f)
    ensures f.start <= f.end < |bytes| && forall k :: k in Entries(BodyOf(bytes, f)) ==> f.start <= k < f.end
  {
    hide Match, Placed;
    EntriesSpan(bytes, BodyOf(bytes, f));
  }

  // ---------- nesting of the intervals ----------

  predicate Apart(a: BlockRec, b: BlockRec) { a.end < b.start || b.end < a.start }

  predicate Inside(a: BlockRec, b: BlockRec) { b.start < a.start && a.end < b.end }

  /** Any two different blocks are nested strictly or do not overlap. */
  ghost predicate WellNested(t: Lookup) {
    forall j, k :: j in t && k in t && j != k ==> Apart(t[j], t[k]) || Inside(t[j], t[k]) || Inside(t[k], t[j])
  }

  lemma JoinNested(t: Lookup, lo: nat, mid: nat, t': Lookup, mid': nat, hi: nat)
    requires WellNested(t) && WellNested(t') && Within(t, lo, mid) && Within(t', mid', hi) && mid <= mid'
    ensures WellNested(t + t') && (lo <= mid' && mid <= hi ==> Within(t + t', lo, hi))
  {}

  lemma AddOuter(t: Lookup, k: nat, b: BlockRec)
    requires WellNested(t) && Within(t, k + 1, b.end) && b.start == k
    ensures WellNested(map[k := b] + t)
  {}

  /** The intervals [start, end] of the blocks of a body are nested or disjoint. */
  lemma {:induction false} IntervalsNested(bytes: seq<byte>, c: Code)
    requires Placed(bytes, c)
    ensures WellNested(Entries(c))
    decreases c
  {
    hide Decode, BlockType, WellNested, Within;
    match c
    case Done(_) => EmptyNested();
    case Simple(_, _, rest) => IntervalsNested(bytes, rest);
    case Block(at, _, _, body, rest) =>
      IntervalsNested(bytes, body);
      IntervalsNested(bytes, rest);
      EntriesSpan(bytes, body);
      EntriesSpan(bytes, rest);
      OuterNested(c, Entries(body), body.at, body.EndAt());
      JoinNested(map[at := RecordOf(c)] + Entries(body), at, rest.at, Entries(rest), rest.at, rest.EndAt());
    case IfElse(at, _, thn, els, rest) =>
      IntervalsNested(bytes, thn);
      IntervalsNested(bytes, els);
      IntervalsNested(bytes, rest);
      EntriesSpan(bytes, thn);
      EntriesSpan(bytes, els);
      EntriesSpan(bytes, rest);
      JoinNested(Entries(thn), thn.at, thn.EndAt(), Entries(els), els.at, els.EndAt());
      OuterNested(c, Entries(thn) + Entries(els), thn.at, els.EndAt());
      Regroup3(map[at := RecordOf(c)], Entries(thn), Entries(els));
      JoinNested(map[at := RecordOf(c)] + Entries(thn) + Entries(els), at, rest.at, Entries(rest), rest.at,
                 rest.EndAt());
  }

  lemma EmptyNested()
    ensures WellNested(map[])
  {}

  lemma OuterNested(c: Code, inner: Lookup, lo: nat, hi: nat)
    requires !c.Done? && !c.Simple? && c.at < lo <= hi == RecordOf(c).end < c.rest.at
    requires WellNested(inner) && Within(inner, lo, hi)
    ensures WellNested(map[c.at := RecordOf(c)] + inner)
    ensures Within(map[c.at := RecordOf(c)] + inner, c.at, c.rest.at)
  {
    AddOuter(inner, c.at, RecordOf(c));
  }
}
