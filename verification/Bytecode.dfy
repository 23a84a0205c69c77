/**
 The two instruction decoders of wa.cpp: the operand decoding inside interpret, and the
 separate skip_immediates that the block matcher uses, with the proof that they agree.
 */
module Bytecode {
  import opened Leb
  import opened Wasm

  datatype Fetched = Fetched(op: Op, next: nat)

  // ---------- decoding as interpret does it ----------

  /** read_LEB(bytes, pos, 32), stored into a uint32. */
  function ReadU32(bytes: seq<byte>, pos: nat): (r: Option<(u32, nat)>)
    ensures r.Some? ==> pos < r.value.1 <= |bytes|
  {
    match LebLen(bytes, pos)
    case None => None
    case Some(n) =>
      if n > 10 then None
      else Some((Decoded(bytes, pos, n, 32, false).value % 0x1_0000_0000, pos + n))
  }

  /** read_LEB_signed(bytes, pos, maxbits); None where the sign mask is undefined. */
  function ReadSigned(bytes: seq<byte>, pos: nat, maxbits: nat): (r: Option<(u64, nat)>)
    ensures r.Some? ==> pos < r.value.1 <= |bytes|
  {
    match LebLen(bytes, pos)
    case None => None
    case Some(n) =>
      if n > 10 || Decoded(bytes, pos, n, maxbits, true).None? then None
      else Some((Decoded(bytes, pos, n, maxbits, true).value, pos + n))
  }

  /** The operand loop of br_table. */
  function ReadTargets(bytes: seq<byte>, pos: nat, count: nat): (r: Option<(seq<u32>, nat)>)
    ensures r.Some? ==> |r.value.0| == count && pos <= r.value.1
    decreases count
  {
    if count == 0 then Some(([], pos))
    else match ReadU32(bytes, pos)
         case None => None
         case Some((d, p)) =>
           match ReadTargets(bytes, p, count - 1)
           case None => None
           case Some((ds, q)) => Some(([d] + ds, q))
  }

  predicate TakesU32(c: byte) {
    0x02 <= c <= 0x04 || c == 0x0c || c == 0x0d || c == 0x10 || 0x20 <= c <= 0x24 || c == 0x3f || c == 0x40
  }

  function OneOperand(c: byte, d: u32): Op
    requires TakesU32(c)
  {
    if c <= 0x04 then Enter(c)
    else if c == 0x0c then Br(d)
    else if c == 0x0d then BrIf(d)
    else if c == 0x10 then Call(d)
    else if c == 0x20 then GetLocal(d)
    else if c == 0x21 then SetLocal(d)
    else if c == 0x22 then TeeLocal(d)
    else if c == 0x23 then GetGlobal(d)
    else if c == 0x24 then SetGlobal(d)
    else if c == 0x3f then CurrentMemory
    else GrowMemory
  }

  predicate TakesTwoU32(c: byte) { c == 0x11 || 0x28 <= c <= 0x3e }

  function TwoOperands(c: byte, d: u32, e: u32): Op
    requires TakesTwoU32(c)
  {
    if c == 0x11 then CallIndirect(d)
    else if c <= 0x35 then Load(c, e)
    else Store(c, e)
  }

  function NoOperand(c: byte): Op {
    if c == 0x00 then Trap
    else if c == 0x01 then Nop
    else if c == 0x05 then Else
    else if c == 0x0b then End
    else if c == 0x0f then Return
    else if c == 0x1a then Drop
    else if c == 0x1b then Select
    else if IsNum(c) then Num(c)
    else Unknown(c)
  }

  /** The operand decoding of interpret, opcode by opcode. */
  function Decode(bytes: seq<byte>, pos: nat): (r: Option<Fetched>)
    requires pos < |bytes|
    ensures r.Some? ==> pos < r.value.next <= |bytes|
  {
    var c, p := bytes[pos], pos + 1;
    if TakesU32(c) then
      match ReadU32(bytes, p)
      case None => None
      case Some((d, q)) => Some(Fetched(OneOperand(c, d), q))
    else if TakesTwoU32(c) then
      match ReadU32(bytes, p)
      case None => None
      case Some((d, q)) =>
        match ReadU32(bytes, q)
        case None => None
        case Some((e, t)) => Some(Fetched(TwoOperands(c, d, e), t))
    else if c == 0x0e then DecodeBrTable(bytes, p)
    else if c == 0x41 then DecodeConst(bytes, p, I32)
    else if c == 0x42 then DecodeConst(bytes, p, I64)
    else if c == 0x43 then DecodeFloat(bytes, p, F32, 4)
    else if c == 0x44 then DecodeFloat(bytes, p, F64, 8)
    else Some(Fetched(NoOperand(c), p))
  }

  function DecodeBrTable(bytes: seq<byte>, p: nat): (r: Option<Fetched>)
    ensures r.Some? ==> p < r.value.next <= |bytes|
  {
    match ReadU32(bytes, p)
    case None => None
    case Some((count, q)) =>
      match ReadTargets(bytes, q, count)
      case None => None
      case Some((ds, t)) =>
        match ReadU32(bytes, t)
        case None => None
        case Some((d, u)) => Some(Fetched(BrTable(ds, d), u))
  }

  function DecodeConst(bytes: seq<byte>, p: nat, t: ValType): (r: Option<Fetched>)
    ensures r.Some? ==> p < r.value.next <= |bytes|
  {
    match ReadSigned(bytes, p, if Wide(t) then 64 else 32)
    case None => None
    case Some((v, q)) => Some(Fetched(Const(MkValue(t, v)), q))
  }

  function DecodeFloat(bytes: seq<byte>, p: nat, t: ValType, n: nat): (r: Option<Fetched>)
    requires n > 0
    ensures r.Some? ==> p < r.value.next <= |bytes|
  {
    if p + n > |bytes| then None
    else Some(Fetched(Const(MkValue(t, LittleEndian(bytes[p..p + n]) % 0x1_0000_0000_0000_0000)), p + n))
  }

  /** Reading one instruction with the calls to read_LEB that interpret makes. */
  method Fetch(bytes: seq<byte>, start: nat) returns (op: Op, pos: nat)
    requires start < |bytes| && Decode(bytes, start).Some?
    ensures Decode(bytes, start) == Some(Fetched(op, pos))
  {
    hide LebLen, Decoded, OneOperand, TwoOperands, NoOperand;
    var opcode := bytes[start];
    pos := start + 1;
    var d, e: u32;
    if TakesU32(opcode) {
      d, pos := FetchU32(bytes, pos);
      op := OneOperand(opcode, d);
    } else if TakesTwoU32(opcode) {
      d, pos := FetchU32(bytes, pos);
      e, pos := FetchU32(bytes, pos);
      op := TwoOperands(opcode, d, e);
    } else if opcode == 0x0e {
      op, pos := FetchTable(bytes, pos);
    } else if opcode == 0x41 {
      op, pos := FetchConst(bytes, pos, I32, 32);
    } else if opcode == 0x42 {
      op, pos := FetchConst(bytes, pos, I64, 64);
    } else if opcode == 0x43 {
      op := Const(MkValue(F32, LittleEndian(bytes[pos..pos + 4]) % 0x1_0000_0000_0000_0000));
      pos := pos + 4;
    } else if opcode == 0x44 {
      op := Const(MkValue(F64, LittleEndian(bytes[pos..pos + 8]) % 0x1_0000_0000_0000_0000));
      pos := pos + 8;
    } else {
      op := NoOperand(opcode);
    }
  }

  method FetchU32(bytes: seq<byte>, start: nat) returns (v: u32, pos: nat)
    requires ReadU32(bytes, start).Some?
    ensures ReadU32(bytes, start) == Some((v, pos))
  {
    var r: u64;
    r, pos := ReadLEB(bytes, start, 32, false);
    v := r % 0x1_0000_0000;
  }

  method FetchConst(bytes: seq<byte>, start: nat, t: ValType, maxbits: nat) returns (op: Op, pos: nat)
    requires (t == I32 && maxbits == 32) || (t == I64 && maxbits == 64)
    requires DecodeConst(bytes, start, t).Some?
    ensures DecodeConst(bytes, start, t) == Some(Fetched(op, pos))
  {
    var v: u64;
    v, pos := ReadLEB(bytes, start, maxbits, true);
    op := Const(MkValue(t, v));
  }

  /** br_table: the targets are collected in an array, then the default is read. */
  method FetchTable(bytes: seq<byte>, start: nat) returns (op: Op, pos: nat)
    requires DecodeBrTable(bytes, start).Some?
    ensures DecodeBrTable(bytes, start) == Some(Fetched(op, pos))
  {
    hide LebLen, Decoded;
    var count, d: u32;
    count, pos := FetchU32(bytes, start);
    ghost var first := pos;
    var depths: seq<u32> := [];
    var i := 0;
    assert depths + ReadTargets(bytes, first, count).value.0 == ReadTargets(bytes, first, count).value.0;
    while i < count
      invariant 0 <= i <= count && |depths| == i
      invariant ReadTargets(bytes, pos, count - i).Some?
      invariant ReadTargets(bytes, first, count)
             == Some((depths + ReadTargets(bytes, pos, count - i).value.0, ReadTargets(bytes, pos, count - i).value.1))
    {
      ghost var rest := ReadTargets(bytes, pos, count - i).value.0;
      d, pos := FetchU32(bytes, pos);
      assert depths + rest == (depths + [d]) + rest[1..];
      depths := depths + [d];
      i := i + 1;
    }
    assert depths + [] == depths;
    d, pos := FetchU32(bytes, pos);
    op := BrTable(depths, d);
  }

  // ---------- skipping as find_blocks does it ----------

  function SkipLeb(bytes: seq<byte>, pos: nat): (r: Option<nat>)
    ensures r.Some? ==> pos < r.value <= |bytes|
  {
    match LebLen(bytes, pos)
    case None => None
    case Some(n) => if n > 10 then None else Some(pos + n)
  }

  function SkipLebs(bytes: seq<byte>, pos: nat, count: nat): (r: Option<nat>)
    ensures r.Some? ==> pos <= r.value
    decreases count
  {
    if count == 0 then Some(pos)
    else match SkipLeb(bytes, pos)
         case None => None
         case Some(p) => SkipLebs(bytes, p, count - 1)
  }

  function SkipBrTable(bytes: seq<byte>, pos: nat): (r: Option<nat>)
    ensures r.Some? ==> pos < r.value
  {
    match ReadU32(bytes, pos)
    case None => None
    case Some((count, p)) => SkipLebs(bytes, p, count + 1)
  }

  /** skip_immediates: where the next instruction starts. */
  function Skip(bytes: seq<byte>, pos: nat): (r: Option<nat>)
    requires pos < |bytes|
    ensures r.Some? ==> pos < r.value
  {
    var c, p := bytes[pos], pos + 1;
    if c == 0x3f || c == 0x40 then SkipLeb(bytes, p)
    else if c == 0x0c || c == 0x0d || c == 0x10 || 0x20 <= c <= 0x24 || c == 0x41 then SkipLeb(bytes, p)
    else if c == 0x11 then SkipLebs(bytes, p, 2)
    else if c == 0x42 then SkipLeb(bytes, p)
    else if c == 0x43 then Some(p + 4)
    else if c == 0x44 then Some(p + 8)
    else if 0x02 <= c <= 0x04 then SkipLeb(bytes, p)
    else if 0x28 <= c <= 0x3e then SkipLebs(bytes, p, 2)
    else if c == 0x0e then SkipBrTable(bytes, p)
    else Some(p)
  }

  method SkipImmediates(bytes: seq<byte>, start: nat) returns (pos: nat)
    requires start < |bytes| && Skip(bytes, start).Some?
    ensures pos == Skip(bytes, start).value
  {
    var opcode := bytes[start];
    pos := start + 1;
    var v: u64;
    if opcode == 0x3f || opcode == 0x40 {
      v, pos := ReadLEB(bytes, pos, 1, false);
    } else if opcode == 0x0c || opcode == 0x0d || opcode == 0x10 || 0x20 <= opcode <= 0x24 || opcode == 0x41 {
      v, pos := ReadLEB(bytes, pos, 32, false);
    } else if opcode == 0x11 {
      UnfoldTwo(bytes, pos);
      v, pos := ReadLEB(bytes, pos, 1, false);
      v, pos := ReadLEB(bytes, pos, 32, false);
    } else if opcode == 0x42 {
      v, pos := ReadLEB(bytes, pos, 64, false);
    } else if opcode == 0x43 {
      pos := pos + 4;
    } else if opcode == 0x44 {
      pos := pos + 8;
    } else if 0x02 <= opcode <= 0x04 {
      v, pos := ReadLEB(bytes, pos, 7, false);
    } else if 0x28 <= opcode <= 0x3e {
      UnfoldTwo(bytes, pos);
      v, pos := ReadLEB(bytes, pos, 32, false);
      v, pos := ReadLEB(bytes, pos, 32, false);
    } else if opcode == 0x0e {
      pos := SkipTable(bytes, pos);
    }
  }

  /** The br_table case: the target count, that many targets, and the default target. */
  method SkipTable(bytes: seq<byte>, start: nat) returns (pos: nat)
    requires SkipBrTable(bytes, start).Some?
    ensures pos == SkipBrTable(bytes, start).value
  {
    var v: u64;
    v, pos := ReadLEB(bytes, start, 32, false);
    var count := v % 0x1_0000_0000;
    var i := 0;
    while i < count
      invariant 0 <= i <= count
      invariant SkipLebs(bytes, pos, count - i + 1) == SkipBrTable(bytes, start)
    {
      v, pos := ReadLEB(bytes, pos, 32, false);
      i := i + 1;
    }
    UnfoldOne(bytes, pos);
    v, pos := ReadLEB(bytes, pos, 32, false);
  }

  lemma UnfoldOne(bytes: seq<byte>, pos: nat)
    ensures SkipLebs(bytes, pos, 1) == SkipLeb(bytes, pos)
  {
    if SkipLeb(bytes, pos).Some? { assert SkipLebs(bytes, SkipLeb(bytes, pos).value, 0).Some?; }
  }

  lemma UnfoldTwo(bytes: seq<byte>, pos: nat)
    ensures SkipLebs(bytes, pos, 2)
         == if SkipLeb(bytes, pos).None? then None else SkipLeb(bytes, SkipLeb(bytes, pos).value)
  {
    if SkipLeb(bytes, pos).Some? { UnfoldOne(bytes, SkipLeb(bytes, pos).value); }
  }

  // ---------- agreement of the two decoders ----------

  lemma ReadSkips(bytes: seq<byte>, pos: nat)
    ensures ReadU32(bytes, pos).Some? == SkipLeb(bytes, pos).Some?
    ensures ReadU32(bytes, pos).Some? ==> ReadU32(bytes, pos).value.1 == SkipLeb(bytes, pos).value
  {}

  lemma {:induction false} TargetsSkip(bytes: seq<byte>, pos: nat, count: nat)
    ensures var r, s := ReadTargets(bytes, pos, count), SkipLebs(bytes, pos, count + 1);
            s == if r.None? then None else SkipLeb(bytes, r.value.1)
    decreases count
  {
    if count == 0 {
      UnfoldOne(bytes, pos);
    } else if SkipLeb(bytes, pos).Some? {
      TargetsSkip(bytes, SkipLeb(bytes, pos).value, count - 1);
    }
  }

  /** The one constant interpret cannot decode although its bytes can be skipped: a negative
      i64 in five to nine bytes, whose sign mask has no value. */
  predicate BadMask(bytes: seq<byte>, pos: nat)
    requires pos < |bytes|
  {
    bytes[pos] == 0x42 && SkipLeb(bytes, pos + 1).Some?
    && ReadSigned(bytes, pos + 1, 64).None?
  }

  /** The two decoders consume the same bytes: interpret can decode an instruction if and only
      if skip_immediates can skip it within the module and its sign mask is defined. */
  lemma DecodersAgree(bytes: seq<byte>, pos: nat)
    requires pos < |bytes|
    ensures Decode(bytes, pos).Some?
       <==> Skip(bytes, pos).Some? && Skip(bytes, pos).value <= |bytes| && !BadMask(bytes, pos)
    ensures Decode(bytes, pos).Some? ==> Skip(bytes, pos) == Some(Decode(bytes, pos).value.next)
  {
    hide OneOperand, TwoOperands, NoOperand, Decoded, LebLen, LittleEndian, Cut;
    var c, p := bytes[pos], pos + 1;
    ReadSkips(bytes, p);
    if c == 0x0e {
      TableAgrees(bytes, p);
    } else if c == 0x41 {
      SignedSkips(bytes, p, 32);
    } else if c == 0x42 {
      SignedSkips(bytes, p, 64);
    } else if TakesTwoU32(c) {
      UnfoldTwo(bytes, p);
      if ReadU32(bytes, p).Some? { ReadSkips(bytes, ReadU32(bytes, p).value.1); }
    }
  }

  lemma TableAgrees(bytes: seq<byte>, p: nat)
    ensures DecodeBrTable(bytes, p).Some? <==> SkipBrTable(bytes, p).Some?
    ensures DecodeBrTable(bytes, p).Some?
        ==> SkipBrTable(bytes, p) == Some(DecodeBrTable(bytes, p).value.next)
  {
    if ReadU32(bytes, p).Some? {
      var (count, q) := ReadU32(bytes, p).value;
      TargetsSkip(bytes, q, count);
      if ReadTargets(bytes, q, count).Some? { ReadSkips(bytes, ReadTargets(bytes, q, count).value.1); }
    }
  }

  lemma SignedSkips(bytes: seq<byte>, pos: nat, maxbits: nat)
    ensures ReadSigned(bytes, pos, maxbits).Some? ==>
              SkipLeb(bytes, pos) == Some(ReadSigned(bytes, pos, maxbits).value.1)
    ensures maxbits == 32 && SkipLeb(bytes, pos).Some? ==> ReadSigned(bytes, pos, maxbits).Some?
  {}

  /** BadMask says exactly which encodings those are. */
  lemma BadMaskShape(bytes: seq<byte>, pos: nat)
    requires pos < |bytes| && bytes[pos] == 0x42 && SkipLeb(bytes, pos + 1).Some?
    ensures BadMask(bytes, pos)
       <==> 5 <= SkipLeb(bytes, pos + 1).value - (pos + 1) <= 9
            && bytes[SkipLeb(bytes, pos + 1).value - 1] % 128 >= 64
  {}

  /** i64.const -2^32 */
  const UNDECODABLE: seq<byte> := [0x42, 0x80, 0x80, 0x80, 0x80, 0x70]

  lemma UndecodableGroups()
    ensures LebLen(UNDECODABLE, 1) == Some(5) && LebValue(UNDECODABLE, 1, 5) == 0x70 * 0x1000_0000
  {
    assert LebLen(UNDECODABLE, 5) == Some(1);
    assert LebLen(UNDECODABLE, 4) == Some(2);
    assert LebLen(UNDECODABLE, 3) == Some(3);
    assert LebValue(UNDECODABLE, 5, 1) == 0x70;
    assert LebValue(UNDECODABLE, 4, 2) == 128 * 0x70;
    assert LebValue(UNDECODABLE, 3, 3) == 128 * 128 * 0x70;
  }

  /** It is what an encoder makes of the number. */
  lemma UndecodableEncoded()
    ensures Holds(UNDECODABLE, 1, EncodeSigned(-0x1_0000_0000))
  {
    assert EncodeSigned(-16) == [0x70];
    assert EncodeSigned(-0x800) == [0x80] + EncodeSigned(-16);
    assert EncodeSigned(-0x4_0000) == [0x80] + EncodeSigned(-0x800);
    assert EncodeSigned(-0x200_0000) == [0x80] + EncodeSigned(-0x4_0000);
    assert EncodeSigned(-0x1_0000_0000) == [0x80] + EncodeSigned(-0x200_0000);
  }

  /** A constant on which the interpreter fails: the standard reads -2^32, skip_immediates passes
      over it, and the sign mask of its five bytes is undefined. */
  lemma UndecodableConst()
    ensures SLebValue(UNDECODABLE, 1, 5) == -0x1_0000_0000 && Skip(UNDECODABLE, 0) == Some(6)
    ensures BadMask(UNDECODABLE, 0) && Decode(UNDECODABLE, 0) == None
  {
    hide Pow2, LebLen, LebValue, EncodeSigned, Holds;
    UndecodableGroups();
    Pow2Known();
  }

  /** What an encoder has written is read back. */
  lemma ReadsBack(v: u32, bytes: seq<byte>, pos: nat)
    requires Holds(bytes, pos, Encode(v))
    ensures ReadU32(bytes, pos) == Some((v, pos + |Encode(v)|))
  {
    hide LebLen, Decoded, Encode;
    UnsignedRoundTrip(v, bytes, pos, 32);
  }

  /** Operands below 64 take one byte. */
  lemma OneByteOperand(bytes: seq<byte>, pos: nat)
    requires pos < |bytes| && bytes[pos] < 64
    ensures ReadU32(bytes, pos) == Some((bytes[pos] as u32, pos + 1))
    ensures DecodeConst(bytes, pos, I32) == Some(Fetched(Const(Tagged(I32, bytes[pos])), pos + 1))
  {
    assert LebValue(bytes, pos + 1, 0) == 0;
    assert LebValue(bytes, pos, 1) == bytes[pos];
  }
}
