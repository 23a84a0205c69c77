/**
 The nesting structure of a function body: a syntax tree whose nodes remember their byte
 addresses, the predicate that places a tree in a byte string, and a recursive-descent
 matcher that finds the tree.
 */
module Structure {
  import opened Leb
  import opened Wasm
  import opened Bytecode

  /** An instruction sequence up to its terminator (end or else) at address Done.at. */
  datatype Code =
    | Done(at: nat)
    | Simple(at: nat, op: Op, rest: Code)
    | Block(at: nat, kind: byte, ty: seq<ValType>, body: Code, rest: Code)  // block, loop, if without else
    | IfElse(at: nat, ty: seq<ValType>, thn: Code, els: Code, rest: Code)
  {
    /** Address of the terminator. */
    function EndAt(): nat {
      if Done? then at else rest.EndAt()
    }
  }

  predicate IsSimple(op: Op) { !op.Enter? && !op.Else? && !op.End? }

  /** get_block_type: the result types a block-type byte stands for. */
  function BlockType(b: byte): (r: Option<seq<ValType>>)
    ensures r.Some? ==> |r.value| <= 1 && b < 128
  {
    if b == 0x40 then Some([])
    else if b == 0x7f then Some([I32])
    else if b == 0x7e then Some([I64])
    else if b == 0x7d then Some([F32])
    else if b == 0x7c then Some([F64])
    else None
  }

  predicate OpensBlock(bytes: seq<byte>, at: nat, kind: byte, ty: seq<ValType>, body: Code) {
    at + 1 < |bytes| && bytes[at] == kind && BlockType(bytes[at + 1]) == Some(ty) && body.at == at + 2
  }

  /** The bytes the outermost node of c stands for are where they should be. */
  predicate NodePlaced(bytes: seq<byte>, c: Code) {
    c.at < |bytes| &&
    match c
    case Done(_) => true
    case Simple(at, op, rest) => IsSimple(op) && Decode(bytes, at) == Some(Fetched(op, rest.at))
    case Block(at, kind, ty, body, rest) =>
      2 <= kind <= 4 && OpensBlock(bytes, at, kind, ty, body) && Terminated(bytes, body, 0x0b, rest)
    case IfElse(at, ty, thn, els, rest) =>
      OpensBlock(bytes, at, 4, ty, thn) && Terminated(bytes, thn, 0x05, els) && Terminated(bytes, els, 0x0b, rest)
  }

  /** The tree c occupies bytes[c.at..], and every nested block has its own end (and else). */
  predicate Placed(bytes: seq<byte>, c: Code) {
    NodePlaced(bytes, c) &&
    match c
    case Done(_) => true
    case Simple(_, _, rest) => Placed(bytes, rest)
    case Block(_, _, _, body, rest) => Placed(bytes, body) && Placed(bytes, rest)
    case IfElse(_, _, thn, els, rest) => Placed(bytes, thn) && Placed(bytes, els) && Placed(bytes, rest)
  }

  /** body ends in the given terminator byte and next starts right behind it. */
  predicate Terminated(bytes: seq<byte>, body: Code, b: byte, next: Code) {
    body.EndAt() < |bytes| && bytes[body.EndAt()] == b && next.at == body.EndAt() + 1
  }

  lemma {:induction false} PlacedSpan(bytes: seq<byte>, c: Code)
    requires Placed(bytes, c)
    ensures c.at <= c.EndAt() < |bytes|
    decreases c
  {
    match c
    case Done(_) =>
    case Simple(_, _, rest) => PlacedSpan(bytes, rest);
    case Block(_, _, _, body, rest) => PlacedSpan(bytes, body); PlacedSpan(bytes, rest);
    case IfElse(_, _, thn, els, rest) =>
      PlacedSpan(bytes, thn); PlacedSpan(bytes, els); PlacedSpan(bytes, rest);
  }

  // ---------- recursive descent ----------

  /** Matches the sequence at pos by recursive descent: each block's body is matched to its own
      terminator before the code behind the block is looked at. */
  function Match(bytes: seq<byte>, pos: nat): (r: Option<Code>)
    ensures r.Some? ==> r.value.at == pos && Placed(bytes, r.value)
    ensures r.Some? ==> pos <= r.value.EndAt() < |bytes| && bytes[r.value.EndAt()] in {0x05, 0x0b}
    decreases |bytes| - pos
  {
    if pos >= |bytes| then None
    else if bytes[pos] == 0x0b || bytes[pos] == 0x05 then Some(Done(pos))
    else if 2 <= bytes[pos] <= 4 then MatchBlock(bytes, pos)
    else match Decode(bytes, pos)
         case None => None
         case Some(f) =>
           if !IsSimple(f.op) then None
           else match Match(bytes, f.next)
                case None => None
                case Some(rest) => Some(Simple(pos, f.op, rest))
  }

  function MatchBlock(bytes: seq<byte>, pos: nat): (r: Option<Code>)
    requires pos < |bytes| && 2 <= bytes[pos] <= 4
    ensures r.Some? ==> r.value.at == pos && Placed(bytes, r.value)
    ensures r.Some? ==> pos <= r.value.EndAt() < |bytes| && bytes[r.value.EndAt()] in {0x05, 0x0b}
    decreases |bytes| - pos, 0
  {
    if pos + 1 >= |bytes| || BlockType(bytes[pos + 1]).None? then None
    else
      var ty := BlockType(bytes[pos + 1]).value;
      match Match(bytes, pos + 2)
      case None => None
      case Some(body) =>
        match Match(bytes, body.EndAt() + 1)
        case None => None
        case Some(next) =>
          if bytes[body.EndAt()] == 0x0b then
            Some(Block(pos, bytes[pos], ty, body, next))
          else if bytes[pos] == 4 && bytes[next.EndAt()] == 0x0b then
            match Match(bytes, next.EndAt() + 1)
            case None => None
            case Some(rest) => Some(IfElse(pos, ty, body, next, rest))
          else None
  }

  /** A decoded opcode is structural exactly when its byte is. */
  lemma DecodedKind(bytes: seq<byte>, pos: nat)
    requires pos < |bytes| && Decode(bytes, pos).Some?
    ensures IsSimple(Decode(bytes, pos).value.op) <==> !(2 <= bytes[pos] <= 5) && bytes[pos] != 0x0b
  {
    hide ReadU32, DecodeBrTable, DecodeConst, DecodeFloat, LebLen;
    var c := bytes[pos];
    if c == 0x0e { BrTableKind(bytes, pos + 1); }
    if c == 0x41 || c == 0x42 { ConstKind(bytes, pos + 1, if c == 0x41 then I32 else I64); }
    if c == 0x43 { FloatKind(bytes, pos + 1, F32, 4); }
    if c == 0x44 { FloatKind(bytes, pos + 1, F64, 8); }
  }

  lemma BrTableKind(bytes: seq<byte>, p: nat)
    ensures DecodeBrTable(bytes, p).Some? ==> DecodeBrTable(bytes, p).value.op.BrTable?
  { hide ReadU32, ReadTargets; }

  lemma ConstKind(bytes: seq<byte>, p: nat, t: ValType)
    ensures DecodeConst(bytes, p, t).Some? ==> DecodeConst(bytes, p, t).value.op.Const?
  { hide ReadSigned; }

  lemma FloatKind(bytes: seq<byte>, p: nat, t: ValType, n: nat)
    requires n > 0
    ensures DecodeFloat(bytes, p, t, n).Some? ==> DecodeFloat(bytes, p, t, n).value.op.Const?
  { hide LittleEndian, Cut; }

  /** The matcher is complete: every placed tree whose terminator is an end or else is the one
      it finds, so a byte string has at most one nesting structure. */
  lemma {:induction false} MatchComplete(bytes: seq<byte>, c: Code)
    requires Placed(bytes, c) && c.EndAt() < |bytes| && bytes[c.EndAt()] in {0x05, 0x0b}
    ensures Match(bytes, c.at) == Some(c)
    decreases c
  {
    hide Decode, MatchBlock;
    match c
    case Done(_) =>
    case Simple(at, op, rest) =>
      DecodedKind(bytes, at);
      MatchComplete(bytes, rest);
    case Block(_, _, _, body, rest) =>
      MatchComplete(bytes, body);
      MatchComplete(bytes, rest);
      BlockComplete(bytes, c);
    case IfElse(_, _, thn, els, rest) =>
      MatchComplete(bytes, thn);
      MatchComplete(bytes, els);
      MatchComplete(bytes, rest);
      BlockComplete(bytes, c);
  }

  lemma BlockComplete(bytes: seq<byte>, c: Code)
    requires NodePlaced(bytes, c) && !c.Done? && !c.Simple?
    requires Match(bytes, c.rest.at) == Some(c.rest)
    requires c.Block? ==> Match(bytes, c.body.at) == Some(c.body)
    requires c.IfElse? ==> Match(bytes, c.thn.at) == Some(c.thn) && Match(bytes, c.els.at) == Some(c.els)
    ensures MatchBlock(bytes, c.at) == Some(c)
  {
    hide Match, Decode;
  }
}
