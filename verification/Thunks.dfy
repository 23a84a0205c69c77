/**
 Outbound thunks: the signature mask of wa.cpp and the family of thunk_out_* functions it
 selects, written as one schema.
 */
module Thunks {
  import opened Leb
  import opened Wasm

  /** 0x80 minus the type byte of the binary format. */
  function Nibble(t: ValType): (n: nat)
    ensures 1 <= n <= 4
  {
    match t case I32 => 1 case I64 => 2 case F32 => 3 case F64 => 4
  }

  function FromNibble(n: nat): ValType {
    if n == 1 then I32 else if n == 2 then I64 else if n == 3 then F32 else F64
  }

  /** Appends one parameter: shift by four bits in a uint64, then or in the nibble. */
  function Append(mask: u64, t: ValType): (m: u64) {
    mask * 16 % 0x1_0000_0000_0000_0000 + Nibble(t)
  }

  function MaskOf(prefix: u64, params: seq<ValType>): u64 {
    if params == [] then prefix
    else Append(MaskOf(prefix, params[..|params| - 1]), params[|params| - 1])
  }

  /** The mask before any parameter: 0x80 and the result, shifted once. */
  function Head(results: seq<ValType>): u64 {
    (0x80 + (if |results| == 1 then Nibble(results[0]) else 0)) * 16
  }

  function ThunkMask(ty: FuncType): u64 { MaskOf(Head(ty.results), ty.params) }

  /** The C operator on disjoint bits: `|=` of a nibble below the shifted-in zeros is `+`. */
  lemma NibbleOr(mask: u64, t: ValType)
    ensures BitOr(mask * 16 % 0x1_0000_0000_0000_0000, Nibble(t)) == Append(mask, t)
  {
    var m := mask * 16 % 0x1_0000_0000_0000_0000 / 16;
    assert m * 16 == mask * 16 % 0x1_0000_0000_0000_0000;
    assert Pow2(4) == 16;
    OrCommutes(m * 16, Nibble(t));
    OrDisjoint(Nibble(t), m, 4);
  }

  method GetThunkMask(ty: FuncType) returns (mask: u64)
    ensures mask == ThunkMask(ty)
  {
    hide BitOr;
    mask := 0x80;
    if |ty.results| == 1 {
      HeadOr(ty.results[0]);
      mask := BitOr(mask, Nibble(ty.results[0]));
    }
    mask := mask * 16 % 0x1_0000_0000_0000_0000;
    var p := 0;
    while p < |ty.params|
      invariant 0 <= p <= |ty.params|
      invariant mask == MaskOf(Head(ty.results), ty.params[..p])
    {
      assert ty.params[..p + 1][..p] == ty.params[..p];
      NibbleOr(mask, ty.params[p]);
      mask := BitOr(mask * 16 % 0x1_0000_0000_0000_0000, Nibble(ty.params[p]));
      p := p + 1;
    }
    assert ty.params[..p] == ty.params;
  }

  lemma HeadOr(t: ValType)
    ensures BitOr(0x80, Nibble(t)) == 0x80 + Nibble(t)
  {
    hide BitOr, Pow2;
    OrCommutes(0x80, Nibble(t));
    assert Pow2(7) == 128 by { Pow2Known(); }
    OrDisjoint(Nibble(t), 1, 7);
  }

  // ---------- decoding the mask ----------

  /** Strips parameter nibbles off the low end until the zero nibble or result head is left. */
  function Params(mask: u64): (ps: seq<ValType>)
    decreases mask
  {
    if mask <= 0x840 then [] else Params(mask / 16) + [FromNibble(mask % 16)]
  }

  function HeadIn(mask: u64): (h: u64)
    decreases mask
  {
    if mask <= 0x840 then mask else HeadIn(mask / 16)
  }

  function Unmask(mask: u64): FuncType {
    var k := HeadIn(mask) / 16 % 16;
    FuncType(Params(mask), if k == 0 then [] else [FromNibble(k)])
  }

  lemma AppendIs(m: u64, t: ValType)
    requires m < 0x1000_0000_0000_0000
    ensures m * 16 < Append(m, t) == m * 16 + Nibble(t) <= m * 16 + 4
  {
    assert m * 16 % 0x1_0000_0000_0000_0000 == m * 16;
  }

  /** 16^n. */
  function Hex(n: nat): (p: nat)
    ensures p > 0
  {
    if n == 0 then 1 else 16 * Hex(n - 1)
  }

  lemma HexKnown()
    ensures Hex(12) == 0x1_0000_0000_0000 && Hex(13) == 0x10_0000_0000_0000 && Hex(14) == 0x100_0000_0000_0000
  {
    assert Hex(4) == 0x1_0000;
    assert Hex(8) == 0x1_0000 * Hex(4) by { assert Hex(8) == 16 * Hex(7) == 256 * Hex(6) == 0x1000 * Hex(5); }
    assert Hex(12) == 0x1_0000 * Hex(8) by { assert Hex(12) == 16 * Hex(11) == 256 * Hex(10) == 0x1000 * Hex(9); }
    assert Hex(14) == 16 * Hex(13) == 256 * Hex(12);
  }

  lemma {:induction false} HexAtMost(n: nat)
    requires n <= 12
    ensures Hex(n) <= 0x1_0000_0000_0000
    decreases 12 - n
  {
    HexKnown();
    if n < 12 { HexAtMost(n + 1); }
  }

  lemma {:induction false} MaskBounds(h: u64, params: seq<ValType>)
    requires 0x800 <= h <= 0x840 && h % 16 == 0 && |params| <= 13
    ensures MaskOf(h, params) + 4 <= 0x844 * Hex(|params|)
    ensures |params| > 0 ==> MaskOf(h, params) > 0x840
    ensures |params| < 13 ==> MaskOf(h, params) < 0x1000_0000_0000_0000
    decreases |params|
  {
    var n := |params|;
    if n > 0 {
      hide Append;
      MaskBounds(h, params[..n - 1]);
      AppendIs(MaskOf(h, params[..n - 1]), params[n - 1]);
      if n == 1 { assert params[..n - 1] == []; }
    }
    if n < 13 { HexAtMost(n); }
  }

  lemma {:induction false} MaskDecodes(h: u64, params: seq<ValType>)
    requires 0x800 <= h <= 0x840 && h % 16 == 0 && |params| <= 13
    ensures Params(MaskOf(h, params)) == params && HeadIn(MaskOf(h, params)) == h
    decreases |params|
  {
    hide Hex, Append, FromNibble;
    MaskBounds(h, params);
    if params != [] {
      var init, last := params[..|params| - 1], params[|params| - 1];
      MaskBounds(h, init);
      MaskDecodes(h, init);
      AppendDecodes(MaskOf(h, init), last);
      assert init + [last] == params;
    }
  }

  lemma AppendDecodes(m: u64, t: ValType)
    requires m < 0x1000_0000_0000_0000
    ensures Append(m, t) / 16 == m && FromNibble(Append(m, t) % 16) == t
  {
    assert m * 16 % 0x1_0000_0000_0000_0000 == m * 16;
  }

  /** On signatures with at most thirteen parameters and one result the mask can be decoded
      back to the signature, so it never confuses two of them. */
  lemma MaskRoundTrip(ty: FuncType)
    requires |ty.params| <= 13 && |ty.results| <= 1
    ensures Unmask(ThunkMask(ty)) == ty
  {
    hide MaskOf, Params, HeadIn;
    MaskDecodes(Head(ty.results), ty.params);
    if |ty.results| == 1 { assert ty.results == [FromNibble(Nibble(ty.results[0]))]; }
  }

  /** With fourteen parameters the leading 8 is shifted out; what is left is the mask that the
      result alone would have started. */
  function Bare(results: seq<ValType>): u64 { if |results| == 1 then Nibble(results[0]) * 16 else 0 }

  /** Every hexadecimal digit is at most 4. */
  predicate Small(m: nat) { m == 0 || (m % 16 <= 4 && Small(m / 16)) }

  lemma {:induction false} BareMask(results: seq<ValType>, params: seq<ValType>)
    requires |params| <= 14 && |results| <= 1
    ensures var m := MaskOf(Bare(results), params);
            Small(m) && m + 4 <= 0x44 * Hex(|params|)
            && MaskOf(Head(results), params) == if |params| == 14 then m else m + 0x800 * Hex(|params|)
    decreases |params|
  {
    hide Hex, Append, Small;
    HexKnown();
    var n := |params|;
    if n == 0 {
      assert Hex(0) == 1 by { HexNext(0); }
      BareSmall(results);
    } else {
      BareMask(results, params[..n - 1]);
      var t := params[n - 1];
      HexNext(n - 1);
      if n < 14 { HexAtMost(n - 1); }
      BareAppend(MaskOf(Bare(results), params[..n - 1]), Hex(n - 1), t, n);
    }
  }

  lemma BareSmall(results: seq<ValType>)
    requires |results| <= 1
    ensures Small(Bare(results)) && Bare(results) + 4 <= 0x44 && Head(results) == Bare(results) + 0x800
  {
    if |results| == 1 { assert Small(Nibble(results[0])) by { assert Small(0); } }
  }

  lemma HexNext(n: nat)
    ensures Hex(0) == 1 && Hex(n + 1) == 16 * Hex(n)
  {}

  lemma BareAppend(m: u64, x: nat, t: ValType, n: nat)
    requires m + 4 <= 0x44 * x && Small(m) && 0 < n <= 14
    requires if n == 14 then x == 0x10_0000_0000_0000 else x <= 0x1_0000_0000_0000
    ensures m + 0x800 * x < 0x1_0000_0000_0000_0000
    ensures Small(Append(m, t)) && Append(m, t) + 4 <= 0x44 * (16 * x)
    ensures Append(m + 0x800 * x, t) == if n == 14 then Append(m, t) else Append(m, t) + 0x800 * (16 * x)
  {
    hide Small;
    AppendIs(m, t);
    SmallAppend(m, Append(m, t), Nibble(t));
    if n < 14 { AppendIs(m + 0x800 * x, t); } else { Shifted(m, t); }
  }

  lemma SmallAppend(m: nat, a: nat, k: nat)
    requires Small(m) && a == m * 16 + k && k <= 4
    ensures Small(a)
  {
    assert a % 16 == k && a / 16 == m;
  }

  lemma Shifted(m: u64, t: ValType)
    requires m + 0x8000_0000_0000_0000 < 0x1_0000_0000_0000_0000
    ensures Append(m + 0x8000_0000_0000_0000, t) == Append(m, t)
  {}

  /** Stripping digits off a number of small digits never leads to a result head. */
  lemma {:induction false} SmallHead(m: u64)
    requires Small(m)
    ensures HeadIn(m) < 0x800
    decreases m
  {
    if m > 0x840 {
      SmallHead(m / 16);
    } else if m >= 0x800 {
      assert !Small(m / 16) by { assert m / 16 / 16 == 8; }
    }
  }

  /** A mask of fourteen parameters is none of a shorter signature. */
  lemma LongIsApart(a: FuncType, b: FuncType)
    requires |a.params| == 14 && |a.results| <= 1 && |b.params| <= 13 && |b.results| <= 1
    ensures ThunkMask(a) != ThunkMask(b)
  {
    hide MaskOf, HeadIn, Small, Params, Hex;
    BareMask(a.results, a.params);
    SmallHead(ThunkMask(a));
    MaskDecodes(Head(b.results), b.params);
  }

  lemma LongInjective(a: FuncType, b: FuncType)
    requires |a.params| == |b.params| == 14 && |a.results| <= 1 && |b.results| <= 1 && ThunkMask(a) == ThunkMask(b)
    ensures a == b
  {
    hide Small, Append, Hex;
    HexKnown();
    var a', b' := a.params[..13], b.params[..13];
    BareMask(a.results, a');
    BareMask(b.results, b');
    BareMask(a.results, a.params);
    BareMask(b.results, b.params);
    var x, y := MaskOf(Bare(a.results), a'), MaskOf(Bare(b.results), b');
    AppendDecodes(x, a.params[13]);
    AppendDecodes(y, b.params[13]);
    ShortInjective(FuncType(a', a.results), FuncType(b', b.results));
    assert a.params == a' + [a.params[13]] && b.params == b' + [b.params[13]];
  }

  lemma ShortInjective(a: FuncType, b: FuncType)
    requires |a.params| <= 13 && |a.results| <= 1 && |b.params| <= 13 && |b.results| <= 1
    requires ThunkMask(a) == ThunkMask(b)
    ensures a == b
  {
    hide ThunkMask, Unmask;
    MaskRoundTrip(a);
    MaskRoundTrip(b);
  }

  /** No two signatures with at most n parameters and one result have the same mask. */
  ghost predicate Separates(n: nat) {
    forall a: FuncType, b: FuncType ::
      |a.params| <= n && |b.params| <= n && |a.results| <= 1 && |b.results| <= 1 && ThunkMask(a) == ThunkMask(b)
      ==> a == b
  }

  /** With fifteen parameters the result is shifted out of the mask. */
  lemma MaskCollides(ps: seq<ValType>)
    requires |ps| == 15
    ensures ThunkMask(FuncType(ps, [])) == ThunkMask(FuncType(ps, [I32]))
  {
    hide Append, Small, Hex;
    HexKnown();
    var qs, t := ps[..14], ps[14];
    BareMask([], qs);
    BareMask([I32], qs);
    BareMask([], qs[..13]);
    BareMask([I32], qs[..13]);
    OneApart(qs, 14);
    CollidesAppend(MaskOf(Bare([]), qs), MaskOf(Bare([I32]), qs), t);
  }

  /** What the result adds to the mask. */
  lemma {:induction false} OneApart(params: seq<ValType>, n: nat)
    requires n == |params| <= 14
    ensures MaskOf(Bare([I32]), params) == MaskOf(Bare([]), params) + 16 * Hex(n)
    decreases n
  {
    hide Append, Small, Hex;
    HexKnown();
    if n == 0 {
      HexNext(0);
    } else {
      OneApart(params[..n - 1], n - 1);
      HexNext(n - 1);
      BareMask([], params[..n - 1]);
      BareMask([I32], params[..n - 1]);
      if n < 14 { HexAtMost(n - 1); }
      ApartAppend(MaskOf(Bare([]), params[..n - 1]), Hex(n - 1), params[n - 1]);
    }
  }

  lemma ApartAppend(m: u64, x: nat, t: ValType)
    requires m + 4 <= 0x44 * x && m + 16 * x + 4 <= 0x44 * x && x <= 0x10_0000_0000_0000
    ensures Append(m + 16 * x, t) == Append(m, t) + 16 * 16 * x
  {}

  lemma CollidesAppend(m: u64, m': u64, t: ValType)
    requires m' == m + 16 * 0x100_0000_0000_0000
    ensures Append(m', t) == Append(m, t)
  {}

  /** The mask tells signatures apart up to fourteen parameters and no further. */
  lemma MaskInjective(n: nat)
    ensures Separates(n) <==> n <= 14
  {
    hide ThunkMask;
    if n <= 14 {
      forall a: FuncType, b: FuncType |
        |a.params| <= n && |b.params| <= n && |a.results| <= 1 && |b.results| <= 1 && ThunkMask(a) == ThunkMask(b)
        ensures a == b
      {
        if |a.params| == 14 && |b.params| == 14 { LongInjective(a, b); }
        else if |a.params| == 14 { LongIsApart(a, b); }
        else if |b.params| == 14 { LongIsApart(b, a); }
        else { ShortInjective(a, b); }
      }
    } else {
      var ps := Copies(I32, 15);
      MaskCollides(ps);
      assert FuncType(ps, []) != FuncType(ps, [I32]);
    }
  }

  // ---------- dispatch ----------

  function Copies(t: ValType, n: nat): (s: seq<ValType>)
    ensures |s| == n
  {
    seq(n, _ => t)
  }

  /** The switch of thunk_out: the signature of the thunk a mask selects. */
  function ThunkFor(mask: u64): Option<FuncType> {
    if mask == 0x800 then Some(FuncType(Copies(I32, 0), []))
    else if mask == 0x8001 then Some(FuncType(Copies(I32, 1), []))
    else if mask == 0x80011 then Some(FuncType(Copies(I32, 2), []))
    else if mask == 0x8001111 then Some(FuncType(Copies(I32, 4), []))
    else if mask == 0x810 then Some(FuncType(Copies(I32, 0), [I32]))
    else if mask == 0x8101 then Some(FuncType(Copies(I32, 1), [I32]))
    else if mask == 0x81011 then Some(FuncType(Copies(I32, 2), [I32]))
    else if mask == 0x810111 then Some(FuncType(Copies(I32, 3), [I32]))
    else if mask == 0x8101111 then Some(FuncType(Copies(I32, 4), [I32]))
    else if mask == 0x81011111 then Some(FuncType(Copies(I32, 5), [I32]))
    else if mask == 0x80033 then Some(FuncType(Copies(F32, 2), []))
    else if mask == 0x800333 then Some(FuncType(Copies(F32, 3), []))
    else if mask == 0x8003333 then Some(FuncType(Copies(F32, 4), []))
    else if mask == 0x8303 then Some(FuncType(Copies(F32, 1), [F32]))
    else if mask == 0x800444444 then Some(FuncType(Copies(F64, 6), []))
    else if mask == 0x8103 then Some(FuncType(Copies(F32, 1), [I32]))
    else if mask == 0x8404 then Some(FuncType(Copies(F64, 1), [F64]))
    else None
  }

  predicate Supported(ty: FuncType) { ThunkFor(ThunkMask(ty)).Some? }

  /** Unmasking one more nibble appends one parameter. */
  lemma Grow(m: u64, n: u64, t: ValType, k: nat, results: seq<ValType>)
    requires 0x800 <= m && n / 16 == m && FromNibble(n % 16) == t
    requires Unmask(m) == FuncType(Copies(t, k), results)
    ensures Unmask(n) == FuncType(Copies(t, k + 1), results)
  {
    assert Copies(t, k) + [t] == Copies(t, k + 1);
  }

  lemma Heads(t: ValType)
    ensures Unmask(0x800) == FuncType(Copies(t, 0), []) && Unmask(0x810) == FuncType(Copies(t, 0), [I32])
    ensures Unmask(0x830) == FuncType(Copies(t, 0), [F32]) && Unmask(0x840) == FuncType(Copies(t, 0), [F64])
  {}

  lemma IntVoids()
    ensures Unmask(0x8001) == FuncType(Copies(I32, 1), [])
    ensures Unmask(0x80011) == FuncType(Copies(I32, 2), [])
    ensures Unmask(0x8001111) == FuncType(Copies(I32, 4), [])
  {
    hide Unmask, Copies;
    Heads(I32);
    Grow(0x800, 0x8001, I32, 0, []);
    Grow(0x8001, 0x80011, I32, 1, []);
    Grow(0x80011, 0x800111, I32, 2, []);
    Grow(0x800111, 0x8001111, I32, 3, []);
  }

  lemma FloatVoids()
    ensures Unmask(0x80033) == FuncType(Copies(F32, 2), [])
    ensures Unmask(0x800333) == FuncType(Copies(F32, 3), [])
    ensures Unmask(0x8003333) == FuncType(Copies(F32, 4), [])
    ensures Unmask(0x800444444) == FuncType(Copies(F64, 6), [])
  {
    hide Unmask, Copies;
    Heads(F32);
    Grow(0x800, 0x8003, F32, 0, []);
    Grow(0x8003, 0x80033, F32, 1, []);
    Grow(0x80033, 0x800333, F32, 2, []);
    Grow(0x800333, 0x8003333, F32, 3, []);
    Heads(F64);
    Grow(0x800, 0x8004, F64, 0, []);
    Grow(0x8004, 0x80044, F64, 1, []);
    Grow(0x80044, 0x800444, F64, 2, []);
    Grow(0x800444, 0x8004444, F64, 3, []);
    Grow(0x8004444, 0x80044444, F64, 4, []);
    Grow(0x80044444, 0x800444444, F64, 5, []);
  }

  lemma IntInts()
    ensures Unmask(0x8101) == FuncType(Copies(I32, 1), [I32])
    ensures Unmask(0x81011) == FuncType(Copies(I32, 2), [I32])
    ensures Unmask(0x810111) == FuncType(Copies(I32, 3), [I32])
    ensures Unmask(0x8101111) == FuncType(Copies(I32, 4), [I32])
    ensures Unmask(0x81011111) == FuncType(Copies(I32, 5), [I32])
  {
    hide Unmask, Copies;
    Heads(I32);
    Grow(0x810, 0x8101, I32, 0, [I32]);
    Grow(0x8101, 0x81011, I32, 1, [I32]);
    Grow(0x81011, 0x810111, I32, 2, [I32]);
    Grow(0x810111, 0x8101111, I32, 3, [I32]);
    Grow(0x8101111, 0x81011111, I32, 4, [I32]);
  }

  lemma Unaries()
    ensures Unmask(0x8103) == FuncType(Copies(F32, 1), [I32])
    ensures Unmask(0x8303) == FuncType(Copies(F32, 1), [F32])
    ensures Unmask(0x8404) == FuncType(Copies(F64, 1), [F64])
  {
    hide Unmask, Copies;
    Heads(F32);
    Grow(0x810, 0x8103, F32, 0, [I32]);
    Heads(F32);
    Grow(0x830, 0x8303, F32, 0, [F32]);
    Heads(F64);
    Grow(0x840, 0x8404, F64, 0, [F64]);
  }

  /** Every mask in the switch decodes to the signature of the thunk it selects. */
  lemma SwitchDecodes(mask: u64)
    requires ThunkFor(mask).Some?
    ensures Unmask(mask) == ThunkFor(mask).value
  {
    hide Unmask, Copies;
    Heads(I32);
    IntVoids();
    FloatVoids();
    IntInts();
    Unaries();
  }

  /** Behind n parameters the lowest n + 1 digits of a mask are not zero, whatever has been shifted
      out. */
  lemma {:induction false} LowDigits(h: u64, params: seq<ValType>, n: nat)
    requires n < |params| && n <= 10
    ensures MaskOf(h, params) % Hex(n + 1) >= Hex(n)
    decreases n
  {
    hide Hex, Append;
    var m, t := MaskOf(h, params[..|params| - 1]), params[|params| - 1];
    HexNext(n);
    HexParts(n);
    DigitsUp(m, t, Hex(n), Hex(15 - n));
    if n > 0 {
      LowDigits(h, params[..|params| - 1], n - 1);
      HexNext(n - 1);
    } else {
      HexNext(0);
    }
  }

  lemma {:induction false} HexParts(n: nat)
    requires n <= 15
    ensures Hex(15 - n) * (16 * Hex(n)) == 0x1_0000_0000_0000_0000
    decreases n
  {
    hide Hex;
    HexNext(n);
    if n == 0 {
      HexKnown();
      HexNext(14);
    } else {
      HexParts(n - 1);
      HexNext(n - 1);
      HexNext(15 - n);
      Swap(Hex(15 - n), Hex(n));
    }
  }

  lemma Swap(a: nat, b: nat)
    ensures a * (16 * b) == 16 * a * b
  {}

  lemma Divided(v: nat, d: nat) returns (q: nat, r: nat)
    requires d > 0
    ensures v == d * q + r && r < d && r == v % d
  {
    q, r := v / d, v % d;
  }

  /** Whatever is shifted out, the low digits move up by one. */
  lemma DigitsUp(m: u64, t: ValType, x: nat, k: nat)
    requires x > 0 && k > 0 && k * (16 * x) == 0x1_0000_0000_0000_0000
    ensures Append(m, t) % (16 * x) == m % x * 16 + Nibble(t)
  {
    hide Append;
    var q, r := Divided(m, x);
    var w, q' := Divided(q, k);
    DigitsLeft(m, t, x, k, w, q', r);
  }

  lemma DigitsLeft(m: u64, t: ValType, x: nat, k: nat, w: nat, q: nat, r: nat)
    requires q < k && r < x && m == x * (k * w + q) + r && k * (16 * x) == 0x1_0000_0000_0000_0000
    ensures Append(m, t) % (16 * x) == r * 16 + Nibble(t)
  {
    hide Append;
    Regroup(m, x, k, w, q, r);
    BelowTop(x, k, q, r);
    AppendLow(m, t, w, 16 * x * q + 16 * r);
    DivModUnique(16 * x * q + 16 * r + Nibble(t), 16 * x, q, 16 * r + Nibble(t));
  }

  lemma AppendLow(m: u64, t: ValType, w: nat, low: nat)
    requires m * 16 == 0x1_0000_0000_0000_0000 * w + low && low < 0x1_0000_0000_0000_0000
    ensures Append(m, t) == low + Nibble(t)
  {
    DivModUnique(m * 16, 0x1_0000_0000_0000_0000, w, low);
  }

  lemma Regroup(m: nat, x: nat, k: nat, w: nat, q: nat, r: nat)
    requires m == x * (k * w + q) + r
    ensures m * 16 == k * (16 * x) * w + (16 * x * q + 16 * r)
  {}

  lemma BelowTop(x: nat, k: nat, q: nat, r: nat)
    requires q < k && r < x
    ensures 16 * x * q + 16 * r < k * (16 * x)
  {
    AtMostProduct(q + 1, k, 16 * x);
  }

  /** A mask of the switch has fewer than ten digits; a long signature has more. */
  lemma SupportedIsShort(ty: FuncType)
    requires Supported(ty)
    ensures |ty.params| <= 10
  {
    hide MaskOf, Hex;
    if |ty.params| > 10 {
      LowDigits(Head(ty.results), ty.params, 10);
      HexKnown();
      HexNext(11); HexNext(10);
      assert false;
    }
  }

  /** The thunk that runs for an import is the one written for its own signature. */
  lemma DispatchIsExact(ty: FuncType)
    requires |ty.results| <= 1 && Supported(ty)
    ensures ThunkFor(ThunkMask(ty)) == Some(ty)
  {
    hide ThunkMask, ThunkFor, Unmask;
    SupportedIsShort(ty);
    SwitchDecodes(ThunkMask(ty));
    MaskRoundTrip(ty);
  }

  /** The host's side of an import: argument bits in declaration order to result bits. */
  type Host = (nat, seq<u64>) -> u64

  function HostResults(host: Host, f: nat, ty: FuncType, args: seq<Value>): (r: seq<Value>)
    ensures |r| <= 1
    ensures |ty.results| == 1 ==> TypesOf(r) == ty.results
  {
    if |ty.results| == 1 then [MkValue(ty.results[0], host(f, BitsOf(args)))] else []
  }
}
