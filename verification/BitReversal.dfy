/**
 swizzle of demo/sqlite: reverses as many low bits of its argument as limit has.
 */
module BitReversal {
  import opened Leb
  import opened Bits

  /** Number of significant bits: how often the loop shifts limit before it is zero. */
  function BitLength(limit: nat): (w: nat)
    ensures limit < Pow2(w)
  {
    if limit == 0 then 0 else 1 + BitLength(limit / 2)
  }

  /** The loop's accumulator after w turns: bit 0 of x went in first. */
  function Reversed(x: nat, w: nat): (r: nat)
    ensures r < Pow2(w)
  {
    if w == 0 then 0 else 2 * Reversed(x, w - 1) + Bit(x, w - 1)
  }

  method Swizzle(input: u32, limit: u32) returns (out: u32)
    ensures out == Reversed(input, BitLength(limit)) && BitLength(limit) <= 32
  {
    hide BitOr, Pow2, ShiftRight;
    Length32(limit);
    StartShift(input);
    var x, l := input, limit;
    out := 0;
    ghost var i := 0;
    while l != 0
      invariant i + BitLength(l) == BitLength(limit)
      invariant x == ShiftRight(input, i) && out == Reversed(input, i)
      decreases l
    {
      ShiftBit(input, i);
      RoomLeft(input, i);
      OrLowBit(out, x % 2);
      out := BitOr(out * 2 % 0x1_0000_0000, x % 2);
      x := x / 2;
      l := l / 2;
      i := i + 1;
    }
  }

  lemma StartShift(x: nat)
    ensures ShiftRight(x, 0) == x
  {}

  lemma Length32(limit: u32)
    ensures BitLength(limit) <= 32
  {
    LengthAtMost(limit, 32);
    Pow2Known();
  }

  lemma {:induction false} LengthAtMost(x: nat, w: nat)
    ensures x < Pow2(w) ==> BitLength(x) <= w
    decreases w
  {
    if w > 0 && x > 0 { LengthAtMost(x / 2, w - 1); }
  }

  /** No bit is lost while fewer than 32 have been taken over. */
  lemma RoomLeft(x: nat, i: nat)
    requires i < 32
    ensures 2 * Reversed(x, i) + 1 < 0x1_0000_0000
  {
    hide Pow2, Reversed;
    assert Reversed(x, i) < Pow2(i);
    Pow2AtMost(i, 31);
    assert Pow2(31) * 2 == Pow2(32) by { Pow2Twice(31); }
    Pow2Known();
  }

  lemma Pow2Twice(n: nat)
    ensures Pow2(n + 1) == 2 * Pow2(n)
  {}

  lemma OrLowBit(x: nat, b: nat)
    requires b <= 1 && 2 * x < 0x1_0000_0000
    ensures BitOr(x * 2 % 0x1_0000_0000, b) == 2 * x + b
  {
    assert x * 2 % 0x1_0000_0000 == 2 * x;
    if x == 0 && b == 0 {} else {
      OrRightZero(x);
      assert b / 2 == 0;
    }
  }

  lemma {:induction false} OrRightZero(y: nat)
    ensures BitOr(y, 0) == y
  {
    if y > 0 { OrRightZero(y / 2); }
  }

  /** Bit i of the result is bit w-1-i of the argument. */
  lemma {:induction false} ReversedBit(x: nat, w: nat, i: nat)
    requires i < w
    ensures Bit(Reversed(x, w), i) == Bit(x, w - 1 - i)
    decreases w
  {
    var r := Reversed(x, w - 1);
    assert (2 * r + Bit(x, w - 1)) / 2 == r;
    if i > 0 { ReversedBit(x, w - 1, i - 1); }
  }

  /** On w-bit numbers, reversing twice changes nothing: the map is a bijection of [0, 2^w). */
  lemma Involution(x: nat, w: nat)
    requires x < Pow2(w)
    ensures Reversed(Reversed(x, w), w) == x
  {
    var r := Reversed(x, w);
    forall i | 0 <= i < w ensures Bit(Reversed(r, w), i) == Bit(x, i) {
      ReversedBit(r, w, i);
      ReversedBit(x, w, w - 1 - i);
    }
    SameBits(Reversed(r, w), x, w);
  }

  lemma Injective(x: nat, y: nat, w: nat)
    requires x < Pow2(w) && y < Pow2(w)
    ensures Reversed(x, w) == Reversed(y, w) <==> x == y
  {
    Involution(x, w);
    Involution(y, w);
  }
}
