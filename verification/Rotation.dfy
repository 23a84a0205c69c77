/**
 rotl32, rotr32, rotl64 and rotr64 of util.cpp, for a word of `width` bits (32 or 64).
 */
module Rotation {
  import opened Leb
  import opened Bits

  /** `(-c) & mask` for a count already reduced. */
  function Complement(k: nat, width: nat): (r: nat)
    requires k < width
    ensures r < width && (k > 0 ==> r == width - k)
  {
    if k == 0 then 0 else width - k
  }

  /** The shifts and the `|`, for a count reduced modulo the width. */
  function LeftBy(n: nat, k: nat, width: nat): nat
    requires k < width
  {
    BitOr(ShiftLeft(n, k, width), ShiftRight(n, Complement(k, width)))
  }

  function RightBy(n: nat, k: nat, width: nat): nat
    requires k < width
  {
    BitOr(ShiftRight(n, k), ShiftLeft(n, Complement(k, width), width))
  }

  function RotateLeft(n: nat, c: u32, width: nat): nat
    requires width in {32, 64}
  {
    LeftBy(n, c % width, width)
  }

  function RotateRight(n: nat, c: u32, width: nat): nat
    requires width in {32, 64}
  {
    RightBy(n, c % width, width)
  }

  lemma {:induction false} OrSelf(x: nat)
    ensures BitOr(x, x) == x
    decreases x
  {
    if x > 0 { OrSelf(x / 2); }
  }

  /** n cut below its k high bits. */
  lemma Halves(n: nat, k: nat, width: nat) returns (hi: nat, lo: nat)
    requires k <= width && n < Pow2(width)
    ensures n == hi * Pow2(width - k) + lo && lo < Pow2(width - k) && hi < Pow2(k)
  {
    hide Pow2;
    var p := Pow2(width - k);
    Pow2Split(width - k, k);
    hi, lo := n / p, n % p;
    assert n == p * hi + lo;
    if hi >= Pow2(k) { AtMostProduct(Pow2(k), hi, p); assert false; }
  }

  lemma Shifts(hi: nat, lo: nat, k: nat, width: nat)
    requires k <= width && hi < Pow2(k) && lo < Pow2(width - k)
    ensures hi * Pow2(width - k) + lo < Pow2(width)
    ensures ShiftRight(hi * Pow2(width - k) + lo, width - k) == hi
    ensures ShiftLeft(hi * Pow2(width - k) + lo, k, width) == lo * Pow2(k)
  {
    hide Pow2;
    Pow2Split(width - k, k);
    InWord(hi, lo, Pow2(width - k), Pow2(k));
    ShiftRightJoin(hi, lo, width - k);
    Remainder(hi, lo * Pow2(k), Pow2(width - k) * Pow2(k));
  }

  lemma InWord(hi: nat, lo: nat, p: nat, q: nat)
    requires hi < q && lo < p
    ensures hi * p + lo < p * q && lo * q < p * q && (hi * p + lo) * q == hi * (p * q) + lo * q
  {
    AtMostProduct(hi, q - 1, p);
    AtMostProduct(lo, p - 1, q);
    Expand(hi, lo, p, q);
  }

  lemma Expand(hi: nat, lo: nat, p: nat, q: nat)
    ensures (hi * p + lo) * q == hi * (p * q) + lo * q && (p - 1) * q == p * q - q && (q - 1) * p == p * q - p
  {}

  lemma Remainder(hi: nat, r: nat, m: nat)
    requires r < m
    ensures (hi * m + r) % m == r
  {
    DivModUnique(hi * m + r, m, hi, r);
  }

  lemma SwapsBy(hi: nat, lo: nat, k: nat, width: nat)
    requires k < width && hi < Pow2(k) && lo < Pow2(width - k)
    ensures LeftBy(hi * Pow2(width - k) + lo, k, width) == lo * Pow2(k) + hi
    ensures RightBy(lo * Pow2(k) + hi, k, width) == hi * Pow2(width - k) + lo
  {
    hide Pow2, BitOr, ShiftLeft, ShiftRight;
    Shifts(hi, lo, k, width);
    Shifts(lo, hi, width - k, width);
    if k == 0 {
      assert Pow2(0) == 1 && hi == 0 by { Pow2Known(); }
      OrSelf(lo);
    } else {
      OrDisjoint(hi, lo, k);
      OrCommutes(lo * Pow2(k), hi);
      OrDisjoint(lo, hi, width - k);
    }
  }

  /** Section 4.3.2 of WebAssembly Core 1.0: rotating left by k moves the k high bits below the
      others; rotating right by k moves them back. */
  lemma RotateSwaps(hi: nat, lo: nat, k: nat, c: u32, width: nat)
    requires width in {32, 64} && k == c % width && hi < Pow2(k) && lo < Pow2(width - k)
    ensures hi * Pow2(width - k) + lo < Pow2(width) && lo * Pow2(k) + hi < Pow2(width)
    ensures RotateLeft(hi * Pow2(width - k) + lo, c, width) == lo * Pow2(k) + hi
    ensures RotateRight(lo * Pow2(k) + hi, c, width) == hi * Pow2(width - k) + lo
  {
    hide Pow2, LeftBy, RightBy;
    Shifts(hi, lo, k, width);
    Shifts(lo, hi, width - k, width);
    SwapsBy(hi, lo, k, width);
  }

  /** Rotations by the same count undo each other, for every word and every count. */
  lemma RotateInverse(n: nat, c: u32, width: nat)
    requires width in {32, 64} && n < Pow2(width)
    ensures RotateLeft(n, c, width) < Pow2(width) && RotateRight(RotateLeft(n, c, width), c, width) == n
    ensures RotateRight(n, c, width) < Pow2(width) && RotateLeft(RotateRight(n, c, width), c, width) == n
  {
    hide Pow2, RotateLeft, RotateRight;
    var k := c % width;
    var hi, lo := Halves(n, k, width);
    RotateSwaps(hi, lo, k, c, width);
    var hi', lo' := Halves(n, width - k, width);
    RotateSwaps(lo', hi', k, c, width);
  }

  /** The digits of a rotated word, as section 4.3.2 describes them. */
  lemma RotateLeftBit(n: nat, c: u32, width: nat, i: nat)
    requires width in {32, 64} && n < Pow2(width) && i < width
    ensures Bit(RotateLeft(n, c, width), i) == Bit(n, (i - c) % width)
  {
    hide Pow2, RotateLeft, RotateRight, Bit;
    var k := c % width;
    var hi, lo := Halves(n, k, width);
    RotateSwaps(hi, lo, k, c, width);
    BitOfJoin(lo, hi, k, i);
    Wrapped(i, c, width);
    BitOfJoin(hi, lo, width - k, (i - c) % width);
  }

  lemma RotateRightBit(n: nat, c: u32, width: nat, i: nat)
    requires width in {32, 64} && n < Pow2(width) && i < width
    ensures Bit(RotateRight(n, c, width), i) == Bit(n, (i + c) % width)
  {
    hide Pow2, RotateLeft, RotateRight, Bit;
    var k := c % width;
    var lo, hi := Halves(n, width - k, width);
    RotateSwaps(hi, lo, k, c, width);
    BitOfJoin(hi, lo, width - k, i);
    Wrapped(i, c, width);
    BitOfJoin(lo, hi, k, (i + c) % width);
  }

  lemma Wrapped(i: nat, c: nat, width: nat)
    requires width in {32, 64} && i < width
    ensures var k := c % width;
            (i - c) % width == (if i >= k then i - k else i - k + width)
            && (i + c) % width == if i + k < width then i + k else i + k - width
  {
    if width == 32 { Wrapped32(i, c); } else { Wrapped64(i, c); }
  }

  lemma Wrapped32(i: nat, c: nat)
    requires i < 32
    ensures var k := c % 32;
            (i - c) % 32 == (if i >= k then i - k else i - k + 32)
            && (i + c) % 32 == if i + k < 32 then i + k else i + k - 32
  {}

  lemma Wrapped64(i: nat, c: nat)
    requires i < 64
    ensures var k := c % 64;
            (i - c) % 64 == (if i >= k then i - k else i - k + 64)
            && (i + c) % 64 == if i + k < 64 then i + k else i + k - 64
  {}
}
