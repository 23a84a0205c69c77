/**
 Binary digits: what the C operators on unsigned words do to them.
 */
module Bits {
  import opened Leb

  function Bit(x: nat, i: nat): (b: nat)
    ensures b <= 1
  {
    if i == 0 then x % 2 else Bit(x / 2, i - 1)
  }

  /** `n << k` in a word of the given width. */
  function ShiftLeft(n: nat, k: nat, width: nat): nat { n * Pow2(k) % Pow2(width) }

  /** `n >> k` */
  function ShiftRight(n: nat, k: nat): nat {
    if k == 0 then n else ShiftRight(n / 2, k - 1)
  }

  /** The C operators `&` and `^` on non-negative integers. */
  function BitAnd(x: nat, y: nat): nat
    decreases x + y
  {
    if x == 0 || y == 0 then 0
    else (if x % 2 == 1 && y % 2 == 1 then 1 else 0) + 2 * BitAnd(x / 2, y / 2)
  }

  function BitXor(x: nat, y: nat): nat
    decreases x + y
  {
    if x == 0 && y == 0 then 0
    else (if x % 2 != y % 2 then 1 else 0) + 2 * BitXor(x / 2, y / 2)
  }

  /** The number whose i-th digit is one exactly if f(i), for i < n. */
  function FromBits(f: nat -> bool, n: nat): (x: nat)
    ensures x < Pow2(n)
  {
    if n == 0 then 0 else (if f(0) then 1 else 0) + 2 * FromBits((i: nat) => f(i + 1), n - 1)
  }

  lemma {:induction false} BitZero(i: nat)
    ensures Bit(0, i) == 0
  {
    if i > 0 { BitZero(i - 1); }
  }

  lemma {:induction false} FromBitsBit(f: nat -> bool, n: nat, i: nat)
    requires i < n
    ensures Bit(FromBits(f, n), i) == if f(i) then 1 else 0
    decreases n
  {
    var g := (j: nat) => f(j + 1);
    var r := FromBits(g, n - 1);
    assert FromBits(f, n) == (if f(0) then 1 else 0) + 2 * r;
    if i > 0 {
      FromBitsBit(g, n - 1, i - 1);
      assert FromBits(f, n) / 2 == r;
    }
  }

  lemma {:induction false} SameBits(x: nat, y: nat, w: nat)
    requires x < Pow2(w) && y < Pow2(w) && forall i :: 0 <= i < w ==> Bit(x, i) == Bit(y, i)
    ensures x == y
    decreases w
  {
    if w > 0 {
      forall i | 0 <= i < w - 1 ensures Bit(x / 2, i) == Bit(y / 2, i) {
        assert Bit(x, i + 1) == Bit(y, i + 1);
      }
      SameBits(x / 2, y / 2, w - 1);
      assert Bit(x, 0) == Bit(y, 0);
    }
  }

  /** A word is determined by its digits. */
  lemma IsFromBits(x: nat, f: nat -> bool, n: nat)
    requires x < Pow2(n) && forall i :: 0 <= i < n ==> Bit(x, i) == if f(i) then 1 else 0
    ensures x == FromBits(f, n)
  {
    hide FromBits, Bit;
    forall i | 0 <= i < n ensures Bit(x, i) == Bit(FromBits(f, n), i) { FromBitsBit(f, n, i); }
    SameBits(x, FromBits(f, n), n);
  }

  // ---------- digits of shifted and combined words ----------

  lemma {:induction false} ShiftBit(x: nat, n: nat)
    ensures ShiftRight(x, n) % 2 == Bit(x, n) && ShiftRight(x, n) / 2 == ShiftRight(x, n + 1)
    decreases n
  {
    if n == 0 { assert ShiftRight(x, 1) == ShiftRight(x / 2, 0); } else { ShiftBit(x / 2, n - 1); }
  }

  lemma {:induction false} BitOfShiftRight(x: nat, k: nat, i: nat)
    ensures Bit(ShiftRight(x, k), i) == Bit(x, i + k)
    decreases k
  {
    if k > 0 { BitOfShiftRight(x / 2, k - 1, i); }
  }

  lemma {:induction false} ShiftRightSmaller(x: nat, k: nat)
    ensures ShiftRight(x, k) <= x
    decreases k
  {
    if k > 0 { ShiftRightSmaller(x / 2, k - 1); }
  }

  /** Digits of a number put together from high and low part. */
  lemma {:induction false} BitOfJoin(hi: nat, lo: nat, k: nat, i: nat)
    requires lo < Pow2(k)
    ensures Bit(hi * Pow2(k) + lo, i) == if i < k then Bit(lo, i) else Bit(hi, i - k)
    decreases k
  {
    if k > 0 {
      var h := hi * Pow2(k - 1);
      Regroup(hi, Pow2(k - 1));
      var x := hi * Pow2(k) + lo;
      assert x == 2 * h + lo;
      assert x / 2 == h + lo / 2 && x % 2 == lo % 2;
      if i > 0 { BitOfJoin(hi, lo / 2, k - 1, i - 1); }
    }
  }

  lemma {:induction false} ShiftRightJoin(hi: nat, lo: nat, k: nat)
    requires lo < Pow2(k)
    ensures ShiftRight(hi * Pow2(k) + lo, k) == hi
    decreases k
  {
    if k > 0 {
      var h := hi * Pow2(k - 1);
      Regroup(hi, Pow2(k - 1));
      var x := hi * Pow2(k) + lo;
      assert x == 2 * h + lo && x / 2 == h + lo / 2;
      ShiftRightJoin(hi, lo / 2, k - 1);
    }
  }

  lemma {:induction false} BitOfOr(x: nat, y: nat, i: nat)
    ensures Bit(BitOr(x, y), i) == if Bit(x, i) == 1 || Bit(y, i) == 1 then 1 else 0
    decreases i
  {
    OrHalves(x, y);
    if i > 0 { BitOfOr(x / 2, y / 2, i - 1); }
  }

  lemma OrHalves(x: nat, y: nat)
    ensures BitOr(x, y) % 2 == (if x % 2 == 1 || y % 2 == 1 then 1 else 0) && BitOr(x, y) / 2 == BitOr(x / 2, y / 2)
  {}

  lemma {:induction false} BitOfAnd(x: nat, y: nat, i: nat)
    ensures Bit(BitAnd(x, y), i) == if Bit(x, i) == 1 && Bit(y, i) == 1 then 1 else 0
    decreases i
  {
    AndHalves(x, y);
    if i > 0 { BitOfAnd(x / 2, y / 2, i - 1); }
  }

  lemma AndHalves(x: nat, y: nat)
    ensures BitAnd(x, y) % 2 == (if x % 2 == 1 && y % 2 == 1 then 1 else 0) && BitAnd(x, y) / 2 == BitAnd(x / 2, y / 2)
  {}

  lemma {:induction false} BitOfXor(x: nat, y: nat, i: nat)
    ensures Bit(BitXor(x, y), i) == if Bit(x, i) != Bit(y, i) then 1 else 0
    decreases i
  {
    XorHalves(x, y);
    if i > 0 { BitOfXor(x / 2, y / 2, i - 1); }
  }

  lemma XorHalves(x: nat, y: nat)
    ensures BitXor(x, y) % 2 == (if x % 2 != y % 2 then 1 else 0) && BitXor(x, y) / 2 == BitXor(x / 2, y / 2)
  {}

  /** The operators stay inside the word. */
  lemma {:induction false} WordOps(x: nat, y: nat, n: nat)
    requires x < Pow2(n) && y < Pow2(n)
    ensures BitOr(x, y) < Pow2(n) && BitAnd(x, y) < Pow2(n) && BitXor(x, y) < Pow2(n)
    decreases n
  {
    OrHalves(x, y);
    AndHalves(x, y);
    XorHalves(x, y);
    if n > 0 { WordOps(x / 2, y / 2, n - 1); }
  }
}
