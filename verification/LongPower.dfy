/**
 lpow of demo/pridwen: exponentiation by squaring on a signed 64-bit long with overflow
 detection, and the arithmetic of get_static_bump that uses it.
 */
module LongPower {

  predicate InLong(x: int) { -0x8000_0000_0000_0000 <= x < 0x8000_0000_0000_0000 }

  type long = x: int | -0x8000_0000_0000_0000 <= x < 0x8000_0000_0000_0000

  function Power(b: int, e: nat): int {
    if e == 0 then 1 else b * Power(b, e - 1)
  }

  /** __builtin_mul_overflow: the wrapped product, and whether it is the product. */
  method MulOverflow(a: long, b: long) returns (overflow: bool, r: long)
    ensures overflow == !InLong(a * b) && (!overflow ==> r == a * b)
  {
    var p := a * b;
    overflow := p < -0x8000_0000_0000_0000 || p >= 0x8000_0000_0000_0000;
    r := (p + 0x8000_0000_0000_0000) % 0x1_0000_0000_0000_0000 - 0x8000_0000_0000_0000;
  }

  // ---------- squaring ----------

  lemma Assoc(a: int, b: int, c: int)
    ensures a * b * c == a * (b * c) && a * b == b * a
  {}

  /** b^(2k) and b^(2k+1) in terms of the square. */
  lemma {:induction false} PowerHalves(b: int, k: nat)
    ensures Power(b, 2 * k) == Power(b * b, k) && Power(b, 2 * k + 1) == b * Power(b * b, k)
    decreases k
  {
    hide Power;
    if k == 0 {
      PowerStep(b, 0); PowerStep(b * b, 0);
    } else {
      PowerHalves(b, k - 1);
      PowerStep(b, 2 * k - 1);
      PowerStep(b * b, k - 1);
      PowerStep(b, 2 * k);
      Assoc(b, b, Power(b * b, k - 1));
    }
  }

  lemma PowerStep(b: int, e: nat)
    ensures Power(b, e + 1) == b * Power(b, e) && Power(b, 0) == 1
  {}

  lemma {:induction false} PowerOfSquare(b: int, k: nat)
    requires b != 0
    ensures Power(b * b, k) >= 1 && (k > 0 ==> Power(b * b, k) >= b * b)
    decreases k
  {
    hide Power;
    SquarePositive(b);
    PowerStep(b * b, 0);
    if k > 0 {
      PowerOfSquare(b, k - 1);
      PowerStep(b * b, k - 1);
      AtLeast(b * b, Power(b * b, k - 1));
    }
  }

  lemma SquarePositive(b: int)
    requires b != 0
    ensures b * b >= 1
  {
    if b > 0 { AtLeast(b, b); } else { AtLeast(-b, -b); assert (-b) * (-b) == b * b; }
  }

  lemma {:induction false} AtLeast(x: int, y: int)
    requires x >= 0 && y >= 1
    ensures x * y >= x
    decreases y
  {
    if y > 1 { AtLeast(x, y - 1); assert x * y == x * (y - 1) + x; }
  }

  /** A product outside long stays outside when multiplied by a positive number. */
  lemma StaysOut(x: int, y: int)
    requires !InLong(x) && y >= 1
    ensures !InLong(x * y)
  {
    if x > 0 { AtLeast(x, y); } else { AtLeast(-x, y); assert (-x) * y == -(x * y); }
  }

  /** No square is 2^63, so an overflowing square is already beyond the negative bound. */
  lemma SquareOut(b: int)
    requires !InLong(b * b)
    ensures b * b > 0x8000_0000_0000_0000 && b != 0
  {
    if b == 0 { assert false; }
    SquarePositive(b);
    var a := if b > 0 then b else -b;
    assert a * a == b * b;
    if a <= 3037000499 {
      Between(a, 3037000499);
    } else {
      Between(3037000500, a);
    }
  }

  lemma Between(a: int, b: int)
    requires 0 <= a <= b
    ensures a * a <= b * b
  {
    assert b * b - a * a == (b - a) * (b + a);
    Product(b - a, b + a);
  }

  lemma Product(a: int, b: int)
    requires a >= 0 && b >= 0
    ensures a * b >= 0
  {}

  /** An overflowing square rejects only results that do not fit. */
  lemma SquareRejects(out: int, b: int, k: nat)
    requires !InLong(b * b) && out != 0 && k > 0
    ensures !InLong(out * Power(b * b, k))
  {
    hide Power;
    SquareOut(b);
    PowerOfSquare(b, k);
    var p := Power(b * b, k);
    if out > 0 { AtLeast(p, out); Assoc(p, out, 1); } else { AtLeast(p, -out); assert p * (-out) == -(out * p); }
  }

  // ---------- lpow ----------

  /** What the loop keeps before and after it has halved the exponent. */
  ghost predicate Keeps(p: int, out: int, b: int, e: nat) {
    out * Power(b, e) == p && (b != 0 ==> out != 0)
  }

  ghost predicate KeepsSquare(p: int, out: int, b: int, k: nat) {
    out * Power(b * b, k) == p && (b != 0 ==> out != 0)
  }

  lemma Starts(base: int, exp: nat)
    ensures Keeps(Power(base, exp), 1, base, exp)
  {}

  lemma EvenStep(p: int, out: int, b: int, e: nat)
    requires Keeps(p, out, b, e) && e % 2 == 0
    ensures KeepsSquare(p, out, b, e / 2)
  {
    hide Power;
    PowerHalves(b, e / 2);
  }

  lemma OddStep(p: int, out: int, b: int, e: nat)
    requires Keeps(p, out, b, e) && e % 2 == 1
    ensures KeepsSquare(p, out * b, b, e / 2)
  {
    hide Power;
    PowerHalves(b, e / 2);
    Assoc(out, b, Power(b * b, e / 2));
    Nonzero(out, b);
  }

  lemma Nonzero(a: int, b: int)
    requires b != 0 ==> a != 0
    ensures b != 0 ==> a * b != 0
  {}

  lemma Doubles(p: int, out: int, b: int, k: nat)
    requires KeepsSquare(p, out, b, k)
    ensures Keeps(p, out, b * b, k) && (k == 0 ==> out == p)
  {
    hide Power;
    PowerStep(b * b, 0);
  }

  lemma ProductTooBig(p: int, out: int, b: int, k: nat)
    requires KeepsSquare(p, out, b, k) && !InLong(out) && b != 0
    ensures !InLong(p)
  {
    hide Power;
    PowerOfSquare(b, k);
    StaysOut(out, Power(b * b, k));
  }

  lemma SquareTooBig(p: int, out: int, b: int, k: nat)
    requires KeepsSquare(p, out, b, k) && !InLong(b * b) && k > 0
    ensures !InLong(p)
  {
    hide Power;
    SquareOut(b);
    SquareRejects(out, b, k);
  }

  /** lpow is exact: it returns 0 with the power in *out if and only if the power fits. */
  method LPow(base: long, exp: nat) returns (ret: int, out: long)
    ensures ret == 0 || ret == -1
    ensures ret == 0 <==> InLong(Power(base, exp))
    ensures ret == 0 ==> out == Power(base, exp)
  {
    hide Power, InLong, Keeps, KeepsSquare;
    ghost var p := Power(base, exp);
    Starts(base, exp);
    out := 1;
    var b, e := base, exp;
    var overflow: bool;
    while true
      invariant Keeps(p, out, b, e)
      decreases e
    {
      if e % 2 == 1 {
        OddStep(p, out, b, e);
        ghost var product, out0 := out * b, out;
        overflow, out := MulOverflow(out, b);
        if overflow {
          ZeroFits(out0, b);
          ProductTooBig(p, product, b, e / 2);
          return -1, out;
        }
      } else {
        EvenStep(p, out, b, e);
      }
      e := e / 2;
      Doubles(p, out, b, e);
      if e == 0 {
        IsLong(out);
        return 0, out;
      }
      ghost var root := b;
      overflow, b := MulOverflow(b, b);
      if overflow {
        SquareTooBig(p, out, root, e);
        return -1, out;
      }
    }
  }

  lemma ZeroFits(a: int, b: int)
    requires !InLong(a * b)
    ensures b != 0
  {}

  lemma IsLong(x: long)
    ensures InLong(x)
  {}

  // ---------- get_static_bump ----------

  ghost predicate Accepted(coefficient: long, exponent: nat) {
    InLong(Power(10, exponent)) && coefficient * Power(10, exponent) <= 0xffff_ffff
  }

  /** The arithmetic behind `STATIC_BUMP = digits [e digits]`, both numbers already read. */
  method StaticBump(coefficient: long, exponent: nat) returns (ret: int, bump: int)
    requires coefficient >= 0
    ensures ret == 0 || ret == -1
    ensures ret == 0 <==> Accepted(coefficient, exponent)
    ensures ret == 0 ==> bump == coefficient * Power(10, exponent)
  {
    hide Power;
    var r, scale := LPow(10, exponent);
    if r != 0 { return -1, 0; }
    var overflow, result := MulOverflow(scale, coefficient);
    Assoc(scale, coefficient, 1);
    if overflow {
      TenPositive(exponent);
      Product(scale, coefficient);
      return -1, 0;
    }
    if result > 0xffff_ffff { return -1, 0; }
    ret, bump := 0, result;
  }

  lemma {:induction false} TenPositive(e: nat)
    ensures Power(10, e) >= 1
  {
    if e > 0 { TenPositive(e - 1); }
  }

  /** The answer is right (a bump exactly when the value fits 32 bits) unless the coefficient is
      zero and the power of ten overflows: then the value is zero and fits, but is refused. */
  lemma StaticBumpExact(coefficient: long, exponent: nat)
    requires coefficient >= 0
    ensures (Accepted(coefficient, exponent) <==> coefficient * Power(10, exponent) <= 0xffff_ffff)
       <==> coefficient != 0 || InLong(Power(10, exponent))
  {
    hide Power;
    TenPositive(exponent);
    var p := Power(10, exponent);
    if coefficient != 0 { AtLeast(p, coefficient); Assoc(p, coefficient, 1); } else { assert coefficient * p == 0; }
  }

  /** The shortest input on which it is not: 0e19 is refused although its value is 0. */
  lemma ZeroRefused()
    ensures 0 * Power(10, 19) == 0 && !Accepted(0, 19) && Accepted(0, 18)
  {
    assert Power(10, 5) == 100_000;
    assert Power(10, 10) == 100_000 * Power(10, 5);
    assert Power(10, 15) == 100_000 * Power(10, 10);
    assert Power(10, 18) == 1_000 * Power(10, 15);
    assert Power(10, 19) == 10 * Power(10, 18);
  }
}
