/**
 LEB128 integers as the decoder of util.cpp reads them: a loop that or-s seven-bit groups
 into a 64-bit accumulator, and a sign extension whose mask is computed at int width.
 */
module Leb {

  type byte = b: int | 0 <= b < 256
  type u32 = x: int | 0 <= x < 0x1_0000_0000
  type u64 = x: int | 0 <= x < 0x1_0000_0000_0000_0000


  datatype Option<+T> = None | Some(value: T)

  // ---------- binary arithmetic ----------

  function Pow2(n: nat): (p: nat)
    ensures p > 0
  {
    if n == 0 then 1 else 2 * Pow2(n - 1)
  }

  /** The C operator `|` on non-negative integers. */
  function BitOr(x: nat, y: nat): nat
    decreases x + y
  {
    if x == 0 && y == 0 then 0
    else (if x % 2 == 1 || y % 2 == 1 then 1 else 0) + 2 * BitOr(x / 2, y / 2)
  }

  lemma Pow2Known()
    ensures Pow2(0) == 1 && Pow2(7) == 128 && Pow2(14) == 0x4000 && Pow2(21) == 0x20_0000 && Pow2(28) == 0x1000_0000
    ensures Pow2(32) == 0x1_0000_0000 && Pow2(35) == 0x8_0000_0000 && Pow2(56) == 0x100_0000_0000_0000
    ensures Pow2(63) == 0x1_0000_0000_0000_0000 / 2 && Pow2(64) == 0x1_0000_0000_0000_0000
    ensures Pow2(70) == 64 * 0x1_0000_0000_0000_0000
  {
    hide Pow2;
    Pow2Four(0);
    Pow2Seven(0); Pow2Seven(7); Pow2Seven(14); Pow2Seven(21); Pow2Seven(28); Pow2Seven(35);
    Pow2Seven(42); Pow2Seven(49); Pow2Seven(56); Pow2Seven(63);
    Pow2Four(28);
    Pow2Four(63);
  }

  lemma Pow2Four(n: nat)
    ensures Pow2(0) == 1 && Pow2(n + 1) == 2 * Pow2(n) && Pow2(n + 4) == 16 * Pow2(n)
  {
    assert Pow2(n + 4) == 2 * Pow2(n + 3) == 4 * Pow2(n + 2) == 8 * Pow2(n + 1);
  }

  lemma Pow2Seven(n: nat)
    ensures Pow2(n + 7) == 128 * Pow2(n)
  {
    assert Pow2(n + 7) == 2 * Pow2(n + 6) == 4 * Pow2(n + 5) == 8 * Pow2(n + 4);
    assert Pow2(n + 4) == 2 * Pow2(n + 3) == 4 * Pow2(n + 2) == 8 * Pow2(n + 1);
  }

  lemma Regroup(b: int, p: int)
    ensures 128 * (b * p) == b * (128 * p) && 2 * (b * p) == b * (2 * p) == (2 * b) * p
  {}

  lemma AtMostProduct(b: nat, c: nat, p: nat)
    requires b <= c
    ensures 0 <= b * p <= c * p
  {}

  lemma {:induction false} OrWithZero(y: nat)
    ensures BitOr(0, y) == y
  {
    if y > 0 { OrWithZero(y / 2); }
  }

  lemma {:induction false} OrCommutes(x: nat, y: nat)
    ensures BitOr(x, y) == BitOr(y, x)
    decreases x + y
  {
    if x + y > 0 { OrCommutes(x / 2, y / 2); }
  }

  /** Or-ing a value below 2^k with a multiple of 2^k adds them: no bit is set twice. */
  lemma {:induction false} OrDisjoint(x: nat, m: nat, k: nat)
    requires x < Pow2(k)
    ensures BitOr(x, m * Pow2(k)) == x + m * Pow2(k)
    decreases k
  {
    if k == 0 {
      OrWithZero(m);
    } else {
      var h := m * Pow2(k - 1);
      Regroup(m, Pow2(k - 1));
      OrDisjoint(x / 2, m, k - 1);
      if x == 0 && h == 0 {} else { assert BitOr(x, 2 * h) == x % 2 + 2 * BitOr(x / 2, h); }
    }
  }

  lemma DivModUnique(v: nat, d: nat, q: nat, r: nat)
    requires 0 <= r < d && v == d * q + r
    ensures v / d == q && v % d == r
  {
    var q', r' := v / d, v % d;
    assert v == d * q' + r';
    if q' > q { MulStep(d, q, q'); }
    if q' < q { MulStep(d, q', q); }
  }

  lemma {:induction false} MulStep(d: nat, a: nat, b: nat)
    requires a < b
    ensures d * a + d <= d * b
    decreases b
  {
    assert d * b == d * (b - 1) + d;
    if a < b - 1 { MulStep(d, a, b - 1); }
  }

  // ---------- what a LEB128 string denotes ----------

  /** Number of bytes of the LEB128 string at pos; None when it runs off the end unterminated. */
  function LebLen(bytes: seq<byte>, pos: nat): (r: Option<nat>)
    ensures r.Some? ==> 0 < r.value && pos + r.value <= |bytes|
    decreases |bytes| - pos
  {
    if pos >= |bytes| then None
    else if bytes[pos] < 128 then Some(1)
    else match LebLen(bytes, pos + 1)
         case None => None
         case Some(n) => Some(n + 1)
  }

  /** Section 5.2.2 of WebAssembly Core 1.0: the unsigned value of the groups in len bytes. */
  function LebValue(bytes: seq<byte>, pos: nat, len: nat): nat
    requires pos + len <= |bytes|
    decreases len
  {
    if len == 0 then 0 else bytes[pos] % 128 + 128 * LebValue(bytes, pos + 1, len - 1)
  }

  /** Section 5.2.2: the two's complement reading of the same groups. */
  function SLebValue(bytes: seq<byte>, pos: nat, len: nat): int
    requires 0 < len && pos + len <= |bytes|
  {
    LebValue(bytes, pos, len) - (if bytes[pos + len - 1] % 128 >= 64 then Pow2(7 * len) else 0)
  }

  lemma {:induction false} LebValueBound(bytes: seq<byte>, pos: nat, len: nat)
    requires pos + len <= |bytes|
    ensures LebValue(bytes, pos, len) < Pow2(7 * len)
    decreases len
  {
    if len > 0 {
      LebValueBound(bytes, pos + 1, len - 1);
      Pow2Seven(7 * (len - 1));
      assert 7 * (len - 1) + 7 == 7 * len;
    }
  }

  lemma {:induction false} LebValueSnoc(bytes: seq<byte>, pos: nat, len: nat)
    requires pos + len < |bytes|
    ensures LebValue(bytes, pos, len + 1)
         == LebValue(bytes, pos, len) + bytes[pos + len] % 128 * Pow2(7 * len)
    decreases len
  {
    hide Pow2;
    if len == 0 {
      Pow2Known();
    } else {
      LebValueSnoc(bytes, pos + 1, len - 1);
      Pow2Seven(7 * (len - 1));
      assert 7 * (len - 1) + 7 == 7 * len;
      Regroup(bytes[pos + len] % 128, Pow2(7 * (len - 1)));
    }
  }

  /** A terminated string has its continuation bits set on all bytes but the last. */
  lemma {:induction false} LebLenShape(bytes: seq<byte>, pos: nat, i: nat)
    requires LebLen(bytes, pos).Some? && i < LebLen(bytes, pos).value
    ensures bytes[pos + i] >= 128 <==> i + 1 < LebLen(bytes, pos).value
    decreases i
  {
    if i > 0 && bytes[pos] >= 128 { LebLenShape(bytes, pos + 1, i - 1); }
  }

  // ---------- the decoder loop ----------

  /** `-(1 << k)` converted to 64 bits; `1 << k` is an int, so k must be below 32. */
  function SignMask(k: nat): u64
    requires k < 32
  {
    Pow2Known();
    Pow2AtMost(k, 32);
    0x1_0000_0000_0000_0000 - Pow2(k)
  }

  /** What read_LEB_ computes for a string of at most ten bytes (a longer one shifts a
      64-bit operand by 64 or more). None marks the one case in which the sign mask itself is
      undefined: `1 << shift` has type int, so a shift of 35 or more has no value. */
  function Decoded(bytes: seq<byte>, pos: nat, len: nat, maxbits: nat, sign: bool): (r: Option<u64>)
    requires 0 < len <= 10 && pos + len <= |bytes|
  {
    var v := LebValue(bytes, pos, len) % 0x1_0000_0000_0000_0000;
    if sign && 7 * len < maxbits && bytes[pos + len - 1] % 128 >= 64 then
      if 7 * len >= 32 then None else Some(BitOr(v, SignMask(7 * len)) % 0x1_0000_0000_0000_0000)
    else Some(v)
  }

  /** read_LEB_: the accumulator is the value of the groups read so far, cut to 64 bits. */
  method ReadLEB(bytes: seq<byte>, start: nat, maxbits: nat, sign: bool)
    returns (result: u64, pos: nat)
    requires LebLen(bytes, start).Some? && LebLen(bytes, start).value <= 10
    requires Decoded(bytes, start, LebLen(bytes, start).value, maxbits, sign).Some?
    ensures pos == start + LebLen(bytes, start).value
    ensures result == Decoded(bytes, start, LebLen(bytes, start).value, maxbits, sign).value
  {
    hide Pow2, BitOr;
    ghost var len := LebLen(bytes, start).value;
    pos := start;
    result := 0;
    var shift := 0;
    var byt: byte := 128;
    while byt >= 128
      invariant start <= pos <= start + len
      invariant shift == 7 * (pos - start)
      invariant result == LebValue(bytes, start, pos - start) % 0x1_0000_0000_0000_0000
      invariant byt >= 128 ==> pos < start + len
      invariant byt < 128 ==> pos == start + len && byt == bytes[pos - 1]
      decreases start + len - pos
    {
      byt := bytes[pos];
      LebLenShape(bytes, start, pos - start);
      OrStep(bytes, start, pos - start);
      result := BitOr(result, byt % 128 * Pow2(shift) % 0x1_0000_0000_0000_0000) % 0x1_0000_0000_0000_0000;
      pos := pos + 1;
      shift := shift + 7;
    }
    if sign && shift < maxbits && byt % 128 >= 64 {
      result := BitOr(result, SignMask(shift)) % 0x1_0000_0000_0000_0000;
    }
  }

  /** One turn of the loop: or-ing the shifted group extends the value by one group. */
  lemma OrStep(bytes: seq<byte>, pos: nat, i: nat)
    requires i < 10 && pos + i < |bytes|
    ensures BitOr(LebValue(bytes, pos, i) % 0x1_0000_0000_0000_0000,
                  bytes[pos + i] % 128 * Pow2(7 * i) % 0x1_0000_0000_0000_0000) % 0x1_0000_0000_0000_0000
         == LebValue(bytes, pos, i + 1) % 0x1_0000_0000_0000_0000
  {
    LebValueBound(bytes, pos, i);
    LebValueSnoc(bytes, pos, i);
    var v, b := LebValue(bytes, pos, i), bytes[pos + i] % 128;
    if i < 9 {
      OrGroup(v, b, 7 * i);
    } else {
      OrLastGroup(v, b);
    }
  }

  lemma OrGroup(v: nat, b: nat, k: nat)
    requires k <= 56 && v < Pow2(k) && b < 128
    ensures v + b * Pow2(k) < 0x1_0000_0000_0000_0000
    ensures BitOr(v % 0x1_0000_0000_0000_0000, b * Pow2(k) % 0x1_0000_0000_0000_0000) == v + b * Pow2(k)
  {
    hide BitOr, Pow2;
    assert Pow2(k) <= 0x100_0000_0000_0000 by { Pow2Known(); Pow2AtMost(k, 56); }
    AtMostProduct(b, 127, Pow2(k));
    OrDisjoint(v, b, k);
  }

  /** The tenth group keeps only its lowest bit: the rest is shifted out. */
  lemma OrLastGroup(v: nat, b: nat)
    requires v < Pow2(63)
    ensures BitOr(v % 0x1_0000_0000_0000_0000, b * Pow2(63) % 0x1_0000_0000_0000_0000) % 0x1_0000_0000_0000_0000
         == (v + b * Pow2(63)) % 0x1_0000_0000_0000_0000
  {
    hide BitOr, Pow2;
    var half := 0x8000_0000_0000_0000;
    assert Pow2(63) == half by { Pow2Known(); }
    assert b * half % 0x1_0000_0000_0000_0000 == b % 2 * half;
    assert (v + b * half) % 0x1_0000_0000_0000_0000 == v + b % 2 * half;
    OrDisjoint(v, b % 2, 63);
  }

  lemma {:induction false} Pow2AtMost(a: nat, b: nat)
    requires a <= b
    ensures Pow2(a) <= Pow2(b)
    decreases b
  {
    if a < b { Pow2AtMost(a, b - 1); }
  }

  lemma {:induction false} Pow2Split(a: nat, b: nat)
    ensures Pow2(a + b) == Pow2(a) * Pow2(b)
    decreases a
  {
    if a > 0 {
      Pow2Split(a - 1, b);
      Regroup(Pow2(a - 1), Pow2(b));
      assert Pow2(a + b) == 2 * Pow2(a - 1 + b);
    }
  }

  // ---------- the decoder against the standard ----------

  /** An unsigned reading is the standard's value, cut to the accumulator's 64 bits. */
  lemma UnsignedIsStandard(bytes: seq<byte>, pos: nat, len: nat, maxbits: nat)
    requires 0 < len <= 10 && pos + len <= |bytes|
    ensures Decoded(bytes, pos, len, maxbits, false) == Some(LebValue(bytes, pos, len) % 0x1_0000_0000_0000_0000)
    ensures len <= 9 ==> LebValue(bytes, pos, len) < 0x1_0000_0000_0000_0000
  {
    LebValueBound(bytes, pos, len);
    Pow2Known();
    if len <= 9 { Pow2AtMost(7 * len, 63); }
  }

  /** A signed 32-bit reading, truncated to 32 bits as its caller does, is the standard's value. */
  lemma Signed32IsStandard(bytes: seq<byte>, pos: nat, len: nat)
    requires 0 < len <= 5 && pos + len <= |bytes|
    ensures Decoded(bytes, pos, len, 32, true).Some?
    ensures Decoded(bytes, pos, len, 32, true).value % 0x1_0000_0000 == SLebValue(bytes, pos, len) % 0x1_0000_0000
  {
    hide BitOr, Pow2, LebValue;
    var v: int := LebValue(bytes, pos, len);
    LebValueBound(bytes, pos, len);
    if len == 5 {
      assert Pow2(7 * len) == 8 * 0x1_0000_0000 by { Pow2Known(); }
      SameLowBits(v, 0, 8);
    } else {
      assert v < 0x1000_0000 by { Pow2Known(); Pow2AtMost(7 * len, 28); }
      hide SignMask;
      MaskAdds(v, 7 * len);
      SameLowBits(v - Pow2(7 * len) + 0x1_0000_0000_0000_0000, v - Pow2(7 * len), 0x1_0000_0000);
    }
  }

  /** Numbers that differ by a multiple of 2^32 agree in their low 32 bits. */
  lemma SameLowBits(x: int, y: int, k: nat)
    ensures (x - k * 0x1_0000_0000) % 0x1_0000_0000 == x % 0x1_0000_0000
    ensures x == y + k * 0x1_0000_0000 ==> x % 0x1_0000_0000 == y % 0x1_0000_0000
    ensures x >= 0 ==> x % 0x1_0000_0000_0000_0000 % 0x1_0000_0000 == x % 0x1_0000_0000
  {}

  /** A signed 64-bit reading is the standard's value exactly when the mask is not needed
      (non-negative, or ten bytes) or still fits an int (at most four bytes). */
  lemma Signed64IsStandard(bytes: seq<byte>, pos: nat, len: nat)
    requires 0 < len <= 10 && pos + len <= |bytes|
    ensures var d := Decoded(bytes, pos, len, 64, true);
            (d.Some? && d.value == SLebValue(bytes, pos, len) % 0x1_0000_0000_0000_0000)
            <==> (len <= 4 || len == 10 || bytes[pos + len - 1] % 128 < 64)
  {
    hide BitOr, Pow2, LebValue;
    var v: int := LebValue(bytes, pos, len);
    LebValueBound(bytes, pos, len);
    if len <= 4 {
      assert v < 0x1000_0000 by { Pow2Known(); Pow2AtMost(7 * len, 28); }
      MaskAdds(v, 7 * len);
    } else if len == 10 {
      var m := 0x1_0000_0000_0000_0000;
      assert (v - 64 * m) % m == v % m;
      assert Pow2(7 * len) == 64 * m by { Pow2Known(); }
    }
  }

  /** Or-ing the mask -(1 << k) subtracts 2^k, modulo 2^64. */
  lemma MaskAdds(v: nat, k: nat)
    requires k < 32 && v < Pow2(k)
    ensures BitOr(v, SignMask(k)) == v + 0x1_0000_0000_0000_0000 - Pow2(k) < 0x1_0000_0000_0000_0000
    ensures (v - Pow2(k)) % 0x1_0000_0000_0000_0000 == v + 0x1_0000_0000_0000_0000 - Pow2(k)
  {
    hide BitOr, Pow2;
    Pow2Known();
    Pow2Split(64 - k, k);
    var m := Pow2(64 - k) - 1;
    assert m * Pow2(k) == Pow2(64 - k) * Pow2(k) - Pow2(k) == 0x1_0000_0000_0000_0000 - Pow2(k);
    OrDisjoint(v, m, k);
  }

  // ---------- canonical encodings and the round trip ----------

  function Encode(v: nat): (e: seq<byte>)
    ensures |e| > 0
  {
    if v < 128 then [v] else [128 + v % 128] + Encode(v / 128)
  }

  function EncodeSigned(v: int): (e: seq<byte>)
    ensures |e| > 0
    decreases if v < 0 then -v else v
  {
    if -64 <= v < 64 then [v % 128] else [128 + v % 128] + EncodeSigned(v / 128)
  }

  predicate Holds(bytes: seq<byte>, pos: nat, e: seq<byte>) {
    pos + |e| <= |bytes| && forall i :: 0 <= i < |e| ==> e[i] == bytes[pos + i]
  }

  lemma HoldsParts(bytes: seq<byte>, pos: nat, a: seq<byte>, b: seq<byte>)
    requires Holds(bytes, pos, a + b)
    ensures Holds(bytes, pos, a) && Holds(bytes, pos + |a|, b)
  {
    forall i | 0 <= i < |a| ensures a[i] == bytes[pos + i] { assert (a + b)[i] == a[i]; }
    forall i | 0 <= i < |b| ensures b[i] == bytes[pos + |a| + i] { assert (a + b)[|a| + i] == b[i]; }
  }

  lemma HoldsTail(bytes: seq<byte>, pos: nat, b: byte, e: seq<byte>)
    requires Holds(bytes, pos, [b] + e)
    ensures bytes[pos] == b && Holds(bytes, pos + 1, e)
  {
    assert ([b] + e)[0] == b;
    forall i | 0 <= i < |e| ensures e[i] == bytes[pos + 1 + i] {
      assert ([b] + e)[i + 1] == e[i];
    }
  }

  lemma {:induction false} EncodeDecodes(v: nat, bytes: seq<byte>, pos: nat)
    requires Holds(bytes, pos, Encode(v))
    ensures LebLen(bytes, pos) == Some(|Encode(v)|)
    ensures LebValue(bytes, pos, |Encode(v)|) == v
    decreases v
  {
    if v < 128 {
      assert Encode(v)[0] == v;
      assert LebValue(bytes, pos + 1, 0) == 0;
    } else {
      HoldsTail(bytes, pos, 128 + v % 128, Encode(v / 128));
      EncodeDecodes(v / 128, bytes, pos + 1);
    }
  }

  lemma {:induction false} EncodeSignedDecodes(v: int, bytes: seq<byte>, pos: nat)
    requires Holds(bytes, pos, EncodeSigned(v))
    ensures LebLen(bytes, pos) == Some(|EncodeSigned(v)|)
    ensures SLebValue(bytes, pos, |EncodeSigned(v)|) == v
    ensures v >= 0 <==> bytes[pos + |EncodeSigned(v)| - 1] % 128 < 64
    decreases if v < 0 then -v else v
  {
    hide Pow2, BitOr, LebLen, LebValue;
    if -64 <= v < 64 {
      assert EncodeSigned(v)[0] == v % 128;
      OneByte(bytes, pos);
    } else {
      var b: byte, rest := 128 + v % 128, EncodeSigned(v / 128);
      HoldsTail(bytes, pos, b, rest);
      EncodeSignedDecodes(v / 128, bytes, pos + 1);
      OneMoreByte(bytes, pos, |rest|);
      assert |EncodeSigned(v)| == |rest| + 1;
    }
  }

  lemma OneByte(bytes: seq<byte>, pos: nat)
    requires pos < |bytes| && bytes[pos] < 128
    ensures LebLen(bytes, pos) == Some(1) && LebValue(bytes, pos, 1) == bytes[pos] && Pow2(7) == 128
  {
    assert LebValue(bytes, pos + 1, 0) == 0;
  }

  lemma OneMoreByte(bytes: seq<byte>, pos: nat, n: nat)
    requires pos < |bytes| && bytes[pos] >= 128 && LebLen(bytes, pos + 1) == Some(n)
    ensures LebLen(bytes, pos) == Some(n + 1)
    ensures LebValue(bytes, pos, n + 1) == bytes[pos] % 128 + 128 * LebValue(bytes, pos + 1, n)
    ensures Pow2(7 * (n + 1)) == 128 * Pow2(7 * n)
  {
    Pow2Seven(7 * n);
    assert 7 * n + 7 == 7 * (n + 1);
  }

  lemma {:induction false} EncodeLength(v: nat, k: nat)
    requires v < Pow2(7 * k) && 0 < k
    ensures |Encode(v)| <= k
    decreases k
  {
    if v >= 128 {
      Pow2Known();
      Pow2Seven(7 * (k - 1));
      assert 7 * (k - 1) + 7 == 7 * k;
      if k == 1 { assert false; }
      EncodeLength(v / 128, k - 1);
    }
  }

  lemma {:induction false} EncodeSignedLength(v: int, k: nat)
    requires 0 < k && 0 <= 2 * v + Pow2(7 * k) && 2 * v < Pow2(7 * k)
    ensures |EncodeSigned(v)| <= k
    decreases k
  {
    if !(-64 <= v < 64) {
      Pow2Known();
      Pow2Seven(7 * (k - 1));
      assert 7 * (k - 1) + 7 == 7 * k;
      if k == 1 { assert false; }
      EncodeSignedLength(v / 128, k - 1);
    }
  }

  /** Every uint32 and uint64, encoded anywhere in the module, is read back unchanged. */
  lemma UnsignedRoundTrip(v: u64, bytes: seq<byte>, pos: nat, maxbits: nat)
    requires Holds(bytes, pos, Encode(v))
    ensures LebLen(bytes, pos) == Some(|Encode(v)|) && |Encode(v)| <= 10
    ensures v < 0x1_0000_0000 ==> |Encode(v)| <= 5
    ensures Decoded(bytes, pos, |Encode(v)|, maxbits, false) == Some(v)
  {
    hide Pow2, BitOr, Encode, LebValue;
    Pow2Known();
    EncodeLength(v, 10);
    if v < 0x1_0000_0000 { EncodeLength(v, 5); }
    EncodeDecodes(v, bytes, pos);
  }

  /** Every int32 is read back, once the caller truncates the result to 32 bits. */
  lemma Int32RoundTrip(v: int, bytes: seq<byte>, pos: nat)
    requires -0x1_0000_0000 / 2 <= v < 0x1_0000_0000 / 2
    requires Holds(bytes, pos, EncodeSigned(v))
    ensures LebLen(bytes, pos) == Some(|EncodeSigned(v)|) && |EncodeSigned(v)| <= 5
    ensures Decoded(bytes, pos, |EncodeSigned(v)|, 32, true).Some?
    ensures Decoded(bytes, pos, |EncodeSigned(v)|, 32, true).value % 0x1_0000_0000 == v % 0x1_0000_0000
  {
    hide Pow2, BitOr, EncodeSigned, LebValue;
    Pow2Known();
    EncodeSignedLength(v, 5);
    EncodeSignedDecodes(v, bytes, pos);
    Signed32IsStandard(bytes, pos, |EncodeSigned(v)|);
  }

  /** An int64 is read back if and only if it is non-negative or its encoding does not take
      five to nine bytes. */
  lemma Int64RoundTrip(v: int, bytes: seq<byte>, pos: nat)
    requires -0x1_0000_0000_0000_0000 / 2 <= v < 0x1_0000_0000_0000_0000 / 2
    requires Holds(bytes, pos, EncodeSigned(v))
    ensures LebLen(bytes, pos) == Some(|EncodeSigned(v)|) && |EncodeSigned(v)| <= 10
    ensures Decoded(bytes, pos, |EncodeSigned(v)|, 64, true) == Some(v % 0x1_0000_0000_0000_0000)
       <==> (v >= 0 || |EncodeSigned(v)| <= 4 || |EncodeSigned(v)| == 10)
  {
    hide Pow2, BitOr, EncodeSigned, LebValue;
    Pow2Known();
    EncodeSignedLength(v, 10);
    EncodeSignedDecodes(v, bytes, pos);
    Signed64IsStandard(bytes, pos, |EncodeSigned(v)|);
  }
}
