/**
 Linear memory, section 4.4.4 of WebAssembly Core 1.0: the interpreter's bounds check is the
 unbounded one, stores and loads round-trip, and growing only ever appends cleared pages.
 */
module MemoryLaws {
  import opened Leb
  import opened Wasm
  import opened Machine

  // ---------- bounds ----------

  /** The check on pointers, with its 32-bit product and sum, is the check on unbounded numbers
      for every access if and only if the memory has fewer than 65536 pages. */
  lemma BoundsExact(m: Memory)
    requires m.pages < 0x1_0000_0000
    ensures (forall addr: u32, offset: u32, size: nat :: size > 0 ==>
               (InBounds(m, addr, offset, size) <==> addr + offset + size <= m.pages * 0x1_0000))
       <==> m.pages < 0x1_0000
  {
    if m.pages >= 0x1_0000 {
      var end: u32 := m.pages * 0x1_0000 % 0x1_0000_0000;
      assert !InBounds(m, end, 0, 1) && end + 0 + 1 <= m.pages * 0x1_0000;
    }
  }

  // ---------- bytes ----------

  function Pow256(n: nat): (p: nat)
    ensures p > 0
  {
    if n == 0 then 1 else 256 * Pow256(n - 1)
  }

  lemma ReachIsPower(n: nat)
    requires n in {1, 2, 4, 8}
    ensures Reach(n) == Pow256(n)
  {
    assert Pow256(1) == 256 * Pow256(0);
    assert Pow256(2) == 256 * Pow256(1);
    assert Pow256(4) == 256 * Pow256(3) == 0x1_0000 * Pow256(2);
    if n == 8 {
      assert Pow256(6) == 256 * Pow256(5) == 0x1_0000 * Pow256(4);
      assert Pow256(8) == 256 * Pow256(7) == 0x1_0000 * Pow256(6);
    }
  }

  /** Writing n bytes and reading them back gives the value modulo 256^n. */
  lemma {:induction false} BytesRoundTrip(v: nat, n: nat)
    ensures LittleEndian(LowBytes(v, n)) == v % Pow256(n)
    decreases n
  {
    if n > 0 {
      BytesRoundTrip(v / 256, n - 1);
      var p := Pow256(n - 1);
      assert LowBytes(v, n)[1..] == LowBytes(v / 256, n - 1);
      ModSplit(v, p);
    }
  }

  lemma ModSplit(v: nat, p: nat)
    requires p > 0
    ensures v % (256 * p) == v % 256 + 256 * (v / 256 % p)
  {
    var q, r := v / 256 / p, v / 256 % p;
    assert v / 256 == p * q + r;
    assert v == 256 * (p * q + r) + v % 256;
    assert 256 * (p * q) == (256 * p) * q;
    var low := v % 256 + 256 * r;
    assert 0 <= low < 256 * p by { assert r <= p - 1; }
    DivModUnique(v, 256 * p, q, low);
  }

  // ---------- store, then load ----------

  /** Bytes of an operand of type t. */
  function Bytes(t: ValType): nat { if Wide(t) then 8 else 4 }

  /** What a load of the given kind makes of the stored bits: they are cut to the bytes moved
      and sign- or zero-extended to the operand type. */
  ghost predicate Extends(w: Width, stored: u64, loaded: u64)
    requires w.size in {1, 2, 4, 8}
  {
    loaded < Reach(Bytes(w.ty)) &&
    if w.signed then
      TwosComplement(loaded, Reach(Bytes(w.ty))) == TwosComplement(stored % Reach(w.size), Reach(w.size))
    else loaded == stored % Reach(w.size)
  }

  lemma ExtendMeans(w: Width, stored: u64)
    requires w.size in {1, 2, 4, 8} && (!Wide(w.ty) ==> w.size <= 4)
    ensures var v := Extend(w, stored % Reach(w.size)) % 0x1_0000_0000_0000_0000;
            Extends(w, stored, Cut(w.ty, v))
  {
    var low := stored % Reach(w.size);
    assert 0 <= low < Reach(w.size) <= Reach(Bytes(w.ty));
  }

  /** A load at the address of a preceding store of the same width. */
  lemma StoreThenLoad(m: Memory, st: byte, ld: byte, ea: nat, bits: u64)
    requires 0x36 <= st <= 0x3e && 0x28 <= ld <= 0x35 && Access(ld).size == Access(st).size
    requires ea + Access(st).size <= |m.bytes|
    ensures var v := ReadMemory(WriteMemory(m, st, ea, bits), ld, ea);
            v.ty == Access(ld).ty && Extends(Access(ld), bits, v.bits)
  {
    hide Access, Extend, Extends, LowBytes, LittleEndian;
    var n := Access(st).size;
    var m' := WriteMemory(m, st, ea, bits);
    assert m'.bytes[ea..ea + n] == LowBytes(bits, n);
    BytesRoundTrip(bits, n);
    ReachIsPower(n);
    ExtendMeans(Access(ld), bits);
  }

  /** A store changes no byte outside its range. */
  lemma StoreFrame(m: Memory, st: byte, ea: nat, bits: u64, j: nat)
    requires 0x36 <= st <= 0x3e && ea + Access(st).size <= |m.bytes| && j < |m.bytes|
    requires j < ea || ea + Access(st).size <= j
    ensures WriteMemory(m, st, ea, bits).bytes[j] == m.bytes[j]
  {
    hide Access, LowBytes;
  }

  // ---------- the buffer behind the memory ----------

  /** memory.bytes with its slack: the source allocates four bytes for each byte of memory. */
  datatype Buffer = Buffer(pages: nat, max: nat, raw: seq<byte>)
  {
    /** The memory the program sees. */
    function Shown(): Memory
      requires pages * 0x1_0000 <= |raw|
    {
      Memory(pages, max, raw[..pages * 0x1_0000])
    }
  }

  /** Sizes as acalloc and arecalloc leave them, and nothing written behind the last page. */
  ghost predicate SlackClear(raw: seq<byte>, pages: nat) {
    |raw| == 4 * pages * 0x1_0000 && Cleared(raw, pages * 0x1_0000)
  }

  ghost predicate BufferOk(b: Buffer) { b.pages <= b.max <= 0x8000 && SlackClear(b.raw, b.pages) }

  ghost predicate Cleared(b: seq<byte>, from: nat) {
    forall j :: from <= j < |b| ==> b[j] == 0
  }

  /** arecalloc on counts of elements of the given size: realloc keeps what there was, and memset
      clears from the old end of the block. */
  function Recalloc(raw: seq<byte>, was: nat, count: nat, size: nat): (r: seq<byte>)
    requires |raw| == was * size && was <= count
  {
    raw + Zeros(count * size - was * size)
  }

  /** The memset starts four times as far as the new pages do, so they read as zero if and only if
      the slack they take over does. */
  lemma ClearedIffSlack(b: Buffer, delta: nat)
    requires |b.raw| == 4 * b.pages * 0x1_0000
    ensures var now, was := (b.pages + delta) * 0x1_0000, b.pages * 0x1_0000;
            var raw := Recalloc(b.raw, was, now, 4);
            |raw| == 4 * now
            && (raw[..now] == b.raw[..was] + Zeros(now - was)
                <==> forall j :: was <= j < now && j < |b.raw| ==> b.raw[j] == 0)
  {
    var now, was := (b.pages + delta) * 0x1_0000, b.pages * 0x1_0000;
    var raw := Recalloc(b.raw, was, now, 4);
    var clear := b.raw[..was] + Zeros(now - was);
    assert forall j :: 0 <= j < now ==> raw[j] == if j < |b.raw| then b.raw[j] else 0;
    if raw[..now] == clear {
      forall j | was <= j < now && j < |b.raw| ensures b.raw[j] == 0 {
        assert raw[..now][j] == clear[j];
      }
    }
  }

  /** grow_memory on the buffer. */
  function GrowBuffer(b: Buffer, delta: u32): Option<(Buffer, u32)>
    requires b.pages < 0x1_0000_0000 && |b.raw| == 4 * b.pages * 0x1_0000
  {
    var sum := (delta + b.pages) % 0x1_0000_0000;
    if delta == 0 then Some((b, b.pages))
    else if sum > b.max then Some((b, 0xffff_ffff))
    else if sum < b.pages then None
    else Some((Buffer(sum, b.max, Recalloc(b.raw, b.pages * 0x1_0000, sum * 0x1_0000, 4)), b.pages))
  }

  /** A store inside the memory. */
  function StoreBuffer(b: Buffer, code: byte, ea: nat, bits: u64): Buffer
    requires 0x36 <= code <= 0x3e && ea + Access(code).size <= |b.raw|
  {
    b.(raw := b.raw[..ea] + LowBytes(bits, Access(code).size) + b.raw[ea + Access(code).size..])
  }

  /** A store leaves the slack alone and is the store on the memory the program sees. */
  lemma StoreKeepsSlack(b: Buffer, code: byte, ea: nat, bits: u64)
    requires BufferOk(b) && 0x36 <= code <= 0x3e && ea + Access(code).size <= b.pages * 0x1_0000
    ensures var b' := StoreBuffer(b, code, ea, bits);
            BufferOk(b') && b'.Shown() == WriteMemory(b.Shown(), code, ea, bits)
  {
    hide Access, LowBytes;
    var b', n, size := StoreBuffer(b, code, ea, bits), Access(code).size, b.pages * 0x1_0000;
    assert forall j :: ea + n <= j < |b.raw| ==> b'.raw[j] == b.raw[j];
    assert b'.raw[..size] == b.raw[..size][..ea] + LowBytes(bits, n) + b.raw[..size][ea + n..];
  }

  // ---------- grow ----------

  /** The memory the program sees grows as on the level of values, and the slack stays clear. */
  lemma GrowShows(b: Buffer, delta: u32)
    requires SlackClear(b.raw, b.pages) && b.pages < 0x1_0000_0000
    ensures GrowBy(b.Shown(), delta)
         == match GrowBuffer(b, delta) case None => None case Some((b', r)) => Some((b'.Shown(), r))
    ensures GrowBuffer(b, delta).Some? ==>
              var b' := GrowBuffer(b, delta).value.0; SlackClear(b'.raw, b'.pages) && b'.max == b.max
  {
    hide Recalloc, SlackClear, Cleared;
    RawSize(b);
    if delta + b.pages < 0x1_0000_0000 { PagesAppended(b, delta); }
  }

  /** One step: either the size before, with the memory extended by cleared pages, or 2^32-1 and
      nothing changed; undefined exactly when the sum wraps. */
  lemma GrowStep(b: Buffer, delta: u32)
    requires BufferOk(b)
    ensures GrowBuffer(b, delta).None? <==> delta + b.pages >= 0x1_0000_0000
    ensures GrowBuffer(b, delta).Some? ==>
              var (b', r) := GrowBuffer(b, delta).value;
              BufferOk(b') && b'.max == b.max && b.Shown().bytes <= b'.Shown().bytes
              && Cleared(b'.Shown().bytes, b.pages * 0x1_0000)
              && (if delta + b.pages <= b.max then r == b.pages && b'.pages == b.pages + delta
                  else r == 0xffff_ffff && b' == b)
    ensures GrowBy(b.Shown(), delta)
         == match GrowBuffer(b, delta) case None => None case Some((b', r)) => Some((b'.Shown(), r))
  {
    hide Recalloc, SlackClear, Cleared;
    RawSize(b);
    GrowShows(b, delta);
    if delta + b.pages <= b.max {
      PagesAppended(b, delta);
    } else {
      NothingNew(b);
    }
  }

  lemma NothingNew(b: Buffer)
    requires BufferOk(b)
    ensures Cleared(b.Shown().bytes, b.pages * 0x1_0000)
  {}

  lemma PagesAppended(b: Buffer, delta: nat)
    requires SlackClear(b.raw, b.pages)
    ensures var raw := Recalloc(b.raw, b.pages * 0x1_0000, (b.pages + delta) * 0x1_0000, 4);
            var b' := Buffer(b.pages + delta, b.max, raw);
            SlackClear(raw, b'.pages) && b'.Shown().bytes == b.Shown().bytes + Zeros(delta * 0x1_0000)
            && Cleared(b'.Shown().bytes, b.pages * 0x1_0000) && (delta == 0 ==> b' == b)
  {
    ClearedIffSlack(b, delta);
    var now := (b.pages + delta) * 0x1_0000;
    var raw := Recalloc(b.raw, b.pages * 0x1_0000, now, 4);
    assert (delta + b.pages) * 0x1_0000 == now;
    assert now - b.pages * 0x1_0000 == delta * 0x1_0000;
  }

  /** What a program does to its memory. */
  datatype Action = Store(code: byte, ea: nat, bits: u64) | Grow(delta: u32)

  predicate InMemory(a: Action, pages: nat) {
    a.Grow? || (0x36 <= a.code <= 0x3e && a.ea + Access(a.code).size <= pages * 0x1_0000)
  }

  /** Any run of stores and grow_memory on the buffer; None behind a store outside the memory, which
      traps, and a wrapping sum. */
  function BufferRun(b: Buffer, actions: seq<Action>): (r: Option<Buffer>)
    requires b.pages < 0x1_0000_0000 && |b.raw| == 4 * b.pages * 0x1_0000
    ensures r.Some? ==> |r.value.raw| == 4 * r.value.pages * 0x1_0000
    decreases |actions|
  {
    if actions == [] then Some(b)
    else
      var a, rest := actions[0], actions[1..];
      if !InMemory(a, b.pages) then None
      else if a.Store? then BufferRun(StoreBuffer(b, a.code, a.ea, a.bits), rest)
      else match GrowBuffer(b, a.delta)
           case None => None
           case Some((b', _)) => BufferRun(b', rest)
  }

  /** The same on the memory the machine works on. */
  function MemoryRun(m: Memory, actions: seq<Action>): Option<Memory>
    requires m.pages < 0x1_0000_0000 && |m.bytes| == m.pages * 0x1_0000
    decreases |actions|
  {
    if actions == [] then Some(m)
    else
      var a, rest := actions[0], actions[1..];
      if !InMemory(a, m.pages) then None
      else if a.Store? then MemoryRun(WriteMemory(m, a.code, a.ea, a.bits), rest)
      else match GrowBy(m, a.delta)
           case None => None
           case Some((m', _)) => if m'.pages < 0x1_0000_0000 then MemoryRun(m', rest) else None
  }

  /** In every run the slack stays clear, so that the buffer shows the memory of the machine, in
      which each grow appends cleared pages. */
  lemma {:induction false} RunKeepsSlack(b: Buffer, actions: seq<Action>)
    requires BufferOk(b)
    ensures MemoryRun(b.Shown(), actions)
         == match BufferRun(b, actions) case None => None case Some(b') => Some(b'.Shown())
    ensures BufferRun(b, actions).Some? ==> BufferOk(BufferRun(b, actions).value)
    decreases |actions|
  {
    hide GrowBuffer, GrowBy, StoreBuffer, WriteMemory, Access, SlackClear;
    if actions != [] {
      var a, rest := actions[0], actions[1..];
      RawSize(b);
      if InMemory(a, b.pages) {
        if a.Store? {
          StoreKeepsSlack(b, a.code, a.ea, a.bits);
          RunKeepsSlack(StoreBuffer(b, a.code, a.ea, a.bits), rest);
        } else {
          GrowStep(b, a.delta);
          if GrowBuffer(b, a.delta).Some? { RunKeepsSlack(GrowBuffer(b, a.delta).value.0, rest); }
        }
      }
    }
  }

  lemma RawSize(b: Buffer)
    requires SlackClear(b.raw, b.pages)
    ensures |b.raw| == 4 * b.pages * 0x1_0000
  {}

  function Grows(ds: seq<u32>): (r: seq<Action>)
    ensures |r| == |ds|
  {
    seq(|ds|, i requires 0 <= i < |ds| => Grow(ds[i]))
  }

  lemma GrowsRest(ds: seq<u32>)
    requires ds != []
    ensures Grows(ds)[0] == Grow(ds[0]) && Grows(ds)[1..] == Grows(ds[1..])
  {}

  lemma GrowsPrefix(ds: seq<u32>, i: nat)
    requires 0 < i <= |ds|
    ensures Grows(ds[..i])[1..] == Grows(ds[1..][..i - 1]) && Grows(ds[..i])[0] == Grow(ds[0])
  {}

  /** Any run of grow_memory without wrap-around keeps the size between its start and the
      maximum, keeps all old bytes and clears all new ones. */
  lemma {:induction false} GrowRunKeeps(b: Buffer, ds: seq<u32>)
    requires BufferOk(b) && BufferRun(b, Grows(ds)).Some?
    ensures var b' := BufferRun(b, Grows(ds)).value;
            BufferOk(b') && b'.max == b.max && b.pages <= b'.pages <= b'.max <= 0x8000
            && b.Shown().bytes <= b'.Shown().bytes && Cleared(b'.Shown().bytes, b.pages * 0x1_0000)
    decreases |ds|
  {
    if ds != [] {
      hide GrowBuffer;
      GrowStep(b, ds[0]);
      GrowsRest(ds);
      var b1 := GrowBuffer(b, ds[0]).value.0;
      GrowRunKeeps(b1, ds[1..]);
      var b' := BufferRun(b, Grows(ds)).value;
      forall j | b.pages * 0x1_0000 <= j < |b'.Shown().bytes| ensures b'.Shown().bytes[j] == 0 {
        if j < |b1.Shown().bytes| { assert b'.Shown().bytes[j] == b1.Shown().bytes[j]; }
      }
    } else {
      assert Grows(ds) == [];
    }
  }

  /** The sum wraps at the i-th step of a run. */
  ghost predicate WrapsAt(b: Buffer, ds: seq<u32>, i: nat)
    requires BufferOk(b)
  {
    i < |ds| && BufferRun(b, Grows(ds[..i])).Some?
    && BufferRun(b, Grows(ds[..i])).value.pages + ds[i] >= 0x1_0000_0000
  }

  /** A run is defined if and only if the sum of size and delta wraps at none of its steps. */
  lemma {:induction false} GrowRunExact(b: Buffer, ds: seq<u32>)
    requires BufferOk(b)
    ensures BufferRun(b, Grows(ds)).Some? <==> forall i :: 0 <= i < |ds| ==> !WrapsAt(b, ds, i)
    decreases |ds|
  {
    hide GrowBuffer, SlackClear;
    RawSize(b);
    if ds == [] {
      assert Grows(ds) == [];
    } else {
      GrowStep(b, ds[0]);
      GrowsRest(ds);
      assert Grows(ds[..0]) == [];
      if GrowBuffer(b, ds[0]).None? {
        assert WrapsAt(b, ds, 0);
      } else {
        var b' := GrowBuffer(b, ds[0]).value.0;
        GrowRunExact(b', ds[1..]);
        forall i | 0 < i < |ds| ensures WrapsAt(b, ds, i) <==> WrapsAt(b', ds[1..], i - 1) {
          GrowsPrefix(ds, i);
        }
        assert !WrapsAt(b, ds, 0);
        if BufferRun(b, Grows(ds)).None? {
          var j :| 0 <= j < |ds[1..]| && WrapsAt(b', ds[1..], j);
          assert WrapsAt(b, ds, j + 1);
        }
      }
    }
  }
}
