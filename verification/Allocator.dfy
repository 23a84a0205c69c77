/**
 The kernel-side malloc, calloc, realloc and free of wasmjit/sys.h: each block starts with its
 capacity and requested size in two words (OFF is 16 bytes).
 */
module Allocator {
  import opened Leb

  /** A kvmalloc'ed block: the two header words and the bytes behind them. */
  datatype Block = Block(cap: u64, size: u64, data: seq<byte>)

  /** Outcome of kvmalloc: null, or an unused address whose bytes are whatever they are. */
  datatype KvResult = Null | Got(ptr: nat, fill: nat -> byte)

  // ---------- the doubling loop ----------

  /** `cap <<= 1`, starting at 1, on a 64-bit size_t. */
  function Doubled(k: nat): (c: u64) {
    if k == 0 then 1 else Doubled(k - 1) * 2 % 0x1_0000_0000_0000_0000
  }

  lemma {:induction false} DoubledIs(k: nat)
    ensures k < 64 ==> Doubled(k) == Pow2(k)
    ensures k >= 64 ==> Doubled(k) == 0
    decreases k
  {
    hide Pow2, Doubled;
    DoubledSteps(k);
    if k > 0 {
      DoubledIs(k - 1);
      PowSucc(k - 1);
      if k < 64 { TopPower(k); } else if k == 64 { TopPower(63); }
    }
  }

  lemma DoubledSteps(k: nat)
    ensures Doubled(0) == 1 == Pow2(0)
    ensures k > 0 ==> Doubled(k) == Doubled(k - 1) * 2 % 0x1_0000_0000_0000_0000
  {}

  lemma TopPower(k: nat)
    requires k < 64
    ensures Pow2(k) <= 0x8000_0000_0000_0000 && (k == 63 ==> Pow2(k) == 0x8000_0000_0000_0000)
  {
    hide Pow2;
    Pow2Known();
    Pow2AtMost(k, 63);
  }

  lemma PowSucc(k: nat)
    ensures Pow2(k + 1) == 2 * Pow2(k)
  {}

  /** `size + OFF`, a size_t: it wraps for the sixteen largest sizes. */
  function Need(size: u64): u64 { (size + 16) % 0x1_0000_0000_0000_0000 }

  /** What the loop `while (size + OFF > cap) cap <<= 1` leaves: the first capacity that ends it. */
  ghost predicate Leaves(size: u64, cap: u64) {
    exists k: nat :: cap == Doubled(k) && Need(size) <= cap && forall j :: 0 <= j < k ==> Need(size) > Doubled(j)
  }

  /** The loop ends if and only if the size is at most 2^63 - 16, or so large that the sum wraps:
      in between the capacity is shifted to zero and stays there. */
  lemma LoopEnds(size: u64)
    ensures (exists k :: Need(size) <= Doubled(k))
       <==> size <= 0x8000_0000_0000_0000 - 16 || size >= 0x1_0000_0000_0000_0000 - 16
  {
    hide Pow2, Doubled;
    Pow2Known();
    DoubledIs(63);
    if k :| Need(size) <= Doubled(k) {
      DoubledIs(k);
      if k < 64 { Pow2AtMost(k, 63); }
    }
  }

  /** The block the loop leaves holds the header and size bytes if and only if the size is at most
      2^63 - 16. */
  lemma BlockHolds(size: u64, cap: u64)
    requires Leaves(size, cap)
    ensures size + 16 <= cap <==> size <= 0x8000_0000_0000_0000 - 16
  {
    hide Pow2, Doubled;
    Pow2Known();
    var k: nat :| cap == Doubled(k) && Need(size) <= cap && forall j :: 0 <= j < k ==> Need(size) > Doubled(j);
    DoubledIs(k);
    if k < 64 { Pow2AtMost(k, 63); }
  }

  /** The failing family's first member: for 2^64 - 16 bytes the loop leaves a block of one byte. */
  lemma WrappedSize()
    ensures Leaves(0x1_0000_0000_0000_0000 - 16, 1)
  {
    assert Doubled(0) == 1;
  }

  ghost predicate PowerOfTwo(c: int) { exists k: nat :: k < 64 && c == Pow2(k) }

  /** The doubling loop, for every size for which it ends. */
  method Capacity(size: u64) returns (cap: u64)
    requires size <= 0x8000_0000_0000_0000 - 16 || size >= 0x1_0000_0000_0000_0000 - 16
    ensures Leaves(size, cap) && PowerOfTwo(cap)
    ensures size + 16 <= cap <==> size <= 0x8000_0000_0000_0000 - 16
  {
    hide Pow2, Doubled, Leaves;
    Pow2Known();
    DoubledSteps(0);
    cap := 1;
    ghost var k := 0;
    while (size + 16) % 0x1_0000_0000_0000_0000 > cap
      invariant k < 64 && cap == Pow2(k) == Doubled(k)
      invariant forall j :: 0 <= j < k ==> Need(size) > Doubled(j)
      decreases 64 - k
    {
      BelowTop(k, cap);
      PowSucc(k);
      DoubledIs(k + 1);
      cap := cap * 2 % 0x1_0000_0000_0000_0000;
      k := k + 1;
    }
    IsLeft(size, cap, k);
    BlockHolds(size, cap);
  }

  lemma IsLeft(size: u64, cap: u64, k: nat)
    requires cap == Doubled(k) && Need(size) <= cap && forall j :: 0 <= j < k ==> Need(size) > Doubled(j)
    ensures Leaves(size, cap)
  {
    hide Doubled;
  }

  lemma BelowTop(k: nat, cap: u64)
    requires k < 64 && cap == Pow2(k) && cap < 0x8000_0000_0000_0000
    ensures k < 63 && cap * 2 <= 0x8000_0000_0000_0000
  {
    hide Pow2;
    Pow2Known();
    if k < 63 {
      PowSucc(k);
      Pow2AtMost(k + 1, 63);
    }
  }

  // ---------- the heap ----------

  /** Invariant of a live block. */
  ghost predicate BlockOk(b: Block) {
    PowerOfTwo(b.cap) && 0 < b.size && b.size + 16 <= b.cap && |b.data| == b.cap - 16
  }

  /** The bytes the caller may use. */
  function Contents(b: Block): seq<byte>
    requires b.size <= |b.data|
  {
    b.data[..b.size]
  }

  class Heap {
    var blocks: map<nat, Block>

    /** Every live block keeps its header. */
    ghost predicate Valid()
      reads this
    {
      forall p :: p in blocks ==> BlockOk(blocks[p])
    }

    constructor ()
      ensures Valid() && blocks == map[]
    {
      blocks := map[];
    }

    /** malloc: null for size 0 or when kvmalloc fails, otherwise a new block with its header. */
    method Malloc(size: u64, kv: KvResult) returns (ptr: Option<nat>)
      requires Valid() && size + 16 <= 0x8000_0000_0000_0000 && (kv.Got? ==> kv.ptr !in blocks)
      modifies this
      ensures Valid()
      ensures ptr == if size == 0 || kv.Null? then None else Some(kv.ptr)
      ensures ptr.None? ==> blocks == old(blocks)
      ensures ptr.Some? ==> blocks.Keys == old(blocks.Keys) + {ptr.value} && blocks[ptr.value].size == size
      ensures forall p :: p in old(blocks) ==> p in blocks && blocks[p] == old(blocks[p])
    {
      if size == 0 { return None; }
      var cap := Capacity(size);
      if kv.Null? { return None; }
      blocks := blocks[kv.ptr := Block(cap, size, seq(cap - 16, i requires 0 <= i < cap - 16 => kv.fill(i)))];
      ptr := Some(kv.ptr);
    }

    /** calloc: the product may overflow; the new block is cleared. */
    method Calloc(nmemb: u64, eltSize: u64, kv: KvResult) returns (ptr: Option<nat>)
      requires Valid() && (kv.Got? ==> kv.ptr !in blocks)
      requires nmemb * eltSize < 0x1_0000_0000_0000_0000 ==> nmemb * eltSize + 16 <= 0x8000_0000_0000_0000
      modifies this
      ensures Valid()
      ensures ptr.Some? <==> 0 < nmemb * eltSize < 0x1_0000_0000_0000_0000 && kv.Got?
      ensures ptr.None? ==> blocks == old(blocks)
      ensures ptr.Some? ==> ptr.value == kv.ptr && blocks.Keys == old(blocks.Keys) + {ptr.value}
                            && Contents(blocks[ptr.value]) == seq(nmemb * eltSize, _ => 0)
      ensures forall p :: p in old(blocks) ==> p in blocks && blocks[p] == old(blocks[p])
    {
      var product: nat := nmemb * eltSize;
      if product >= 0x1_0000_0000_0000_0000 { return None; }
      var size: u64 := product;
      if size == 0 { return None; }
      var cap := Capacity(size);
      if kv.Null? { return None; }
      blocks := blocks[kv.ptr := Block(cap, size, seq(cap - 16, _ => 0))];
      ptr := Some(kv.ptr);
      assert Contents(blocks[kv.ptr]) == seq(size, _ => 0);
    }

    /** free of null or of a live block. */
    method Free(ptr: Option<nat>)
      requires Valid() && (ptr.Some? ==> ptr.value in blocks)
      modifies this
      ensures Valid() && blocks == if ptr.None? then old(blocks) else old(blocks) - {ptr.value}
    {
      if ptr.Some? { blocks := blocks - {ptr.value}; }
    }

    /** realloc: a smaller size only changes the header; otherwise a new block takes over the old
        bytes. The copy of the whole old size never exceeds the new block, because the branch is
        reached only when the new size needs at least the old capacity. */
    method Realloc(previous: Option<nat>, size: u64, kv: KvResult) returns (ptr: Option<nat>)
      requires Valid() && (previous.Some? ==> previous.value in blocks)
      requires size + 16 <= 0x8000_0000_0000_0000 && (kv.Got? ==> kv.ptr !in blocks)
      modifies this
      ensures Valid()
      ensures size == 0 ==> ptr == None
      ensures size == 0 ==> blocks == if previous.None? then old(blocks) else old(blocks) - {previous.value}
      ensures size > 0 && ptr.None? ==> kv.Null? && blocks == old(blocks)
      ensures ptr.Some? ==> ptr.value in blocks && blocks[ptr.value].size == size
      ensures ptr.Some? && previous.Some? ==>
                var was, now := old(blocks[previous.value]), blocks[ptr.value].data;
                forall k :: 0 <= k < was.size && k < size ==>
                  k < |now| && k < |was.data| && now[k] == was.data[k]
      ensures ptr.Some? && previous.Some? && ptr != previous ==> previous.value !in blocks
      ensures forall p :: p in old(blocks) && Some(p) != previous ==> p in blocks && blocks[p] == old(blocks[p])
      ensures ptr.Some? ==>
                blocks.Keys == old(blocks.Keys) - (if previous.Some? then {previous.value} else {}) + {ptr.value}
    {
      hide BlockOk, PowerOfTwo;
      if size == 0 {
        Free(previous);
        return None;
      }
      if previous.Some? {
        HeaderOk(blocks[previous.value]);
        var prevCap := blocks[previous.value].cap;
        if size + 16 < prevCap {
          Resized(blocks[previous.value], size);
          blocks := blocks[previous.value := blocks[previous.value].(size := size)];
          return previous;
        }
      }
      ptr := Malloc(size, kv);
      if ptr.None? { return; }
      HeaderOk(blocks[ptr.value]);
      if previous.Some? {
        var prevSize := blocks[previous.value].size;
        assert prevSize <= size <= |blocks[ptr.value].data|;
        var data := blocks[previous.value].data[..prevSize] + blocks[ptr.value].data[prevSize..];
        Refilled(blocks[ptr.value], data);
        blocks := blocks[ptr.value := blocks[ptr.value].(data := data)];
        Free(previous);
      }
    }
  }

  lemma HeaderOk(b: Block)
    requires BlockOk(b)
    ensures 0 < b.size && b.size + 16 <= b.cap && |b.data| == b.cap - 16
  {}

  lemma Resized(b: Block, size: u64)
    requires BlockOk(b) && 0 < size && size + 16 < b.cap
    ensures BlockOk(b.(size := size))
  {}

  lemma Refilled(b: Block, data: seq<byte>)
    requires BlockOk(b) && |data| == |b.data|
    ensures BlockOk(b.(data := data))
  {}
}
