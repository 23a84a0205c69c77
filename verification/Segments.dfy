/**
 Data and element segments: writing sequences into memories and tables at offsets that are constants
 or globals. Memories, tables and globals are named by numbers.
 */
module Segments {
  import opened Leb

  datatype Val = Val(i32: bool, bits: u64)

  datatype Offset = ConstOffset(v: Val) | GlobalOffset(global: nat)

  datatype Segment<T> = Segment(target: nat, offset: Offset, items: seq<T>)

  type Globals = map<nat, Val>

  // ---------- writing ----------

  function OffsetOf(globals: Globals, o: Offset): Val
    requires o.GlobalOffset? ==> o.global in globals
  {
    match o case ConstOffset(v) => v case GlobalOffset(g) => globals[g]
  }

  /** What a segment mentions exists. */
  predicate Known<T>(globals: Globals, store: map<nat, seq<T>>, x: Segment<T>) {
    x.target in store && (x.offset.GlobalOffset? ==> x.offset.global in globals)
  }

  predicate AllKnown<T>(globals: Globals, store: map<nat, seq<T>>, xs: seq<Segment<T>>) {
    forall i :: 0 <= i < |xs| ==> Known(globals, store, xs[i])
  }

  lemma RestKnown<T>(globals: Globals, store: map<nat, seq<T>>, s: map<nat, seq<T>>, xs: seq<Segment<T>>)
    requires AllKnown(globals, store, xs) && xs != [] && s.Keys == store.Keys
    ensures Known(globals, store, xs[0]) && AllKnown(globals, s, xs[1..])
  {
    forall i | 0 <= i < |xs[1..]| ensures Known(globals, s, xs[1..][i]) {
      assert xs[1..][i] == xs[i + 1] && Known(globals, store, xs[i + 1]);
    }
  }

  /** s with t written from position at on. */
  function Patched<T>(s: seq<T>, at: nat, t: seq<T>): (r: seq<T>)
    requires at + |t| <= |s|
    ensures |r| == |s|
  {
    s[..at] + t + s[at + |t|..]
  }

  /** Writing one segment; None is a trap. */
  function Put<T>(globals: Globals, store: map<nat, seq<T>>, x: Segment<T>): (r: Option<map<nat, seq<T>>>)
    requires Known(globals, store, x)
    ensures r.Some? ==> r.value.Keys == store.Keys
  {
    var o := OffsetOf(globals, x.offset);
    if !o.i32 then None
    else if |x.items| + o.bits > |store[x.target]| then None
    else Some(store[x.target := Patched(store[x.target], o.bits, x.items)])
  }

  function PutAll<T>(globals: Globals, store: map<nat, seq<T>>, xs: seq<Segment<T>>): (r: Option<map<nat, seq<T>>>)
    requires AllKnown(globals, store, xs)
    ensures r.Some? ==> r.value.Keys == store.Keys
    decreases |xs|
  {
    if xs == [] then Some(store)
    else match Put(globals, store, xs[0])
         case None => None
         case Some(s) =>
           RestKnown(globals, store, s, xs);
           PutAll(globals, s, xs[1..])
  }

  lemma PutStep<T>(globals: Globals, store: map<nat, seq<T>>, xs: seq<Segment<T>>)
    requires AllKnown(globals, store, xs) && xs != []
    ensures Known(globals, store, xs[0])
    ensures Put(globals, store, xs[0]).None? ==> PutAll(globals, store, xs).None?
    ensures Put(globals, store, xs[0]).Some? ==>
              var s := Put(globals, store, xs[0]).value;
              AllKnown(globals, s, xs[1..]) && PutAll(globals, store, xs) == PutAll(globals, s, xs[1..])
  {
    if Put(globals, store, xs[0]).Some? { RestKnown(globals, store, Put(globals, store, xs[0]).value, xs); }
  }

  lemma PutNothing<T>(globals: Globals, store: map<nat, seq<T>>, xs: seq<Segment<T>>)
    requires xs == []
    ensures PutAll(globals, store, xs) == Some(store)
  {}

  // ---------- what has been written ----------

  /** Where a segment goes; None unless the offset is an i32. */
  function Position(globals: Globals, o: Offset): Option<nat> {
    match o
    case ConstOffset(Val(i32, bits)) => if i32 then Some(bits) else None
    case GlobalOffset(g) => if g in globals && globals[g].i32 then Some(globals[g].bits) else None
  }

  /** The segment has a position and ends inside its target. */
  predicate Fits<T>(globals: Globals, store: map<nat, seq<T>>, x: Segment<T>)
    requires x.target in store
  {
    Position(globals, x.offset).Some? && Position(globals, x.offset).value + |x.items| <= |store[x.target]|
  }

  datatype Write<T> = Write(target: nat, at: nat, items: seq<T>)

  predicate Hits<T>(w: Write<T>, target: nat, j: nat) { w.target == target && w.at <= j < w.at + |w.items| }

  /** No write in ws covers slot j of the target. */
  predicate Free<T>(ws: seq<Write<T>>, target: nat, j: nat) {
    forall l :: 0 <= l < |ws| ==> !Hits(ws[l], target, j)
  }

  /** after is before with the writes in order: sizes are kept; slot k of a write holds its item unless
      a later write covers the slot; and what no write covers is as before. */
  ghost predicate Overlaid<T>(before: map<nat, seq<T>>, after: map<nat, seq<T>>, ws: seq<Write<T>>) {
    after.Keys == before.Keys && (forall m :: m in before ==> |after[m]| == |before[m]|)
    && (forall i :: 0 <= i < |ws| ==> ws[i].target in before && ws[i].at + |ws[i].items| <= |before[ws[i].target]|)
    && (forall i, k :: 0 <= i < |ws| && 0 <= k < |ws[i].items| && Free(ws[i + 1..], ws[i].target, ws[i].at + k) ==>
          after[ws[i].target][ws[i].at + k] == ws[i].items[k])
    && (forall m, j :: m in before && 0 <= j < |before[m]| && Free(ws, m, j) ==> after[m][j] == before[m][j])
  }

  lemma NothingOverlaid<T>(store: map<nat, seq<T>>)
    ensures Overlaid(store, store, [])
  {}

  lemma FreeJoin<T>(a: seq<Write<T>>, b: seq<Write<T>>, target: nat, j: nat)
    ensures Free(a + b, target, j) <==> Free(a, target, j) && Free(b, target, j)
  {
    if Free(a + b, target, j) {
      forall l | 0 <= l < |a| ensures !Hits(a[l], target, j) { assert (a + b)[l] == a[l]; }
      forall l | 0 <= l < |b| ensures !Hits(b[l], target, j) { assert (a + b)[|a| + l] == b[l]; }
    }
  }

  lemma OverlaidJoin<T>(s0: map<nat, seq<T>>, s1: map<nat, seq<T>>, s2: map<nat, seq<T>>, a: seq<Write<T>>,
                        b: seq<Write<T>>)
    requires Overlaid(s0, s1, a) && Overlaid(s1, s2, b)
    ensures Overlaid(s0, s2, a + b)
  {
    hide Free, Hits;
    var ws := a + b;
    forall i, k | 0 <= i < |ws| && 0 <= k < |ws[i].items| && Free(ws[i + 1..], ws[i].target, ws[i].at + k)
      ensures s2[ws[i].target][ws[i].at + k] == ws[i].items[k]
    {
      if i < |a| {
        assert ws[i + 1..] == a[i + 1..] + b && ws[i] == a[i];
        FreeJoin(a[i + 1..], b, ws[i].target, ws[i].at + k);
      } else {
        assert ws[i + 1..] == b[i - |a| + 1..] && ws[i] == b[i - |a|];
      }
    }
    forall m, j | m in s0 && 0 <= j < |s0[m]| && Free(ws, m, j) ensures s2[m][j] == s0[m][j] {
      FreeJoin(a, b, m, j);
    }
  }

  /** The writes of segments that have positions. */
  function WritesOf<T>(globals: Globals, xs: seq<Segment<T>>): (ws: seq<Write<T>>)
    requires forall i :: 0 <= i < |xs| ==> Position(globals, xs[i].offset).Some?
    ensures |ws| == |xs|
    ensures forall i :: 0 <= i < |xs| ==>
              ws[i] == Write(xs[i].target, Position(globals, xs[i].offset).value, xs[i].items)
  {
    seq(|xs|, i requires 0 <= i < |xs| => Write(xs[i].target, Position(globals, xs[i].offset).value, xs[i].items))
  }

  lemma OneWrite<T>(globals: Globals, store: map<nat, seq<T>>, x: Segment<T>)
    requires Known(globals, store, x)
    ensures Put(globals, store, x).Some? <==> Fits(globals, store, x)
    ensures Fits(globals, store, x) ==>
              Overlaid(store, Put(globals, store, x).value,
                       [Write(x.target, Position(globals, x.offset).value, x.items)])
  {
    if Fits(globals, store, x) {
      var at := Position(globals, x.offset).value;
      var ws, after := [Write(x.target, at, x.items)], Put(globals, store, x).value;
      forall m, j | m in store && 0 <= j < |store[m]| && Free(ws, m, j) ensures after[m][j] == store[m][j] {
        assert !Hits(ws[0], m, j);
      }
    }
  }

  predicate AllFit<T>(globals: Globals, store: map<nat, seq<T>>, xs: seq<Segment<T>>)
    requires AllKnown(globals, store, xs)
  {
    forall i :: 0 <= i < |xs| ==> Known(globals, store, xs[i]) && Fits(globals, store, xs[i])
  }

  /** The loop over segments goes through if and only if each of them has an i32 offset and ends inside
      its target; then all of them have been written, in order. */
  lemma {:induction false} PutAllExact<T>(globals: Globals, store: map<nat, seq<T>>, xs: seq<Segment<T>>)
    requires AllKnown(globals, store, xs)
    ensures PutAll(globals, store, xs).Some? <==> AllFit(globals, store, xs)
    ensures PutAll(globals, store, xs).Some? ==>
              (forall i :: 0 <= i < |xs| ==> Position(globals, xs[i].offset).Some?)
              && Overlaid(store, PutAll(globals, store, xs).value, WritesOf(globals, xs))
    decreases |xs|
  {
    hide Overlaid, Put, Position, AllKnown, AllFit;
    if xs == [] {
      NothingOverlaid(store);
      NoneFit(globals, store, xs);
      assert WritesOf(globals, xs) == [];
    } else {
      RestKnown(globals, store, store, xs);
      OneWrite(globals, store, xs[0]);
      if Fits(globals, store, xs[0]) {
        var s := Put(globals, store, xs[0]).value;
        var one := [Write(xs[0].target, Position(globals, xs[0].offset).value, xs[0].items)];
        SameSizes(store, s, one);
        RestKnown(globals, store, s, xs);
        PutAllExact(globals, s, xs[1..]);
        FitSplit(globals, store, s, xs);
        if PutAll(globals, store, xs).Some? {
          Positioned(globals, store, xs);
          OverlaidJoin(store, s, PutAll(globals, store, xs).value, one, WritesOf(globals, xs[1..]));
          assert one + WritesOf(globals, xs[1..]) == WritesOf(globals, xs);
        }
      } else {
        FirstFits(globals, store, xs);
      }
    }
  }

  lemma NoneFit<T>(globals: Globals, store: map<nat, seq<T>>, xs: seq<Segment<T>>)
    requires xs == [] && AllKnown(globals, store, xs)
    ensures AllFit(globals, store, xs)
  {}

  lemma FirstFits<T>(globals: Globals, store: map<nat, seq<T>>, xs: seq<Segment<T>>)
    requires xs != [] && AllKnown(globals, store, xs) && Known(globals, store, xs[0])
    ensures AllFit(globals, store, xs) ==> Fits(globals, store, xs[0])
  {}

  lemma Positioned<T>(globals: Globals, store: map<nat, seq<T>>, xs: seq<Segment<T>>)
    requires AllKnown(globals, store, xs) && AllFit(globals, store, xs)
    ensures forall i :: 0 <= i < |xs| ==> Position(globals, xs[i].offset).Some?
  {}

  lemma FitSplit<T>(globals: Globals, store: map<nat, seq<T>>, s: map<nat, seq<T>>, xs: seq<Segment<T>>)
    requires xs != [] && AllKnown(globals, store, xs) && AllKnown(globals, s, xs[1..])
    requires s.Keys == store.Keys && (forall m :: m in store ==> |s[m]| == |store[m]|)
    requires Known(globals, store, xs[0]) && Fits(globals, store, xs[0])
    ensures AllFit(globals, store, xs) <==> AllFit(globals, s, xs[1..])
  {
    hide Position;
    if AllFit(globals, store, xs) {
      forall i | 0 <= i < |xs[1..]| ensures Known(globals, s, xs[1..][i]) && Fits(globals, s, xs[1..][i]) {
        assert xs[1..][i] == xs[i + 1] && Known(globals, store, xs[i + 1]) && Fits(globals, store, xs[i + 1]);
      }
    }
    if AllFit(globals, s, xs[1..]) {
      forall i | 0 <= i < |xs| ensures Known(globals, store, xs[i]) && Fits(globals, store, xs[i]) {
        assert Known(globals, store, xs[i]);
        if i > 0 { assert xs[i] == xs[1..][i - 1] && Fits(globals, s, xs[1..][i - 1]); }
      }
    }
  }

  lemma SameSizes<T>(before: map<nat, seq<T>>, after: map<nat, seq<T>>, ws: seq<Write<T>>)
    requires Overlaid(before, after, ws)
    ensures after.Keys == before.Keys && forall m :: m in before ==> |after[m]| == |before[m]|
  {}
}
