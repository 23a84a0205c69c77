/**
 What initialisation leaves in tables and memories, and when it traps: the segments of all modules it
 initialises, in the order in which it completes them.
 */
module StaticWrites {
  import opened Leb
  import opened Imports
  import opened Segments
  import opened StaticRuntime

  // ---------- one module ----------

  /** The last stage traps: some segment has no i32 offset or ends outside its table or memory, or the
      start function takes or returns something. */
  ghost predicate Refuses(m: Desc, st: State)
    requires Mentions(m, st)
  {
    (exists i :: 0 <= i < |m.elements| && Known(st.globals, st.tables, m.elements[i])
                 && !Fits(st.globals, st.tables, m.elements[i]))
    || (exists i :: 0 <= i < |m.datas| && Known(st.globals, st.mems, m.datas[i])
                    && !Fits(st.globals, st.mems, m.datas[i]))
    || (m.start.Some? && (m.start.value.inputs != [] || m.start.value.output.Some?))
  }

  /** What an element segment writes: the module's function for each index, from the offset on. */
  ghost predicate IsElementWrite(w: Write<nat>, globals: Globals, m: Desc, x: Segment<nat>) {
    w.target == x.target && Position(globals, x.offset) == Some(w.at) && |w.items| == |x.items|
    && forall k :: 0 <= k < |x.items| ==> x.items[k] < |m.functions| && w.items[k] == m.functions[x.items[k]]
  }

  ghost predicate IsDataWrite(w: Write<byte>, globals: Globals, x: Segment<byte>) {
    w.target == x.target && Position(globals, x.offset) == Some(w.at) && w.items == x.items
  }

  /** ws are the element segments of m in order, and vs its data segments. */
  ghost predicate WritesFor(m: Desc, globals: Globals, ws: seq<Write<nat>>, vs: seq<Write<byte>>) {
    |ws| == |m.elements| && |vs| == |m.datas|
    && (forall i :: 0 <= i < |ws| ==> IsElementWrite(ws[i], globals, m, m.elements[i]))
    && (forall i :: 0 <= i < |vs| ==> IsDataWrite(vs[i], globals, m.datas[i]))
  }

  lemma ResolvedFit(m: Desc, st: State)
    requires Mentions(m, st)
    ensures AllKnown(st.globals, st.tables, Resolved(m))
    ensures AllFit(st.globals, st.tables, Resolved(m)) <==>
            forall i :: 0 <= i < |m.elements| && Known(st.globals, st.tables, m.elements[i])
              ==> Fits(st.globals, st.tables, m.elements[i])
  {
    hide Position;
    ResolvedKnown(m, st);
    var xs := Resolved(m);
    forall i | 0 <= i < |xs| ensures Known(st.globals, st.tables, m.elements[i]) && Known(st.globals, st.tables, xs[i])
      && (Fits(st.globals, st.tables, xs[i]) <==> Fits(st.globals, st.tables, m.elements[i]))
    {
      assert Known(st.globals, st.tables, m.elements[i]);
    }
  }

  /** The last stage of a module: it traps exactly in the cases above, and otherwise all segments have
      been written in order, elements before data. */
  lemma CompleteExact(d: Modules, st: State, i: nat) returns (ws: seq<Write<nat>>, vs: seq<Write<byte>>)
    requires i in d && Linked(d, st)
    ensures Mentions(d[i], st)
    ensures Complete(d, st, i).None? <==> Refuses(d[i], st)
    ensures Complete(d, st, i).Some? ==>
              WritesFor(d[i], st.globals, ws, vs)
              && Overlaid(st.tables, Complete(d, st, i).value.tables, ws)
              && Overlaid(st.mems, Complete(d, st, i).value.mems, vs)
  {
    hide PutAll, Overlaid, Position, AllFit, AllKnown;
    var m := d[i];
    assert Mentions(m, st);
    ResolvedFit(m, st);
    PutAllExact(st.globals, st.tables, Resolved(m));
    PutAllExact(st.globals, st.mems, m.datas);
    DatasFit(st.globals, st.mems, m.datas);
    ws, vs := [], [];
    if Complete(d, st, i).Some? {
      ws, vs := WritesOf(st.globals, Resolved(m)), WritesOf(st.globals, m.datas);
    }
  }

  lemma DatasFit(globals: Globals, store: map<nat, seq<byte>>, xs: seq<Segment<byte>>)
    requires AllKnown(globals, store, xs)
    ensures AllFit(globals, store, xs) <==>
            forall i :: 0 <= i < |xs| && Known(globals, store, xs[i]) ==> Fits(globals, store, xs[i])
  {
    hide Position;
  }

  // ---------- whole initialisations ----------

  /** A module that has been completed, and the globals at that moment. */
  datatype Step = Step(i: nat, globals: Globals)

  function Starts(d: Modules, steps: seq<Step>): seq<nat> {
    if steps == [] then []
    else
      var k := |steps| - 1;
      Starts(d, steps[..k]) + (if steps[k].i in d && d[steps[k].i].start.Some? then [steps[k].i] else [])
  }

  /** st' has come about from st by completing the modules of steps, one after the other: each for the
      first time, its imports of the right types, and all of its segments written. */
  ghost predicate Completed(d: Modules, st: State, st': State, steps: seq<Step>, wss: seq<seq<Write<nat>>>,
                            vss: seq<seq<Write<byte>>>)
  {
    StepsOk(d, st, steps, wss, vss) && Marked(st, st', steps) && st'.log == st.log + Starts(d, steps)
    && Overlaid(st.tables, st'.tables, Flat(wss)) && Overlaid(st.mems, st'.mems, Flat(vss))
  }

  ghost predicate StepsOk(d: Modules, st: State, steps: seq<Step>, wss: seq<seq<Write<nat>>>,
                          vss: seq<seq<Write<byte>>>)
  {
    |wss| == |steps| && |vss| == |steps|
    && (forall k :: 0 <= k < |steps| ==>
          steps[k].i in d && steps[k].i !in st.initted && TypesOk(d[steps[k].i])
          && (d[steps[k].i].start.Some? ==> d[steps[k].i].start.value == Sig([], None))
          && WritesFor(d[steps[k].i], steps[k].globals, wss[k], vss[k]))
    && (forall k, l :: 0 <= k < l < |steps| ==> steps[k].i != steps[l].i)
  }

  /** Exactly the modules of steps have been initialised. */
  ghost predicate Marked(st: State, st': State, steps: seq<Step>) {
    forall q :: q in st'.initted <==> q in st.initted || exists k :: 0 <= k < |steps| && steps[k].i == q
  }

  function Flat<T>(wss: seq<seq<Write<T>>>): seq<Write<T>> {
    if wss == [] then [] else Flat(wss[..|wss| - 1]) + wss[|wss| - 1]
  }

  lemma {:induction false} FlatJoin<T>(a: seq<seq<Write<T>>>, b: seq<seq<Write<T>>>)
    ensures Flat(a + b) == Flat(a) + Flat(b)
    decreases |b|
  {
    if b == [] {
      assert a + b == a;
    } else {
      var k := |b| - 1;
      assert (a + b)[..|a| + k] == a + b[..k];
      FlatJoin(a, b[..k]);
      assert Flat(a) + (Flat(b[..k]) + b[k]) == Flat(a) + Flat(b[..k]) + b[k];
    }
  }

  lemma {:induction false} StartsJoin(d: Modules, a: seq<Step>, b: seq<Step>)
    ensures Starts(d, a + b) == Starts(d, a) + Starts(d, b)
    decreases |b|
  {
    if b == [] {
      assert a + b == a;
    } else {
      var k := |b| - 1;
      assert (a + b)[..|a| + k] == a + b[..k];
      StartsJoin(d, a, b[..k]);
    }
  }

  lemma NoneCompleted(d: Modules, st: State)
    ensures Completed(d, st, st, [], [], [])
  {
    assert Starts(d, []) == [];
    NothingOverlaid(st.tables);
    NothingOverlaid(st.mems);
  }

  /** Only the globals differ. */
  lemma GlobalsCompleted(d: Modules, st: State, st1: State, st': State, steps: seq<Step>, wss: seq<seq<Write<nat>>>,
                         vss: seq<seq<Write<byte>>>)
    requires Completed(d, st1, st', steps, wss, vss) && st1 == st.(globals := st1.globals)
    ensures Completed(d, st, st', steps, wss, vss)
  {
    hide Overlaid, WritesFor, TypesOk;
  }

  lemma JoinCompleted(d: Modules, s0: State, s1: State, s2: State, a: seq<Step>, aws: seq<seq<Write<nat>>>,
                      avs: seq<seq<Write<byte>>>, b: seq<Step>, bws: seq<seq<Write<nat>>>, bvs: seq<seq<Write<byte>>>)
    requires Completed(d, s0, s1, a, aws, avs) && Completed(d, s1, s2, b, bws, bvs)
    ensures Completed(d, s0, s2, a + b, aws + bws, avs + bvs)
  {
    hide Overlaid, StepsOk, Marked, Starts, Flat;
    StartsJoin(d, a, b);
    FlatJoin(aws, bws);
    FlatJoin(avs, bvs);
    OverlaidJoin(s0.tables, s1.tables, s2.tables, Flat(aws), Flat(bws));
    OverlaidJoin(s0.mems, s1.mems, s2.mems, Flat(avs), Flat(bvs));
    JoinedInitted(s0, s1, s2, a, b);
    JoinedSteps(d, s0, s1, a, aws, avs, b, bws, bvs);
  }

  lemma JoinedInitted(s0: State, s1: State, s2: State, a: seq<Step>, b: seq<Step>)
    requires Marked(s0, s1, a) && Marked(s1, s2, b)
    ensures Marked(s0, s2, a + b)
  {
    var c := a + b;
    forall q ensures q in s2.initted <==> q in s0.initted || exists k :: 0 <= k < |c| && c[k].i == q {
      if k :| 0 <= k < |a| && a[k].i == q { assert c[k].i == q; }
      if k :| 0 <= k < |b| && b[k].i == q { assert c[|a| + k].i == q; }
      if k :| 0 <= k < |c| && c[k].i == q {
        if k < |a| { assert a[k].i == q; } else { assert b[k - |a|].i == q; }
      }
    }
  }

  lemma JoinedSteps(d: Modules, s0: State, s1: State, a: seq<Step>, aws: seq<seq<Write<nat>>>,
                    avs: seq<seq<Write<byte>>>, b: seq<Step>, bws: seq<seq<Write<nat>>>, bvs: seq<seq<Write<byte>>>)
    requires StepsOk(d, s0, a, aws, avs) && StepsOk(d, s1, b, bws, bvs) && Marked(s0, s1, a)
    ensures StepsOk(d, s0, a + b, aws + bws, avs + bvs)
  {
    hide WritesFor, TypesOk;
    var c := a + b;
    forall k, l | 0 <= k < l < |c| ensures c[k].i != c[l].i {
      if k < |a| <= l { assert c[k].i == a[k].i && a[k].i in s1.initted && c[l].i == b[l - |a|].i; }
    }
  }

  lemma OneCompleted(d: Modules, st: State, i: nat, ws: seq<Write<nat>>, vs: seq<Write<byte>>)
    requires i in d && Linked(d, st) && i !in st.initted && TypesOk(d[i]) && Complete(d, st, i).Some?
    requires WritesFor(d[i], st.globals, ws, vs) && !Refuses(d[i], st)
    requires var st' := Complete(d, st, i).value;
             Overlaid(st.tables, st'.tables, ws) && Overlaid(st.mems, st'.mems, vs)
    ensures Completed(d, st, Complete(d, st, i).value, [Step(i, st.globals)], [ws], [vs])
  {
    hide Overlaid, WritesFor, TypesOk, Complete, Linked;
    var steps := [Step(i, st.globals)];
    assert steps[..0] == [] && [ws][..0] == [] && [vs][..0] == [];
    assert Flat([ws]) == [] + ws == ws && Flat([vs]) == [] + vs == vs;
    assert Starts(d, []) == [];
    assert Starts(d, steps) == [] + (if d[i].start.Some? then [i] else []);
    var st' := Complete(d, st, i).value;
    forall q ensures q in st'.initted <==> q in st.initted || exists k :: 0 <= k < |steps| && steps[k].i == q {
      assert steps[0].i == i;
    }
    if d[i].start.Some? { assert d[i].start.value == Sig([], None); }
  }

  /** Initialising module i without a trap completes modules one after the other; afterwards tables and
      memories hold exactly their segments, in that order, over what was there before. */
  lemma {:induction false} InitWrites(d: Modules, rank: nat -> nat, st: State, i: nat)
    returns (steps: seq<Step>, wss: seq<seq<Write<nat>>>, vss: seq<seq<Write<byte>>>)
    requires Wf(d, rank) && i in d && Linked(d, st) && Init(d, rank, st, i).Some?
    ensures Completed(d, st, Init(d, rank, st, i).value, steps, wss, vss)
    ensures i !in st.initted ==>
              steps != [] && steps[|steps| - 1] == Step(i, Init(d, rank, st, i).value.globals)
    decreases rank(i), 1, 0
  {
    hide Acyclic, Owned, Linked, Complete, Completed, InitGlobals, TypesOk, Refuses;
    steps, wss, vss := [], [], [];
    if i in st.initted {
      NoneCompleted(d, st);
    } else {
      var s := InitGlobals(d, rank, st, i, 0).value;
      steps, wss, vss := GlobalsWrites(d, rank, st, i, 0);
      NotYet(d, rank, st, i, 0);
      var ws, vs := CompleteExact(d, s, i);
      OneCompleted(d, s, i, ws, vs);
      JoinCompleted(d, st, s, Complete(d, s, i).value, steps, wss, vss, [Step(i, s.globals)], [ws], [vs]);
      steps, wss, vss := steps + [Step(i, s.globals)], wss + [ws], vss + [vs];
    }
  }

  lemma {:induction false} GlobalsWrites(d: Modules, rank: nat -> nat, st: State, i: nat, j: nat)
    returns (steps: seq<Step>, wss: seq<seq<Write<nat>>>, vss: seq<seq<Write<byte>>>)
    requires Wf(d, rank) && i in d && Linked(d, st) && j <= |d[i].inits| && InitGlobals(d, rank, st, i, j).Some?
    ensures Completed(d, st, InitGlobals(d, rank, st, i, j).value, steps, wss, vss)
    decreases rank(i), 0, |d[i].inits| - j
  {
    hide Acyclic, Owned, Linked, Init, Completed;
    LengthsMatch(d, rank, i);
    if j == |d[i].inits| {
      steps, wss, vss := [], [], [];
      NoneCompleted(d, st);
    } else {
      match d[i].inits[j]
      case Constant(v) =>
        var s1 := st.(globals := st.globals[d[i].own[j] := v]);
        SetGlobalLinked(d, st, d[i].own[j], v);
        steps, wss, vss := GlobalsWrites(d, rank, s1, i, j + 1);
        GlobalsCompleted(d, st, s1, InitGlobals(d, rank, st, i, j).value, steps, wss, vss);
      case Parent(m, g) =>
        ParentOk(d, rank, i, j);
        var s0 := Init(d, rank, st, m).value;
        GlobalExists(d, s0, i, j);
        SetGlobalLinked(d, s0, d[i].own[j], s0.globals[g]);
        var s1 := s0.(globals := s0.globals[d[i].own[j] := s0.globals[g]]);
        var a, aws, avs := InitWrites(d, rank, st, m);
        var b, bws, bvs := GlobalsWrites(d, rank, s1, i, j + 1);
        GlobalsCompleted(d, s0, s1, InitGlobals(d, rank, st, i, j).value, b, bws, bvs);
        JoinCompleted(d, st, s0, InitGlobals(d, rank, st, i, j).value, a, aws, avs, b, bws, bvs);
        steps, wss, vss := a + b, aws + bws, avs + bvs;
    }
  }

  /** A module is not initialised by those it inherits from. */
  lemma {:induction false} NotYet(d: Modules, rank: nat -> nat, st: State, i: nat, j: nat)
    requires Wf(d, rank) && i in d && Linked(d, st) && j <= |d[i].inits| && InitGlobals(d, rank, st, i, j).Some?
    requires i !in st.initted
    ensures i !in InitGlobals(d, rank, st, i, j).value.initted
    decreases rank(i), 0, |d[i].inits| - j
  {
    hide Acyclic, Owned, Linked, Init, Reach;
    LengthsMatch(d, rank, i);
    if j < |d[i].inits| {
      match d[i].inits[j]
      case Constant(v) =>
        SetGlobalLinked(d, st, d[i].own[j], v);
        NotYet(d, rank, st.(globals := st.globals[d[i].own[j] := v]), i, j + 1);
      case Parent(m, g) =>
        ParentOk(d, rank, i, j);
        OnlyReached(d, rank, st, m);
        ReachRank(d, rank, m);
        var s0 := Init(d, rank, st, m).value;
        GlobalExists(d, s0, i, j);
        SetGlobalLinked(d, s0, d[i].own[j], s0.globals[g]);
        NotYet(d, rank, s0.(globals := s0.globals[d[i].own[j] := s0.globals[g]]), i, j + 1);
    }
  }

  /** Init initialises nothing but what it reaches. */
  lemma {:induction false} OnlyReached(d: Modules, rank: nat -> nat, st: State, i: nat)
    requires Wf(d, rank) && i in d && Linked(d, st) && Init(d, rank, st, i).Some?
    ensures Init(d, rank, st, i).value.initted <= st.initted + Reach(d, rank, i)
    decreases rank(i), 1, 0
  {
    hide Acyclic, Owned, Linked, Complete, InitGlobals, ReachFrom;
    if i !in st.initted { OnlyReachedFrom(d, rank, st, i, 0); }
  }

  lemma {:induction false} OnlyReachedFrom(d: Modules, rank: nat -> nat, st: State, i: nat, j: nat)
    requires Wf(d, rank) && i in d && Linked(d, st) && j <= |d[i].inits| && InitGlobals(d, rank, st, i, j).Some?
    ensures InitGlobals(d, rank, st, i, j).value.initted <= st.initted + ReachFrom(d, rank, i, j)
    decreases rank(i), 0, |d[i].inits| - j
  {
    hide Acyclic, Owned, Linked, Init, Reach;
    LengthsMatch(d, rank, i);
    if j < |d[i].inits| {
      match d[i].inits[j]
      case Constant(v) =>
        SetGlobalLinked(d, st, d[i].own[j], v);
        OnlyReachedFrom(d, rank, st.(globals := st.globals[d[i].own[j] := v]), i, j + 1);
      case Parent(m, g) =>
        ParentOk(d, rank, i, j);
        OnlyReached(d, rank, st, m);
        var s0 := Init(d, rank, st, m).value;
        GlobalExists(d, s0, i, j);
        SetGlobalLinked(d, s0, d[i].own[j], s0.globals[g]);
        OnlyReachedFrom(d, rank, s0.(globals := s0.globals[d[i].own[j] := s0.globals[g]]), i, j + 1);
    }
  }

  // ---------- traps ----------

  /** At module q, in state s, initialisation has no way but to trap. */
  ghost predicate Blocked(d: Modules, q: nat, s: State)
    requires q in d && Linked(d, s)
  {
    q !in s.initted && (!TypesOk(d[q]) || (Mentions(d[q], s) && Refuses(d[q], s)))
  }

  /** If initialisation traps, it is at a module it reaches, for an import of the wrong type, a segment
      that does not fit or a start function of the wrong type: in the state it has come to by completing
      other modules. */
  lemma {:induction false} InitTraps(d: Modules, rank: nat -> nat, st: State, i: nat)
    returns (q: nat, s: State, steps: seq<Step>, wss: seq<seq<Write<nat>>>, vss: seq<seq<Write<byte>>>)
    requires Wf(d, rank) && i in d && Linked(d, st) && Init(d, rank, st, i).None?
    ensures q in d && q in Reach(d, rank, i) && Linked(d, s) && Blocked(d, q, s)
    ensures Completed(d, st, s, steps, wss, vss)
    decreases rank(i), 1, 0
  {
    hide Acyclic, Owned, Linked, Complete, Completed, InitGlobals, ReachFrom, TypesOk, Refuses;
    ReachRank(d, rank, i);
    if !TypesOk(d[i]) {
      q, s, steps, wss, vss := i, st, [], [], [];
      NoneCompleted(d, st);
    } else if InitGlobals(d, rank, st, i, 0).None? {
      q, s, steps, wss, vss := GlobalsTraps(d, rank, st, i, 0);
    } else {
      q, s := i, InitGlobals(d, rank, st, i, 0).value;
      NotYet(d, rank, st, i, 0);
      steps, wss, vss := GlobalsWrites(d, rank, st, i, 0);
      var ws, vs := CompleteExact(d, s, i);
    }
  }

  lemma {:induction false} GlobalsTraps(d: Modules, rank: nat -> nat, st: State, i: nat, j: nat)
    returns (q: nat, s: State, steps: seq<Step>, wss: seq<seq<Write<nat>>>, vss: seq<seq<Write<byte>>>)
    requires Wf(d, rank) && i in d && Linked(d, st) && j <= |d[i].inits| && InitGlobals(d, rank, st, i, j).None?
    ensures q in d && q in ReachFrom(d, rank, i, j) && Linked(d, s) && Blocked(d, q, s)
    ensures Completed(d, st, s, steps, wss, vss)
    decreases rank(i), 0, |d[i].inits| - j
  {
    hide Acyclic, Owned, Linked, Init, Completed, Reach, Blocked;
    LengthsMatch(d, rank, i);
    match d[i].inits[j]
    case Constant(v) =>
      var s1 := st.(globals := st.globals[d[i].own[j] := v]);
      SetGlobalLinked(d, st, d[i].own[j], v);
      q, s, steps, wss, vss := GlobalsTraps(d, rank, s1, i, j + 1);
      GlobalsCompleted(d, st, s1, s, steps, wss, vss);
    case Parent(m, g) =>
      ParentOk(d, rank, i, j);
      if Init(d, rank, st, m).None? {
        q, s, steps, wss, vss := InitTraps(d, rank, st, m);
      } else {
        var s0 := Init(d, rank, st, m).value;
        GlobalExists(d, s0, i, j);
        SetGlobalLinked(d, s0, d[i].own[j], s0.globals[g]);
        var s1 := s0.(globals := s0.globals[d[i].own[j] := s0.globals[g]]);
        var a, aws, avs := InitWrites(d, rank, st, m);
        var b, bws, bvs;
        q, s, b, bws, bvs := GlobalsTraps(d, rank, s1, i, j + 1);
        GlobalsCompleted(d, s0, s1, s, b, bws, bvs);
        JoinCompleted(d, st, s0, s, a, aws, avs, b, bws, bvs);
        steps, wss, vss := a + b, aws + bws, avs + bvs;
      }
  }
}
