/**
 Initialisation of statically linked modules in wasmjit/static_runtime.c: a module first
 initialises the modules its globals are inherited from, recursively, and each only once.
 Modules, globals, tables and memories are named by numbers, which stand for their pointers.
 */
module StaticRuntime {
  import opened Leb
  import opened Imports
  import opened Segments

  /** GLOBAL_CONST_INIT and GLOBAL_GLOBAL_INIT. */
  datatype GlobalInit = Constant(v: Val) | Parent(module_: nat, global: nat)

  /** The imports by kind; functions: the module's function pointers, which the elements name by index;
      own: the non-imported globals, one per initialiser; start: the type of the start function, if
      there is one. */
  datatype Desc = Desc(funcs: seq<FuncImport>, importTables: seq<TableImport>, importMems: seq<MemoryImport>,
                       importGlobals: seq<GlobalImport>, functions: seq<nat>, own: seq<nat>, inits: seq<GlobalInit>,
                       elements: seq<Segment<nat>>, datas: seq<Segment<byte>>, start: Option<Sig>)

  datatype State = State(initted: set<nat>, globals: map<nat, Val>, tables: map<nat, seq<nat>>,
                         mems: map<nat, seq<byte>>, log: seq<nat>)

  type Modules = map<nat, Desc>

  // ---------- well-formed, acyclic dependencies ----------

  /** The module named with an inherited global is of a lower rank. */
  ghost predicate Acyclic(d: Modules, rank: nat -> nat) {
    forall i, j :: i in d && 0 <= j < |d[i].inits| && d[i].inits[j].Parent? ==>
      var p := d[i].inits[j].module_; p in d && rank(p) < rank(i)
  }

  /** Module i and everything it inherits from, directly or not. */
  ghost function Reach(d: Modules, rank: nat -> nat, i: nat): set<nat>
    requires Acyclic(d, rank) && i in d
    decreases rank(i), 1, 0
  {
    {i} + ReachFrom(d, rank, i, 0)
  }

  ghost function ReachFrom(d: Modules, rank: nat -> nat, i: nat, j: nat): set<nat>
    requires Acyclic(d, rank) && i in d && j <= |d[i].inits|
    decreases rank(i), 0, |d[i].inits| - j
  {
    if j == |d[i].inits| then {}
    else (if d[i].inits[j].Parent? then Reach(d, rank, d[i].inits[j].module_) else {}) + ReachFrom(d, rank, i, j + 1)
  }

  /** Initialising the module named with an inherited global settles that global: only modules
      initialised with it own it, if any does. */
  ghost predicate Settled(d: Modules, rank: nat -> nat)
    requires Acyclic(d, rank)
  {
    forall i, j, q :: i in d && 0 <= j < |d[i].inits| && d[i].inits[j].Parent? && q in d ==>
      var p := d[i].inits[j]; p.global in d[q].own ==> q in Reach(d, rank, p.module_)
  }

  /** One own global per initialiser, and no global owned twice. */
  ghost predicate Owned(d: Modules) {
    (forall i :: i in d ==> |d[i].own| == |d[i].inits|)
    && (forall i, j, k :: i in d && 0 <= j < k < |d[i].own| ==> d[i].own[j] != d[i].own[k])
    && (forall i, k, g :: i in d && k in d && i != k && g in d[i].own ==> g !in d[k].own)
  }

  /** Everything the modules mention exists. */
  ghost predicate Linked(d: Modules, st: State) {
    (forall i, g :: i in d && g in d[i].own ==> g in st.globals)
    && (forall i, j :: i in d && 0 <= j < |d[i].inits| && d[i].inits[j].Parent? ==>
          d[i].inits[j].global in st.globals)
    && (forall i :: i in d ==> Mentions(d[i], st))
  }

  /** Globals, tables, memories and functions of the segments exist. */
  predicate Mentions(m: Desc, st: State) {
    AllKnown(st.globals, st.tables, m.elements) && AllKnown(st.globals, st.mems, m.datas)
    && forall i, k :: 0 <= i < |m.elements| && 0 <= k < |m.elements[i].items| ==>
         m.elements[i].items[k] < |m.functions|
  }

  ghost predicate Wf(d: Modules, rank: nat -> nat) { Acyclic(d, rank) && Owned(d) }

  // ---------- the initialisation, as a function ----------

  /** The functions an element segment writes. */
  function Pointers(functions: seq<nat>, idxs: seq<nat>): (r: seq<nat>)
    requires forall k :: 0 <= k < |idxs| ==> idxs[k] < |functions|
    ensures |r| == |idxs| && forall k :: 0 <= k < |idxs| ==> r[k] == functions[idxs[k]]
  {
    seq(|idxs|, k requires 0 <= k < |idxs| => functions[idxs[k]])
  }

  function Resolved(m: Desc): (xs: seq<Segment<nat>>)
    requires forall i, k :: 0 <= i < |m.elements| && 0 <= k < |m.elements[i].items| ==>
               m.elements[i].items[k] < |m.functions|
    ensures |xs| == |m.elements|
    ensures forall i :: 0 <= i < |xs| ==>
              xs[i] == m.elements[i].(items := Pointers(m.functions, m.elements[i].items))
  {
    seq(|m.elements|, i requires 0 <= i < |m.elements| =>
      m.elements[i].(items := Pointers(m.functions, m.elements[i].items)))
  }

  lemma ResolvedKnown(m: Desc, st: State)
    requires Mentions(m, st)
    ensures AllKnown(st.globals, st.tables, Resolved(m))
  {
    forall i | 0 <= i < |m.elements| ensures Known(st.globals, st.tables, Resolved(m)[i]) {
      assert Known(st.globals, st.tables, m.elements[i]);
    }
  }

  /** Segments, start function and the initted flag, once the globals are set. */
  function Complete(d: Modules, st: State, i: nat): (r: Option<State>)
    requires i in d && Linked(d, st)
    ensures r.Some? ==> Linked(d, r.value) && r.value.globals == st.globals && r.value.initted == st.initted + {i}
    ensures r.Some? ==> r.value.log == st.log + (if d[i].start.Some? then [i] else [])
  {
    ResolvedKnown(d[i], st);
    match PutAll(st.globals, st.tables, Resolved(d[i]))
    case None => None
    case Some(tables) =>
      match PutAll(st.globals, st.mems, d[i].datas)
      case None => None
      case Some(mems) =>
        if d[i].start.Some? && d[i].start.value != Sig([], None) then None
        else
          var log := if d[i].start.Some? then st.log + [i] else st.log;
          KeysKept(d, st, tables, mems);
          Some(st.(initted := st.initted + {i}, tables := tables, mems := mems, log := log))
  }

  lemma KeysKept(d: Modules, st: State, tables: map<nat, seq<nat>>, mems: map<nat, seq<byte>>)
    requires Linked(d, st) && tables.Keys == st.tables.Keys && mems.Keys == st.mems.Keys
    ensures forall initted, log :: Linked(d, st.(initted := initted, tables := tables, mems := mems, log := log))
  {
    forall i | i in d ensures forall initted, log ::
      Mentions(d[i], st.(initted := initted, tables := tables, mems := mems, log := log))
    {
      assert Mentions(d[i], st);
      KnownAgain(st.globals, st.tables, tables, d[i].elements);
      KnownAgain(st.globals, st.mems, mems, d[i].datas);
    }
  }

  lemma KnownAgain<T>(globals: Globals, store: map<nat, seq<T>>, s: map<nat, seq<T>>, xs: seq<Segment<T>>)
    requires AllKnown(globals, store, xs) && s.Keys == store.Keys
    ensures AllKnown(globals, s, xs)
  {
    forall i | 0 <= i < |xs| ensures Known(globals, s, xs[i]) { assert Known(globals, store, xs[i]); }
  }

  /** No import is of another type than asked for. */
  predicate TypesOk(m: Desc) {
    (forall i :: 0 <= i < |m.funcs| ==> m.funcs[i].expected == m.funcs[i].actual)
    && (forall i :: 0 <= i < |m.importTables| ==> TypecheckTable(m.importTables[i]))
    && (forall i :: 0 <= i < |m.importMems| ==> TypecheckMemory(m.importMems[i]))
    && (forall i :: 0 <= i < |m.importGlobals| ==> TypecheckGlobal(m.importGlobals[i]))
  }

  /** wasmjit_init_static_module; None is a trap. */
  function Init(d: Modules, rank: nat -> nat, st: State, i: nat): (r: Option<State>)
    requires Wf(d, rank) && i in d && Linked(d, st)
    ensures r.Some? ==> Linked(d, r.value)
    decreases rank(i), 1, 0
  {
    if i in st.initted then Some(st)
    else if !TypesOk(d[i]) then None
    else match InitGlobals(d, rank, st, i, 0)
         case None => None
         case Some(s) => Complete(d, s, i)
  }

  /** The global initialisers from the j-th on. */
  function InitGlobals(d: Modules, rank: nat -> nat, st: State, i: nat, j: nat): (r: Option<State>)
    requires Wf(d, rank) && i in d && Linked(d, st) && j <= |d[i].inits|
    ensures r.Some? ==> Linked(d, r.value)
    decreases rank(i), 0, |d[i].inits| - j
  {
    if j == |d[i].inits| then Some(st)
    else
      match d[i].inits[j]
      case Constant(v) => InitGlobals(d, rank, st.(globals := st.globals[d[i].own[j] := v]), i, j + 1)
      case Parent(m, g) =>
        match Init(d, rank, st, m)
        case None => None
        case Some(s) => InitGlobals(d, rank, s.(globals := s.globals[d[i].own[j] := s.globals[g]]), i, j + 1)
  }

  // ---------- the source's loops ----------

  class Runtime {
    const d: Modules
    ghost const rank: nat -> nat
    var initted: set<nat>
    var globals: map<nat, Val>
    var tables: map<nat, seq<nat>>
    var mems: map<nat, seq<byte>>
    var log: seq<nat>

    function Now(): State
      reads this
    {
      State(initted, globals, tables, mems, log)
    }

    constructor (modules: Modules, ghost ranks: nat -> nat, st: State)
      ensures d == modules && rank == ranks && Now() == st
    {
      d, rank := modules, ranks;
      initted, globals, tables, mems, log := st.initted, st.globals, st.tables, st.mems, st.log;
    }

    /** Initialises module i and, before it, the modules it inherits globals from; false is a
        trap. The start function is run by noting it in the log. */
    method InitStaticModule(i: nat) returns (ok: bool)
      requires Wf(d, rank) && i in d && Linked(d, Now())
      modifies this
      ensures var r := Init(d, rank, old(Now()), i); ok == r.Some? && (ok ==> r.value == Now())
      decreases rank(i)
    {
      hide Linked, Acyclic, Owned, Complete;
      if i in initted { return true; }
      ok := CheckImports(d[i]);
      if !ok { return; }
      ghost var st := Now();
      var j := 0;
      LengthsMatch(d, rank, i);
      while j < |d[i].inits|
        invariant 0 <= j <= |d[i].inits| == |d[i].own| && Linked(d, Now())
        invariant InitGlobals(d, rank, Now(), i, j) == InitGlobals(d, rank, st, i, 0)
      {
        var own := d[i].own[j];
        match d[i].inits[j] {
          case Constant(v) =>
            SetGlobalLinked(d, Now(), own, v);
            globals := globals[own := v];
          case Parent(m, g) =>
            ParentOk(d, rank, i, j);
            ok := InitStaticModule(m);
            if !ok { return false; }
            GlobalExists(d, Now(), i, j);
            SetGlobalLinked(d, Now(), own, globals[g]);
            globals := globals[own := globals[g]];
        }
        j := j + 1;
      }
      ok := Finish(i);
    }

    /** The loops over the imports of each kind: a mismatch is a trap. */
    method CheckImports(m: Desc) returns (ok: bool)
      ensures ok <==> TypesOk(m)
    {
      var i := 0;
      while i < |m.funcs|
        invariant 0 <= i <= |m.funcs| && forall j :: 0 <= j < i ==> m.funcs[j].expected == m.funcs[j].actual
      {
        ok := TypecheckFunc(m.funcs[i]);
        if !ok { return; }
        i := i + 1;
      }
      i := 0;
      while i < |m.importTables|
        invariant 0 <= i <= |m.importTables| && forall j :: 0 <= j < i ==> TypecheckTable(m.importTables[j])
      {
        if !TypecheckTable(m.importTables[i]) { return false; }
        i := i + 1;
      }
      i := 0;
      while i < |m.importMems|
        invariant 0 <= i <= |m.importMems| && forall j :: 0 <= j < i ==> TypecheckMemory(m.importMems[j])
      {
        if !TypecheckMemory(m.importMems[i]) { return false; }
        i := i + 1;
      }
      i := 0;
      while i < |m.importGlobals|
        invariant 0 <= i <= |m.importGlobals| && forall j :: 0 <= j < i ==> TypecheckGlobal(m.importGlobals[j])
      {
        if !TypecheckGlobal(m.importGlobals[i]) { return false; }
        i := i + 1;
      }
      ok := true;
    }

    method Finish(i: nat) returns (ok: bool)
      requires i in d && Linked(d, Now())
      modifies this
      ensures var r := Complete(d, old(Now()), i); ok == r.Some? && (ok ==> r.value == Now())
    {
      hide PutAll;
      ok := WriteElements(d[i]);
      if !ok { return; }
      ok := WriteDatas(d[i]);
      if !ok { return; }
      if d[i].start.Some? {
        ok := TypecheckFunc(FuncImport(Sig([], None), d[i].start.value));
        if !ok { return; }
        log := log + [i];
      }
      initted := initted + {i};
    }

    method WriteElements(m: Desc) returns (ok: bool)
      requires Mentions(m, Now())
      modifies this`tables
      ensures AllKnown(old(globals), old(tables), Resolved(m))
      ensures var r := PutAll(old(globals), old(tables), Resolved(m));
              ok == r.Some? && (ok ==> tables == r.value && tables.Keys == old(tables.Keys))
    {
      ghost var st, es := Now(), Resolved(m);
      ResolvedKnown(m, st);
      var i := 0;
      assert es[0..] == es;
      hide PutAll;
      while i < |m.elements|
        invariant 0 <= i <= |m.elements| && tables.Keys == st.tables.Keys && AllKnown(globals, tables, es[i..])
        invariant PutAll(globals, tables, es[i..]) == PutAll(st.globals, st.tables, es)
      {
        var element := m.elements[i];
        assert es[i..][0] == es[i] && es[i..][1..] == es[i + 1..];
        PutStep(globals, tables, es[i..]);
        var offset := OffsetOf(globals, element.offset);
        if !offset.i32 { return false; }
        var table := tables[element.target];
        if |element.items| + offset.bits > |table| { return false; }
        table := WriteTable(table, offset.bits, element.items, m.functions);
        RestKnown(globals, tables, tables[element.target := table], es[i..]);
        tables := tables[element.target := table];
        i := i + 1;
      }
      PutNothing(globals, tables, es[i..]);
      ok := true;
    }

    /** table->data[offset + j] = funcs.elts[funcidxs[j]] for every j. */
    method WriteTable(before: seq<nat>, at: nat, idxs: seq<nat>, functions: seq<nat>) returns (table: seq<nat>)
      requires at + |idxs| <= |before| && forall k :: 0 <= k < |idxs| ==> idxs[k] < |functions|
      ensures table == Patched(before, at, Pointers(functions, idxs))
    {
      table := before;
      var j := 0;
      ghost var funcs := Pointers(functions, idxs);
      while j < |idxs|
        invariant 0 <= j <= |idxs|
        invariant table == Patched(before, at, funcs[..j])
      {
        table := table[at + j := functions[idxs[j]]];
        j := j + 1;
      }
      assert funcs[..j] == funcs;
    }

    /** memcpy per data segment. */
    method WriteDatas(m: Desc) returns (ok: bool)
      requires AllKnown(globals, mems, m.datas)
      modifies this`mems
      ensures var r := PutAll(old(globals), old(mems), m.datas);
              ok == r.Some? && (ok ==> mems == r.value && mems.Keys == old(mems.Keys))
    {
      ghost var before, xs := mems, m.datas;
      var i := 0;
      assert xs[0..] == xs;
      hide PutAll;
      while i < |m.datas|
        invariant 0 <= i <= |xs| && mems.Keys == before.Keys && AllKnown(globals, mems, xs[i..])
        invariant PutAll(globals, mems, xs[i..]) == PutAll(globals, before, xs)
      {
        var data := m.datas[i];
        assert xs[i..][0] == data && xs[i..][1..] == xs[i + 1..];
        PutStep(globals, mems, xs[i..]);
        var offset := OffsetOf(globals, data.offset);
        if !offset.i32 { return false; }
        if |data.items| + offset.bits > |mems[data.target]| { return false; }
        var mem := Patched(mems[data.target], offset.bits, data.items);
        RestKnown(globals, mems, mems[data.target := mem], xs[i..]);
        mems := mems[data.target := mem];
        i := i + 1;
      }
      PutNothing(globals, mems, xs[i..]);
      ok := true;
    }
  }

  lemma LengthsMatch(d: Modules, rank: nat -> nat, i: nat)
    requires Wf(d, rank) && i in d
    ensures |d[i].own| == |d[i].inits|
  {}

  lemma SetGlobalLinked(d: Modules, st: State, g: nat, v: Val)
    requires Linked(d, st)
    ensures Linked(d, st.(globals := st.globals[g := v]))
  {
    var st' := st.(globals := st.globals[g := v]);
    forall i | i in d ensures Mentions(d[i], st') {
      assert Mentions(d[i], st);
      KnownMore(st.globals, st'.globals, st.tables, d[i].elements);
      KnownMore(st.globals, st'.globals, st.mems, d[i].datas);
    }
  }

  lemma KnownMore<T>(globals: Globals, more: Globals, store: map<nat, seq<T>>, xs: seq<Segment<T>>)
    requires AllKnown(globals, store, xs) && globals.Keys <= more.Keys
    ensures AllKnown(more, store, xs)
  {
    forall i | 0 <= i < |xs| ensures Known(more, store, xs[i]) { assert Known(globals, store, xs[i]); }
  }

  lemma ParentOk(d: Modules, rank: nat -> nat, i: nat, j: nat)
    requires Wf(d, rank) && i in d && j < |d[i].inits| && d[i].inits[j].Parent?
    ensures var p := d[i].inits[j]; p.module_ in d && rank(p.module_) < rank(i)
  {}

  lemma GlobalExists(d: Modules, st: State, i: nat, j: nat)
    requires Linked(d, st) && i in d && j < |d[i].inits| && d[i].inits[j].Parent?
    ensures d[i].inits[j].global in st.globals
  {}

  // ---------- what initialisation achieves ----------

  /** The j-th own global of i has the value its initialiser prescribes: the constant, or what
      the inherited global of an initialised parent holds. */
  ghost predicate Holds(d: Modules, st: State, i: nat, j: nat)
    requires i in d && j < |d[i].inits| == |d[i].own|
  {
    d[i].own[j] in st.globals &&
    match d[i].inits[j]
    case Constant(v) => st.globals[d[i].own[j]] == v
    case Parent(m, g) => m in st.initted && g in st.globals && st.globals[d[i].own[j]] == st.globals[g]
  }

  ghost predicate AllHold(d: Modules, st: State, i: nat, n: nat)
    requires i in d && n <= |d[i].inits| == |d[i].own|
  {
    forall j :: 0 <= j < n ==> Holds(d, st, i, j)
  }

  /** Initialised modules are in order: their dependencies are initialised, too, and their
      globals have the prescribed values. */
  ghost predicate GlobalsGood(d: Modules, rank: nat -> nat, st: State)
    requires Wf(d, rank)
  {
    forall i :: i in st.initted ==> i in d && Reach(d, rank, i) <= st.initted && AllHold(d, st, i, |d[i].inits|)
  }

  /** Start functions have run for exactly the initialised modules, once each, and each after
      those of all modules it depends on. */
  ghost predicate LogGood(d: Modules, rank: nat -> nat, st: State)
    requires Wf(d, rank)
  {
    (forall p, q :: 0 <= p < q < |st.log| ==> st.log[p] != st.log[q])
    && (forall i :: i in st.log <==> i in st.initted && i in d && d[i].start.Some?)
    && (forall p, q ::
          0 <= p < |st.log| && q in Reach(d, rank, st.log[p]) && q in d && q != st.log[p] && d[q].start.Some?
          ==> q in st.log[..p])
  }

  ghost predicate Good(d: Modules, rank: nat -> nat, st: State)
    requires Wf(d, rank)
  {
    GlobalsGood(d, rank, st) && LogGood(d, rank, st)
  }

  /** No global changed but those owned by the modules of s. */
  ghost predicate OnlyOwn(d: Modules, st: State, st': State, s: set<nat>) {
    forall g :: g in st.globals ==>
      (g in st'.globals && ((forall m :: m in s && m in d ==> g !in d[m].own) ==> st'.globals[g] == st.globals[g]))
  }

  // ---------- reachability ----------

  lemma {:induction false} ReachRank(d: Modules, rank: nat -> nat, i: nat)
    requires Acyclic(d, rank) && i in d
    ensures i in Reach(d, rank, i)
    ensures forall q :: q in Reach(d, rank, i) ==> q in d && rank(q) <= rank(i)
    decreases rank(i), 1, 0
  {
    ReachFromRank(d, rank, i, 0);
  }

  lemma {:induction false} ReachFromRank(d: Modules, rank: nat -> nat, i: nat, j: nat)
    requires Acyclic(d, rank) && i in d && j <= |d[i].inits|
    ensures forall q :: q in ReachFrom(d, rank, i, j) ==> q in d && rank(q) < rank(i)
    decreases rank(i), 0, |d[i].inits| - j
  {
    if j < |d[i].inits| {
      if d[i].inits[j].Parent? { ReachRank(d, rank, d[i].inits[j].module_); }
      ReachFromRank(d, rank, i, j + 1);
    }
  }

  // ---------- the proof ----------

  lemma HoldsKept(d: Modules, rank: nat -> nat, st: State, st': State, s: set<nat>, i: nat, j: nat)
    requires Wf(d, rank) && Settled(d, rank) && i in d && j < |d[i].inits| && |d[i].inits| == |d[i].own|
    requires Holds(d, st, i, j)
    requires OnlyOwn(d, st, st', s) && st.initted <= st'.initted && i !in s
    requires d[i].inits[j].Parent? ==> d[i].inits[j].module_ in d && Reach(d, rank, d[i].inits[j].module_) !! s
    ensures Holds(d, st', i, j)
  {
    assert d[i].own[j] in d[i].own;
    hide Reach;
  }

  /** Writing an own global of a module that is not initialised disturbs no initialised one. */
  lemma GoodKept(d: Modules, rank: nat -> nat, st: State, st': State, i: nat)
    requires Wf(d, rank) && Settled(d, rank) && Good(d, rank, st) && i !in st.initted
    requires st'.initted == st.initted && st'.log == st.log && OnlyOwn(d, st, st', {i})
    ensures Good(d, rank, st')
  {
    hide Acyclic, Owned, Settled, Holds, OnlyOwn, Reach, LogGood;
    forall m | m in st.initted
      ensures m in d && Reach(d, rank, m) <= st'.initted && |d[m].inits| == |d[m].own|
      ensures AllHold(d, st', m, |d[m].inits|)
    {
      LengthsMatch(d, rank, m);
      forall j | 0 <= j < |d[m].inits| ensures Holds(d, st', m, j) {
        ParentInitted(d, rank, st, m, j);
        ParentReach(d, rank, st, m, j);
        HoldsKept(d, rank, st, st', {i}, m, j);
      }
    }
    LogSame(d, rank, st, st');
  }

  lemma LogSame(d: Modules, rank: nat -> nat, st: State, st': State)
    requires Wf(d, rank) && LogGood(d, rank, st) && st'.initted == st.initted && st'.log == st.log
    ensures LogGood(d, rank, st')
  {}

  lemma ParentReach(d: Modules, rank: nat -> nat, st: State, m: nat, j: nat)
    requires Wf(d, rank) && GlobalsGood(d, rank, st) && m in d && j < |d[m].inits|
    requires d[m].inits[j].Parent? ==> d[m].inits[j].module_ in st.initted
    ensures d[m].inits[j].Parent? ==>
              d[m].inits[j].module_ in d && Reach(d, rank, d[m].inits[j].module_) <= st.initted
  {}

  lemma ParentInitted(d: Modules, rank: nat -> nat, st: State, m: nat, j: nat)
    requires Wf(d, rank) && m in d && j < |d[m].inits| && |d[m].inits| == |d[m].own| && Holds(d, st, m, j)
    ensures d[m].inits[j].Parent? ==> d[m].inits[j].module_ in st.initted
  {}

  /** A module inherits none of its own globals. */
  lemma NotInherited(d: Modules, rank: nat -> nat, i: nat, j: nat, k: nat)
    requires Wf(d, rank) && Settled(d, rank) && i in d && j < |d[i].own| && k < |d[i].inits| && d[i].inits[k].Parent?
    ensures d[i].inits[k].global != d[i].own[j]
  {
    ParentOk(d, rank, i, k);
    ReachRank(d, rank, d[i].inits[k].module_);
    assert d[i].own[j] in d[i].own;
  }

  /** One initialiser of a module under way. */
  lemma SetOwn(d: Modules, rank: nat -> nat, st: State, i: nat, j: nat, v: Val) returns (st': State)
    requires Wf(d, rank) && Settled(d, rank) && i in d && j < |d[i].inits| && |d[i].inits| == |d[i].own|
    requires Good(d, rank, st)
    requires i !in st.initted
    requires AllHold(d, st, i, j)
    requires match d[i].inits[j]
             case Constant(c) => v == c
             case Parent(m, g) => m in st.initted && g in st.globals && st.globals[g] == v
    ensures st' == st.(globals := st.globals[d[i].own[j] := v])
    ensures Good(d, rank, st') && AllHold(d, st', i, j + 1) && OnlyOwn(d, st, st', {i})
  {
    st' := st.(globals := st.globals[d[i].own[j] := v]);
    GoodKept(d, rank, st, st', i);
    forall k | 0 <= k < j + 1 ensures Holds(d, st', i, k) {
      if d[i].inits[k].Parent? { NotInherited(d, rank, i, j, k); }
      assert d[i].own[j] in d[i].own;
      if k < j { assert Holds(d, st, i, k); }
    }
  }

  lemma OnlyOwnJoin(d: Modules, st: State, st1: State, st2: State, s1: set<nat>, s2: set<nat>, s: set<nat>)
    requires OnlyOwn(d, st, st1, s1) && OnlyOwn(d, st1, st2, s2) && s1 <= s && s2 <= s
    ensures OnlyOwn(d, st, st2, s)
  {}

  lemma {:induction false} InitGood(d: Modules, rank: nat -> nat, st: State, i: nat)
    requires Wf(d, rank) && Settled(d, rank) && i in d && Linked(d, st) && Good(d, rank, st)
    requires Init(d, rank, st, i).Some?
    ensures var st' := Init(d, rank, st, i).value;
            Good(d, rank, st') && st'.initted == st.initted + Reach(d, rank, i) && st.log <= st'.log
            && OnlyOwn(d, st, st', Reach(d, rank, i) - st.initted)
    decreases rank(i), 1, 0
  {
    hide Acyclic, Owned, Settled, Linked, Complete, GlobalsGood, LogGood, InitGlobals, ReachFrom;
    ReachRank(d, rank, i);
    if i in st.initted {
      ReachInitted(d, rank, st, i);
      OnlyOwnSame(d, st);
    } else {
      LengthsMatch(d, rank, i);
      InitGlobalsGood(d, rank, st, i, 0);
      var s := InitGlobals(d, rank, st, i, 0).value;
      CompleteGood(d, rank, s, i);
      var st' := Init(d, rank, st, i).value;
      OnlyOwnSame(d, s);
      OnlyOwnGlobals(d, st, s, st', (ReachFrom(d, rank, i, 0) - st.initted) + {i});
      assert (ReachFrom(d, rank, i, 0) - st.initted) + {i} == Reach(d, rank, i) - st.initted;
    }
  }

  lemma ReachInitted(d: Modules, rank: nat -> nat, st: State, i: nat)
    requires Wf(d, rank) && GlobalsGood(d, rank, st) && i in st.initted
    ensures i in d && Reach(d, rank, i) <= st.initted
  {}

  lemma OnlyOwnSame(d: Modules, st: State)
    ensures OnlyOwn(d, st, st, {})
    ensures forall s :: OnlyOwn(d, st, st, s)
  {}

  lemma OnlyOwnGlobals(d: Modules, st: State, s: State, st': State, own: set<nat>)
    requires OnlyOwn(d, st, s, own) && st'.globals == s.globals
    ensures OnlyOwn(d, st, st', own)
  {}

  /** The last stage: segments and the start function, then the module counts as initialised. */
  lemma CompleteGood(d: Modules, rank: nat -> nat, s: State, i: nat)
    requires Wf(d, rank) && i in d && Linked(d, s) && Good(d, rank, s) && i !in s.initted && Complete(d, s, i).Some?
    requires ReachFrom(d, rank, i, 0) <= s.initted && |d[i].inits| == |d[i].own| && AllHold(d, s, i, |d[i].inits|)
    ensures var st' := Complete(d, s, i).value;
            Good(d, rank, st') && st'.initted == s.initted + {i} && s.log <= st'.log && st'.globals == s.globals
  {
    var st' := Complete(d, s, i).value;
    hide Complete, Acyclic, Owned, Linked;
    forall m | m in st'.initted
      ensures m in d && Reach(d, rank, m) <= st'.initted && |d[m].inits| == |d[m].own|
      ensures AllHold(d, st', m, |d[m].inits|)
    {
      LengthsMatch(d, rank, m);
      forall j | 0 <= j < |d[m].inits| ensures Holds(d, st', m, j) {
        assert Holds(d, s, m, j);
      }
    }
    LogExtended(d, rank, s, st', i);
  }

  lemma LogExtended(d: Modules, rank: nat -> nat, s: State, st': State, i: nat)
    requires Wf(d, rank) && i in d && LogGood(d, rank, s) && i !in s.initted
    requires ReachFrom(d, rank, i, 0) <= s.initted && st'.initted == s.initted + {i}
    requires st'.log == s.log + (if d[i].start.Some? then [i] else [])
    ensures LogGood(d, rank, st') && s.log <= st'.log
  {
    hide Acyclic, Owned, Settled, ReachFrom;
    var n := |s.log|;
    forall p, q | 0 <= p < |st'.log| && q in Reach(d, rank, st'.log[p]) && q in d && q != st'.log[p] && d[q].start.Some?
      ensures q in st'.log[..p]
    {
      if p < n {
        assert s.log[p] == st'.log[p];
        assert st'.log[..p] == s.log[..p];
      } else {
        assert st'.log[..p] == s.log;
      }
    }
  }

  lemma {:induction false} InitGlobalsGood(d: Modules, rank: nat -> nat, st: State, i: nat, j: nat)
    requires Wf(d, rank) && Settled(d, rank) && i in d && Linked(d, st) && Good(d, rank, st) && i !in st.initted
    requires j <= |d[i].inits| && |d[i].inits| == |d[i].own| && AllHold(d, st, i, j)
    requires InitGlobals(d, rank, st, i, j).Some?
    ensures var s := InitGlobals(d, rank, st, i, j).value;
            Good(d, rank, s) && i !in s.initted && AllHold(d, s, i, |d[i].inits|)
            && s.initted == st.initted + ReachFrom(d, rank, i, j) && st.log <= s.log
            && OnlyOwn(d, st, s, (ReachFrom(d, rank, i, j) - st.initted) + {i})
    decreases rank(i), 0, |d[i].inits| - j
  {
    hide Acyclic, Owned, Settled, Linked, GlobalsGood, LogGood, Init, Reach, AllHold, OnlyOwn, Good;
    ReachFromRank(d, rank, i, j);
    if j == |d[i].inits| {
      OnlyOwnSame(d, st);
    } else {
      match d[i].inits[j]
      case Constant(v) =>
        SetGlobalLinked(d, st, d[i].own[j], v);
        var s1 := SetOwn(d, rank, st, i, j, v);
        InitGlobalsGood(d, rank, s1, i, j + 1);
        OnlyOwnJoin(d, st, s1, InitGlobals(d, rank, st, i, j).value, {i},
                    (ReachFrom(d, rank, i, j + 1) - s1.initted) + {i}, (ReachFrom(d, rank, i, j) - st.initted) + {i});
      case Parent(m, g) =>
        ParentOk(d, rank, i, j);
        InitGood(d, rank, st, m);
        ReachRank(d, rank, m);
        var s0 := Init(d, rank, st, m).value;
        OnlyGlobals(d, rank, st);
        ParentsKept(d, rank, st, s0, Reach(d, rank, m) - st.initted, i, j);
        GlobalExists(d, s0, i, j);
        SetGlobalLinked(d, s0, d[i].own[j], s0.globals[g]);
        var s1 := SetOwn(d, rank, s0, i, j, s0.globals[g]);
        InitGlobalsGood(d, rank, s1, i, j + 1);
        var all := (ReachFrom(d, rank, i, j) - st.initted) + {i};
        OnlyOwnJoin(d, st, s0, s1, Reach(d, rank, m) - st.initted, {i}, all);
        OnlyOwnJoin(d, st, s1, InitGlobals(d, rank, st, i, j).value, all,
                    (ReachFrom(d, rank, i, j + 1) - s1.initted) + {i}, all);
    }
  }

  lemma OnlyGlobals(d: Modules, rank: nat -> nat, st: State)
    requires Wf(d, rank) && Good(d, rank, st)
    ensures GlobalsGood(d, rank, st)
  {}

  /** Initialising one more parent leaves the globals set so far as they are. */
  lemma ParentsKept(d: Modules, rank: nat -> nat, st: State, s0: State, s: set<nat>, i: nat, j: nat)
    requires Wf(d, rank) && i in d && j <= |d[i].inits| && |d[i].inits| == |d[i].own| && AllHold(d, st, i, j)
    requires GlobalsGood(d, rank, st) && Settled(d, rank)
    requires OnlyOwn(d, st, s0, s) && st.initted <= s0.initted && i !in s && s !! st.initted
    ensures AllHold(d, s0, i, j)
  {
    hide Acyclic, Owned, Settled, OnlyOwn, Holds, Reach, GlobalsGood;
    forall k | 0 <= k < j ensures Holds(d, s0, i, k) {
      ParentInitted(d, rank, st, i, k);
      ParentReach(d, rank, st, i, k);
      HoldsKept(d, rank, st, s0, s, i, k);
    }
  }

  // ---------- main results ----------

  /** From a fresh state, initialising module i without a trap initialises exactly the modules it
      depends on; every inherited global equals its parent's; and the start functions of those
      modules, diamonds included, have each run exactly once, after those of their dependencies. */
  lemma InitOnce(d: Modules, rank: nat -> nat, st: State, i: nat)
    requires Wf(d, rank) && Settled(d, rank) && i in d && Linked(d, st) && st.initted == {} && st.log == []
    requires Init(d, rank, st, i).Some?
    ensures var st' := Init(d, rank, st, i).value;
            st'.initted == Reach(d, rank, i) && Good(d, rank, st')
            && (forall q :: q in Reach(d, rank, i) && q in d && d[q].start.Some? ==> multiset(st'.log)[q] == 1)
            && (forall q :: q !in Reach(d, rank, i) ==> q !in st'.log)
  {
    hide Acyclic, Owned, Settled, Linked, Init, Reach;
    InitGood(d, rank, st, i);
    var st' := Init(d, rank, st, i).value;
    forall q | q in st'.log ensures multiset(st'.log)[q] == 1 {
      OnceInLog(st'.log, q);
    }
  }

  lemma {:induction false} OnceInLog(log: seq<nat>, q: nat)
    requires q in log && forall a, b :: 0 <= a < b < |log| ==> log[a] != log[b]
    ensures multiset(log)[q] == 1
    decreases |log|
  {
    var n := |log| - 1;
    assert log == log[..n] + [log[n]];
    if log[n] == q {
      assert q !in log[..n];
      assert multiset(log[..n])[q] == 0;
    } else {
      OnceInLog(log[..n], q);
    }
  }

  /** A second call changes nothing, for the module and for everything it depends on. */
  lemma InitIdempotent(d: Modules, rank: nat -> nat, st: State, i: nat, q: nat)
    requires Wf(d, rank) && Settled(d, rank) && i in d && Linked(d, st) && Good(d, rank, st)
    requires Init(d, rank, st, i).Some?
    requires q in Reach(d, rank, i)
    ensures q in d && Init(d, rank, Init(d, rank, st, i).value, q) == Init(d, rank, st, i)
  {
    hide Acyclic, Owned, Settled, Linked, Reach, Good;
    InitGood(d, rank, st, i);
    ReachRank(d, rank, i);
  }

  // ---------- a global that is not settled ----------

  function Plain(own: seq<nat>, inits: seq<GlobalInit>): Desc { Desc([], [], [], [], [], own, inits, [], [], None) }

  function Level(i: nat): nat { if i == 0 then 1 else 0 }

  /** Module 0 inherits global 12 twice, first with module 1, which does not own it, then with
      module 2, which does. */
  const UNSETTLED: Modules :=
    map[0 := Plain([10, 11], [Parent(1, 12), Parent(2, 12)]), 1 := Plain([], []),
        2 := Plain([12], [Constant(Val(true, 7))])]

  const BEFORE: State := State({}, map[10 := Val(true, 0), 11 := Val(true, 0), 12 := Val(true, 0)], map[], map[], [])

  lemma UnsettledIs(i: nat)
    requires i in UNSETTLED
    ensures UNSETTLED[i].own == if i == 0 then [10, 11] else if i == 2 then [12] else []
    ensures |UNSETTLED[i].own| == |UNSETTLED[i].inits|
  {}

  lemma UnsettledOwner(i: nat, g: nat)
    requires i in UNSETTLED && g in UNSETTLED[i].own
    ensures i == if g == 12 then 2 else 0
  {
    UnsettledIs(i);
  }

  lemma UnsettledOwned()
    ensures Owned(UNSETTLED)
  {
    hide UNSETTLED;
    forall i | i in UNSETTLED
      ensures |UNSETTLED[i].own| == |UNSETTLED[i].inits|
      ensures forall j, k :: 0 <= j < k < |UNSETTLED[i].own| ==> UNSETTLED[i].own[j] != UNSETTLED[i].own[k]
    {
      UnsettledIs(i);
    }
    forall i, k, g | i in UNSETTLED && k in UNSETTLED && i != k && g in UNSETTLED[i].own
      ensures g !in UNSETTLED[k].own
    {
      UnsettledOwner(i, g);
      if g in UNSETTLED[k].own { UnsettledOwner(k, g); }
    }
  }

  lemma UnsettledLinked()
    ensures Linked(UNSETTLED, BEFORE)
  {}

  lemma UnsettledWf()
    ensures Wf(UNSETTLED, Level) && Linked(UNSETTLED, BEFORE)
  {
    hide Owned, Linked;
    UnsettledOwned();
    UnsettledLinked();
  }

  lemma PlainCompletes(st: State, i: nat)
    requires i in UNSETTLED && Linked(UNSETTLED, st)
    ensures Complete(UNSETTLED, st, i) == Some(st.(initted := st.initted + {i})) && TypesOk(UNSETTLED[i])
  {}

  lemma FirstParent(st: State)
    requires Wf(UNSETTLED, Level) && Linked(UNSETTLED, st) && st.initted == {}
    ensures Init(UNSETTLED, Level, st, 1) == Some(st.(initted := {1}))
  {
    hide Complete, Linked, Wf, TypesOk;
    PlainCompletes(st, 1);
    assert InitGlobals(UNSETTLED, Level, st, 1, 0) == Some(st);
    assert st.initted + {1} == {1};
  }

  lemma SecondParent(st: State)
    requires Wf(UNSETTLED, Level) && Linked(UNSETTLED, st) && st.initted == {1}
    ensures Init(UNSETTLED, Level, st, 2)
         == Some(st.(initted := {1, 2}, globals := st.globals[12 := Val(true, 7)]))
  {
    hide Complete, Linked, Wf, TypesOk;
    var s := st.(globals := st.globals[12 := Val(true, 7)]);
    SetGlobalLinked(UNSETTLED, st, 12, Val(true, 7));
    PlainCompletes(s, 2);
    assert InitGlobals(UNSETTLED, Level, s, 2, 1) == Some(s);
    assert InitGlobals(UNSETTLED, Level, st, 2, 0) == Some(s);
    assert st.initted + {2} == {1, 2};
  }

  /** There the first copy is taken before the global has its value: being settled is needed. */
  lemma UnsettledDiffers()
    ensures Wf(UNSETTLED, Level) && Linked(UNSETTLED, BEFORE) && !Settled(UNSETTLED, Level)
    ensures var r := Init(UNSETTLED, Level, BEFORE, 0);
            r.Some? && r.value.initted == {0, 1, 2}
            && r.value.globals == map[10 := Val(true, 0), 11 := Val(true, 7), 12 := Val(true, 7)]
  {
    hide Complete, Linked, Wf, TypesOk;
    UnsettledWf();
    NotSettled();
    FirstParent(BEFORE);
    var s1 := BEFORE.(initted := {1}, globals := BEFORE.globals[10 := Val(true, 0)]);
    SetGlobalLinked(UNSETTLED, BEFORE.(initted := {1}), 10, Val(true, 0));
    SecondParent(s1);
    var s2 := s1.(initted := {1, 2}, globals := s1.globals[12 := Val(true, 7)]);
    var s3 := s2.(globals := s2.globals[11 := Val(true, 7)]);
    SetGlobalLinked(UNSETTLED, s2, 11, Val(true, 7));
    PlainCompletes(s3, 0);
    assert InitGlobals(UNSETTLED, Level, s3, 0, 2) == Some(s3);
    assert InitGlobals(UNSETTLED, Level, s1, 0, 1) == Some(s3);
    assert InitGlobals(UNSETTLED, Level, BEFORE, 0, 0) == Some(s3);
    assert s3.initted + {0} == {0, 1, 2};
  }

  lemma NotSettled()
    requires Wf(UNSETTLED, Level)
    ensures !Settled(UNSETTLED, Level)
  {
    hide Linked;
    assert Reach(UNSETTLED, Level, 1) == {1};
    var p := UNSETTLED[0].inits[0];
    assert p == Parent(1, 12) && p.global in UNSETTLED[2].own && 2 !in Reach(UNSETTLED, Level, p.module_);
  }
}
