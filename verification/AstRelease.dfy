/**
 Releasing a parsed module, demo/pridwen/Enclave/sgxwasm/ast.c: recursive frees over the
 instruction tree and the section arrays. Heap blocks are named by numbers.
 */
module AstRelease {
  import opened Leb

  type Ptr = Option<nat>

  /** An array of instructions and the block that holds it. */
  datatype Code = Code(block: nat, items: seq<Instr>)

  /** Instructions by what they own: a nested body, two arms, or a label table. */
  datatype Instr =
    | Plain
    | BlockOrLoop(body: Body)
    | IfElse(thn: Body, els: Body)
    | BrTable(labels: Ptr)

  /** A pointer to an instruction array, possibly null. */
  datatype Body = NoBody | HasBody(code: Code)

  /** One element of a section array: the pointers freed before its code (both names of an
      import, an export's name, a function's locals) and after it (function indices, a buffer). */
  datatype Entry = Entry(first: Ptr, second: Ptr, body: Body, last: Ptr)

  /** A section: its array, if any, and the elements. Types, imports, functions, tables,
      memories, globals, exports, elements, codes and data all have this shape. */
  datatype Section = Section(array_: Ptr, entries: seq<Entry>)

  // ---------- what is owned, in the order of the frees ----------

  function OfPtr(p: Ptr): seq<nat> { if p.None? then [] else [p.value] }

  /** Every block below an instruction. */
  function OfInstr(i: Instr): seq<nat> {
    match i
    case Plain => []
    case BlockOrLoop(b) => OfBody(b)
    case IfElse(t, e) => OfBody(t) + OfBody(e)
    case BrTable(l) => OfPtr(l)
  }

  function OfItems(items: seq<Instr>): seq<nat> {
    if items == [] then [] else OfItems(items[..|items| - 1]) + OfInstr(items[|items| - 1])
  }

  /** An instruction array: what its instructions own, then the array. */
  function OfCode(c: Code): seq<nat> { OfItems(c.items) + [c.block] }

  function OfBody(b: Body): seq<nat> {
    match b case NoBody => [] case HasBody(c) => OfCode(c)
  }

  function OfEntry(e: Entry): seq<nat> { OfPtr(e.first) + OfPtr(e.second) + OfBody(e.body) + OfPtr(e.last) }

  function OfEntries(es: seq<Entry>): seq<nat> {
    if es == [] then [] else OfEntries(es[..|es| - 1]) + OfEntry(es[|es| - 1])
  }

  function OfSection(s: Section): seq<nat> { OfEntries(s.entries) + OfPtr(s.array_) }

  function OfSections(ss: seq<Section>): seq<nat> {
    if ss == [] then [] else OfSections(ss[..|ss| - 1]) + OfSection(ss[|ss| - 1])
  }

  /** An ownership tree: no block is owned twice, and a section without an array has no elements. */
  ghost predicate OwnershipTree(ss: seq<Section>) {
    NoRepeat(OfSections(ss)) && forall s :: s in ss && s.array_.None? ==> s.entries == []
  }

  predicate NoRepeat(s: seq<nat>) { forall i, j :: 0 <= i < j < |s| ==> s[i] != s[j] }

  // ---------- the pointers of the tree ----------

  /** p is a pointer somewhere in an instruction, an array of instructions, or what holds them. */
  predicate InInstr(p: nat, i: Instr) {
    match i
    case Plain => false
    case BlockOrLoop(b) => InBody(p, b)
    case IfElse(t, e) => InBody(p, t) || InBody(p, e)
    case BrTable(l) => l == Some(p)
  }

  predicate InCode(p: nat, c: Code) { c.block == p || exists k :: 0 <= k < |c.items| && InInstr(p, c.items[k]) }

  predicate InBody(p: nat, b: Body) { b.HasBody? && InCode(p, b.code) }

  predicate InEntry(p: nat, e: Entry) {
    e.first == Some(p) || e.second == Some(p) || e.last == Some(p) || InBody(p, e.body)
  }

  predicate InSection(p: nat, s: Section) {
    s.array_ == Some(p) || exists k :: 0 <= k < |s.entries| && InEntry(p, s.entries[k])
  }

  predicate InModule(p: nat, ss: seq<Section>) { exists k :: 0 <= k < |ss| && InSection(p, ss[k]) }

  lemma {:induction false} InstrComplete(p: nat, i: Instr)
    ensures p in OfInstr(i) <==> InInstr(p, i)
    decreases i, 0
  {
    match i
    case Plain =>
    case BlockOrLoop(b) => BodyComplete(p, b);
    case IfElse(t, e) => BodyComplete(p, t); BodyComplete(p, e);
    case BrTable(_) =>
  }

  lemma {:induction false} BodyComplete(p: nat, b: Body)
    ensures p in OfBody(b) <==> InBody(p, b)
    decreases b, 1
  {
    if b.HasBody? {
      assert OfBody(b) == OfItems(b.code.items) + [b.code.block];
      ItemsComplete(p, b, b.code.items);
    }
  }

  lemma {:induction false} ItemsComplete(p: nat, b: Body, items: seq<Instr>)
    requires b.HasBody? && items <= b.code.items
    ensures p in OfItems(items) <==> exists k :: 0 <= k < |items| && InInstr(p, items[k])
    decreases b, 0, |items|
  {
    hide OfInstr, InInstr;
    if items != [] {
      var n := |items| - 1;
      assert items[..n] <= b.code.items && items[n] == b.code.items[n];
      ItemsComplete(p, b, items[..n]);
      InstrComplete(p, items[n]);
      if k :| 0 <= k < |items| && InInstr(p, items[k]) {
        if k < n { assert items[..n][k] == items[k]; }
      }
      if k :| 0 <= k < n && InInstr(p, items[..n][k]) { assert InInstr(p, items[k]); }
    }
  }

  lemma EntryComplete(p: nat, e: Entry)
    ensures p in OfEntry(e) <==> InEntry(p, e)
  {
    BodyComplete(p, e.body);
  }

  lemma {:induction false} EntriesComplete(p: nat, es: seq<Entry>)
    ensures p in OfEntries(es) <==> exists k :: 0 <= k < |es| && InEntry(p, es[k])
    decreases |es|
  {
    hide OfEntry, InEntry;
    if es != [] {
      var n := |es| - 1;
      EntriesComplete(p, es[..n]);
      EntryComplete(p, es[n]);
      if k :| 0 <= k < |es| && InEntry(p, es[k]) {
        if k < n { assert es[..n][k] == es[k]; }
      }
      if k :| 0 <= k < n && InEntry(p, es[..n][k]) { assert InEntry(p, es[k]); }
    }
  }

  lemma SectionComplete(p: nat, s: Section)
    ensures p in OfSection(s) <==> InSection(p, s)
  {
    EntriesComplete(p, s.entries);
  }

  /** What the release frees are exactly the pointers that occur anywhere in the module. */
  lemma {:induction false} ModuleComplete(p: nat, ss: seq<Section>)
    ensures p in OfSections(ss) <==> InModule(p, ss)
    decreases |ss|
  {
    hide OfSection, InSection;
    if ss != [] {
      var n := |ss| - 1;
      ModuleComplete(p, ss[..n]);
      SectionComplete(p, ss[n]);
      if k :| 0 <= k < |ss| && InSection(p, ss[k]) {
        if k < n { assert ss[..n][k] == ss[k]; }
      }
      if k :| 0 <= k < n && InSection(p, ss[..n][k]) { assert InSection(p, ss[k]); }
    }
  }

  // ---------- the heap ----------

  /** Live blocks, and the log of frees. Free and Touch demand a live block, so a verified caller
      neither frees a block twice nor reads one it has freed. */
  class Heap {
    var live: set<nat>
    var freed: seq<nat>

    constructor (blocks: set<nat>)
      ensures live == blocks && freed == []
    {
      live, freed := blocks, [];
    }

    /** free: null is ignored. */
    method Free(p: Ptr)
      requires p.Some? ==> p.value in live
      modifies this
      ensures Gone(old(live), old(freed), live, freed, OfPtr(p))
    {
      if p.Some? {
        live := live - {p.value};
        freed := freed + [p.value];
      }
    }

    /** Reading an element of a heap array. */
    method Touch(block: nat)
      requires block in live
    {}
  }

  function Elements(s: seq<nat>): (r: set<nat>)
    ensures forall x :: x in r <==> x in s
  {
    set x | x in s
  }

  lemma SplitRepeat(a: seq<nat>, b: seq<nat>)
    requires NoRepeat(a + b)
    ensures NoRepeat(a) && NoRepeat(b) && forall x :: x in a ==> x !in b
  {
    var c := a + b;
    forall i, j | 0 <= i < j < |a| ensures a[i] != a[j] { assert c[i] == a[i] && c[j] == a[j]; }
    forall i, j | 0 <= i < j < |b| ensures b[i] != b[j] { assert c[|a| + i] == b[i] && c[|a| + j] == b[j]; }
    forall i, j | 0 <= i < |a| && 0 <= j < |b| ensures a[i] != b[j] { assert c[i] == a[i] && c[|a| + j] == b[j]; }
  }

  lemma ElementsJoin(a: seq<nat>, b: seq<nat>)
    ensures Elements(a + b) == Elements(a) + Elements(b)
  {}

  /** Exactly the blocks of s have been freed, in that order. */
  ghost predicate Gone(live: set<nat>, freed: seq<nat>, live': set<nat>, freed': seq<nat>, s: seq<nat>) {
    freed' == freed + s && live' == live - Elements(s)
  }

  lemma NoneGone(live: set<nat>, freed: seq<nat>)
    ensures Gone(live, freed, live, freed, [])
  {
    assert freed + [] == freed;
  }

  lemma ThenGone(l0: set<nat>, f0: seq<nat>, l1: set<nat>, f1: seq<nat>, l2: set<nat>, f2: seq<nat>,
                 done: seq<nat>, next: seq<nat>)
    requires Gone(l0, f0, l1, f1, done) && Gone(l1, f1, l2, f2, next)
    ensures Gone(l0, f0, l2, f2, done + next)
  {
    ElementsJoin(done, next);
    assert f0 + done + next == f0 + (done + next);
  }

  lemma LiveAfter(l0: set<nat>, f0: seq<nat>, l1: set<nat>, f1: seq<nat>, s: seq<nat>)
    requires Gone(l0, f0, l1, f1, s)
    ensures l1 == l0 - Elements(s)
  {}

  /** The blocks of s are live and all different. */
  ghost predicate Releasable(live: set<nat>, s: seq<nat>) { NoRepeat(s) && Elements(s) <= live }

  /** Once the front of s has been released, what follows it still is releasable. */
  lemma Following(live: set<nat>, s: seq<nat>, done: seq<nat>, next: seq<nat>)
    requires Releasable(live, s) && done + next <= s
    ensures Releasable(live, done) && Releasable(live - Elements(done), next)
    ensures Elements(done + next) == Elements(done) + Elements(next)
  {
    var front := done + next;
    assert forall i :: 0 <= i < |front| ==> front[i] == s[i];
    SplitRepeat(done, next);
    ElementsJoin(done, next);
  }

  lemma {:induction false} ItemsPrefix(items: seq<Instr>, i: nat)
    requires i <= |items|
    ensures OfItems(items[..i]) <= OfItems(items)
    decreases |items|
  {
    if i < |items| {
      ItemsPrefix(items[..|items| - 1], i);
      assert items[..|items| - 1][..i] == items[..i];
    } else {
      assert items[..i] == items;
    }
  }

  lemma ItemsStep(items: seq<Instr>, i: nat)
    requires i < |items|
    ensures OfItems(items[..i + 1]) == OfItems(items[..i]) + OfInstr(items[i])
    ensures OfItems(items[..i]) + OfInstr(items[i]) <= OfItems(items) && OfItems(items[..i]) <= OfItems(items)
  {
    assert items[..i + 1][..i] == items[..i];
    ItemsPrefix(items, i + 1);
    ItemsPrefix(items, i);
  }

  lemma {:induction false} EntriesPrefix(es: seq<Entry>, i: nat)
    requires i <= |es|
    ensures OfEntries(es[..i]) <= OfEntries(es)
    decreases |es|
  {
    if i < |es| {
      EntriesPrefix(es[..|es| - 1], i);
      assert es[..|es| - 1][..i] == es[..i];
    } else {
      assert es[..i] == es;
    }
  }

  lemma EntriesStep(es: seq<Entry>, i: nat)
    requires i < |es|
    ensures OfEntries(es[..i + 1]) == OfEntries(es[..i]) + OfEntry(es[i])
    ensures OfEntries(es[..i]) + OfEntry(es[i]) <= OfEntries(es) && OfEntries(es[..i]) <= OfEntries(es)
  {
    assert es[..i + 1][..i] == es[..i];
    EntriesPrefix(es, i + 1);
    EntriesPrefix(es, i);
  }

  lemma {:induction false} SectionsPrefix(ss: seq<Section>, i: nat)
    requires i <= |ss|
    ensures OfSections(ss[..i]) <= OfSections(ss)
    decreases |ss|
  {
    if i < |ss| {
      SectionsPrefix(ss[..|ss| - 1], i);
      assert ss[..|ss| - 1][..i] == ss[..i];
    } else {
      assert ss[..i] == ss;
    }
  }

  lemma SectionsStep(ss: seq<Section>, i: nat)
    requires i < |ss|
    ensures OfSections(ss[..i + 1]) == OfSections(ss[..i]) + OfSection(ss[i])
    ensures OfSections(ss[..i]) + OfSection(ss[i]) <= OfSections(ss) && OfSections(ss[..i]) <= OfSections(ss)
  {
    assert ss[..i + 1][..i] == ss[..i];
    SectionsPrefix(ss, i + 1);
    SectionsPrefix(ss, i);
  }

  /** What comes next in a list is releasable when everything before it is gone. */
  lemma Next(live: set<nat>, freed: seq<nat>, l1: set<nat>, f1: seq<nat>, all: seq<nat>, done: seq<nat>, next: seq<nat>)
    requires Releasable(live, all) && done + next <= all && Gone(live, freed, l1, f1, done)
    ensures Releasable(l1, next)
  {
    Following(live, all, done, next);
  }

  // ---------- the frees ----------

  method FreeInstruction(h: Heap, instr: Instr)
    requires Releasable(h.live, OfInstr(instr))
    modifies h
    ensures Gone(old(h.live), old(h.freed), h.live, h.freed, OfInstr(instr))
    decreases instr
  {
    match instr
    case Plain => NoneGone(h.live, h.freed);
    case BlockOrLoop(body) => FreeBody(h, body);
    case IfElse(thn, els) =>
      ghost var l0, f0 := h.live, h.freed;
      Following(h.live, OfBody(thn) + OfBody(els), OfBody(thn), OfBody(els));
      FreeBody(h, thn);
      LiveAfter(l0, f0, h.live, h.freed, OfBody(thn));
      ghost var l1, f1 := h.live, h.freed;
      FreeBody(h, els);
      ThenGone(l0, f0, l1, f1, h.live, h.freed, OfBody(thn), OfBody(els));
    case BrTable(labels) => FreePtr(h, labels);
  }

  /** `if (instructions) free_instructions(...)` */
  method FreeBody(h: Heap, body: Body)
    requires Releasable(h.live, OfBody(body))
    modifies h
    ensures Gone(old(h.live), old(h.freed), h.live, h.freed, OfBody(body))
    decreases body
  {
    if body.HasBody? { FreeInstructions(h, body.code); } else { NoneGone(h.live, h.freed); }
  }

  /** Frees what each instruction owns while the array can still be read, then the array. */
  method FreeInstructions(h: Heap, code: Code)
    requires Releasable(h.live, OfCode(code))
    modifies h
    ensures Gone(old(h.live), old(h.freed), h.live, h.freed, OfCode(code))
    decreases code
  {
    hide Releasable, Gone, OfInstr;
    ghost var live, freed, items, all := h.live, h.freed, code.items, OfItems(code.items);
    Following(live, OfCode(code), all, [code.block]);
    NoneGone(live, freed);
    var i := 0;
    while i < |code.items|
      invariant 0 <= i <= |items|
      invariant Gone(live, freed, h.live, h.freed, OfItems(items[..i]))
    {
      ghost var done, next, l1, f1 := OfItems(items[..i]), OfInstr(items[i]), h.live, h.freed;
      ItemsStep(items, i);
      Next(live, freed, l1, f1, all, done, next);
      StillLive(live, freed, l1, f1, all, code.block, done);
      h.Touch(code.block);
      FreeInstruction(h, code.items[i]);
      ThenGone(live, freed, l1, f1, h.live, h.freed, done, next);
      i := i + 1;
    }
    assert items[..i] == items;
    ghost var l1, f1 := h.live, h.freed;
    StillLive(live, freed, l1, f1, all, code.block, all);
    h.Free(Some(code.block));
    ThenGone(live, freed, l1, f1, h.live, h.freed, all, [code.block]);
  }

  method FreeEntry(h: Heap, e: Entry)
    requires Releasable(h.live, OfEntry(e))
    modifies h
    ensures Gone(old(h.live), old(h.freed), h.live, h.freed, OfEntry(e))
  {
    hide Releasable, Gone, OfPtr, OfBody;
    ghost var a, b, c, d := OfPtr(e.first), OfPtr(e.second), OfBody(e.body), OfPtr(e.last);
    ghost var l0, f0 := h.live, h.freed;
    Following(l0, OfEntry(e), a + b + c, d);
    Following(l0, a + b + c, a + b, c);
    Following(l0, a + b, a, b);
    FreePtr(h, e.first);
    ghost var l1, f1 := h.live, h.freed;
    LiveAfter(l0, f0, l1, f1, a);
    FreePtr(h, e.second);
    ThenGone(l0, f0, l1, f1, h.live, h.freed, a, b);
    ghost var l2, f2 := h.live, h.freed;
    LiveAfter(l0, f0, l2, f2, a + b);
    FreeBody(h, e.body);
    ThenGone(l0, f0, l2, f2, h.live, h.freed, a + b, c);
    ghost var l3, f3 := h.live, h.freed;
    LiveAfter(l0, f0, l3, f3, a + b + c);
    FreePtr(h, e.last);
    ThenGone(l0, f0, l3, f3, h.live, h.freed, a + b + c, d);
  }

  method FreePtr(h: Heap, p: Ptr)
    requires Releasable(h.live, OfPtr(p))
    modifies h
    ensures Gone(old(h.live), old(h.freed), h.live, h.freed, OfPtr(p))
  {
    IsReleasable(h.live, p);
    h.Free(p);
  }

  /** The elements of one section, read from its array. */
  method FreeEntries(h: Heap, block: nat, es: seq<Entry>)
    requires Releasable(h.live, OfEntries(es)) && Releasable(h.live - Elements(OfEntries(es)), [block])
    modifies h
    ensures Gone(old(h.live), old(h.freed), h.live, h.freed, OfEntries(es))
  {
    hide Releasable, Gone, OfEntry;
    ghost var live, freed := h.live, h.freed;
    NoneGone(live, freed);
    var i := 0;
    while i < |es|
      invariant 0 <= i <= |es|
      invariant Gone(live, freed, h.live, h.freed, OfEntries(es[..i]))
    {
      ghost var done, next, l1, f1 := OfEntries(es[..i]), OfEntry(es[i]), h.live, h.freed;
      EntriesStep(es, i);
      Next(live, freed, l1, f1, OfEntries(es), done, next);
      StillLive(live, freed, l1, f1, OfEntries(es), block, done);
      h.Touch(block);
      FreeEntry(h, es[i]);
      ThenGone(live, freed, l1, f1, h.live, h.freed, done, next);
      i := i + 1;
    }
    assert es[..i] == es;
  }

  /** One section: `if (array) { elements; free(array); }` */
  method FreeSection(h: Heap, s: Section)
    requires Releasable(h.live, OfSection(s)) && (s.array_.None? ==> s.entries == [])
    modifies h
    ensures Gone(old(h.live), old(h.freed), h.live, h.freed, OfSection(s))
  {
    hide Releasable, Gone, OfEntry;
    ghost var live, freed, all := h.live, h.freed, OfEntries(s.entries);
    if s.array_.None? {
      NoneGone(live, freed);
      assert OfSection(s) == [];
    } else {
      Following(live, OfSection(s), all, OfPtr(s.array_));
      FreeEntries(h, s.array_.value, s.entries);
      ghost var l1, f1 := h.live, h.freed;
      StillLive(live, freed, l1, f1, all, s.array_.value, all);
      h.Free(s.array_);
      ThenGone(live, freed, l1, f1, h.live, h.freed, all, OfPtr(s.array_));
    }
  }

  /** sgxwasm_free_wasm_module: every block the module owns, at any nesting depth, is freed exactly
      once and none is read afterwards; nothing else is freed. */
  method FreeModule(h: Heap, ss: seq<Section>)
    requires OwnershipTree(ss) && Elements(OfSections(ss)) <= h.live
    modifies h
    ensures h.freed == old(h.freed) + OfSections(ss)
    ensures h.live == old(h.live) - Elements(OfSections(ss))
    ensures forall b :: b in OfSections(ss) ==> multiset(OfSections(ss))[b] == 1
  {
    ghost var live, freed, all := h.live, h.freed, OfSections(ss);
    forall b | b in all ensures multiset(all)[b] == 1 { Once(all, b); }
    FreeSections(h, ss);
  }

  method FreeSections(h: Heap, ss: seq<Section>)
    requires Releasable(h.live, OfSections(ss)) && forall s :: s in ss && s.array_.None? ==> s.entries == []
    modifies h
    ensures Gone(old(h.live), old(h.freed), h.live, h.freed, OfSections(ss))
  {
    hide Releasable, Gone, OfSection;
    ghost var live, freed := h.live, h.freed;
    NoneGone(live, freed);
    var i := 0;
    while i < |ss|
      invariant 0 <= i <= |ss|
      invariant Gone(live, freed, h.live, h.freed, OfSections(ss[..i]))
    {
      ghost var done, next, l1, f1 := OfSections(ss[..i]), OfSection(ss[i]), h.live, h.freed;
      SectionsStep(ss, i);
      Next(live, freed, l1, f1, OfSections(ss), done, next);
      FreeSection(h, ss[i]);
      ThenGone(live, freed, l1, f1, h.live, h.freed, done, next);
      i := i + 1;
    }
    assert ss[..i] == ss;
  }

  lemma IsReleasable(live: set<nat>, p: Ptr)
    requires Releasable(live, OfPtr(p))
    ensures p.Some? ==> p.value in live
  {
    if p.Some? { assert p.value in Elements([p.value]); }
  }

  /** The array block itself is not among what its elements own. */
  lemma StillLive(live: set<nat>, freed: seq<nat>, l1: set<nat>, f1: seq<nat>, all: seq<nat>, block: nat,
                  done: seq<nat>)
    requires Releasable(live, all) && Releasable(live - Elements(all), [block]) && done <= all
    requires Gone(live, freed, l1, f1, done)
    ensures block in l1
  {
    assert block in Elements([block]);
  }

  lemma {:induction false} Once(s: seq<nat>, b: nat)
    requires b in s && NoRepeat(s)
    ensures multiset(s)[b] == 1
    decreases |s|
  {
    var n := |s| - 1;
    assert s == s[..n] + [s[n]];
    if s[n] == b { assert b !in s[..n]; } else { Once(s[..n], b); }
  }

  /** The frees of s one after the other, whatever s is: None once a block is freed that is not live. */
  function Release(live: set<nat>, s: seq<nat>): Option<set<nat>> {
    if s == [] then Some(live)
    else if s[0] !in live then None
    else Release(live - {s[0]}, s[1..])
  }

  /** The frees go through if and only if all blocks are live and different: the ownership condition
      is exact. */
  lemma {:induction false} ReleaseExact(live: set<nat>, s: seq<nat>)
    ensures Release(live, s) == if Releasable(live, s) then Some(live - Elements(s)) else None
    decreases |s|
  {
    if s != [] {
      var b, rest := s[0], s[1..];
      ReleaseExact(live - {b}, rest);
      FirstReleased(live, b, rest);
      assert s == [b] + rest;
    } else {
      assert live - Elements(s) == live;
    }
  }

  lemma FirstReleased(live: set<nat>, b: nat, rest: seq<nat>)
    ensures Releasable(live, [b] + rest) <==> b in live && Releasable(live - {b}, rest)
    ensures live - Elements([b] + rest) == live - {b} - Elements(rest)
  {
    var s := [b] + rest;
    ElementsJoin([b], rest);
    assert Elements([b]) == {b};
    if NoRepeat(s) { SplitRepeat([b], rest); assert b in [b]; }
    if b !in rest && NoRepeat(rest) {
      forall i, j | 0 <= i < j < |s| ensures s[i] != s[j] {
        assert s[j] == rest[j - 1];
      }
    }
  }

  /** Sharing breaks it: two arms with one array, and the frees stop at the array, which is freed a
      second time. */
  lemma SharedIsFreedTwice(live: set<nat>, body: Body)
    requires body.HasBody?
    ensures Release(live, OfInstr(IfElse(body, body))) == None
  {
    var s, own := OfInstr(IfElse(body, body)), OfBody(body);
    ReleaseExact(live, s);
    assert own == OfCode(body.code);
    assert s == own + own;
    if NoRepeat(s) {
      assert s[|own| - 1] == s[|s| - 1];
    }
  }
}
