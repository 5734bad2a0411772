/**
  The memory of the loader's module structures (lx_loader.c), as a map from
  addresses: what it means for it to hold a given list with given reference
  counts, and what the steps of linking, unlinking and freeing do to it.
 */
module ModuleMemory {
  import opened ModuleGraph
  import opened Lists
  import opened Options

  datatype LxModule = LxModule(
    name: string,
    native: bool,
    refcount: nat,
    imports: seq<string>,  // the names in its import table
    deps: seq<Ptr>,
    initialized: bool,
    prev: Ptr,
    next: Ptr
  )

  type Memory = map<Ptr, LxModule>

  // What the loader reads out of an executable file, and whether the steps of a load succeed
  // that only read the file or talk to the kernel: those before its structure is allocated,
  // before its imports are loaded, and after that.
  datatype Image = Image(
    isLx: bool, isDll: bool, name: string, imports: seq<string>, accepted: bool, prepared: bool, fixable: bool)

  // What the loader finds outside: the file that a name or a path leads to, the native
  // libraries there are, and whether malloc always succeeds.
  datatype Host = Host(files: string -> Option<Image>, natives: string -> bool, room: bool)

  const MAX_DEPTH := 32
  const MAX_LX_NAME := 127

  // ----- Looking up a name ---------------------------------------------------

  function Fold(c: char): char {
    if 'A' <= c <= 'Z' then (c as int + 32) as char else c
  }

  // strcasecmp(a, b) == 0
  predicate SameName(a: string, b: string) {
    |a| == |b| && forall i :: 0 <= i < |a| ==> Fold(a[i]) == Fold(b[i])
  }

  // Letters that differ in case alone, and no other characters, are taken for the same.
  lemma SameNameIff(a: string, b: string)
    ensures SameName(a, b) <==> |a| == |b| && forall i :: 0 <= i < |a| ==>
      a[i] == b[i] || ('a' <= a[i] <= 'z' && a[i] as int - b[i] as int == 32)
      || ('a' <= b[i] <= 'z' && b[i] as int - a[i] as int == 32)
  {
    forall i | 0 <= i < |a| && i < |b|
      ensures Fold(a[i]) == Fold(b[i]) <==>
        a[i] == b[i] || ('a' <= a[i] <= 'z' && a[i] as int - b[i] as int == 32)
        || ('a' <= b[i] <= 'z' && b[i] as int - a[i] as int == 32)
    {
      assert 'a' as int == 97 && 'z' as int == 122 && 'A' as int == 65 && 'Z' as int == 90;
    }
  }

  // The first module of `list` with that name, or null.
  ghost function Lookup(heap: Memory, list: seq<Ptr>, name: string): (p: Ptr)
    requires forall m :: m in list ==> m in heap
    ensures p == NULL || p in list
  {
    if list == [] then NULL
    else if SameName(heap[list[0]].name, name) then list[0]
    else Lookup(heap, list[1..], name)
  }

  // ----- The linked list ---------------------------------------------------------

  ghost predicate Linked(heap: Memory, loaded: Ptr, list: seq<Ptr>) {
    && loaded == At(list, 0)
    && forall i :: 0 <= i < |list| ==>
         && list[i] in heap
         && heap[list[i]].prev == At(list, i - 1)
         && heap[list[i]].next == At(list, i + 1)
  }

  // The neighbours of `m` point past it.
  function Bypass(heap: Memory, m: Ptr): (r: Memory)
    requires m in heap
    requires heap[m].next == NULL || heap[m].next in heap
    requires heap[m].prev == NULL || heap[m].prev in heap
  {
    var prev, next := heap[m].prev, heap[m].next;
    var h := if next != NULL then heap[next := heap[next].(prev := prev)] else heap;
    if prev != NULL then h[prev := h[prev].(next := next)] else h
  }

  lemma BypassLinked(heap: Memory, loaded: Ptr, list: seq<Ptr>, k: nat)
    requires Linked(heap, loaded, list) && Distinct(list) && NULL !in list && k < |list|
    ensures var m := list[k];
      && (heap[m].next != NULL ==> heap[m].next in heap)
      && (heap[m].prev != NULL ==> heap[m].prev in heap)
      && Linked(Bypass(heap, m), if m == loaded then heap[m].next else loaded, list[..k] + list[k + 1..])
  {
    var m := list[k];
    var rest := list[..k] + list[k + 1..];
    assert heap[m].next == At(list, k + 1) && heap[m].prev == At(list, k - 1);
    assert m == loaded <==> k == 0;
    forall j | 0 <= j < |rest|
      ensures rest[j] in Bypass(heap, m)
      ensures Bypass(heap, m)[rest[j]].prev == At(rest, j - 1)
      ensures Bypass(heap, m)[rest[j]].next == At(rest, j + 1)
    {
      BypassRest(heap, loaded, list, k, rest, j);
    }
  }

  lemma BypassRest(heap: Memory, loaded: Ptr, list: seq<Ptr>, k: nat, rest: seq<Ptr>, j: nat)
    requires Linked(heap, loaded, list) && Distinct(list) && NULL !in list
    requires k < |list| && rest == list[..k] + list[k + 1..] && j < |rest|
    requires heap[list[k]].next != NULL ==> heap[list[k]].next in heap
    requires heap[list[k]].prev != NULL ==> heap[list[k]].prev in heap
    ensures var h := Bypass(heap, list[k]);
      rest[j] in h && h[rest[j]].prev == At(rest, j - 1) && h[rest[j]].next == At(rest, j + 1)
  {
    var i := if j < k then j else j + 1;
    BypassAt(heap, loaded, list, k, i);
    hide *;
    RestAt(list, k, rest, j);
  }

  lemma RestAt(list: seq<Ptr>, k: nat, rest: seq<Ptr>, j: nat)
    requires k < |list| && rest == list[..k] + list[k + 1..] && j < |rest|
    ensures var i := if j < k then j else j + 1;
      i < |list| && rest[j] == list[i]
      && At(rest, j - 1) == At(list, if i == k + 1 then k - 1 else i - 1)
      && At(rest, j + 1) == At(list, if i + 1 == k then k + 1 else i + 1)
  {}

  // Only link fields of listed modules differ.
  ghost predicate Relinked(heap: Memory, heap': Memory, list: seq<Ptr>) {
    && heap'.Keys == heap.Keys
    && (forall p :: p in heap ==> heap'[p] == heap[p].(prev := heap'[p].prev, next := heap'[p].next))
    && (forall p :: p in heap && p !in list ==> heap'[p] == heap[p])
  }

  lemma BypassRelinked(heap: Memory, loaded: Ptr, list: seq<Ptr>, k: nat)
    requires Linked(heap, loaded, list) && Distinct(list) && NULL !in list && k < |list|
    ensures var m := list[k];
      && (heap[m].next != NULL ==> heap[m].next in heap)
      && (heap[m].prev != NULL ==> heap[m].prev in heap)
      && Relinked(heap, Bypass(heap, m), list)
  {
    hide *;
    Neighbours(heap, loaded, list, k);
    BypassKeeps(heap, list[k], list);
  }

  lemma Neighbours(heap: Memory, loaded: Ptr, list: seq<Ptr>, k: nat)
    requires Linked(heap, loaded, list) && k < |list|
    ensures list[k] in heap
    ensures var next := heap[list[k]].next; next == NULL || (next in list && next in heap)
    ensures var prev := heap[list[k]].prev; prev == NULL || (prev in list && prev in heap)
  {
    assert heap[list[k]].next == At(list, k + 1) && heap[list[k]].prev == At(list, k - 1);
  }

  lemma BypassKeeps(heap: Memory, m: Ptr, list: seq<Ptr>)
    requires m in heap
    requires var next := heap[m].next; next == NULL || (next in list && next in heap)
    requires var prev := heap[m].prev; prev == NULL || (prev in list && prev in heap)
    ensures Relinked(heap, Bypass(heap, m), list)
  {}

  lemma UnlinkListed(heap: Memory, loaded: Ptr, list: seq<Ptr>, k: nat)
    requires Linked(heap, loaded, list) && Distinct(list) && NULL !in list && k < |list|
    ensures var m := list[k];
      m in heap
      && var prev, next := heap[m].prev, heap[m].next;
      (next != NULL ==> next in heap) && (prev != NULL ==> prev in heap)
      && var h := if next != NULL then heap[next := heap[next].(prev := prev)] else heap;
      (prev != NULL ==> prev in h)
      && var h' := if prev != NULL then h[prev := h[prev].(next := next)] else h;
      Linked(h', if m == loaded then next else loaded, list[..k] + list[k + 1..])
      && Relinked(heap, h', list)
  {
    BypassLinked(heap, loaded, list, k);
    BypassRelinked(heap, loaded, list, k);
  }

  lemma UnlinkLoose(heap: Memory, loaded: Ptr, list: seq<Ptr>, m: Ptr)
    requires Linked(heap, loaded, list) && m !in list && m != NULL
    ensures m != loaded && Relinked(heap, heap, list)
  {}

  lemma BypassAt(heap: Memory, loaded: Ptr, list: seq<Ptr>, k: nat, i: nat)
    requires Linked(heap, loaded, list) && Distinct(list) && NULL !in list
    requires k < |list| && i < |list| && i != k
    ensures var m := list[k];
      && (heap[m].next != NULL ==> heap[m].next in heap)
      && (heap[m].prev != NULL ==> heap[m].prev in heap)
      && var h := Bypass(heap, m);
      && list[i] in h
      && h[list[i]].prev == At(list, if i == k + 1 then k - 1 else i - 1)
      && h[list[i]].next == At(list, if i + 1 == k then k + 1 else i + 1)
  {
    var m := list[k];
    assert heap[m].next == At(list, k + 1) && heap[m].prev == At(list, k - 1);
    assert i != k + 1 ==> list[i] != At(list, k + 1);
    assert i + 1 != k ==> list[i] != At(list, k - 1);
  }

  // The structures agree with the ghost values; each count is exact.
  ghost predicate Counted(heap: Memory, list: seq<Ptr>, graph: Graph, refs: multiset<Ptr>) {
    forall m :: m in list ==>
      && m in heap && heap[m].initialized && heap[m].refcount == refs[m]
      && m in graph && heap[m].deps == graph[m]
  }

  // A module outside the list, on which exactly its creator holds a reference.
  ghost predicate Loose(heap: Memory, list: seq<Ptr>, main: Ptr, m: Ptr) {
    && m in heap && m !in list && m != NULL
    && heap[m].refcount == 1 && heap[m].prev == NULL && heap[m].next == NULL
    && (heap[m].initialized ==> m == main)
  }

  lemma LinkedFrame(heap: Memory, heap': Memory, loaded: Ptr, list: seq<Ptr>)
    requires Linked(heap, loaded, list)
    requires forall p :: p in list && p in heap ==>
      p in heap' && heap'[p].prev == heap[p].prev && heap'[p].next == heap[p].next
    ensures Linked(heap', loaded, list)
  {}

  lemma CountOf(heap: Memory, list: seq<Ptr>, graph: Graph, refs: multiset<Ptr>, m: Ptr)
    requires Counted(heap, list, graph, refs)
    ensures m in list ==> m in heap && heap[m].initialized && heap[m].refcount == refs[m]
                          && m in graph && heap[m].deps == graph[m]
  {}

  lemma CountedDrop(heap: Memory, heap': Memory, list: seq<Ptr>, graph: Graph, refs: multiset<Ptr>, m: Ptr)
    requires Counted(heap, list, graph, refs) && m in heap && heap[m].refcount > 0
    requires heap' == heap[m := heap[m].(refcount := heap[m].refcount - 1)]
    ensures Counted(heap', list, graph, refs - if m in list then multiset{m} else multiset{})
  {}

  lemma CountedHold(heap: Memory, heap': Memory, list: seq<Ptr>, graph: Graph, refs: multiset<Ptr>, main: Ptr, m: Ptr)
    requires Counted(heap, list, graph, refs) && m in list && m in heap
    requires heap' == heap[m := heap[m].(refcount := heap[m].refcount + 1)]
    ensures Counted(heap', list, graph, refs + multiset{m})
    ensures main != NULL && Loose(heap, list, main, main) ==> Loose(heap', list, main, main)
  {}

  lemma RelinkedAt(heap: Memory, heap': Memory, list: seq<Ptr>, m: Ptr)
    requires Relinked(heap, heap', list) && m in heap
    ensures m in heap' && heap'[m] == heap[m].(prev := heap'[m].prev, next := heap'[m].next)
    ensures m !in list ==> heap'[m] == heap[m]
  {}

  lemma CountedRelinked(heap: Memory, heap': Memory, list: seq<Ptr>, list': seq<Ptr>, graph: Graph, refs: multiset<Ptr>)
    requires Counted(heap, list, graph, refs) && Relinked(heap, heap', list)
    requires Elems(list') <= Elems(list)
    ensures Counted(heap', list', graph, refs)
  {
    assert forall m :: m in list' ==> m in Elems(list);
  }

  // Going from `heap` to `heap'`, exactly `gone` was freed, and apart from the
  // modules of `list` nothing that is left has changed.
  ghost predicate Spared(heap: Memory, heap': Memory, gone: set<Ptr>, list: seq<Ptr>) {
    && heap'.Keys == heap.Keys - gone
    && forall p :: p in heap && p !in gone && p !in list ==> heap'[p] == heap[p]
  }

  // What never changes while a module is listed.
  ghost predicate SameModules(heap: Memory, heap': Memory, list: seq<Ptr>) {
    forall p :: p in list && p in heap && p in heap' ==>
      heap'[p].name == heap[p].name && heap'[p].native == heap[p].native && heap'[p].imports == heap[p].imports
  }

  // Everything a free of `m` does to the list and to memory.
  ghost predicate Swept(heap: Memory, list: seq<Ptr>, heap': Memory, list': seq<Ptr>, graph: Graph, m: Ptr,
      delta: seq<Ptr>) {
    && Shrunk(list, list', graph, delta)
    && Spared(heap, heap', Gone(list, list', m), list)
    && SameModules(heap, heap', list')
  }

  lemma SweptNone(heap: Memory, list: seq<Ptr>, graph: Graph)
    ensures Swept(heap, list, heap, list, graph, NULL, [])
  {
    ShrunkNone(list, graph);
  }

  lemma SweptCount(heap: Memory, heap': Memory, list: seq<Ptr>, graph: Graph, m: Ptr)
    requires m in heap && m in list && m in heap'
    requires heap' == heap[m := heap[m].(refcount := heap'[m].refcount)]
    ensures Swept(heap, list, heap', list, graph, m, [])
  {
    ShrunkNone(list, graph);
  }

  // `m` has been counted down and taken off the list, but not freed yet.
  ghost predicate Cut(heap: Memory, list: seq<Ptr>, heap': Memory, list': seq<Ptr>, graph: Graph, m: Ptr,
      delta: seq<Ptr>) {
    && m in heap && m != NULL && heap'.Keys == heap.Keys
    && (forall p :: p in heap && p !in list && p != m ==> heap'[p] == heap[p])
    && SameModules(heap, heap', list')
    && Elems(list') == Elems(list) - {m}
    && Ordered(list', graph) && Shrunk(list, list', graph, delta)
  }

  lemma SweptFree(h0: Memory, h1: Memory, h2: Memory, l0: seq<Ptr>, l1: seq<Ptr>, l2: seq<Ptr>,
                  graph: Graph, m: Ptr, d: seq<Ptr>, e: seq<Ptr>)
    requires Cut(h0, l0, h1, l1, graph, m, d)
    requires Swept(h1, l1, h2, l2, graph, NULL, e)
    ensures Swept(h0, l0, h2 - {m}, l2, graph, m, d + e)
  {
    SparedFree(h0, h1, h2, l0, l1, l2, m);
    hide Spared, Gone;
    ShrunkThen(l0, l1, l2, graph, d, e);
  }

  lemma SparedFree(h0: Memory, h1: Memory, h2: Memory, l0: seq<Ptr>, l1: seq<Ptr>, l2: seq<Ptr>, m: Ptr)
    requires m in h0 && m != NULL && h1.Keys == h0.Keys
    requires forall p :: p in h0 && p !in l0 && p != m ==> h1[p] == h0[p]
    requires Elems(l1) == Elems(l0) - {m} && Elems(l2) <= Elems(l1)
    requires Spared(h1, h2, Gone(l1, l2, NULL), l1)
    ensures Spared(h0, h2 - {m}, Gone(l0, l2, m), l0)
  {
    forall p | p in h0 && p !in Gone(l0, l2, m) && p !in l0
      ensures p in h2 && p != m && h2[p] == h0[p]
    {
      assert p !in Elems(l1);
    }
    assert Gone(l0, l2, m) == Gone(l1, l2, NULL) + {m};
  }

  lemma SweptThen(h0: Memory, h1: Memory, h2: Memory, l0: seq<Ptr>, l1: seq<Ptr>, l2: seq<Ptr>,
                  graph: Graph, m: Ptr, d: seq<Ptr>, e: seq<Ptr>)
    requires Ordered(l1, graph) && (m == NULL || m in l1)
    requires Swept(h0, l0, h1, l1, graph, NULL, d) && Swept(h1, l1, h2, l2, graph, m, e)
    ensures Swept(h0, l0, h2, l2, graph, NULL, d + e)
  {
    ShrunkThen(l0, l1, l2, graph, d, e);
    assert Gone(l0, l2, NULL) == Gone(l0, l1, NULL) + Gone(l1, l2, m);
    forall p | p in h0 && p !in Gone(l0, l2, NULL) && p !in l0 ensures p in h2 && h2[p] == h0[p] {
      assert p !in Elems(l1);
    }
  }

  // A module outside the list is left alone.
  lemma SweptAt(heap: Memory, list: seq<Ptr>, heap': Memory, list': seq<Ptr>, graph: Graph, m: Ptr,
      delta: seq<Ptr>, p: Ptr)
    requires Swept(heap, list, heap', list', graph, m, delta)
    ensures |list'| <= |list|
    ensures p !in list && (m == NULL || m in list || p != m) ==>
      p !in list' && (p in heap ==> p in heap' && heap'[p] == heap[p])
  {
    ShrunkFacts(list, list', graph, delta);
  }

  lemma LooseFacts(heap: Memory, list: seq<Ptr>, main: Ptr, m: Ptr)
    requires Loose(heap, list, main, m)
    ensures m in heap && m !in list && m != NULL
    ensures heap[m].refcount == 1 && heap[m].prev == NULL && heap[m].next == NULL
    ensures heap[m].initialized ==> m == main
  {}

  // The memory after linking a finished module in front of the list.
  function Prepend(heap: Memory, loaded: Ptr, m: Ptr): Memory
    requires m in heap && (loaded == NULL || loaded in heap)
  {
    var h := heap[m := heap[m].(initialized := true)];
    var h' := h[m := h[m].(next := loaded)];
    if loaded == NULL then h else h'[loaded := h'[loaded].(prev := m)]
  }

  lemma LinkMeets(heap: Memory, loaded: Ptr, list: seq<Ptr>, graph: Graph, held: multiset<Ptr>, main: Ptr, m: Ptr)
    requires Sound(list, graph, held) && Linked(heap, loaded, list) && Loose(heap, list, main, m)
    ensures loaded != NULL ==> loaded in heap && loaded != m
    ensures var h := heap[m := heap[m].(initialized := true)];
      var h' := h[m := h[m].(next := loaded)];
      var r := if loaded == NULL then h else h'[loaded := h'[loaded].(prev := m)];
      Linked(r, m, [m] + list) && Relinked(h, r, [m] + list)
  {
    PrependLinked(heap, loaded, list, m);
  }

  lemma PrependLinked(heap: Memory, loaded: Ptr, list: seq<Ptr>, m: Ptr)
    requires Linked(heap, loaded, list) && Distinct(list) && NULL !in list
    requires m in heap && m !in list && m != NULL && heap[m].prev == NULL && heap[m].next == NULL
    ensures loaded != NULL ==> loaded in heap && loaded != m
    ensures Linked(Prepend(heap, loaded, m), m, [m] + list)
  {
    var h := Prepend(heap, loaded, m);
    var list' := [m] + list;
    forall i | 0 <= i < |list'|
      ensures list'[i] in h && h[list'[i]].prev == At(list', i - 1) && h[list'[i]].next == At(list', i + 1)
    {
      if i > 0 {
        PrependAt(heap, loaded, list, m, i - 1);
      }
    }
  }

  lemma PrependAt(heap: Memory, loaded: Ptr, list: seq<Ptr>, m: Ptr, i: nat)
    requires Linked(heap, loaded, list) && Distinct(list) && NULL !in list && i < |list|
    requires m in heap && m !in list && m != NULL
    ensures loaded in heap && list[i] in heap
    ensures var h := Prepend(heap, loaded, m); var list' := [m] + list;
      h[list[i]].prev == At(list', i) && h[list[i]].next == At(list', i + 2)
  {
    assert loaded == list[0];
    assert list[i] != m;
    assert i > 0 ==> list[i] != loaded && At([m] + list, i) == list[i - 1];
    assert At([m] + list, i + 2) == At(list, i + 1);
  }

  lemma Prepended(heap: Memory, heap': Memory, list: seq<Ptr>, graph: Graph, held: multiset<Ptr>, main: Ptr, m: Ptr)
    requires Sound(list, graph, held) && Counted(heap, list, graph, Refs(list, graph, held))
    requires Loose(heap, list, main, m) && Targets(heap[m].deps) <= held
    requires main != NULL ==> Loose(heap, list, main, main) && main != m
    requires Relinked(heap[m := heap[m].(initialized := true)], heap', [m] + list)
    ensures var graph' := graph[m := heap[m].deps];
      var held' := held - Targets(heap[m].deps) + multiset{m};
      Sound([m] + list, graph', held')
      && Counted(heap', [m] + list, graph', Refs([m] + list, graph', held'))
    ensures main != NULL ==> Loose(heap', [m] + list, main, main)
  {
    hide Sound, Refs, Counted, Relinked;
    PrependCounted(heap, heap', list, graph, held, m);
    PrependSound(list, graph, held, m, heap[m].deps);
    if main != NULL {
      RelinkedAt(heap[m := heap[m].(initialized := true)], heap', [m] + list, main);
    }
  }

  lemma PrependCounted(heap: Memory, heap': Memory, list: seq<Ptr>, graph: Graph, held: multiset<Ptr>, m: Ptr)
    requires Sound(list, graph, held) && Counted(heap, list, graph, Refs(list, graph, held))
    requires m in heap && m !in list && m != NULL && heap[m].refcount == 1 && Targets(heap[m].deps) <= held
    requires Relinked(heap[m := heap[m].(initialized := true)], heap', [m] + list)
    ensures Counted(heap', [m] + list, graph[m := heap[m].deps],
                    Refs([m] + list, graph[m := heap[m].deps], held - Targets(heap[m].deps) + multiset{m}))
  {
    var refs := Refs(list, graph, held);
    PrependRefs(list, graph, held, m, heap[m].deps);
    if m in refs { RefsAreListed(list, graph, held, m); }
    PrependCounts(heap, heap', list, graph, refs, m);
  }

  lemma PrependCounts(heap: Memory, heap': Memory, list: seq<Ptr>, graph: Graph, refs: multiset<Ptr>, m: Ptr)
    requires Counted(heap, list, graph, refs)
    requires m in heap && m !in list && heap[m].refcount == 1 && m !in refs
    requires Relinked(heap[m := heap[m].(initialized := true)], heap', [m] + list)
    ensures Counted(heap', [m] + list, graph[m := heap[m].deps], refs + multiset{m})
  {}

  // What left memory when `list` shrank to `list'` and `m` was let go.
  ghost function Gone(list: seq<Ptr>, list': seq<Ptr>, m: Ptr): set<Ptr> {
    Elems(list) - Elems(list') + if m == NULL || m in list then {} else {m}
  }

  lemma AllHeld(held: multiset<Ptr>, slots: seq<Ptr>)
    requires Targets(slots) <= held
    ensures held == held - Targets(slots) + Targets(slots[..|slots|])
  {
    assert slots[..|slots|] == slots;
  }

  lemma NoneHeld(base: multiset<Ptr>, slots: seq<Ptr>)
    ensures base + Targets(slots[..0]) == base
  {}

  // The reference of the last slot.
  lemma SlotHeld(base: multiset<Ptr>, slots: seq<Ptr>, i: nat)
    requires 0 < i <= |slots|
    ensures slots[i - 1] == NULL || slots[i - 1] in base + Targets(slots[..i])
    ensures base + Targets(slots[..i]) - (if slots[i - 1] == NULL then multiset{} else multiset{slots[i - 1]})
         == base + Targets(slots[..i - 1])
  {
    TargetsLast(slots, i);
  }

  lemma HeldBack(held: multiset<Ptr>, held': multiset<Ptr>, t: multiset<Ptr>, listed: bool)
    requires held' == if listed then held + t else held
    ensures held' - t == if listed then held else held - t
    ensures listed || t <= held ==> t <= held'
  {}

  lemma GiveBack(a: multiset<Ptr>, t: multiset<Ptr>)
    ensures a + t - t == a
  {}

  // ----- What a load may change -----------------------------------------------

  // From (h0, l0, g0) to (h, l, g): new modules in front of the old list, `extra`
  // allocated besides, and nothing else changed but counts and links of listed modules.
  ghost predicate Grown(h0: Memory, l0: seq<Ptr>, g0: Graph, h: Memory, l: seq<Ptr>, g: Graph, extra: set<Ptr>) {
    && |l0| <= |l| && l[|l| - |l0|..] == l0
    && (forall p :: p in l[..|l| - |l0|] ==> p !in h0)
    && (forall p :: p in l0 ==> p in h0)
    && h.Keys == h0.Keys + Elems(l) + extra
    && (forall p :: p in h0 && p !in l0 ==> h[p] == h0[p])
    && SameModules(h0, h, l0) && AgreeOn(l0, g0, g)
  }

  lemma GrownNone(h: Memory, loaded: Ptr, l: seq<Ptr>, g: Graph)
    requires Linked(h, loaded, l)
    ensures Grown(h, l, g, h, l, g, {})
  {}

  lemma GrownSame(h: Memory, loaded: Ptr, l: seq<Ptr>, g: Graph, g': Graph)
    requires Linked(h, loaded, l) && AgreeOn(l, g, g')
    ensures Grown(h, l, g, h, l, g', {})
  {}

  lemma Suffixes(l0: seq<Ptr>, l1: seq<Ptr>, l2: seq<Ptr>)
    requires |l0| <= |l1| <= |l2|
    requires l1[|l1| - |l0|..] == l0 && l2[|l2| - |l1|..] == l1
    ensures l2[|l2| - |l0|..] == l0
    ensures l2[..|l2| - |l0|] == l2[..|l2| - |l1|] + l1[..|l1| - |l0|]
    ensures Elems(l1) <= Elems(l2) && Elems(l0) <= Elems(l1)
  {
    var n0, n1, n2 := |l0|, |l1|, |l2|;
    assert l2[n2 - n0..] == l2[n2 - n1..][n1 - n0..];
    assert l2 == l2[..n2 - n1] + l1;
    assert l1 == l1[..n1 - n0] + l0;
  }

  lemma GrownThen(h0: Memory, l0: seq<Ptr>, g0: Graph, h1: Memory, l1: seq<Ptr>, g1: Graph,
                  h2: Memory, l2: seq<Ptr>, g2: Graph, extra: set<Ptr>)
    requires Grown(h0, l0, g0, h1, l1, g1, extra) && Grown(h1, l1, g1, h2, l2, g2, {})
    ensures Grown(h0, l0, g0, h2, l2, g2, extra)
  {
    Suffixes(l0, l1, l2);
    ThenFront(h0, l0, g0, h1, l1, g1, h2, l2, g2, extra);
    ThenKept(h0, l0, g0, h1, l1, g1, h2, l2, g2, extra);
    hide SameModules, AgreeOn;
    assert h2.Keys == h0.Keys + Elems(l2) + extra;
    hide Elems;
  }

  lemma ThenFront(h0: Memory, l0: seq<Ptr>, g0: Graph, h1: Memory, l1: seq<Ptr>, g1: Graph,
                  h2: Memory, l2: seq<Ptr>, g2: Graph, extra: set<Ptr>)
    requires Grown(h0, l0, g0, h1, l1, g1, extra) && Grown(h1, l1, g1, h2, l2, g2, {})
    ensures forall p :: p in l2[..|l2| - |l0|] ==> p !in h0
  {
    Suffixes(l0, l1, l2);
    hide SameModules, AgreeOn, Elems;
    assert h0.Keys <= h1.Keys;
  }

  lemma ThenKept(h0: Memory, l0: seq<Ptr>, g0: Graph, h1: Memory, l1: seq<Ptr>, g1: Graph,
                 h2: Memory, l2: seq<Ptr>, g2: Graph, extra: set<Ptr>)
    requires Grown(h0, l0, g0, h1, l1, g1, extra) && Grown(h1, l1, g1, h2, l2, g2, {})
    ensures forall p :: p in h0 && p !in l0 ==> p in h2 && h2[p] == h0[p]
    ensures SameModules(h0, h2, l0) && AgreeOn(l0, g0, g2)
  {
    assert l1 == l1[..|l1| - |l0|] + l0;
    forall p | p in h0 && p !in l0 ensures p in h2 && h2[p] == h0[p] {
      assert p !in l1[..|l1| - |l0|];
    }
    assert forall p :: p in l0 ==> p in l1;
  }

  lemma GrownCount(h0: Memory, h: Memory, l: seq<Ptr>, g: Graph, m: Ptr)
    requires Grown(h0, l, g, h0, l, g, {}) && m in l && m in h0
    requires h == h0[m := h0[m].(refcount := h0[m].refcount + 1)]
    ensures Grown(h0, l, g, h, l, g, {})
  {}

  // The half-built module is not touched by the loads of its imports.
  lemma Beside(h0: Memory, l0: seq<Ptr>, g0: Graph, h: Memory, l: seq<Ptr>, g: Graph, main: Ptr, m: Ptr)
    requires Grown(h0, l0, g0, h, l, g, {}) && Loose(h0, l0, main, m)
    ensures Loose(h, l, main, m) && h[m] == h0[m]
  {
    assert l == l[..|l| - |l0|] + l0;
  }

  // A change to the module under construction.
  lemma GrownSlot(h0: Memory, l0: seq<Ptr>, g0: Graph, h: Memory, l: seq<Ptr>, g: Graph, m: Ptr, x: LxModule)
    requires Grown(h0, l0, g0, h, l, g, {m}) && m !in h0
    ensures Grown(h0, l0, g0, h[m := x], l, g, {m})
  {}

  lemma GrownBegin(h: Memory, loaded: Ptr, l: seq<Ptr>, g: Graph, m: Ptr, x: LxModule)
    requires Linked(h, loaded, l) && m !in h
    ensures Grown(h, l, g, h[m := x], l, g, {m})
  {}

  lemma GrownLink(h0: Memory, l0: seq<Ptr>, g0: Graph, h: Memory, l: seq<Ptr>, g: Graph,
                  h': Memory, m: Ptr, slots: seq<Ptr>)
    requires Grown(h0, l0, g0, h, l, g, {m}) && m !in h0 && m in h && m !in l
    requires Relinked(h[m := h[m].(initialized := true)], h', [m] + l)
    ensures Grown(h0, l0, g0, h', [m] + l, g[m := slots], {})
  {
    LinkedFront(h0, l0, g0, h, l, g, m, slots);
    LinkedRest(h0, l0, g0, h, l, g, h', m);
    LinkedNames(h0, l0, g0, h, l, g, h', m);
    hide Relinked, SameModules, AgreeOn, Elems;
    assert h0.Keys + Elems([m] + l) + {} == h0.Keys + Elems([m] + l);
  }

  lemma LinkedFront(h0: Memory, l0: seq<Ptr>, g0: Graph, h: Memory, l: seq<Ptr>, g: Graph, m: Ptr, slots: seq<Ptr>)
    requires Grown(h0, l0, g0, h, l, g, {m}) && m !in h0
    ensures var l' := [m] + l;
      |l0| <= |l'| && l'[|l'| - |l0|..] == l0 && forall p :: p in l'[..|l'| - |l0|] ==> p !in h0
    ensures AgreeOn(l0, g0, g[m := slots]) && forall p :: p in l0 ==> p in h0
  {
    var l' := [m] + l;
    assert l'[1..] == l && l'[..1] == [m];
    hide SameModules;
    assert l'[|l'| - |l0|..] == l[|l| - |l0|..];
    assert l'[..|l'| - |l0|] == [m] + l[..|l| - |l0|];
  }

  lemma LinkedRest(h0: Memory, l0: seq<Ptr>, g0: Graph, h: Memory, l: seq<Ptr>, g: Graph, h': Memory, m: Ptr)
    requires Grown(h0, l0, g0, h, l, g, {m}) && m !in h0 && m in h && m !in l
    requires Relinked(h[m := h[m].(initialized := true)], h', [m] + l)
    ensures h'.Keys == h0.Keys + Elems([m] + l)
    ensures forall p :: p in h0 && p !in l0 ==> p in h' && h'[p] == h0[p]
  {
    assert h'.Keys == h.Keys && Elems([m] + l) == Elems(l) + {m};
    assert l == l[..|l| - |l0|] + l0;
    hide SameModules, AgreeOn;
    assert forall p :: p in h0 && p !in l0 ==> p !in l;
  }

  lemma LinkedNames(h0: Memory, l0: seq<Ptr>, g0: Graph, h: Memory, l: seq<Ptr>, g: Graph, h': Memory, m: Ptr)
    requires Grown(h0, l0, g0, h, l, g, {m}) && m !in h0 && m in h
    requires Relinked(h[m := h[m].(initialized := true)], h', [m] + l)
    ensures SameModules(h0, h', l0)
  {
    hide AgreeOn;
  }

  // Two consistent tables with the same list, references and modules are the same memory.
  lemma SameMemory(h: Memory, h': Memory, loaded: Ptr, loaded': Ptr, l: seq<Ptr>, g: Graph, g': Graph,
      refs: multiset<Ptr>)
    requires Linked(h, loaded, l) && Counted(h, l, g, refs)
    requires Linked(h', loaded', l) && Counted(h', l, g', refs)
    requires AgreeOn(l, g, g') && SameModules(h, h', l)
    ensures loaded == loaded' && forall p :: p in l ==> p in h && p in h' && h[p] == h'[p]
  {
    forall p | p in l ensures p in h && p in h' && h[p] == h'[p] {
      var i :| 0 <= i < |l| && l[i] == p;
      assert h[l[i]].prev == At(l, i - 1) && h'[l[i]].prev == At(l, i - 1);
      assert h[l[i]].next == At(l, i + 1) && h'[l[i]].next == At(l, i + 1);
    }
  }

  // Freeing the half-built `m` undoes everything since `m` was allocated.
  lemma Undone(h0: Memory, loaded0: Ptr, l0: seq<Ptr>, g0: Graph, held: multiset<Ptr>,
               h: Memory, l: seq<Ptr>, g: Graph, m: Ptr,
               h': Memory, loaded': Ptr, l': seq<Ptr>, delta: seq<Ptr>)
    requires Sound(l0, g0, held) && Linked(h0, loaded0, l0) && Counted(h0, l0, g0, Refs(l0, g0, held))
    requires Sound(l', g, held) && Linked(h', loaded', l') && Counted(h', l', g, Refs(l', g, held))
    requires Grown(h0, l0, g0, h, l, g, {m}) && m !in h0 && m !in l && m != NULL
    requires Swept(h, l, h', l', g, m, delta)
    ensures h' == h0 && loaded' == loaded0 && l' == l0 && AgreeOn(l0, g0, g)
  {
    UndoneList(h0, l0, g0, held, h, l, g, m, h', l', delta);
    hide Sound, Shrunk, Linked, Counted, SameModules;
    SoundFrame(l0, g0, g, held);
    UndoneModules(h0, l0, g0, h, l, g, m, h', delta);
    SameMemory(h0, h', loaded0, loaded', l0, g0, g, Refs(l0, g0, held));
    UndoneKeys(h0, l0, g0, h, l, g, m, h', delta);
    SameMap(h0, h', l0);
  }

  lemma SameMap(h0: Memory, h: Memory, l: seq<Ptr>)
    requires h.Keys == h0.Keys
    requires forall p :: p in h0 && p !in l ==> h[p] == h0[p]
    requires forall p :: p in l ==> p in h0 && h[p] == h0[p]
    ensures h == h0
  {}

  lemma UndoneList(h0: Memory, l0: seq<Ptr>, g0: Graph, held: multiset<Ptr>,
                   h: Memory, l: seq<Ptr>, g: Graph, m: Ptr, h': Memory, l': seq<Ptr>, delta: seq<Ptr>)
    requires Sound(l0, g0, held) && Sound(l', g, held)
    requires Grown(h0, l0, g0, h, l, g, {m}) && Swept(h, l, h', l', g, m, delta)
    ensures l' == l0
  {
    hide Sound, Linked, Counted;
    var news := l[..|l| - |l0|];
    assert l == news + l0;
    SoundFrame(l0, g0, g, held);
    RolledBack(news, l0, l', g, held);
  }

  lemma UndoneModules(h0: Memory, l0: seq<Ptr>, g0: Graph, h: Memory, l: seq<Ptr>, g: Graph, m: Ptr, h': Memory,
      delta: seq<Ptr>)
    requires Grown(h0, l0, g0, h, l, g, {m}) && Swept(h, l, h', l0, g, m, delta)
    ensures SameModules(h0, h', l0)
  {
    Suffixes(l0, l0, l0);
    forall p | p in l0 && p in h0 && p in h'
      ensures h'[p].name == h0[p].name && h'[p].native == h0[p].native && h'[p].imports == h0[p].imports
    {
      assert p in h;
    }
  }

  lemma UndoneKeys(h0: Memory, l0: seq<Ptr>, g0: Graph, h: Memory, l: seq<Ptr>, g: Graph, m: Ptr, h': Memory,
      delta: seq<Ptr>)
    requires Grown(h0, l0, g0, h, l, g, {m}) && m !in h0 && m !in l && m != NULL
    requires Swept(h, l, h', l0, g, m, delta)
    ensures h'.Keys == h0.Keys
    ensures forall p :: p in h0 && p !in l0 ==> h'[p] == h0[p]
  {
    var news := l[..|l| - |l0|];
    assert l == news + l0;
    assert Elems(l) == Elems(news) + Elems(l0);
    assert Gone(l, l0, m) == Elems(news) - Elems(l0) + {m};
    forall p | p in h0 && p !in l0 ensures p in h' && h'[p] == h0[p] {
      assert p !in Elems(news) && p != m;
    }
  }

  lemma SweptRecount(heap: Memory, list: seq<Ptr>, graph: Graph, m: Ptr, n: nat)
    requires m in list && m in heap
    ensures Swept(heap, list, heap[m := heap[m].(refcount := n)], list, graph, NULL, [])
  {
    ShrunkNone(list, graph);
  }

  lemma CountedForce(heap: Memory, list: seq<Ptr>, graph: Graph, refs: multiset<Ptr>, main: Ptr, m: Ptr)
    requires Counted(heap, list, graph, refs) && m in list && m in heap
    ensures Counted(heap[m := heap[m].(refcount := 1)], list, graph, refs[m := 1])
    ensures main != NULL && Loose(heap, list, main, main) ==>
      Loose(heap[m := heap[m].(refcount := 1)], list, main, main)
  {}

  // What is left in memory after everything listed is gone.
  lemma SweptAll(h0: Memory, l0: seq<Ptr>, h1: Memory, l1: seq<Ptr>, h: Memory, graph: Graph, main: Ptr,
                 d: seq<Ptr>, e: seq<Ptr>)
    requires Ordered(l1, graph)
    requires Swept(h0, l0, h1, l1, graph, main, d) && Swept(h1, l1, h, [], graph, NULL, e)
    requires main !in l0
    ensures Teardown(l0, [], graph, d + e)
    ensures h.Keys == h0.Keys - Elems(l0) - if main == NULL then {} else {main}
  {
    ShrunkThen(l0, l1, [], graph, d, e);
  }

  lemma SweptShrunk(heap: Memory, list: seq<Ptr>, heap': Memory, list': seq<Ptr>, graph: Graph, m: Ptr, delta: seq<Ptr>)
    requires Swept(heap, list, heap', list', graph, m, delta)
    ensures Shrunk(list, list', graph, delta)
  {}

  lemma OneTaken(held: multiset<Ptr>, m: Ptr)
    requires held[m] == 1
    ensures m !in held - multiset{m}
  {}

  lemma SweptForced(h1: Memory, l1: seq<Ptr>, h: Memory, l: seq<Ptr>, h': Memory, h2: Memory, l2: seq<Ptr>,
                    graph: Graph, m: Ptr, e: seq<Ptr>, f: seq<Ptr>)
    requires Ordered(l, graph) && m in l && m in h
    requires Swept(h1, l1, h, l, graph, NULL, e)
    requires h' == h[m := h[m].(refcount := 1)] && Swept(h', l, h2, l2, graph, m, f)
    ensures Swept(h1, l1, h2, l2, graph, NULL, e + f) && Shrunk(l, l2, graph, f)
  {
    hide *;
    SweptRecount(h, l, graph, m, 1);
    SweptShrunk(h', l, h2, l2, graph, m, f);
    SweptThen(h1, h, h', l1, l, l, graph, NULL, e, []);
    SweptThen(h1, h', h2, l1, l, l2, graph, m, e + [], f);
    assert e + [] + f == e + f;
  }

  // What a load leaves of memory that held the program and the listed modules.
  lemma GrownFacts(h: Memory, l: seq<Ptr>, g: Graph, h': Memory, l': seq<Ptr>, g': Graph, main: Ptr)
    requires Grown(h, l, g, h', l', g', {}) && main in h && main !in l
    requires h.Keys == Elems(l) + {main}
    ensures main in h' && h'[main] == h[main] && h'.Keys == Elems(l') + {main}
  {
    Suffixes(l, l, l);
    assert l' == l'[..|l'| - |l|] + l;
    assert Elems(l) <= Elems(l');
  }

  lemma SweptFacts(h: Memory, l: seq<Ptr>, h': Memory, l': seq<Ptr>, g: Graph, m: Ptr, delta: seq<Ptr>, main: Ptr)
    requires Swept(h, l, h', l', g, m, delta) && main in h && main !in l && m in l
    requires h.Keys == Elems(l) + {main}
    ensures main in h' && h'[main] == h[main] && h'.Keys == Elems(l') + {main}
  {
    ShrunkFacts(l, l', g, delta);
  }

  lemma HandleLess(own: multiset<Ptr>, handles: seq<Ptr>, k: nat)
    requires k < |handles|
    ensures own + multiset(handles) - multiset{handles[k]} == own + multiset(handles[..k] + handles[k + 1..])
  {
    assert handles == handles[..k] + [handles[k]] + handles[k + 1..];
  }
}
