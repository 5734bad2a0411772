/**
  The loader's table of modules (lx_loader.c): a doubly linked list in load
  order, with reference counts.

  Allocating adds an address to `heap` and freeing removes it, so every access
  below is proved to be to live memory.  The ghost fields are the values that
  module ModuleGraph reasons about; `Valid` ties the memory to them.
 */
module ModuleTable {
  import opened ModuleGraph
  import opened ModuleMemory
  import opened ModuleWiring
  import opened ModuleNames
  import opened Lists
  import opened Options

  // What a running program can ask for.
  datatype Call = Open(name: string) | OpenPath(path: string) | Close(handle: nat)

  class Loader {
    const host: Host
    var heap: Memory
    var loaded: Ptr  // head of the list
    var main: Ptr    // the program; never in the list

    ghost var list: seq<Ptr>
    ghost var graph: Graph
    ghost var held: multiset<Ptr>
    ghost var log: seq<Ptr>  // modules whose termination code has run, in that order

    ghost predicate Valid()
      reads this
    {
      && Sound(list, graph, held)
      && Linked(heap, loaded, list)
      && Counted(heap, list, graph, Refs(list, graph, held))
      && (main != NULL ==> Loose(heap, list, main, main))
    }

    // The outside references that freeing `m` gives back.
    ghost function Owed(m: Ptr): multiset<Ptr>
      requires m == NULL || m in heap
      reads this
    {
      if m == NULL then multiset{} else if m in list then multiset{m} else Targets(heap[m].deps)
    }

    ghost predicate Releasable(m: Ptr)
      reads this
    {
      m == NULL || (m in heap && Owed(m) <= held && (m !in list ==> Loose(heap, list, main, m)))
    }

    constructor (host: Host)
      ensures Valid() && heap == map[] && list == [] && held == multiset{} && main == NULL && log == []
      ensures this.host == host
    {
      this.host := host;
      heap, loaded, main := map[], NULL, NULL;
      list, graph, held, log := [], map[], multiset{}, [];
    }

    // ----- Freeing ----------------------------------------------------------

    method Unlink(m: Ptr) returns (ghost k: int)
      requires Linked(heap, loaded, list) && Distinct(list) && NULL !in list
      requires m in heap && (m !in list ==> heap[m].prev == NULL == heap[m].next && m != NULL)
      modifies `heap, `loaded, `list
      ensures Linked(heap, loaded, list)
      ensures Relinked(old(heap), heap, old(list))
      ensures m !in old(list) ==> list == old(list)
      ensures m in old(list) ==> 0 <= k < |old(list)| && old(list)[k] == m
                                 && list == old(list)[..k] + old(list)[k + 1..]
    {
      hide *;
      k := -1;
      if m in list {
        k :| 0 <= k < |list| && list[k] == m;
        UnlinkListed(heap, loaded, list, k);
        list := list[..k] + list[k + 1..];
      } else {
        UnlinkLoose(heap, loaded, list, m);
      }
      var prev, next := heap[m].prev, heap[m].next;
      if next != NULL {
        heap := heap[next := heap[next].(prev := prev)];
      }
      if prev != NULL {
        heap := heap[prev := heap[prev].(next := next)];
      }
      if m == loaded {
        loaded := next;
      }
    }

    // Gives up one reference: `Valid`, except that `m` may now be unreferenced.
    method Drop(m: Ptr)
      requires Sound(list, graph, held) && Linked(heap, loaded, list)
      requires Counted(heap, list, graph, Refs(list, graph, held))
      requires m in heap && heap[m].refcount > 0
      requires if m in list then m in held else heap[m].refcount == 1
      modifies `heap, `held
      ensures heap == old(heap)[m := old(heap)[m].(refcount := old(heap)[m].refcount - 1)]
      ensures held == if m in list then old(held) - multiset{m} else old(held)
      ensures SoundBut(list, graph, held, m) && Linked(heap, loaded, list)
      ensures Counted(heap, list, graph, Refs(list, graph, held))
      ensures heap[m].refcount > 0 ==> m in list && Sound(list, graph, held)
      ensures m !in list ==> Sound(list, graph, held)
    {
      hide *;
      ghost var h0, refs := heap, Refs(list, graph, held);
      CountOf(heap, list, graph, refs, m);
      heap := heap[m := heap[m].(refcount := heap[m].refcount - 1)];
      LinkedFrame(h0, heap, loaded, list);
      CountedDrop(h0, heap, list, graph, refs, m);
      if m in list {
        DropSound(list, graph, held, m);
        held := held - multiset{m};
      } else {
        SoundIsSoundBut(list, graph, held, m);
        assert refs - multiset{} == refs;
      }
    }

    // The last reference is gone: run the termination code and leave the list.
    method Detach(m: Ptr) returns (ghost delta: seq<Ptr>)
      requires SoundBut(list, graph, held, m) && Linked(heap, loaded, list)
      requires Counted(heap, list, graph, Refs(list, graph, held))
      requires m in heap && heap[m].refcount == 0 && main !in list
      requires m !in list ==>
        Sound(list, graph, held) && m != NULL
        && heap[m].prev == NULL == heap[m].next && (heap[m].initialized ==> m == main)
      modifies `heap, `loaded, `list, `main, `held, `log
      ensures Sound(list, graph, held) && Linked(heap, loaded, list)
      ensures Counted(heap, list, graph, Refs(list, graph, held))
      ensures Relinked(old(heap), heap, old(list))
      ensures held == if m in old(list) then old(held) + Targets(heap[m].deps) else old(held)
      ensures m !in list && |list| <= |old(list)| && (m in old(list) ==> |list| < |old(list)|)
      ensures Elems(list) == Elems(old(list)) - {m}
      ensures log == old(log) + delta && Shrunk(old(list), list, graph, delta)
      ensures main == if m == old(main) then NULL else old(main)
    {
      hide *;
      ghost var h0, l0, refs := heap, list, Refs(list, graph, held);
      CountOf(heap, list, graph, refs, m);
      SoundButDistinct(list, graph, held, m);
      if heap[m].initialized && m != main {
        log := log + [m];  // runLibraryTerm
      }
      delta := if m in list then [m] else [];
      var k := Unlink(m);
      RelinkedAt(h0, heap, l0, m);
      if m in l0 {
        Removed(l0, list, graph, held, k);
        held := held + Targets(heap[m].deps);
      } else {
        ShrunkNone(l0, graph);
      }
      if main == m {
        main := NULL;
      }
      ElemsIn(list, m);
      CountedRelinked(h0, heap, l0, list, graph, refs);
    }

    // Drops one reference to `m`; frees it, and lets go of its dependencies, on the last one.
    method Free(m: Ptr) returns (ghost delta: seq<Ptr>)
      requires Valid() && Releasable(m)
      modifies this
      ensures Valid() && graph == old(graph)
      ensures held == old(held - Owed(m))
      ensures main == if m == old(main) then NULL else old(main)
      ensures log == old(log) + delta
      ensures Swept(old(heap), old(list), heap, list, graph, m, delta)
      decreases |list| + (if m != NULL && m !in list then 1 else 0), 1
    {
      hide *;
      if m == NULL {
        SweptNone(heap, list, graph);
        OwesNothing();
        return [];
      }
      ghost var h0 := heap;
      FreeNeeds(m);
      Drop(m);
      if heap[m].refcount > 0 {
        SweptCount(h0, heap, list, graph, m);
        Counts(h0, m);
        return [];
      }
      delta := Destroy(h0, m);
    }

    // The rest of freeLxModule, once the count has reached zero.
    method Destroy(ghost h0: Memory, m: Ptr) returns (ghost delta: seq<Ptr>)
      requires SoundBut(list, graph, held, m) && Linked(heap, loaded, list)
      requires Counted(heap, list, graph, Refs(list, graph, held))
      requires m in heap && heap[m].refcount == 0 && m != NULL && main !in list
      requires m in h0 && heap == h0[m := h0[m].(refcount := 0)]
      requires main != NULL ==> Loose(h0, list, main, main)
      requires m !in list ==>
        Sound(list, graph, held) && Targets(heap[m].deps) <= held
        && heap[m].prev == NULL == heap[m].next && (heap[m].initialized ==> m == main)
      modifies this
      ensures Valid() && graph == old(graph)
      ensures held == if m in old(list) then old(held) else old(held) - Targets(h0[m].deps)
      ensures main == if m == old(main) then NULL else old(main)
      ensures log == old(log) + delta
      ensures Swept(h0, old(list), heap, list, graph, m, delta)
      decreases |list| + (if m !in list then 1 else 0), 0
    {
      hide *;
      ghost var h, l0 := heap, list;
      ghost var d := Detach(m);
      Detached(h0, h, l0, m, d);
      ghost var h1, l1 := heap, list;
      HeldBack(old(held), held, Targets(h0[m].deps), m in l0);
      ghost var e := FreeDependencies(m);
      delta := d + e;
      SweptFree(h0, h1, heap, l0, l1, list, graph, m, d, e);
      ghost var h2 := heap;
      Parts();
      heap := heap - {m};
      Remains(h2, m);
    }

    lemma Parts()
      requires Valid()
      ensures Sound(list, graph, held) && Linked(heap, loaded, list)
      ensures Counted(heap, list, graph, Refs(list, graph, held))
      ensures main != NULL ==> Loose(heap, list, main, main)
    {}

    lemma Counts(h: Memory, m: Ptr)
      requires Sound(list, graph, held) && Linked(heap, loaded, list)
      requires Counted(heap, list, graph, Refs(list, graph, held))
      requires main != NULL ==> Loose(h, list, main, main)
      requires m in list && m in heap && heap == h[m := heap[m]]
      ensures Valid()
    {}

    // After `Detach`, the dependencies can be let go.
    lemma Detached(h0: Memory, h: Memory, l0: seq<Ptr>, m: Ptr, delta: seq<Ptr>)
      requires Sound(list, graph, held) && Linked(heap, loaded, list)
      requires Counted(heap, list, graph, Refs(list, graph, held))
      requires main != NULL ==> Loose(h0, l0, main, main) && main != m
      requires m in h0 && h == h0[m := h0[m].(refcount := 0)]
      requires Relinked(h, heap, l0) && Elems(list) == Elems(l0) - {m}
      requires m != NULL && Shrunk(l0, list, graph, delta)
      ensures Valid() && Cut(h0, l0, heap, list, graph, m, delta)
      ensures m in heap && m !in list && heap[m].deps == h0[m].deps
    {
      hide Shrunk, Refs, Linked, Elems;
      RelinkedAt(h, heap, l0, m);
      ElemsIn(list, m);
      if main != NULL {
        RelinkedAt(h, heap, l0, main);
        ElemsIn(list, main);
        ElemsIn(l0, main);
      }
    }

    lemma Remains(h: Memory, m: Ptr)
      requires heap == h - {m} && m !in list && m != main
      requires Sound(list, graph, held) && Linked(h, loaded, list)
      requires Counted(h, list, graph, Refs(list, graph, held))
      requires main != NULL ==> Loose(h, list, main, main)
      ensures Valid()
    {
      hide Sound, Refs;
    }

    lemma OwesNothing()
      ensures held - Owed(NULL) == held
    {}

    lemma FreeNeeds(m: Ptr)
      requires Valid() && m != NULL && Releasable(m)
      ensures Sound(list, graph, held) && Linked(heap, loaded, list)
      ensures Counted(heap, list, graph, Refs(list, graph, held))
      ensures m in heap && heap[m].refcount > 0 && main !in list
      ensures if m in list then m in held else heap[m].refcount == 1
      ensures Owed(m) <= held
      ensures Owed(m) == if m in list then multiset{m} else Targets(heap[m].deps)
      ensures m !in list ==> heap[m].prev == NULL == heap[m].next && (heap[m].initialized ==> m == main)
      ensures main != NULL ==> Loose(heap, list, main, main)
    {
      CountOf(heap, list, graph, Refs(list, graph, held), m);
    }

    // The loop over the slots of `m`, last one first.
    method FreeDependencies(m: Ptr) returns (ghost delta: seq<Ptr>)
      requires Valid() && m in heap && m !in list && m != main && m != NULL
      requires Targets(heap[m].deps) <= held
      modifies this
      ensures Valid() && graph == old(graph) && m !in list
      ensures held == old(held) - Targets(old(heap)[m].deps)
      ensures main == old(main)
      ensures log == old(log) + delta
      ensures m in heap && Swept(old(heap), old(list), heap, list, graph, NULL, delta)
      decreases |list|, 3
    {
      hide *;
      delta := [];
      var deps := heap[m].deps;
      ghost var base := held - Targets(deps);
      var i := |deps|;
      SweptNone(heap, list, graph);
      AllHeld(held, deps);
      while i > 0
        invariant 0 <= i <= |deps|
        invariant Valid() && graph == old(graph) && main == old(main)
        invariant held == base + Targets(deps[..i])
        invariant log == old(log) + delta && |list| <= |old(list)|
        invariant Swept(old(heap), old(list), heap, list, graph, NULL, delta)
        invariant m in heap && heap[m].deps == deps && m !in list
      {
        SlotHeld(base, deps, i);
        ghost var e := FreeSlot(m, i - 1, old(heap), old(list), delta);
        delta := delta + e;
        i := i - 1;
      }
      NoneHeld(base, deps);
    }

    // One slot.
    method FreeSlot(m: Ptr, i: nat, ghost h0: Memory, ghost l0: seq<Ptr>, ghost delta: seq<Ptr>)
        returns (ghost e: seq<Ptr>)
      requires Valid() && m in heap && m !in list && i < |heap[m].deps|
      requires heap[m].deps[i] == NULL || heap[m].deps[i] in held
      requires Swept(h0, l0, heap, list, graph, NULL, delta)
      modifies this
      ensures Valid() && graph == old(graph) && main == old(main) && |list| <= |old(list)|
      ensures held == old(held) - if old(heap)[m].deps[i] == NULL then multiset{} else multiset{old(heap)[m].deps[i]}
      ensures log == old(log) + e && Swept(h0, l0, heap, list, graph, NULL, delta + e)
      ensures m in heap && heap[m].deps == old(heap)[m].deps && m !in list
      decreases |list|, 2
    {
      hide *;
      var d := heap[m].deps[i];
      ghost var h1, l1 := heap, list;
      DependencyNeeds(d);
      e := Free(d);
      SweptAt(h1, l1, heap, list, graph, d, e, m);
      SweptThen(h0, h1, heap, l0, l1, list, graph, d, delta, e);
    }

    lemma DependencyNeeds(d: Ptr)
      requires Valid() && (d == NULL || d in held)
      ensures Releasable(d) && Owed(d) == if d == NULL then multiset{} else multiset{d}
      ensures d == NULL || (d in list && d != main)
      ensures main !in list
      ensures Ordered(list, graph)
    {}

    // ----- Loading -----------------------------------------------------------

    // malloc: null, or an address nothing lives at.
    method Malloc() returns (p: Ptr)
      ensures p == NULL || p !in heap
      ensures host.room ==> p != NULL
    {
      p := *;
      if p == NULL || p in heap {
        p := if host.room then Unused() else NULL;
      }
    }

    function Unused(): (p: Ptr)
      reads this
      ensures p != NULL && p !in heap
    {
      UnusedFrom(1, heap.Keys)
    }

    // The first address from `p` on that nothing lives at; only `left` may still be in the way.
    function UnusedFrom(p: Ptr, left: set<Ptr>): (r: Ptr)
      requires p > 0 && forall q :: q in heap && q >= p ==> q in left
      reads this
      ensures r > 0 && r !in heap
      decreases |left|
    {
      if p !in heap then p else UnusedFrom(p + 1, left - {p})
    }

    // A finished module goes to the front of the list.
    method Link(m: Ptr)
      requires Valid() && m in heap && Loose(heap, list, main, m) && m != main
      requires Targets(heap[m].deps) <= held
      modifies this
      ensures Valid() && main == old(main) && log == old(log)
      ensures list == [m] + old(list) && graph == old(graph)[m := old(heap)[m].deps]
      ensures held == old(held) - Targets(old(heap)[m].deps) + multiset{m}
      ensures Relinked(old(heap)[m := old(heap)[m].(initialized := true)], heap, [m] + old(list))
    {
      hide *;
      ghost var h0, slots := heap, heap[m].deps;
      Parts();
      LinkMeets(heap, loaded, list, graph, held, main, m);
      heap := heap[m := heap[m].(initialized := true)];
      if loaded != NULL {
        heap := heap[m := heap[m].(next := loaded)];
        heap := heap[loaded := heap[loaded].(prev := m)];
      }
      loaded := m;
      Prepended(h0, heap, list, graph, held, main, m);
      held := held - Targets(slots) + multiset{m};
      graph := graph[m := slots];
      list := [m] + list;
      Whole();
    }

    // A change to the half-built `m` keeps the table valid.
    lemma Patched(h: Memory, m: Ptr)
      requires Sound(list, graph, held) && Linked(h, loaded, list)
      requires Counted(h, list, graph, Refs(list, graph, held))
      requires main != NULL ==> Loose(h, list, main, main)
      requires Loose(h, list, main, m) && m in heap
      requires heap == h[m := h[m].(deps := heap[m].deps, initialized := heap[m].initialized)]
      requires heap[m].initialized ==> m == main
      ensures Valid() && Loose(heap, list, main, m)
    {
      hide Sound, Refs;
    }

    lemma Whole()
      requires Sound(list, graph, held) && Linked(heap, loaded, list)
      requires Counted(heap, list, graph, Refs(list, graph, held))
      requires main != NULL ==> Loose(heap, list, main, main)
      ensures Valid()
    {}

    method Find(name: string) returns (p: Ptr)
      requires Linked(heap, loaded, list) && NULL !in list
      ensures p == Lookup(heap, list, name)
    {
      p := loaded;
      ghost var k := 0;
      while p != NULL
        invariant 0 <= k <= |list| && p == At(list, k)
        invariant Lookup(heap, list, name) == Lookup(heap, list[k..], name)
        decreases |list| - k
      {
        assert list[k..][0] == list[k] && list[k..][1..] == list[k + 1..];
        if SameName(heap[p].name, name) {
          return;
        }
        p := heap[p].next;
        k := k + 1;
      }
    }

    // One more reference to a listed module.
    method AddRef(m: Ptr)
      requires Valid() && m in list
      modifies `heap, `held
      ensures Valid() && held == old(held) + multiset{m}
      ensures m in old(heap) && heap == old(heap)[m := old(heap)[m].(refcount := old(heap)[m].refcount + 1)]
    {
      hide *;
      Parts();
      CountOf(heap, list, graph, Refs(list, graph, held), m);
      ghost var h0 := heap;
      heap := heap[m := heap[m].(refcount := heap[m].refcount + 1)];
      HoldSound(list, graph, held, m);
      LinkedFrame(h0, heap, loaded, list);
      CountedHold(h0, heap, list, graph, Refs(list, graph, held), main, m);
      held := held + multiset{m};
      Whole();
    }

    // loadModuleByModuleNameInternal
    method LoadByName(name: string, depth: nat) returns (m: Ptr)
      requires Valid() && main != NULL && depth <= MAX_DEPTH && AllWired(heap, host, list)
      modifies this
      ensures Valid() && main == old(main) && AllWired(heap, host, list)
      ensures m == NULL ==>
        heap == old(heap) && loaded == old(loaded) && list == old(list) && held == old(held)
      ensures m != NULL ==> m in list && held == old(held) + multiset{m}
      ensures m != NULL ==> LedTo(heap, host, name, m)
      ensures Grown(old(heap), old(list), old(graph), heap, list, graph, {})
      ensures old(Listed(name)) != NULL ==> m == old(Listed(name)) && list == old(list)
      ensures host.room ==>
        Comes(ByName(host, NamesOf(old(heap), old(list)), name, depth), m != NULL, NamesOf(heap, list))
      decreases MAX_DEPTH - depth, 6
    {
      hide *;
      Parts();
      SoundOrdered(list, graph, held);
      m := Find(name);
      ListedIs(name);
      if m != NULL {
        Refer(m, name, depth);
      } else {
        m := LoadMissing(name, depth);
      }
    }

    // A name that is listed.
    method Refer(m: Ptr, name: string, ghost depth: nat)
      requires depth <= MAX_DEPTH && Valid() && AllWired(heap, host, list) && m != NULL && m == Listed(name)
      modifies `heap, `held
      ensures Valid() && AllWired(heap, host, list) && m in list && held == old(held) + multiset{m}
      ensures LedTo(heap, host, name, m)
      ensures Comes(ByName(host, NamesOf(old(heap), list), name, depth), true, NamesOf(heap, list))
      ensures Grown(old(heap), list, graph, heap, list, graph, {})
    {
      assert MAX_DEPTH == 32;
      hide *;
      Parts();
      GrownNone(heap, loaded, list, graph);
      ListedIs(name);
      SoundOrdered(list, graph, held);
      LookupNames(heap, list, name);
      ListedComes(host, NamesOf(heap, list), name, depth);
      ghost var h0 := heap;
      LookupLed(heap, host, list, name);
      AddRef(m);
      GrownCount(h0, heap, list, graph, m);
      CountWired(h0, heap, host, list, m);
      CountKeeps(h0, heap, host, list, m, name);
    }

    // One that is not.
    method LoadMissing(name: string, depth: nat) returns (m: Ptr)
      requires Valid() && main != NULL && depth <= MAX_DEPTH && AllWired(heap, host, list) && Listed(name) == NULL
      modifies this
      ensures Valid() && main == old(main) && AllWired(heap, host, list)
      ensures m == NULL ==>
        heap == old(heap) && loaded == old(loaded) && list == old(list) && held == old(held)
      ensures m != NULL ==> m in list && held == old(held) + multiset{m} && LedTo(heap, host, name, m)
      ensures Grown(old(heap), old(list), old(graph), heap, list, graph, {})
      ensures host.room ==>
        Comes(ByName(host, NamesOf(old(heap), old(list)), name, depth), m != NULL, NamesOf(heap, list))
      decreases MAX_DEPTH - depth, 5
    {
      assert MAX_DEPTH == 32;
      hide *;
      Parts();
      GrownNone(heap, loaded, list, graph);
      SoundOrdered(list, graph, held);
      ListedIs(name);
      LookupNames(heap, list, name);
      ghost var names := NamesOf(heap, list);
      match host.files(name) {
        case Some(image) =>
          m := LoadFile(image, depth);
          if m != NULL {
            FileLed(heap, host, name, image, m);
            if host.room {
              FileComes(host, names, name, depth, NamesOf(heap, list));
              MissingComes(host, names, name, depth, true, NamesOf(heap, list));
            }
            return;
          }
        case None =>
      }
      m := LoadNextNative(name, old(heap), old(list), old(graph));
      if host.room {
        NativeComes(host, names, name, depth, m != NULL, NamesOf(heap, list));
        MissingComes(host, names, name, depth, m != NULL, NamesOf(heap, list));
      }
    }

    // The native library, after the file has been tried.
    method LoadNextNative(name: string, ghost h0: Memory, ghost l0: seq<Ptr>, ghost g0: Graph) returns (m: Ptr)
      requires Valid() && AllWired(heap, host, list) && Grown(h0, l0, g0, heap, list, graph, {})
      modifies this
      ensures Valid() && main == old(main) && AllWired(heap, host, list)
      ensures m == NULL ==>
        heap == old(heap) && loaded == old(loaded) && list == old(list) && held == old(held)
      ensures m != NULL ==> m in list && held == old(held) + multiset{m} && LedTo(heap, host, name, m)
      ensures Grown(h0, l0, g0, heap, list, graph, {})
      ensures host.room ==> (m != NULL <==> host.natives(name))
      ensures m != NULL ==> NamesOf(heap, list) == [name] + NamesOf(old(heap), old(list))
    {
      hide *;
      ghost var h1, l1, g1 := heap, list, graph;
      m := LoadNative(name);
      GrownThen(h0, l0, g0, h1, l1, g1, heap, list, graph, {});
      if m != NULL {
        NativeLed(heap, host, name, m);
      }
    }

    lemma CountKeeps(h: Memory, h': Memory, host: Host, list: seq<Ptr>, m: Ptr, name: string)
      requires m in h && m in h' && h' == h[m := h[m].(refcount := h'[m].refcount)]
      requires LedTo(h, host, name, m) && forall p :: p in list ==> p in h
      ensures NamesOf(h', list) == NamesOf(h, list) && LedTo(h', host, name, m)
    {
      NamesSame(h, h', list);
      LedSame(h, h', host, name, m);
    }

    // The module a lookup of `name` finds.
    ghost function Listed(name: string): Ptr
      requires Valid()
      reads this
    {
      Lookup(heap, list, name)
    }

    lemma ListedIs(name: string)
      requires Valid()
      ensures forall m :: m in list ==> m in heap
      ensures Listed(name) == Lookup(heap, list, name)
      ensures Listed(name) == NULL || Listed(name) in list
    {}

    // loadNativeModule, and linking what it returns.
    method LoadNative(name: string) returns (m: Ptr)
      requires Valid() && AllWired(heap, host, list)
      modifies this
      ensures Valid() && main == old(main) && AllWired(heap, host, list)
      ensures host.room ==> (m != NULL <==> host.natives(name))
      ensures m != NULL ==> NamesOf(heap, list) == [name] + NamesOf(old(heap), old(list))
      ensures m == NULL ==>
        heap == old(heap) && loaded == old(loaded) && list == old(list) && held == old(held)
      ensures m != NULL ==> list == [m] + old(list) && held == old(held) + multiset{m}
      ensures m != NULL ==> m in heap && heap[m].name == name && heap[m].native
      ensures Grown(old(heap), old(list), old(graph), heap, list, graph, {})
    {
      hide *;
      Parts();
      GrownNone(heap, loaded, list, graph);
      m := Malloc();
      if m == NULL || !host.natives(name) {  // dlopen, lxNativeModuleInit
        return NULL;
      }
      ghost var h0 := heap;
      NewModule(m, LxModule(name, true, 1, [], [], false, NULL, NULL));
      ghost var h1, l1, g1 := heap, list, graph;
      NewWired(h0, heap, host, list, m, heap[m]);
      NewNames(h0, heap, loaded, list, m, heap[m]);
      FilledNone(heap, host, list, [], []);
      FilledWired(heap, host, list, m);
      TargetsNulls([]);
      GrownBegin(h0, loaded, l1, g1, m, heap[m]);
      LooseFacts(heap, list, main, m);
      Link(m);
      RelinkedAt(h1[m := h1[m].(initialized := true)], heap, [m] + l1, m);
      GrownLink(h0, l1, g1, h1, l1, g1, heap, m, []);
      LinkWired(h1, heap, host, l1, m);
      Parts();
      LinkNames(h1, heap, loaded, l1, m);
    }

    lemma NewNames(h: Memory, h': Memory, loaded: Ptr, list: seq<Ptr>, m: Ptr, x: LxModule)
      requires Linked(h, loaded, list) && m !in h && h' == h[m := x]
      ensures NamesOf(h', list) == NamesOf(h, list)
    {
      NamesSame(h, h', list);
    }

    lemma LinkNames(h: Memory, h': Memory, loaded: Ptr, list: seq<Ptr>, m: Ptr)
      requires m in h && Relinked(h[m := h[m].(initialized := true)], h', [m] + list) && Linked(h', loaded, [m] + list)
      ensures m in h' && NamesOf(h', [m] + list) == [h[m].name] + NamesOf(h, list)
    {
      LinkSame(h, h', list, m);
      InLinked(h', loaded, [m] + list);
      assert forall p :: p in list ==> p in [m] + list;
      hide Linked;
      NamesSame(h, h', list);
      NamesMore(h', m, list);
    }

    lemma InLinked(h: Memory, loaded: Ptr, list: seq<Ptr>)
      requires Linked(h, loaded, list)
      ensures forall p :: p in list ==> p in h
    {}

    // malloc, memset, and the first assignments to the new structure.
    method NewModule(m: Ptr, x: LxModule)
      requires Valid() && m != NULL && m !in heap
      requires x.refcount == 1 && x.prev == NULL && x.next == NULL && !x.initialized
      modifies `heap
      ensures heap == old(heap)[m := x]
      ensures Valid() && Loose(heap, list, main, m) && m != main
    {
      hide Sound, Refs;
      heap := heap[m := x];
    }

    lemma BecomeMain(m: Ptr)
      requires Sound(list, graph, held) && Linked(heap, loaded, list)
      requires Counted(heap, list, graph, Refs(list, graph, held))
      requires Loose(heap, list, NULL, m) && main == m
      ensures Valid() && Loose(heap, list, main, m)
    {
      hide Sound, Refs, Linked, Counted;
    }

    // The failure exit of a load that has already allocated `m`.
    method Rollback(m: Ptr, ghost h0: Memory, ghost loaded0: Ptr, ghost l0: seq<Ptr>, ghost g0: Graph,
        ghost held0: multiset<Ptr>)
      requires Sound(l0, g0, held0) && Linked(h0, loaded0, l0) && Counted(h0, l0, g0, Refs(l0, g0, held0))
      requires Valid() && Loose(heap, list, main, m) && m !in h0
      requires held == held0 + Targets(heap[m].deps)
      requires Grown(h0, l0, g0, heap, list, graph, {m})
      modifies this
      ensures Valid() && heap == h0 && loaded == loaded0 && list == l0 && held == held0
      ensures main == if m == old(main) then NULL else old(main)
      ensures Grown(h0, l0, g0, heap, list, graph, {})
    {
      hide *;
      LooseFacts(heap, list, main, m);
      LooseOwes(m);
      GiveBack(held0, Targets(heap[m].deps));
      ghost var h, l := heap, list;
      ghost var delta := Free(m);
      Parts();
      Undone(h0, loaded0, l0, g0, held0, h, l, graph, m, heap, loaded, list, delta);
      GrownSame(h0, loaded0, l0, g0, graph);
    }

    lemma LooseOwes(m: Ptr)
      requires Valid() && Loose(heap, list, main, m) && Targets(heap[m].deps) <= held
      ensures Releasable(m) && Owed(m) == Targets(heap[m].deps)
    {}

    // loadLxModule and loadNeModule
    method LoadFile(image: Image, depth: nat) returns (m: Ptr)
      requires Valid() && depth <= MAX_DEPTH && AllWired(heap, host, list)
      modifies this
      ensures Valid() && AllWired(heap, host, list)
      ensures m != NULL ==> m in heap && MadeFrom(heap[m], image) && Wired(heap, host, m)
      ensures host.room ==>
        Comes(ByFile(host, NamesOf(old(heap), old(list)), image, depth, old(main) != NULL), m != NULL,
          NamesOf(heap, list))
      ensures m == NULL ==>
        heap == old(heap) && loaded == old(loaded) && list == old(list) && held == old(held) && main == old(main)
        && Grown(old(heap), old(list), old(graph), heap, list, graph, {})
      ensures m != NULL ==> image.isDll == (old(main) != NULL)
      ensures m != NULL && image.isDll ==>
        m in list && held == old(held) + multiset{m} && main == old(main)
        && Grown(old(heap), old(list), old(graph), heap, list, graph, {})
      ensures m != NULL && !image.isDll ==>
        main == m && m in heap && held == old(held) + Targets(heap[m].deps)
        && Grown(old(heap), old(list), old(graph), heap, list, graph, {m})
      decreases MAX_DEPTH - depth, 4
    {
      assert MAX_DEPTH == 32;
      hide *;
      Parts();
      GrownNone(heap, loaded, list, graph);
      if !image.accepted || image.isDll == (main == NULL) {
        RefusedComes(host, NamesOf(heap, list), image, depth, main != NULL, NamesOf(heap, list));
        return NULL;
      }
      m := Begin(image);
      if m != NULL {
        m := LoadInto(m, image, depth, old(heap), old(loaded), old(list), old(graph), old(held));
      }
    }

    // The structure of a module whose file has been accepted.
    method Begin(image: Image) returns (m: Ptr)
      requires Valid() && AllWired(heap, host, list) && image.isDll == (main != NULL)
      modifies `heap, `main
      ensures Valid() && AllWired(heap, host, list) && (host.room ==> m != NULL)
      ensures m == NULL ==> heap == old(heap) && main == old(main)
      ensures m != NULL ==> main == if image.isDll then old(main) else m
      ensures m != NULL ==> m !in old(heap) && main != NULL && image.isDll == (m != main)
      ensures m != NULL ==> Building(m, image, 0, held, old(heap), list, graph)
      ensures m != NULL ==> NamesOf(heap, list) == NamesOf(old(heap), list)
    {
      hide *;
      Parts();
      GrownNone(heap, loaded, list, graph);
      m := Malloc();
      if m == NULL {
        return;
      }
      FreshIs(image);
      NewModule(m, Fresh(image));
      GrownBegin(old(heap), loaded, list, graph, m, heap[m]);
      NewWired(old(heap), heap, host, list, m, heap[m]);
      NewNames(old(heap), heap, loaded, list, m, heap[m]);
      if !image.isDll {
        StillLoose(heap, list, main, m);
        Parts();
        main := m;
        BecomeMain(m);
      }
      Started(m, image, held, old(heap), list, graph);
    }

    function Fresh(image: Image): LxModule {
      LxModule(image.name, false, 1, image.imports, seq(|image.imports|, _ => NULL), false, NULL, NULL)
    }

    lemma FreshIs(image: Image)
      ensures var x := Fresh(image); !x.initialized && x.refcount == 1 && x.prev == NULL && x.next == NULL
    {}

    lemma StillLoose(heap: Memory, list: seq<Ptr>, main: Ptr, m: Ptr)
      requires Loose(heap, list, main, m) && !heap[m].initialized
      ensures Loose(heap, list, NULL, m)
    {}

    // `m` is being made from `image`, and the first `n` of its imports are loaded.
    ghost predicate Building(m: Ptr, image: Image, n: nat, held0: multiset<Ptr>, h0: Memory, l0: seq<Ptr>, g0: Graph)
      reads this
    {
      && Valid() && main != NULL && Loose(heap, list, main, m) && AllWired(heap, host, list)
      && m in heap && m !in h0 && heap[m] == Fresh(image).(deps := heap[m].deps)
      && (forall j :: n <= j < |heap[m].deps| ==> heap[m].deps[j] == NULL)
      && held == held0 + Targets(heap[m].deps) && Grown(h0, l0, g0, heap, list, graph, {m})
      && Filled(heap, host, list, image.imports, heap[m].deps, n)
    }

    lemma Started(m: Ptr, image: Image, held0: multiset<Ptr>, h0: Memory, l0: seq<Ptr>, g0: Graph)
      requires Valid() && main != NULL && Loose(heap, list, main, m) && AllWired(heap, host, list)
      requires m in heap && m !in h0 && heap[m] == Fresh(image) && held == held0
      requires Grown(h0, l0, g0, heap, list, graph, {m})
      ensures Building(m, image, 0, held0, h0, l0, g0)
    {
      var deps := heap[m].deps;
      assert Fresh(image).(deps := deps) == Fresh(image);
      TargetsNulls(deps);
      FilledNone(heap, host, list, image.imports, deps);
      hide Valid, Loose, AllWired, Grown, Filled;
    }

    lemma Built(m: Ptr, image: Image, n: nat, held0: multiset<Ptr>, h0: Memory, l0: seq<Ptr>, g0: Graph)
      requires Building(m, image, n, held0, h0, l0, g0)
      ensures Valid() && main != NULL && Loose(heap, list, main, m) && AllWired(heap, host, list)
      ensures m in heap && m !in h0 && heap[m] == Fresh(image).(deps := heap[m].deps)
      ensures n <= |image.imports| == |heap[m].deps| && forall j :: n <= j < |heap[m].deps| ==> heap[m].deps[j] == NULL
      ensures held == held0 + Targets(heap[m].deps) && Grown(h0, l0, g0, heap, list, graph, {m})
      ensures Filled(heap, host, list, image.imports, heap[m].deps, n)
      ensures !heap[m].native && heap[m].name == image.name && heap[m].imports == image.imports
    {
      hide Valid, Loose, AllWired, Grown, Targets;
    }

    // The rest of a load, after its structure is allocated.
    method LoadInto(m: Ptr, image: Image, depth: nat, ghost h0: Memory, ghost loaded0: Ptr, ghost l0: seq<Ptr>,
        ghost g0: Graph, ghost held0: multiset<Ptr>)
        returns (r: Ptr)
      requires Sound(l0, g0, held0) && Linked(h0, loaded0, l0) && Counted(h0, l0, g0, Refs(l0, g0, held0))
      requires AllWired(h0, host, l0) && depth <= MAX_DEPTH && image.accepted && image.isDll == (m != main)
      requires Building(m, image, 0, held0, h0, l0, g0) && NamesOf(heap, list) == NamesOf(h0, l0)
      modifies this
      ensures Valid() && AllWired(heap, host, list) && (r == NULL || r == m)
      ensures r == NULL ==>
        heap == h0 && loaded == loaded0 && list == l0 && held == held0
        && main == (if m == old(main) then NULL else old(main)) && Grown(h0, l0, g0, heap, list, graph, {})
      ensures r != NULL ==> main == old(main) && m in heap && MadeFrom(heap[m], image) && Wired(heap, host, m)
      ensures r != NULL && image.isDll ==>
        m in list && held == held0 + multiset{m} && Grown(h0, l0, g0, heap, list, graph, {})
      ensures r != NULL && !image.isDll ==>
        held == held0 + Targets(heap[m].deps) && Grown(h0, l0, g0, heap, list, graph, {m})
      ensures host.room ==>
        Comes(ByFile(host, NamesOf(h0, l0), image, depth, image.isDll), r != NULL, NamesOf(heap, list))
      decreases MAX_DEPTH - depth, 3
    {
      assert MAX_DEPTH == 32;
      hide *;
      var ok, n := Prepare(m, image, depth, h0, l0, g0, held0);
      PreparedComes(NamesOf(h0, l0), image, depth, ok, h0, l0);
      if ok {
        Finish(m, image, h0, l0, g0, held0);
        r := m;
      } else {
        Undo(m, image, n, h0, loaded0, l0, g0, held0);
        r := NULL;
      }
    }

    // The objects, the imports, and the fixups.
    method Prepare(m: Ptr, image: Image, depth: nat, ghost h0: Memory, ghost l0: seq<Ptr>, ghost g0: Graph,
        ghost held0: multiset<Ptr>)
        returns (ok: bool, ghost n: nat)
      requires depth <= MAX_DEPTH && image.accepted
      requires Building(m, image, 0, held0, h0, l0, g0) && NamesOf(heap, list) == NamesOf(h0, l0)
      modifies this
      ensures main == old(main) && Building(m, image, n, held0, h0, l0, g0) && (ok ==> n == |image.imports|)
      ensures Prepared(NamesOf(h0, l0), image, depth, ok)
      decreases MAX_DEPTH - depth, 2
    {
      hide *;
      ghost var names := NamesOf(heap, list);
      ok, n := image.prepared && depth + 1 <= MAX_DEPTH, 0;
      if ok {
        ok, n := LoadImports(m, image, depth + 1, h0, l0, g0, held0);
      }
      PreparedIs(names, image, depth, ok);
      ok := ok && image.fixable;
    }

    // What a load from the file of `image` comes to, once the finished module is listed.
    ghost predicate Prepared(names: seq<string>, image: Image, depth: nat, ok: bool)
      reads this
    {
      host.room && depth <= MAX_DEPTH ==>
        Comes(ByFile(host, names, image, depth, image.isDll), ok,
          (if ok && image.isDll then [image.name] else []) + NamesOf(heap, list))
    }

    lemma PreparedIs(names: seq<string>, image: Image, depth: nat, ok: bool)
      requires depth <= MAX_DEPTH && image.accepted && (ok ==> image.prepared && depth < MAX_DEPTH)
      requires image.prepared && depth < MAX_DEPTH && host.room ==>
        Comes(AllNames(host, names, image.isLx, image.imports, depth + 1), ok, NamesOf(heap, list))
      ensures Prepared(names, image, depth, ok && image.fixable)
    {
      if host.room {
        AcceptedComes(host, names, image, depth, ok, NamesOf(heap, list));
        assert [] + NamesOf(heap, list) == NamesOf(heap, list);
      }
    }

    // The list has the names that were to come, or a failed load has restored the old ones.
    lemma PreparedComes(names: seq<string>, image: Image, depth: nat, ok: bool, heap: Memory, list: seq<Ptr>)
      requires Prepared(names, image, depth, ok) && depth <= MAX_DEPTH
      ensures host.room ==>
        Comes(ByFile(host, names, image, depth, image.isDll), ok,
          (if ok && image.isDll then [image.name] else []) + NamesOf(this.heap, this.list))
      ensures host.room && !ok ==> Comes(ByFile(host, names, image, depth, image.isDll), false, NamesOf(heap, list))
    {
      if host.room && !ok {
        ComesNot(ByFile(host, names, image, depth, image.isDll), [] + NamesOf(this.heap, this.list),
          NamesOf(heap, list));
      }
    }

    method Finish(m: Ptr, image: Image, ghost h0: Memory, ghost l0: seq<Ptr>, ghost g0: Graph,
        ghost held0: multiset<Ptr>)
      requires Building(m, image, |image.imports|, held0, h0, l0, g0) && image.isDll == (m != main)
      modifies this
      ensures Valid() && AllWired(heap, host, list) && main == old(main) && m in heap
      ensures MadeFrom(heap[m], image) && Wired(heap, host, m)
      ensures NamesOf(heap, list) == (if image.isDll then [image.name] else []) + NamesOf(old(heap), old(list))
      ensures image.isDll ==> m in list && held == held0 + multiset{m} && Grown(h0, l0, g0, heap, list, graph, {})
      ensures !image.isDll ==> held == held0 + Targets(heap[m].deps) && Grown(h0, l0, g0, heap, list, graph, {m})
    {
      hide *;
      Built(m, image, |image.imports|, held0, h0, l0, g0);
      FilledWired(heap, host, list, m);
      ghost var h := heap;
      Complete(m, image.isDll, h0, l0, g0, held0);
      MadeSame(h, heap, m, image);
    }

    method Undo(m: Ptr, image: Image, ghost n: nat, ghost h0: Memory, ghost loaded0: Ptr, ghost l0: seq<Ptr>,
        ghost g0: Graph, ghost held0: multiset<Ptr>)
      requires Sound(l0, g0, held0) && Linked(h0, loaded0, l0) && Counted(h0, l0, g0, Refs(l0, g0, held0))
      requires AllWired(h0, host, l0) && Building(m, image, n, held0, h0, l0, g0)
      modifies this
      ensures Valid() && AllWired(heap, host, list) && heap == h0 && loaded == loaded0 && list == l0 && held == held0
      ensures main == (if m == old(main) then NULL else old(main)) && Grown(h0, l0, g0, heap, list, graph, {})
    {
      hide *;
      Built(m, image, n, held0, h0, l0, g0);
      Rollback(m, h0, loaded0, l0, g0, held0);
    }

    lemma MadeSame(h: Memory, h': Memory, m: Ptr, image: Image)
      requires m in h && m in h' && SameKind(h[m], h'[m])
      requires !h[m].native && h[m].name == image.name && h[m].imports == image.imports
      ensures MadeFrom(h'[m], image)
    {}

    // The successful end of a load: a library is listed, the program is not.
    method Complete(m: Ptr, isDll: bool, ghost h0: Memory, ghost l0: seq<Ptr>, ghost g0: Graph,
        ghost held0: multiset<Ptr>)
      requires Valid() && Loose(heap, list, main, m) && m !in h0
      requires held == held0 + Targets(heap[m].deps) && isDll == (m != main)
      requires Grown(h0, l0, g0, heap, list, graph, {m}) && Wired(heap, host, m) && AllWired(heap, host, list)
      modifies this
      ensures Valid() && main == old(main) && m in old(heap) && m in heap && SameKind(old(heap)[m], heap[m])
      ensures Wired(heap, host, m) && AllWired(heap, host, list)
      ensures NamesOf(heap, list) ==
        (if isDll then [old(heap)[m].name] else []) + NamesOf(old(heap), old(list))
      ensures isDll ==> m in list && held == held0 + multiset{m} && Grown(h0, l0, g0, heap, list, graph, {})
      ensures !isDll ==>
        m in heap && held == held0 + Targets(heap[m].deps) && Grown(h0, l0, g0, heap, list, graph, {m})
    {
      hide *;
      ghost var h, l, g := heap, list, graph;
      Parts();
      LooseFacts(heap, list, main, m);
      GiveBack(held0, Targets(heap[m].deps));
      if isDll {
        Link(m);
        Parts();
        GrownLink(h0, l0, g0, h, l, g, heap, m, h[m].deps);
        LinkWired(h, heap, host, l, m);
        LinkNames(h, heap, loaded, l, m);
      } else {
        heap := heap[m := heap[m].(initialized := true)];
        GrownSlot(h0, l0, g0, h, list, graph, m, heap[m]);
        Patched(h, m);
        LooseWired(h, heap, host, list, m);
        StartWired(h, heap, host, loaded, list, m);
      }
    }

    lemma StartWired(h: Memory, h': Memory, host: Host, loaded: Ptr, list: seq<Ptr>, m: Ptr)
      requires Wired(h, host, m) && h' == h[m := h[m].(initialized := true)] && Linked(h, loaded, list)
      ensures Wired(h', host, m) && SameKind(h[m], h'[m]) && NamesOf(h', list) == [] + NamesOf(h, list)
    {
      NamesSame(h, h', list);
      hide LedTo;
      WiredSame(h, h', host, m);
    }

    // The loop over the import table.
    method LoadImports(m: Ptr, image: Image, depth: nat, ghost h0: Memory, ghost l0: seq<Ptr>, ghost g0: Graph,
        ghost held0: multiset<Ptr>)
        returns (ok: bool, ghost n: nat)
      requires 1 <= depth <= MAX_DEPTH && Building(m, image, 0, held0, h0, l0, g0)
      modifies this
      ensures main == old(main) && Building(m, image, n, held0, h0, l0, g0) && (ok ==> n == |image.imports|)
      ensures m in heap && |heap[m].deps| == |image.imports|
      ensures ok ==> forall i :: 0 <= i < |image.imports| ==> LedTo(heap, host, image.imports[i], heap[m].deps[i])
      ensures host.room ==>
        Comes(AllNames(host, NamesOf(old(heap), old(list)), image.isLx, image.imports, depth), ok, NamesOf(heap, list))
      decreases MAX_DEPTH - depth, 10
    {
      hide *;
      ghost var names := NamesOf(heap, list);
      var i := 0;
      NoneReached(image, depth);
      ok := true;
      while ok && i < |image.imports|
        invariant 0 <= i <= |image.imports| && main == old(main)
        invariant Building(m, image, i, held0, h0, l0, g0) && Reached(names, image, depth, i, ok)
      {
        ok := NextImport(m, i, image, depth, h0, l0, g0, held0, names);
        if ok {
          i := i + 1;
        }
      }
      n := i;
      AllReached(names, image, depth, n, ok);
      SlotsLed(m, image, n, held0, h0, l0, g0);
    }

    // The first `i` imports are loaded; `ok` is false if the next one could not be.
    ghost predicate Reached(names: seq<string>, image: Image, depth: nat, i: nat, ok: bool)
      reads this
    {
      host.room && 1 <= depth <= MAX_DEPTH ==>
        if ok then Onward(host, names, NamesOf(heap, list), image.isLx, image.imports, i, depth)
        else Comes(AllNames(host, names, image.isLx, image.imports, depth), false, NamesOf(heap, list))
    }

    lemma NoneReached(image: Image, depth: nat)
      ensures Reached(NamesOf(heap, list), image, depth, 0, true)
    {
      if 1 <= depth <= MAX_DEPTH {
        OnwardFirst(host, NamesOf(heap, list), image.isLx, image.imports, depth);
      }
    }

    lemma AllReached(names: seq<string>, image: Image, depth: nat, i: nat, ok: bool)
      requires Reached(names, image, depth, i, ok) && 1 <= depth <= MAX_DEPTH && (ok ==> i == |image.imports|)
      ensures host.room ==> Comes(AllNames(host, names, image.isLx, image.imports, depth), ok, NamesOf(heap, list))
    {
      if host.room && ok {
        OnwardLast(host, names, NamesOf(heap, list), image.isLx, image.imports, depth);
      }
    }

    lemma SlotsLed(m: Ptr, image: Image, n: nat, held0: multiset<Ptr>, h0: Memory, l0: seq<Ptr>, g0: Graph)
      requires Building(m, image, n, held0, h0, l0, g0)
      ensures m in heap && |heap[m].deps| == |image.imports|
      ensures n == |image.imports| ==>
        forall i :: 0 <= i < |image.imports| ==> LedTo(heap, host, image.imports[i], heap[m].deps[i])
    {
      hide *;
      Built(m, image, n, held0, h0, l0, g0);
      if n == |image.imports| {
        FilledIs(heap, host, list, image.imports, heap[m].deps);
      }
    }

    // One turn of the loop: an LX name that is too long is refused.
    method NextImport(m: Ptr, i: nat, image: Image, depth: nat, ghost h0: Memory, ghost l0: seq<Ptr>,
        ghost g0: Graph, ghost held0: multiset<Ptr>, ghost names: seq<string>)
        returns (ok: bool)
      requires 1 <= depth <= MAX_DEPTH && i < |image.imports| && Building(m, image, i, held0, h0, l0, g0)
      requires Reached(names, image, depth, i, true)
      modifies this
      ensures main == old(main) && Building(m, image, if ok then i + 1 else i, held0, h0, l0, g0)
      ensures Reached(names, image, depth, if ok then i + 1 else i, ok)
      decreases MAX_DEPTH - depth, 9
    {
      hide *;
      ghost var before := NamesOf(heap, list);
      if image.isLx && |image.imports[i]| > MAX_LX_NAME {
        LongReached(names, image, depth, i);
        return false;
      }
      ReachedIs(names, image, depth, i);
      ok := LoadImport(m, i, image, depth, h0, l0, g0, held0);
      NextReached(names, before, image, depth, i, ok);
    }

    lemma ReachedIs(names: seq<string>, image: Image, depth: nat, i: nat)
      requires Reached(names, image, depth, i, true) && 1 <= depth <= MAX_DEPTH
      ensures host.room ==> Onward(host, names, NamesOf(heap, list), image.isLx, image.imports, i, depth)
    {}

    lemma LongReached(names: seq<string>, image: Image, depth: nat, i: nat)
      requires Reached(names, image, depth, i, true) && 1 <= depth <= MAX_DEPTH && i < |image.imports|
      requires image.isLx && |image.imports[i]| > MAX_LX_NAME
      ensures Reached(names, image, depth, i, false)
    {
      if host.room {
        OnwardLong(host, names, NamesOf(heap, list), image.isLx, image.imports, i, depth);
      }
    }

    lemma NextReached(names: seq<string>, before: seq<string>, image: Image, depth: nat, i: nat, ok: bool)
      requires 1 <= depth <= MAX_DEPTH && i < |image.imports|
      requires image.isLx ==> |image.imports[i]| <= MAX_LX_NAME
      requires host.room ==> Onward(host, names, before, image.isLx, image.imports, i, depth)
      requires host.room ==> Comes(ByName(host, before, image.imports[i], depth), ok, NamesOf(heap, list))
      ensures Reached(names, image, depth, if ok then i + 1 else i, ok)
    {
      if host.room {
        OnwardNext(host, names, before, image.isLx, image.imports, i, depth, ok, NamesOf(heap, list));
      }
    }

    // One import: the module its name leads to goes into its slot.
    method LoadImport(m: Ptr, i: nat, image: Image, depth: nat, ghost h0: Memory, ghost l0: seq<Ptr>, ghost g0: Graph,
        ghost held0: multiset<Ptr>)
        returns (ok: bool)
      requires 1 <= depth <= MAX_DEPTH && i < |image.imports| && Building(m, image, i, held0, h0, l0, g0)
      modifies this
      ensures main == old(main) && Building(m, image, if ok then i + 1 else i, held0, h0, l0, g0)
      ensures host.room ==>
        Comes(ByName(host, NamesOf(old(heap), old(list)), image.imports[i], depth), ok, NamesOf(heap, list))
      decreases MAX_DEPTH - depth, 8
    {
      hide *;
      Built(m, image, i, held0, h0, l0, g0);
      ghost var h, l, g := heap, list, graph;
      Parts();
      var d := LoadByName(image.imports[i], depth);
      Beside(h, l, g, heap, list, graph, main, m);
      GrownThen(h0, l0, g0, h, l, g, heap, list, graph, {m});
      FilledGrown(h, l, g, heap, list, graph, host, image.imports, heap[m].deps, i);
      if d == NULL {
        Rebuilt(m, image, i, held0, h0, l0, g0);
        return false;
      }
      ghost var slots := heap[m].deps;
      FillSlot(m, i, d, image, h0, l0, g0);
      SlotFilled(image, slots, i, d);
      OneHeld(held0, Targets(slots), d);
      Rebuilt(m, image, i + 1, held0, h0, l0, g0);
      ok := true;
    }

    lemma Rebuilt(m: Ptr, image: Image, n: nat, held0: multiset<Ptr>, h0: Memory, l0: seq<Ptr>, g0: Graph)
      requires Valid() && main != NULL && Loose(heap, list, main, m) && AllWired(heap, host, list)
      requires m in heap && m !in h0 && heap[m] == Fresh(image).(deps := heap[m].deps)
      requires forall j :: n <= j < |heap[m].deps| ==> heap[m].deps[j] == NULL
      requires held == held0 + Targets(heap[m].deps) && Grown(h0, l0, g0, heap, list, graph, {m})
      requires Filled(heap, host, list, image.imports, heap[m].deps, n)
      ensures Building(m, image, n, held0, h0, l0, g0)
    {
      hide Valid, Loose, AllWired, Grown, Filled, Targets, Fresh;
    }

    lemma SlotFilled(image: Image, slots: seq<Ptr>, i: nat, d: Ptr)
      requires i < |slots|
      ensures Fresh(image).(deps := slots).(deps := slots[i := d]) == Fresh(image).(deps := slots[i := d])
      ensures forall j :: i < j < |slots| ==> slots[i := d][j] == slots[j]
    {}

    lemma OneHeld(held0: multiset<Ptr>, t: multiset<Ptr>, d: Ptr)
      ensures (held0 + t) + multiset{d} == held0 + (t + multiset{d})
    {}

    lemma FilledIs(heap: Memory, host: Host, list: seq<Ptr>, names: seq<string>, deps: seq<Ptr>)
      requires Filled(heap, host, list, names, deps, |names|)
      ensures |deps| == |names| && forall i :: 0 <= i < |names| ==> LedTo(heap, host, names[i], deps[i])
    {}

    // One slot of the module that is being built.
    method FillSlot(m: Ptr, i: nat, d: Ptr, image: Image, ghost h0: Memory, ghost l0: seq<Ptr>, ghost g0: Graph)
      requires Valid() && AllWired(heap, host, list) && Loose(heap, list, main, m) && m in heap && m !in h0
      requires Grown(h0, l0, g0, heap, list, graph, {m})
      requires i < |image.imports| == |heap[m].deps| && heap[m].deps[i] == NULL && d in list && d != NULL
      requires Filled(heap, host, list, image.imports, heap[m].deps, i) && LedTo(heap, host, image.imports[i], d)
      modifies `heap
      ensures Valid() && AllWired(heap, host, list) && Loose(heap, list, main, m)
      ensures m in heap && heap == old(heap)[m := old(heap)[m].(deps := old(heap)[m].deps[i := d])]
      ensures Targets(heap[m].deps) == Targets(old(heap)[m].deps) + multiset{d}
      ensures Grown(h0, l0, g0, heap, list, graph, {m})
      ensures Filled(heap, host, list, image.imports, heap[m].deps, i + 1)
      ensures NamesOf(heap, list) == NamesOf(old(heap), list)
    {
      hide *;
      LooseFacts(heap, list, main, m);
      TargetsFill(heap[m].deps, i, d);
      ghost var h := heap;
      Parts();
      heap := heap[m := heap[m].(deps := heap[m].deps[i := d])];
      GrownSlot(h0, l0, g0, h, list, graph, m, heap[m]);
      Patched(h, m);
      LooseWired(h, heap, host, list, m);
      FilledMore(h, heap, host, list, image.imports, h[m].deps, i, m, d);
      SlotNames(h, heap, loaded, list, m);
    }

    lemma SlotNames(h: Memory, h': Memory, loaded: Ptr, list: seq<Ptr>, m: Ptr)
      requires m in h && m in h' && h' == h[m := h[m].(deps := h'[m].deps)] && Linked(h, loaded, list)
      ensures NamesOf(h', list) == NamesOf(h, list)
    {
      NamesSame(h, h', list);
    }

    // ----- Shutting down ------------------------------------------------------

    // The references the program itself holds through its dependency slots.
    ghost function ProgramRefs(): multiset<Ptr>
      reads this
    {
      if main in heap then Targets(heap[main].deps) else multiset{}
    }

    // lxTerminate, up to the exit
    method Terminate() returns (ghost delta: seq<Ptr>)
      requires Valid() && ProgramRefs() <= held
      modifies this
      ensures Valid() && list == [] && loaded == NULL && main == NULL && held == multiset{}
      ensures log == old(log) + delta
      ensures Teardown(old(list), [], old(graph), delta)
      ensures heap.Keys == old(heap.Keys) - Elems(old(list)) - if old(main) == NULL then {} else {old(main)}
    {
      hide *;
      ProgramReleasable();
      ghost var main0 := main;
      ghost var d := Free(main);
      ghost var h1, l1 := heap, list;
      Parts();
      SoundOrdered(l1, graph, held);
      SweptNone(heap, list, graph);
      ghost var e := [];
      while loaded != NULL
        invariant Valid() && main == NULL && graph == old(graph)
        invariant log == old(log) + d + e
        invariant Swept(h1, l1, heap, list, graph, NULL, e)
        decreases |list|
      {
        ghost var f := ForceFree(h1, l1, e);
        e := e + f;
      }
      delta := d + e;
      EmptyList();
      SweptAll(old(heap), old(list), h1, l1, heap, graph, main0, d, e);
    }

    // Forces the count of the head to 1: the outside references but one are forgotten.
    method ForceHead()
      requires Valid() && loaded != NULL
      modifies `heap, `held
      ensures Valid() && loaded in list && loaded == list[0]
      ensures held == old(held)[loaded := 1] && loaded in old(heap)
      ensures heap == old(heap)[loaded := old(heap)[loaded].(refcount := 1)]
    {
      hide *;
      ghost var h := heap;
      HeadFacts();
      heap := heap[loaded := heap[loaded].(refcount := 1)];
      ForceSound(list, graph, held);
      CountedForce(h, list, graph, Refs(list, graph, held), main, loaded);
      LinkedFrame(h, heap, loaded, list);
      held := held[loaded := 1];
      Whole();
    }

    // One turn of the loop.
    method ForceFree(ghost h1: Memory, ghost l1: seq<Ptr>, ghost e: seq<Ptr>) returns (ghost f: seq<Ptr>)
      requires Valid() && loaded != NULL && main == NULL
      requires Swept(h1, l1, heap, list, graph, NULL, e)
      modifies this
      ensures Valid() && main == NULL && graph == old(graph)
      ensures |list| < |old(list)|
      ensures log == old(log) + f
      ensures Swept(h1, l1, heap, list, graph, NULL, e + f)
    {
      hide *;
      ghost var h, l := heap, list;
      var lxmod := loaded;
      ForceHead();
      DependencyNeeds(lxmod);
      HeadFacts();
      ghost var h', held' := heap, held;
      f := Free(lxmod);
      Parts();
      SweptForced(h1, l1, h, l, h', heap, list, graph, lxmod, e, f);
      OneTaken(held', lxmod);
      HeadGone(l, list, graph, held, f);
    }

    lemma ProgramReleasable()
      requires Valid() && ProgramRefs() <= held
      ensures Releasable(main) && main !in list
    {}

    lemma HeadFacts()
      requires Valid() && loaded != NULL
      ensures list != [] && loaded == list[0] && loaded in heap && Ordered(list, graph)
      ensures Sound(list, graph, held) && Linked(heap, loaded, list)
      ensures Counted(heap, list, graph, Refs(list, graph, held))
      ensures main != NULL ==> Loose(heap, list, main, main)
    {}

    lemma EmptyList()
      requires Valid() && loaded == NULL
      ensures list == [] && held == multiset{}
    {
      assert forall x :: x !in held;
    }

    // ----- Whole runs -----------------------------------------------------------

    // Between calls: memory holds the program and the listed modules, nothing else,
    // and the references are the program's own and the given handles.
    ghost predicate Settled(handles: seq<Ptr>)
      reads this
    {
      && Valid() && main != NULL
      && heap.Keys == Elems(list) + {main}
      && held == ProgramRefs() + multiset(handles)
      && AllWired(heap, host, list) && Wired(heap, host, main)
    }

    // A program is loaded, makes any calls, and exits.
    method Run(program: Image, calls: seq<Call>) returns (started: bool)
      requires Valid() && main == NULL && heap == map[] && list == [] && held == multiset{}
      modifies this
      ensures Valid() && main == NULL && heap == map[] && list == [] && held == multiset{}
      ensures started ==> !program.isDll
      ensures host.room ==> (started <==> ByFile(host, [], program, 0, false).Some?)
    {
      hide *;
      started := Start(program);
      if !started {
        return;
      }
      var handles: seq<Ptr> := [];
      var i := 0;
      while i < |calls|
        invariant Settled(handles)
      {
        handles := Step(calls[i], handles);
        i := i + 1;
      }
      Exit(handles);
    }

    method Start(program: Image) returns (started: bool)
      requires Valid() && main == NULL && heap == map[] && list == [] && held == multiset{}
      modifies this
      ensures started ==> Settled([]) && !program.isDll
      ensures !started ==> Valid() && main == NULL && heap == map[] && list == [] && held == multiset{}
      ensures host.room ==> Comes(ByFile(host, [], program, 0, false), started, NamesOf(heap, list))
      ensures host.room ==> (started <==> ByFile(host, [], program, 0, false).Some?)
    {
      assert MAX_DEPTH == 32;
      hide *;
      ghost var g := graph;
      NothingWired();
      var m := LoadFile(program, 0);
      started := m != NULL;
      ComesIs(ByFile(host, [], program, 0, false), started, NamesOf(heap, list));
      if started {
        ProgramSettled(g);
      }
    }

    lemma NothingWired()
      ensures list == [] ==> AllWired(heap, host, list) && NamesOf(heap, list) == []
    {}

    lemma ProgramSettled(g: Graph)
      requires Valid() && main != NULL && main in heap && held == multiset{} + Targets(heap[main].deps)
      requires Grown(map[], [], g, heap, list, graph, {main})
      requires AllWired(heap, host, list) && Wired(heap, host, main)
      ensures Settled([])
    {
      hide Valid, Targets, AllWired, Wired;
      assert heap.Keys == Elems(list) + {main};
    }

    method Step(call: Call, handles: seq<Ptr>) returns (handles': seq<Ptr>)
      requires Settled(handles)
      modifies this
      ensures Settled(handles')
      ensures match call
        case Close(k) => handles' == if k < |handles| then handles[..k] + handles[k + 1..] else handles
        case _ => handles' == handles || Given(call, handles, handles')
    {
      hide *;
      handles' := handles;
      match call {
        case Open(name) => handles' := OpenName(name, handles);
        case OpenPath(path) => handles' := OpenFile(path, handles);
        case Close(k) =>
          if k < |handles| {
            CloseModule(k, handles);
            handles' := handles[..k] + handles[k + 1..];
          }
      }
    }

    // One more handle, for the module that was asked for.
    ghost predicate Given(call: Call, handles: seq<Ptr>, handles': seq<Ptr>)
      reads this
    {
      && |handles'| == |handles| + 1 && handles'[..|handles|] == handles
      && var m := handles'[|handles|];
      && m in list
      && match call
         case Open(name) => LedTo(heap, host, name, m)
         case OpenPath(path) => m in heap && host.files(path).Some? && MadeFrom(heap[m], host.files(path).value)
         case Close(_) => false
    }

    // By its name.
    method OpenName(name: string, handles: seq<Ptr>) returns (handles': seq<Ptr>)
      requires Settled(handles)
      modifies this
      ensures Settled(handles')
      ensures handles' == handles || Given(Open(name), handles, handles')
      ensures host.room ==>
        Comes(ByName(host, NamesOf(old(heap), old(list)), name, 0), handles' != handles, NamesOf(heap, list))
    {
      assert MAX_DEPTH == 32;
      hide *;
      ghost var h, l, g := heap, list, graph;
      SettledParts(handles);
      var m := LoadByName(name, 0);
      handles' := if m == NULL then handles else handles + [m];
      Opened(h, l, g, handles, m);
      if m != NULL {
        GivenIs(Open(name), handles, m);
      }
    }

    // From a file: it is loaded even if it is listed already.
    method OpenFile(path: string, handles: seq<Ptr>) returns (handles': seq<Ptr>)
      requires Settled(handles)
      modifies this
      ensures Settled(handles')
      ensures handles' == handles || Given(OpenPath(path), handles, handles')
      ensures host.files(path).None? ==> handles' == handles
      ensures host.room && host.files(path).Some? ==>
        Comes(ByFile(host, NamesOf(old(heap), old(list)), host.files(path).value, 0, true), handles' != handles,
          NamesOf(heap, list))
    {
      assert MAX_DEPTH == 32;
      hide *;
      ghost var h, l, g := heap, list, graph;
      SettledParts(handles);
      match host.files(path) {
        case None => return handles;
        case Some(image) =>
          var m := LoadFile(image, 0);
          handles' := if m == NULL then handles else handles + [m];
          Opened(h, l, g, handles, m);
          if m != NULL {
            GivenIs(OpenPath(path), handles, m);
          }
      }
    }

    lemma GivenIs(call: Call, handles: seq<Ptr>, m: Ptr)
      requires m in list && !call.Close?
      requires call.Open? ==> LedTo(heap, host, call.name, m)
      requires call.OpenPath? ==>
        m in heap && host.files(call.path).Some? && MadeFrom(heap[m], host.files(call.path).value)
      ensures Given(call, handles, handles + [m]) && handles != handles + [m]
    {}

    method CloseModule(k: nat, handles: seq<Ptr>)
      requires Settled(handles) && k < |handles|
      modifies this
      ensures Settled(handles[..k] + handles[k + 1..])
    {
      hide *;
      ghost var h, l, refs := heap, list, Refs(list, graph, held);
      SettledParts(handles);
      Parts();
      HandleListed(handles, k);
      ghost var delta := Free(handles[k]);
      Closed(h, l, refs, handles, k, delta);
    }

    method Exit(handles: seq<Ptr>)
      requires Settled(handles)
      modifies this
      ensures Valid() && main == NULL && heap == map[] && list == [] && held == multiset{}
    {
      SettledParts(handles);
      ghost var delta := Terminate();
      assert heap.Keys == {};
    }

    lemma SettledParts(handles: seq<Ptr>)
      requires Settled(handles)
      ensures Valid() && main != NULL && main in heap && main !in list && ProgramRefs() <= held
      ensures heap.Keys == Elems(list) + {main}
      ensures held == Targets(heap[main].deps) + multiset(handles)
      ensures AllWired(heap, host, list) && Wired(heap, host, main) && forall d :: d in heap[main].deps ==> d in list
    {
      hide AllWired;
      forall d | d in heap[main].deps ensures d in list {
        var i :| 0 <= i < |heap[main].deps| && heap[main].deps[i] == d;
        assert LedTo(heap, host, heap[main].imports[i], d);
        TargetsElem(heap[main].deps, d);
        assert d in held;
      }
    }

    lemma HandleListed(handles: seq<Ptr>, k: nat)
      requires Settled(handles) && k < |handles|
      ensures handles[k] in list && Releasable(handles[k]) && Owed(handles[k]) == multiset{handles[k]}
      ensures handles[k] != main
    {
      assert handles[k] in held;
    }

    lemma Opened(h: Memory, l: seq<Ptr>, g: Graph, handles: seq<Ptr>, m: Ptr)
      requires Valid() && main != NULL && main in h && main !in l
      requires h.Keys == Elems(l) + {main}
      requires Grown(h, l, g, heap, list, graph, {})
      requires held == Targets(h[main].deps) + multiset(handles) + if m == NULL then multiset{} else multiset{m}
      requires AllWired(heap, host, list) && Wired(h, host, main) && forall d :: d in h[main].deps ==> d in l
      ensures Settled(if m == NULL then handles else handles + [m])
    {
      hide Valid, AllWired, Wired;
      GrownFacts(h, l, g, heap, list, graph, main);
      GrownProgram(h, l, g, heap, list, graph, host, main);
      hide Grown, Elems, Targets;
      assert held == ProgramRefs() + multiset(if m == NULL then handles else handles + [m]);
    }

    lemma Closed(h: Memory, l: seq<Ptr>, refs: multiset<Ptr>, handles: seq<Ptr>, k: nat, delta: seq<Ptr>)
      requires Valid() && main != NULL && main in h && main !in l
      requires h.Keys == Elems(l) + {main}
      requires k < |handles| && handles[k] in l
      requires Swept(h, l, heap, list, graph, handles[k], delta)
      requires held == Targets(h[main].deps) + multiset(handles) - multiset{handles[k]}
      requires AllWired(h, host, l) && Counted(h, l, graph, refs) && Wired(h, host, main)
      ensures Settled(handles[..k] + handles[k + 1..])
    {
      hide *;
      SweptFacts(h, l, heap, list, graph, handles[k], delta, main);
      HandleLess(Targets(h[main].deps), handles, k);
      Parts();
      SoundOrdered(list, graph, held);
      SweptShrunk(h, l, heap, list, graph, handles[k], delta);
      ShrunkFacts(l, list, graph, delta);
      SweptWired(h, l, heap, list, graph, host, handles[k], delta, refs, Refs(list, graph, held));
      ProgramSlots(h, handles, k);
      SweptProgram(h, l, heap, list, graph, host, handles[k], delta, main);
      SettledIs(handles[..k] + handles[k + 1..]);
    }

    // The program still refers to what is in its slots.
    lemma ProgramSlots(h: Memory, handles: seq<Ptr>, k: nat)
      requires Valid() && main in h && Wired(h, host, main) && k < |handles|
      requires held == Targets(h[main].deps) + multiset(handles[..k] + handles[k + 1..])
      ensures forall d :: d in h[main].deps ==> d in list && d in heap
    {
      forall d | d in h[main].deps ensures d in list && d in heap {
        var i :| 0 <= i < |h[main].deps| && h[main].deps[i] == d;
        assert LedTo(h, host, h[main].imports[i], d);
        TargetsElem(h[main].deps, d);
        assert d in held;
      }
    }

    lemma SettledIs(handles: seq<Ptr>)
      requires Valid() && main != NULL && main in heap && heap.Keys == Elems(list) + {main}
      requires held == Targets(heap[main].deps) + multiset(handles)
      requires AllWired(heap, host, list) && Wired(heap, host, main)
      ensures Settled(handles)
    {
      hide Valid, Elems, Targets, AllWired, Wired;
    }
  }
}
