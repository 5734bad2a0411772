/**
  What the dependency slots of the loader's modules hold (lx_loader.c): in each, the module
  that the name at its place in the import table led to.
 */
module ModuleWiring {
  import opened Lists
  import opened Options
  import opened ModuleGraph
  import opened ModuleMemory

  ghost predicate MadeFrom(x: LxModule, image: Image) {
    !x.native && x.name == image.name && x.imports == image.imports
  }

  // A name leads to a module that has it, or that was made from the file of that name.
  ghost predicate LedTo(heap: Memory, host: Host, name: string, d: Ptr) {
    && d != NULL && d in heap
    && (SameName(heap[d].name, name) || (host.files(name).Some? && MadeFrom(heap[d], host.files(name).value)))
  }

  // Each slot of `m` holds what the import name at its place led to.
  ghost predicate Wired(heap: Memory, host: Host, m: Ptr) {
    && m in heap && |heap[m].deps| == |heap[m].imports|
    && forall i :: 0 <= i < |heap[m].deps| ==> LedTo(heap, host, heap[m].imports[i], heap[m].deps[i])
  }

  ghost predicate AllWired(heap: Memory, host: Host, list: seq<Ptr>) {
    forall m :: m in list ==> Wired(heap, host, m)
  }

  // The same for the first `n` slots of a module that is being built, whose dependencies are
  // in `list`.
  ghost predicate Filled(heap: Memory, host: Host, list: seq<Ptr>, names: seq<string>, deps: seq<Ptr>, n: nat) {
    && n <= |names| == |deps|
    && forall i :: 0 <= i < n ==> deps[i] in list && LedTo(heap, host, names[i], deps[i])
  }

  ghost predicate SameKind(x: LxModule, y: LxModule) {
    y.name == x.name && y.native == x.native && y.imports == x.imports
  }

  lemma LedSame(heap: Memory, heap': Memory, host: Host, name: string, d: Ptr)
    requires LedTo(heap, host, name, d) && d in heap' && SameKind(heap[d], heap'[d])
    ensures LedTo(heap', host, name, d)
  {}

  // A module keeps its wiring while its row stays and what is in it keeps its names.
  lemma WiredSame(heap: Memory, heap': Memory, host: Host, m: Ptr)
    requires Wired(heap, host, m) && m in heap' && heap'[m].deps == heap[m].deps && heap'[m].imports == heap[m].imports
    requires forall d :: d in heap[m].deps && d in heap ==> d in heap' && SameKind(heap[d], heap'[d])
    ensures Wired(heap', host, m)
  {
    forall i | 0 <= i < |heap[m].deps| ensures LedTo(heap', host, heap[m].imports[i], heap[m].deps[i]) {
      LedSame(heap, heap', host, heap[m].imports[i], heap[m].deps[i]);
    }
  }

  // Freeing a module leaves the wiring of those that stay.
  lemma SweptWired(h: Memory, l: seq<Ptr>, h': Memory, l': seq<Ptr>, g: Graph, host: Host,
      m: Ptr, delta: seq<Ptr>, refs: multiset<Ptr>, refs': multiset<Ptr>)
    requires AllWired(h, host, l) && Swept(h, l, h', l', g, m, delta) && Elems(l') <= Elems(l) && Ordered(l', g)
    requires Counted(h, l, g, refs) && Counted(h', l', g, refs')
    ensures AllWired(h', host, l')
  {
    forall p | p in l' ensures Wired(h', host, p) {
      assert p in Elems(l);
      CountOf(h, l, g, refs, p);
      CountOf(h', l', g, refs', p);
      SweptSame(h, l, h', l', g, m, delta, p);
      forall d | d in h[p].deps && d in h ensures d in h' && SameKind(h[d], h'[d]) {
        DepListed(l', g, p, d);
        assert d in Elems(l);
        CountOf(h', l', g, refs', d);
        SweptSame(h, l, h', l', g, m, delta, d);
      }
      hide Counted, Swept, Ordered, Wired, SameKind;
      WiredSame(h, h', host, p);
    }
  }

  lemma DepListed(list: seq<Ptr>, g: Graph, p: Ptr, d: Ptr)
    requires Ordered(list, g) && p in list && d in g[p] && d != NULL
    ensures d in list
  {
    var i :| 0 <= i < |list| && list[i] == p;
    assert d in list[i + 1..];
  }

  lemma SweptSame(h: Memory, l: seq<Ptr>, h': Memory, l': seq<Ptr>, g: Graph, m: Ptr, delta: seq<Ptr>, p: Ptr)
    requires Swept(h, l, h', l', g, m, delta) && p in l' && p in h && p in h'
    ensures SameKind(h[p], h'[p])
  {}

  // A change of memory that leaves names, and the rows of listed modules.
  lemma FrameWired(h: Memory, h': Memory, host: Host, list: seq<Ptr>)
    requires AllWired(h, host, list)
    requires forall p :: p in h ==> p in h' && SameKind(h[p], h'[p])
    requires forall p :: p in list && p in h && p in h' ==> h'[p].deps == h[p].deps
    ensures AllWired(h', host, list)
  {
    forall p | p in list ensures Wired(h', host, p) {
      assert Wired(h, host, p);
      hide LedTo;
      WiredSame(h, h', host, p);
    }
  }

  lemma CountWired(h: Memory, h': Memory, host: Host, list: seq<Ptr>, m: Ptr)
    requires AllWired(h, host, list) && m in h && m in h' && h' == h[m := h[m].(refcount := h'[m].refcount)]
    ensures AllWired(h', host, list)
  {
    hide AllWired;
    FrameWired(h, h', host, list);
  }

  lemma NewWired(h: Memory, h': Memory, host: Host, list: seq<Ptr>, m: Ptr, x: LxModule)
    requires AllWired(h, host, list) && m !in h && h' == h[m := x]
    ensures AllWired(h', host, list)
  {
    hide AllWired;
    FrameWired(h, h', host, list);
  }

  // A change to a module that is not listed.
  lemma LooseWired(h: Memory, h': Memory, host: Host, list: seq<Ptr>, m: Ptr)
    requires AllWired(h, host, list) && m in h && m !in list
    requires m in h' && h' == h[m := h[m].(deps := h'[m].deps, initialized := h'[m].initialized)]
    ensures AllWired(h', host, list)
  {
    hide AllWired;
    FrameWired(h, h', host, list);
  }

  lemma LinkWired(h: Memory, h': Memory, host: Host, list: seq<Ptr>, m: Ptr)
    requires AllWired(h, host, list) && Wired(h, host, m) && m !in list
    requires Relinked(h[m := h[m].(initialized := true)], h', [m] + list)
    ensures m in h && m in h' && SameKind(h[m], h'[m]) && h'[m].deps == h[m].deps
    ensures Wired(h', host, m) && AllWired(h', host, [m] + list)
  {
    LinkSame(h, h', list, m);
    hide Relinked, LedTo;
    FrameWired(h, h', host, list);
    WiredSame(h, h', host, m);
    hide Wired;
    assert forall p :: p in [m] + list <==> p == m || p in list;
  }

  lemma LinkSame(h: Memory, h': Memory, list: seq<Ptr>, m: Ptr)
    requires m in h && Relinked(h[m := h[m].(initialized := true)], h', [m] + list)
    ensures forall p :: p in h ==> p in h' && SameKind(h[p], h'[p]) && h'[p].deps == h[p].deps
  {}

  lemma FilledNone(heap: Memory, host: Host, list: seq<Ptr>, names: seq<string>, deps: seq<Ptr>)
    requires |deps| == |names|
    ensures Filled(heap, host, list, names, deps, 0)
  {}

  // Loading another import leaves the slots filled so far as they are.
  lemma FilledGrown(h: Memory, l: seq<Ptr>, g: Graph, h': Memory, l': seq<Ptr>, g': Graph, host: Host,
      names: seq<string>, deps: seq<Ptr>, n: nat)
    requires Filled(h, host, l, names, deps, n) && Grown(h, l, g, h', l', g', {})
    ensures Filled(h', host, l', names, deps, n)
  {
    forall i | 0 <= i < n ensures deps[i] in l' && LedTo(h', host, names[i], deps[i]) {
      GrownKeeps(h, l, g, h', l', g', {}, deps[i]);
      LedSame(h, h', host, names[i], deps[i]);
    }
  }

  lemma GrownKeeps(h: Memory, l: seq<Ptr>, g: Graph, h': Memory, l': seq<Ptr>, g': Graph, extra: set<Ptr>, p: Ptr)
    requires Grown(h, l, g, h', l', g', extra) && p in l
    ensures p in l' && p in h && p in h' && SameKind(h[p], h'[p])
  {
    assert l' == l'[..|l'| - |l|] + l;
  }

  lemma FilledMore(h: Memory, h': Memory, host: Host, list: seq<Ptr>, names: seq<string>, deps: seq<Ptr>, n: nat,
      m: Ptr, d: Ptr)
    requires Filled(h, host, list, names, deps, n) && n < |names| && d in list && LedTo(h, host, names[n], d)
    requires m in h && m in h' && h' == h[m := h[m].(deps := h'[m].deps)]
    ensures Filled(h', host, list, names, deps[n := d], n + 1)
  {
    forall i | 0 <= i < n + 1 ensures deps[n := d][i] in list && LedTo(h', host, names[i], deps[n := d][i]) {
      LedSame(h, h', host, names[i], deps[n := d][i]);
    }
  }

  lemma FilledWired(heap: Memory, host: Host, list: seq<Ptr>, m: Ptr)
    requires m in heap && Filled(heap, host, list, heap[m].imports, heap[m].deps, |heap[m].imports|)
    ensures Wired(heap, host, m)
  {}

  // A name that is listed leads to the module that has it.
  lemma {:induction false} LookupLed(heap: Memory, host: Host, list: seq<Ptr>, name: string)
    requires (forall m :: m in list ==> m in heap) && Lookup(heap, list, name) != NULL
    ensures LedTo(heap, host, name, Lookup(heap, list, name))
  {
    if !SameName(heap[list[0]].name, name) {
      LookupLed(heap, host, list[1..], name);
    }
  }

  lemma FileLed(heap: Memory, host: Host, name: string, image: Image, m: Ptr)
    requires m != NULL && m in heap && host.files(name) == Some(image) && MadeFrom(heap[m], image)
    ensures LedTo(heap, host, name, m)
  {}

  lemma NativeLed(heap: Memory, host: Host, name: string, m: Ptr)
    requires m != NULL && m in heap && heap[m].name == name
    ensures LedTo(heap, host, name, m)
  {}

  // The program's slots, while other modules come and go.
  lemma GrownProgram(h: Memory, l: seq<Ptr>, g: Graph, h': Memory, l': seq<Ptr>, g': Graph, host: Host, main: Ptr)
    requires Grown(h, l, g, h', l', g', {}) && Wired(h, host, main) && main in h' && h'[main] == h[main]
    requires forall d :: d in h[main].deps ==> d in l
    ensures Wired(h', host, main)
  {
    forall d | d in h[main].deps && d in h ensures d in h' && SameKind(h[d], h'[d]) {
      GrownKeeps(h, l, g, h', l', g', {}, d);
    }
    hide Grown, Wired, SameKind;
    WiredSame(h, h', host, main);
  }

  lemma SweptProgram(h: Memory, l: seq<Ptr>, h': Memory, l': seq<Ptr>, g: Graph, host: Host, m: Ptr, delta: seq<Ptr>,
      main: Ptr)
    requires Swept(h, l, h', l', g, m, delta) && Wired(h, host, main) && main in h' && h'[main] == h[main]
    requires forall d :: d in h[main].deps ==> d in l' && d in h'
    ensures Wired(h', host, main)
  {
    forall d | d in h[main].deps && d in h ensures d in h' && SameKind(h[d], h'[d]) {
      SweptSame(h, l, h', l', g, m, delta, d);
    }
    hide Swept, Wired, SameKind;
    WiredSame(h, h', host, main);
  }
}
