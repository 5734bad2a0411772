/**
  The dependency graph behind the loader's module list (lx_loader.c).

  `list` is the order of `loaded_modules`, `graph` gives each module its row of
  dependency slots, and `held` is the multiset of references that do not come
  from listed modules: the handles of callers, and the slots of modules that are
  still being built or that are never listed (the main program).
 */
module ModuleGraph {
  import opened Lists

  // Addresses of modules; 0 is the null pointer.
  type Ptr = nat
  const NULL: Ptr := 0

  type Graph = map<Ptr, seq<Ptr>>

  // ----- Lists ------------------------------------------------------------

  ghost function Elems(s: seq<Ptr>): set<Ptr> {
    set x | x in s
  }

  lemma ElemsIn(s: seq<Ptr>, x: Ptr)
    ensures x in Elems(s) <==> x in s
  {}

  // The part of `s` that lies in `live`, in the order of `s`.
  ghost function Keep(s: seq<Ptr>, live: set<Ptr>): seq<Ptr> {
    if s == [] then []
    else (if s[0] in live then [s[0]] else []) + Keep(s[1..], live)
  }

  lemma {:induction false} KeepAll(s: seq<Ptr>, live: set<Ptr>)
    requires forall x :: x in s ==> x in live
    ensures Keep(s, live) == s
  {
    if s != [] { KeepAll(s[1..], live); }
  }

  lemma {:induction false} KeepNone(s: seq<Ptr>, live: set<Ptr>)
    requires forall x :: x in s ==> x !in live
    ensures Keep(s, live) == []
  {
    if s != [] { KeepNone(s[1..], live); }
  }

  lemma {:induction false} KeepRemove(s: seq<Ptr>, k: nat, live: set<Ptr>)
    requires Distinct(s) && k < |s|
    requires forall x :: x in s ==> (x in live <==> x != s[k])
    ensures Keep(s, live) == s[..k] + s[k + 1..]
  {
    if k == 0 {
      KeepAll(s[1..], live);
    } else {
      KeepRemove(s[1..], k - 1, live);
      assert s[..k] + s[k + 1..] == [s[0]] + (s[1..][..k - 1] + s[1..][k..]);
    }
  }

  lemma RemoveElems(s: seq<Ptr>, k: nat)
    requires Distinct(s) && k < |s|
    ensures Elems(s[..k] + s[k + 1..]) == Elems(s) - {s[k]}
  {
    var rest := s[..k] + s[k + 1..];
    forall x | x in s && x != s[k] ensures x in rest {
      var i :| 0 <= i < |s| && s[i] == x;
      assert rest[if i < k then i else i - 1] == x;
    }
  }

  lemma Regroup(a: seq<Ptr>, b: seq<Ptr>, c: seq<Ptr>)
    ensures a + (b + c) == (a + b) + c
  {}

  lemma KeepFirst(s: seq<Ptr>, t: seq<Ptr>, live: set<Ptr>)
    requires s != []
    ensures Keep(s, live) == (if s[0] in live then [s[0]] else []) + Keep(s[1..], live)
    ensures Keep(s + t, live) == (if s[0] in live then [s[0]] else []) + Keep(s[1..] + t, live)
  {
    assert (s + t)[1..] == s[1..] + t;
  }

  lemma {:induction false} KeepAppend(s: seq<Ptr>, t: seq<Ptr>, live: set<Ptr>)
    ensures Keep(s + t, live) == Keep(s, live) + Keep(t, live)
  {
    if s == [] {
      assert s + t == t;
    } else {
      KeepFirst(s, t, live);
      hide Keep;
      KeepAppend(s[1..], t, live);
      Regroup(if s[0] in live then [s[0]] else [], Keep(s[1..], live), Keep(t, live));
    }
  }

  lemma {:induction false} KeepKeep(s: seq<Ptr>, a: set<Ptr>, b: set<Ptr>)
    requires b <= a
    ensures Keep(Keep(s, a), b) == Keep(s, b)
  {
    if s != [] {
      KeepKeep(s[1..], a, b);
      var h := if s[0] in a then [s[0]] else [];
      KeepAppend(h, Keep(s[1..], a), b);
      assert Keep(h, b) == if s[0] in b then [s[0]] else [];
    }
  }

  // ----- Edges ------------------------------------------------------------

  lemma MoveFirst(a: multiset<Ptr>, b: multiset<Ptr>, c: multiset<Ptr>)
    ensures a + (b + c) == b + (a + c)
  {}

  lemma MoveLast(a: multiset<Ptr>, b: multiset<Ptr>, c: multiset<Ptr>)
    ensures a + b + c == a + c + b
  {}

  // The modules a row of dependency slots refers to, with multiplicity.
  ghost function Targets(slots: seq<Ptr>): multiset<Ptr> {
    if slots == [] then multiset{}
    else
      var d := slots[|slots| - 1];
      Targets(slots[..|slots| - 1]) + if d == NULL then multiset{} else multiset{d}
  }

  lemma TargetsLast(slots: seq<Ptr>, i: nat)
    requires 0 < i <= |slots|
    ensures Targets(slots[..i])
         == Targets(slots[..i - 1]) + if slots[i - 1] == NULL then multiset{} else multiset{slots[i - 1]}
  {
    assert slots[..i][..i - 1] == slots[..i - 1];
  }

  lemma {:induction false} TargetsElem(slots: seq<Ptr>, d: Ptr)
    ensures d in Targets(slots) <==> d in slots && d != NULL
  {
    if slots != [] {
      var n := |slots| - 1;
      TargetsElem(slots[..n], d);
      assert slots == slots[..n] + [slots[n]];
    }
  }

  lemma {:induction false} TargetsNulls(slots: seq<Ptr>)
    requires forall i :: 0 <= i < |slots| ==> slots[i] == NULL
    ensures Targets(slots) == multiset{}
  {
    if slots != [] { TargetsNulls(slots[..|slots| - 1]); }
  }

  // Filling an empty slot adds exactly that reference.
  lemma {:induction false} TargetsFill(slots: seq<Ptr>, i: nat, d: Ptr)
    requires i < |slots| && slots[i] == NULL && d != NULL
    ensures Targets(slots[i := d]) == Targets(slots) + multiset{d}
  {
    hide *;
    var n := |slots| - 1;
    FillSlices(slots, i, d);
    TargetsLast(slots, n + 1);
    TargetsLast(slots[i := d], n + 1);
    if i < n {
      TargetsFill(slots[..n], i, d);
      MoveLast(Targets(slots[..n]), multiset{d}, if slots[n] == NULL then multiset{} else multiset{slots[n]});
    }
  }

  lemma FillSlices(slots: seq<Ptr>, i: nat, d: Ptr)
    requires i < |slots|
    ensures var n, filled := |slots| - 1, slots[i := d];
      slots[..n + 1] == slots && filled[..n + 1] == filled &&
      if i == n then filled[..n] == slots[..n] && filled[n] == d
      else filled[..n] == slots[..n][i := d] && filled[n] == slots[n]
  {}

  // All dependency edges that leave the modules of `list`.
  ghost function Edges(list: seq<Ptr>, graph: Graph): multiset<Ptr> {
    if list == [] then multiset{}
    else Targets(if list[0] in graph then graph[list[0]] else []) + Edges(list[1..], graph)
  }

  lemma {:induction false} EdgesFrame(list: seq<Ptr>, g: Graph, g': Graph)
    requires forall m :: m in list ==> m in g && m in g' && g[m] == g'[m]
    ensures Edges(list, g) == Edges(list, g')
  {
    if list != [] { EdgesFrame(list[1..], g, g'); }
  }

  lemma EdgesTail(list: seq<Ptr>, g: Graph, k: nat)
    requires (forall m :: m in list ==> m in g) && k < |list|
    ensures Edges(list, g) == Targets(g[list[0]]) + Edges(list[1..], g)
    ensures k == 0 ==> list[..k] + list[k + 1..] == list[1..]
    ensures k > 0 ==>
      Edges(list[..k] + list[k + 1..], g) == Targets(g[list[0]]) + Edges(list[1..][..k - 1] + list[1..][k..], g)
    ensures forall m :: m in list[1..] ==> m in g
  {
    hide Targets;
    var rest := list[..k] + list[k + 1..];
    if k > 0 {
      assert rest[1..] == list[1..][..k - 1] + list[1..][k..];
    }
  }

  lemma {:induction false} EdgesRemove(list: seq<Ptr>, g: Graph, k: nat)
    requires forall m :: m in list ==> m in g
    requires k < |list|
    ensures Edges(list, g) == Targets(g[list[k]]) + Edges(list[..k] + list[k + 1..], g)
  {
    hide *;
    EdgesTail(list, g, k);
    if k > 0 {
      EdgesRemove(list[1..], g, k - 1);
      MoveFirst(Targets(g[list[0]]), Targets(g[list[k]]), Edges(list[1..][..k - 1] + list[1..][k..], g));
    }
  }

  // An edge into `x` leaves some listed module.
  lemma {:induction false} EdgeSource(list: seq<Ptr>, g: Graph, x: Ptr) returns (j: nat)
    requires forall m :: m in list ==> m in g
    requires x in Edges(list, g)
    ensures j < |list| && x in g[list[j]] && x != NULL
  {
    TargetsElem(g[list[0]], x);
    if x in Targets(g[list[0]]) {
      j := 0;
    } else {
      j := EdgeSource(list[1..], g, x);
      j := j + 1;
    }
  }

  lemma {:induction false} SourceEdge(list: seq<Ptr>, g: Graph, j: nat, x: Ptr)
    requires forall m :: m in list ==> m in g
    requires j < |list| && x in g[list[j]] && x != NULL
    ensures x in Edges(list, g)
  {
    if j == 0 {
      TargetsElem(g[list[0]], x);
    } else {
      SourceEdge(list[1..], g, j - 1, x);
    }
  }

  // ----- What a consistent list looks like -----------------------------------

  // Every dependency of a listed module is listed strictly after it.
  ghost predicate Ordered(list: seq<Ptr>, graph: Graph) {
    && Distinct(list) && NULL !in list
    && (forall m :: m in list ==> m in graph)
    && forall i, d :: 0 <= i < |list| && d in graph[list[i]] && d != NULL ==> d in list[i + 1..]
  }

  ghost function Refs(list: seq<Ptr>, graph: Graph, held: multiset<Ptr>): multiset<Ptr> {
    Edges(list, graph) + held
  }

  // Ordered, nothing unreferenced is listed, and outside references are to listed modules.
  ghost predicate Sound(list: seq<Ptr>, graph: Graph, held: multiset<Ptr>) {
    && Ordered(list, graph)
    && (forall x :: x in list ==> x in Refs(list, graph, held))
    && forall x :: x in held ==> x in list
  }

  // Sound, except that `m` may be listed without being referred to.
  ghost predicate SoundBut(list: seq<Ptr>, graph: Graph, held: multiset<Ptr>, m: Ptr) {
    && Ordered(list, graph)
    && (forall x :: x in list && x != m ==> x in Refs(list, graph, held))
    && forall x :: x in held ==> x in list
  }

  lemma DropSound(list: seq<Ptr>, graph: Graph, held: multiset<Ptr>, m: Ptr)
    requires Sound(list, graph, held) && m in held
    ensures SoundBut(list, graph, held - multiset{m}, m)
    ensures Refs(list, graph, held - multiset{m}) == Refs(list, graph, held) - multiset{m}
    ensures m in Refs(list, graph, held - multiset{m}) ==> Sound(list, graph, held - multiset{m})
  {
    var r, r' := Refs(list, graph, held), Refs(list, graph, held - multiset{m});
    forall x | x in list && x != m ensures x in r' {
      assert r[x] == r'[x];
    }
  }

  lemma SoundIsSoundBut(list: seq<Ptr>, graph: Graph, held: multiset<Ptr>, m: Ptr)
    ensures Sound(list, graph, held) ==> SoundBut(list, graph, held, m)
  {}

  lemma SoundButDistinct(list: seq<Ptr>, graph: Graph, held: multiset<Ptr>, m: Ptr)
    requires SoundBut(list, graph, held, m)
    ensures Distinct(list) && NULL !in list
  {}

  lemma SoundOrdered(list: seq<Ptr>, graph: Graph, held: multiset<Ptr>)
    requires Sound(list, graph, held)
    ensures Ordered(list, graph) && NULL !in list
  {}

  lemma RefsAreListed(list: seq<Ptr>, graph: Graph, held: multiset<Ptr>, x: Ptr)
    requires Sound(list, graph, held)
    requires x in Refs(list, graph, held)
    ensures x in list
  {
    if x in Edges(list, graph) {
      var j := EdgeSource(list, graph, x);
      assert x in list[j + 1..];
    }
  }

  // A listed module can only be referred to by a module in front of it.
  lemma {:induction false} Grounded(list: seq<Ptr>, graph: Graph, held: multiset<Ptr>, i: nat, live: set<Ptr>)
    requires Sound(list, graph, held) && i < |list|
    requires forall x :: x in held ==> x in live
    requires forall m, d :: m in live && m in graph && d in graph[m] && d != NULL ==> d in live
    ensures list[i] in live
    decreases i
  {
    var x := list[i];
    if x !in held {
      assert x in Refs(list, graph, held);
      var j := EdgeSource(list, graph, x);
      assert x in list[j + 1..];
      Grounded(list, graph, held, j, live);
    }
  }

  // Two consistent lists with the same outside references hold the same modules.
  lemma Determined(a: seq<Ptr>, b: seq<Ptr>, graph: Graph, held: multiset<Ptr>)
    requires Sound(a, graph, held) && Sound(b, graph, held)
    ensures Elems(a) == Elems(b)
  {
    Inside(a, b, graph, held);
    Inside(b, a, graph, held);
  }

  lemma Inside(a: seq<Ptr>, b: seq<Ptr>, graph: Graph, held: multiset<Ptr>)
    requires Sound(a, graph, held) && Sound(b, graph, held)
    ensures forall x :: x in a ==> x in b
  {
    forall m, d | m in Elems(b) && m in graph && d in graph[m] && d != NULL ensures d in Elems(b) {
      var i :| 0 <= i < |b| && b[i] == m;
      assert d in b[i + 1..];
    }
    forall x | x in a ensures x in b {
      var i :| 0 <= i < |a| && a[i] == x;
      Grounded(a, graph, held, i, Elems(b));
    }
  }


  // ----- Unlinking and linking ------------------------------------------------

  lemma RemoveRefs(list: seq<Ptr>, graph: Graph, held: multiset<Ptr>, k: nat)
    requires Ordered(list, graph) && k < |list|
    ensures Refs(list[..k] + list[k + 1..], graph, held + Targets(graph[list[k]])) == Refs(list, graph, held)
  {
    EdgesRemove(list, graph, k);
  }

  // Taking out a module nobody refers to, and taking over its references.
  lemma RemoveSound(list: seq<Ptr>, rest: seq<Ptr>, graph: Graph, held: multiset<Ptr>, k: nat)
    requires k < |list| && rest == list[..k] + list[k + 1..]
    requires SoundBut(list, graph, held, list[k])
    requires list[k] !in Refs(list, graph, held)
    ensures Sound(rest, graph, held + Targets(graph[list[k]]))
  {
    var m := list[k];
    var held' := held + Targets(graph[m]);
    RemoveRefs(list, graph, held, k);
    RemoveOrdered(list, graph, k);
    RemoveElems(list, k);
    assert forall x :: x in rest ==> x in Elems(list) && x != m;
    forall x | x in held' ensures x in Elems(rest) {
      if x in held {
        assert x in Elems(list);
      } else {
        TargetsElem(graph[m], x);
        assert x in list[k + 1..];
      }
    }
  }

  lemma RemoveOrdered(list: seq<Ptr>, graph: Graph, k: nat)
    requires Ordered(list, graph) && k < |list|
    requires list[k] !in Edges(list, graph)
    ensures Ordered(list[..k] + list[k + 1..], graph)
  {
    var rest := list[..k] + list[k + 1..];
    hide Edges;
    RemoveDistinct(list, k);
    forall i, d | 0 <= i < |rest| && d in graph[rest[i]] && d != NULL ensures d in rest[i + 1..] {
      hide Ordered;
      RemoveBehind(list, graph, k, i, d);
    }
  }

  lemma RemoveDistinct(list: seq<Ptr>, k: nat)
    requires Distinct(list) && k < |list|
    ensures Distinct(list[..k] + list[k + 1..])
    ensures forall x :: x in list[..k] + list[k + 1..] ==> x in list
  {}

  lemma RemoveBehind(list: seq<Ptr>, graph: Graph, k: nat, i: nat, d: Ptr)
    requires Ordered(list, graph) && k < |list| && i < |list| - 1
    requires list[k] !in Edges(list, graph)
    requires var x := list[if i < k then i else i + 1]; x in graph && d in graph[x] && d != NULL
    ensures d in (list[..k] + list[k + 1..])[i + 1..]
  {
    hide Edges;
    var at := if i < k then i else i + 1;
    SourceEdge(list, graph, at, d);
    assert d in list[at + 1..];
    var j :| at + 1 <= j < |list| && list[j] == d;
    hide Ordered;
    var rest := list[..k] + list[k + 1..];
    var j' := if j < k then j else j - 1;
    assert rest[j'] == d;
    assert rest[i + 1..][j' - i - 1] == d;
  }

  lemma PrependRefs(list: seq<Ptr>, graph: Graph, held: multiset<Ptr>, m: Ptr, slots: seq<Ptr>)
    requires Ordered(list, graph) && m !in list && Targets(slots) <= held
    ensures Refs([m] + list, graph[m := slots], held - Targets(slots) + multiset{m})
         == Refs(list, graph, held) + multiset{m}
  {
    assert ([m] + list)[1..] == list;
    EdgesFrame(list, graph, graph[m := slots]);
  }

  // Prepending a new module moves its references from `held` to the list.
  lemma PrependSound(list: seq<Ptr>, graph: Graph, held: multiset<Ptr>, m: Ptr, slots: seq<Ptr>)
    requires Sound(list, graph, held)
    requires m !in list && m != NULL && Targets(slots) <= held
    ensures Sound([m] + list, graph[m := slots], held - Targets(slots) + multiset{m})
  {
    PrependRefs(list, graph, held, m, slots);
    PrependHeld(list, graph, held, m, slots);
    assert Ordered(list, graph);
    assert forall x :: x in list ==> x in Refs(list, graph, held);
    hide *;
    PrependOrdered(list, graph, m, slots);
    var held' := held - Targets(slots) + multiset{m};
    SoundMade([m] + list, graph[m := slots], held', Refs(list, graph, held) + multiset{m});
  }

  lemma PrependHeld(list: seq<Ptr>, graph: Graph, held: multiset<Ptr>, m: Ptr, slots: seq<Ptr>)
    requires Targets(slots) <= held && forall x :: x in held ==> x in list
    ensures forall d :: d in slots && d != NULL ==> d in list
    ensures forall x :: x in held - Targets(slots) + multiset{m} ==> x in [m] + list
    ensures forall x, refs: multiset<Ptr> :: x in [m] + list && (x in list ==> x in refs) ==> x in refs + multiset{m}
  {
    forall d | d in slots && d != NULL ensures d in list {
      TargetsElem(slots, d);
      assert d in held;
    }
  }

  lemma SoundMade(list: seq<Ptr>, graph: Graph, held: multiset<Ptr>, refs: multiset<Ptr>)
    requires Ordered(list, graph) && Refs(list, graph, held) == refs
    requires (forall x :: x in list ==> x in refs) && forall x :: x in held ==> x in list
    ensures Sound(list, graph, held)
  {}

  lemma PrependOrdered(list: seq<Ptr>, graph: Graph, m: Ptr, slots: seq<Ptr>)
    requires Ordered(list, graph)
    requires m !in list && m != NULL && forall d :: d in slots && d != NULL ==> d in list
    ensures Ordered([m] + list, graph[m := slots])
  {
    var graph' := graph[m := slots];
    var list' := [m] + list;
    forall i, d | 0 <= i < |list'| && d in graph'[list'[i]] && d != NULL ensures d in list'[i + 1..] {
      if i == 0 {
        assert list'[1..] == list;
      } else {
        assert list'[i + 1..] == list[i..];
        assert d in list[i - 1 + 1..];
      }
    }
  }

  // ----- Undoing a load ------------------------------------------------------------

  ghost predicate AgreeOn(list: seq<Ptr>, g: Graph, g': Graph) {
    forall m :: m in list && m in g ==> m in g' && g'[m] == g[m]
  }

  lemma SoundFrame(list: seq<Ptr>, g: Graph, g': Graph, held: multiset<Ptr>)
    requires Sound(list, g, held) && AgreeOn(list, g, g')
    ensures Sound(list, g', held)
    ensures Refs(list, g', held) == Refs(list, g, held)
  {
    EdgesFrame(list, g, g');
  }

  // Once the references taken since are given back, only the old list is left.
  lemma RolledBack(news: seq<Ptr>, older: seq<Ptr>, list: seq<Ptr>, graph: Graph, held: multiset<Ptr>)
    requires Sound(older, graph, held) && Sound(list, graph, held)
    requires forall m :: m in news ==> m !in older
    requires list == Keep(news + older, Elems(list))
    ensures list == older
  {
    Determined(list, older, graph, held);
    KeepAppend(news, older, Elems(list));
    KeepNone(news, Elems(list));
    KeepAll(older, Elems(list));
  }

  // One more handle on a module that is already listed.
  lemma HoldSound(list: seq<Ptr>, graph: Graph, held: multiset<Ptr>, m: Ptr)
    requires Sound(list, graph, held) && m in list
    ensures Sound(list, graph, held + multiset{m})
    ensures Refs(list, graph, held + multiset{m}) == Refs(list, graph, held) + multiset{m}
  {
    assert Refs(list, graph, held + multiset{m}) == Refs(list, graph, held) + multiset{m};
  }

  // ----- Tearing down ----------------------------------------------------------------

  // `delta` lists the modules that left the list between `before` and `after`:
  // each once, and each in front of all of its own dependencies.
  ghost predicate Teardown(before: seq<Ptr>, after: seq<Ptr>, graph: Graph, delta: seq<Ptr>) {
    && Distinct(delta) && NULL !in delta
    && Elems(delta) == Elems(before) - Elems(after)
    && (forall x :: x in delta ==> x in graph)
    && forall i, j :: 0 <= i < j < |delta| ==> delta[i] !in graph[delta[j]]
  }

  // `after` is `before` with the modules of `delta` torn down, in that order.
  ghost predicate Shrunk(before: seq<Ptr>, after: seq<Ptr>, graph: Graph, delta: seq<Ptr>) {
    && Elems(after) <= Elems(before) && |after| <= |before|
    && after == Keep(before, Elems(after))
    && Teardown(before, after, graph, delta)
  }

  lemma ShrunkFacts(before: seq<Ptr>, after: seq<Ptr>, graph: Graph, delta: seq<Ptr>)
    requires Shrunk(before, after, graph, delta)
    ensures Elems(after) <= Elems(before) && |after| <= |before|
    ensures forall x :: x !in before ==> x !in after
  {
    forall x | x in after ensures x in before { assert x in Elems(after); }
  }

  lemma ShrunkNone(list: seq<Ptr>, graph: Graph)
    ensures Shrunk(list, list, graph, [])
  {
    KeepAll(list, Elems(list));
  }

  lemma ShrunkOne(list: seq<Ptr>, graph: Graph, k: nat)
    requires Distinct(list) && k < |list| && list[k] in graph && list[k] != NULL
    ensures Shrunk(list, list[..k] + list[k + 1..], graph, [list[k]])
  {
    var rest := list[..k] + list[k + 1..];
    RemoveElems(list, k);
    KeepRemove(list, k, Elems(rest));
  }

  lemma ShrunkThen(a: seq<Ptr>, b: seq<Ptr>, c: seq<Ptr>, graph: Graph, d: seq<Ptr>, e: seq<Ptr>)
    requires Ordered(b, graph)
    requires Shrunk(a, b, graph, d) && Shrunk(b, c, graph, e)
    ensures Shrunk(a, c, graph, d + e)
  {
    KeepKeep(a, Elems(b), Elems(c));
    TeardownThen(a, b, c, graph, d, e);
  }

  lemma TeardownThen(a: seq<Ptr>, b: seq<Ptr>, c: seq<Ptr>, graph: Graph, d: seq<Ptr>, e: seq<Ptr>)
    requires Ordered(b, graph)
    requires Elems(c) <= Elems(b) <= Elems(a)
    requires Teardown(a, b, graph, d) && Teardown(b, c, graph, e)
    ensures Teardown(a, c, graph, d + e)
  {
    var t := d + e;
    forall i, j | 0 <= i < j < |t| ensures t[i] != t[j] && t[i] !in graph[t[j]] {
      if i < |d| <= j {
        assert t[i] in Elems(d) && t[j] in Elems(e);
        Closed(b, graph, t[j], t[i]);
      }
    }
    assert Elems(t) == Elems(d) + Elems(e);
  }

  lemma Closed(list: seq<Ptr>, graph: Graph, m: Ptr, d: Ptr)
    requires Ordered(list, graph) && m in list && d != NULL
    ensures d in graph[m] ==> d in list
  {
    var i :| 0 <= i < |list| && list[i] == m;
    if d in graph[list[i]] {
      assert d in list[i + 1..];
    }
  }

  // Everything there is to say about taking out a module nobody refers to.
  lemma Removed(list: seq<Ptr>, rest: seq<Ptr>, graph: Graph, held: multiset<Ptr>, k: nat)
    requires k < |list| && rest == list[..k] + list[k + 1..]
    requires SoundBut(list, graph, held, list[k]) && list[k] !in Refs(list, graph, held)
    ensures Sound(rest, graph, held + Targets(graph[list[k]]))
    ensures Refs(rest, graph, held + Targets(graph[list[k]])) == Refs(list, graph, held)
    ensures Elems(rest) == Elems(list) - {list[k]}
    ensures Shrunk(list, rest, graph, [list[k]])
  {
    RemoveSound(list, rest, graph, held, k);
    RemoveRefs(list, graph, held, k);
    RemoveElems(list, k);
    ShrunkOne(list, graph, k);
  }

  // ----- Forcing the head of the list out ---------------------------------------------

  lemma SourceBefore(list: seq<Ptr>, graph: Graph, x: Ptr) returns (j: nat, k: nat)
    requires Ordered(list, graph) && x in Edges(list, graph)
    ensures j < k < |list| && list[k] == x && x in graph[list[j]] && x != NULL
  {
    j := EdgeSource(list, graph, x);
    assert x in list[j + 1..];
    k :| j + 1 <= k < |list| && list[k] == x;
  }

  // Nothing listed refers to the head, so only outside references keep it.
  lemma HeadHeld(list: seq<Ptr>, graph: Graph, held: multiset<Ptr>)
    requires Ordered(list, graph) && list != []
    ensures list[0] !in Edges(list, graph)
    ensures Sound(list, graph, held) ==> list[0] in held
  {
    if list[0] in Edges(list, graph) {
      var j, k := SourceBefore(list, graph, list[0]);
      assert false;
    }
    assert Refs(list, graph, held)[list[0]] == held[list[0]];
  }

  lemma ForceSound(list: seq<Ptr>, graph: Graph, held: multiset<Ptr>)
    requires Sound(list, graph, held) && list != []
    ensures Sound(list, graph, held[list[0] := 1])
    ensures Refs(list, graph, held[list[0] := 1]) == Refs(list, graph, held)[list[0] := 1]
  {
    HeadHeld(list, graph, held);
    var held' := held[list[0] := 1];
    forall x | x in held' ensures x in list {
      assert x == list[0] || x in held;
    }
    forall x | x in list ensures x in Refs(list, graph, held') {
      assert x == list[0] || held'[x] == held[x];
      assert x in Refs(list, graph, held);
    }
  }

  lemma EdgesWithin(list: seq<Ptr>, list': seq<Ptr>, graph: Graph, x: Ptr)
    requires (forall m :: m in list ==> m in graph) && (forall m :: m in list' ==> m in list)
    ensures x in Edges(list', graph) ==> x in Edges(list, graph)
  {
    if x in Edges(list', graph) {
      var j := EdgeSource(list', graph, x);
      assert list'[j] in list;
      var i :| 0 <= i < |list| && list[i] == list'[j];
      SourceEdge(list, graph, i, x);
    }
  }

  // Without outside references the old head cannot still be listed.
  lemma HeadGone(list: seq<Ptr>, list': seq<Ptr>, graph: Graph, held: multiset<Ptr>, delta: seq<Ptr>)
    requires Ordered(list, graph) && list != [] && list[0] !in held
    requires Sound(list', graph, held) && Shrunk(list, list', graph, delta)
    ensures |list'| < |list|
  {
    HeadHeld(list, graph, held);
    ShrunkFacts(list, list', graph, delta);
    EdgesWithin(list, list', graph, list[0]);
    assert list[0] !in Refs(list', graph, held);
    KeepShorter(list[1..], Elems(list'));
  }

  lemma {:induction false} KeepShorter(s: seq<Ptr>, live: set<Ptr>)
    ensures |Keep(s, live)| <= |s|
  {
    if s != [] { KeepShorter(s[1..], live); }
  }

  // ----- Listed means reachable ---------------------------------------------------------

  ghost predicate Imports(graph: Graph, m: Ptr, d: Ptr) {
    m in graph && d != NULL && d in graph[m]
  }

  // A chain of imports.
  ghost predicate Path(graph: Graph, p: seq<Ptr>) {
    && p != []
    && (|p| > 1 ==> Path(graph, p[..|p| - 1]) && Imports(graph, p[|p| - 2], p[|p| - 1]))
  }

  lemma PathExtend(graph: Graph, held: multiset<Ptr>, m: Ptr, d: Ptr)
    requires Reachable(graph, held, m) && Imports(graph, m, d)
    ensures Reachable(graph, held, d)
  {
    var p :| Path(graph, p) && p[0] in held && p[|p| - 1] == m;
    var q := p + [d];
    assert q[..|q| - 1] == p;
    assert Path(graph, q) && q[0] in held && q[|q| - 1] == d;
  }

  ghost predicate Reachable(graph: Graph, held: multiset<Ptr>, x: Ptr) {
    exists p :: Path(graph, p) && p[0] in held && p[|p| - 1] == x
  }

  // Reference counting keeps exactly what tracing from the outside references would keep.
  lemma ListedIffReachable(list: seq<Ptr>, graph: Graph, held: multiset<Ptr>, x: Ptr)
    requires Sound(list, graph, held)
    ensures x in list <==> Reachable(graph, held, x)
  {
    if x in list {
      var i :| 0 <= i < |list| && list[i] == x;
      ListedReachable(list, graph, held, i);
    }
    if Reachable(graph, held, x) {
      var p :| Path(graph, p) && p[0] in held && p[|p| - 1] == x;
      PathListed(list, graph, held, p);
    }
  }

  lemma {:induction false} ListedReachable(list: seq<Ptr>, graph: Graph, held: multiset<Ptr>, i: nat)
    requires Sound(list, graph, held) && i < |list|
    ensures Reachable(graph, held, list[i])
    decreases i
  {
    var x := list[i];
    if x in held {
      assert Path(graph, [x]) && [x][0] in held && [x][|[x]| - 1] == x;
    } else {
      assert x in Refs(list, graph, held);
      var j, k := SourceBefore(list, graph, x);
      ListedReachable(list, graph, held, j);
      PathExtend(graph, held, list[j], x);
    }
  }

  lemma {:induction false} PathListed(list: seq<Ptr>, graph: Graph, held: multiset<Ptr>, p: seq<Ptr>)
    requires Sound(list, graph, held) && Path(graph, p) && p[0] in held
    ensures p[|p| - 1] in list
    decreases |p|
  {
    var n := |p| - 1;
    if n > 0 {
      PathListed(list, graph, held, p[..n]);
      Closed(list, graph, p[n - 1], p[n]);
    }
  }
}
