/**
  The message queue of native/pmwin.c: a linked list with a tail pointer, whose nodes
  are recycled through a free pool.  A node is named by its number, 0 is NULL.
 */
module MessageQueue {
  import opened MessageList
  import opened Lists

  type Ptr = nat

  datatype Node = Node(msg: Msg, next: Ptr)

  // ----- Nodes ---------------------------------------------------------------------------

  type Memory = seq<Node>

  predicate InMem(mem: Memory, p: Ptr) {
    0 < p <= |mem|
  }

  function Next(mem: Memory, p: Ptr): Ptr {
    if InMem(mem, p) then mem[p - 1].next else 0
  }

  function SetNext(mem: Memory, p: Ptr, v: Ptr): Memory {
    if InMem(mem, p) then mem[p - 1 := mem[p - 1].(next := v)] else mem
  }

  // From `start`, the links spell `ps`.
  ghost predicate Chain(mem: Memory, start: Ptr, ps: seq<Ptr>) {
    start == At(ps, 0) && forall i :: 0 <= i < |ps| ==> InMem(mem, ps[i]) && Next(mem, ps[i]) == At(ps, i + 1)
  }

  // Every node is on one of the two lists.
  ghost predicate Everything(mem: Memory, ps: seq<Ptr>) {
    forall p :: InMem(mem, p) ==> p in ps
  }

  function MsgAt(mem: Memory, p: Ptr): Msg {
    if InMem(mem, p) then mem[p - 1].msg else Msg(0, 0, 0)
  }

  ghost function Contents(mem: Memory, ps: seq<Ptr>): seq<Msg> {
    seq(|ps|, i requires 0 <= i < |ps| => MsgAt(mem, ps[i]))
  }

  // The queue in working order: every node is on exactly one list, and `tail` is the last
  // node of the queue.
  ghost predicate Sound(mem: Memory, head: Ptr, tail: Ptr, pool: Ptr, items: seq<Ptr>, free: seq<Ptr>) {
    && Chain(mem, head, items) && Chain(mem, pool, free)
    && Distinct(items + free) && Everything(mem, items + free)
    && tail == At(items, |items| - 1)
  }

  // The queue with `tail` cut off from it: both lists are in order, `tail` is a node that is
  // not in the queue, and nodes may be on neither list.
  ghost predicate Cut(mem: Memory, head: Ptr, tail: Ptr, pool: Ptr, items: seq<Ptr>, free: seq<Ptr>) {
    && items != [] && Chain(mem, head, items) && Chain(mem, pool, free)
    && Distinct(items + free) && InMem(mem, tail) && tail !in items
  }

  // ----- Posting --------------------------------------------------------------------------

  // `item` filled in and hung behind `tail`, if there is one.
  function Hung(mem: Memory, tail: Ptr, item: Ptr, m: Msg): Memory {
    var mem1 := if InMem(mem, item) then mem[item - 1 := Node(m, 0)] else mem;
    if tail != 0 then SetNext(mem1, tail, item) else mem1
  }

  lemma HungAt(mem: Memory, tail: Ptr, item: Ptr, m: Msg, p: Ptr)
    requires InMem(mem, item)
    ensures |Hung(mem, tail, item, m)| == |mem|
    ensures Next(Hung(mem, tail, item, m), p) ==
      if p == tail && InMem(mem, tail) then item else if p == item then 0 else Next(mem, p)
    ensures MsgAt(Hung(mem, tail, item, m), p) == if p == item then m else MsgAt(mem, p)
  {}

  lemma HungChain(mem: Memory, head: Ptr, items: seq<Ptr>, item: Ptr, m: Msg)
    requires Chain(mem, head, items) && Distinct(items) && item !in items && InMem(mem, item)
    ensures Chain(Hung(mem, At(items, |items| - 1), item, m), if items == [] then item else head, items + [item])
    ensures Contents(Hung(mem, At(items, |items| - 1), item, m), items + [item]) == Contents(mem, items) + [m]
  {
    var mem' := Hung(mem, At(items, |items| - 1), item, m);
    var ps := items + [item];
    assert items != [] ==> InMem(mem, At(items, |items| - 1));
    forall i | 0 <= i < |ps|
      ensures InMem(mem', ps[i]) && Next(mem', ps[i]) == At(ps, i + 1)
      ensures MsgAt(mem', ps[i]) == if i < |items| then MsgAt(mem, items[i]) else m
    {
      HungAt(mem, At(items, |items| - 1), item, m, ps[i]);
      if i < |items| {
        assert items[i] in items;
      }
    }
    hide Hung, Next, MsgAt;
  }

  lemma HungOther(mem: Memory, start: Ptr, ps: seq<Ptr>, tail: Ptr, item: Ptr, m: Msg)
    requires Chain(mem, start, ps) && item !in ps && tail !in ps && InMem(mem, item)
    ensures Chain(Hung(mem, tail, item, m), start, ps)
    ensures Contents(Hung(mem, tail, item, m), ps) == Contents(mem, ps)
  {
    forall i | 0 <= i < |ps|
      ensures InMem(Hung(mem, tail, item, m), ps[i]) && Next(Hung(mem, tail, item, m), ps[i]) == At(ps, i + 1)
      ensures MsgAt(Hung(mem, tail, item, m), ps[i]) == MsgAt(mem, ps[i])
    {
      HungAt(mem, tail, item, m, ps[i]);
      assert ps[i] in ps;
    }
    hide Hung, Next, MsgAt;
  }

  lemma GrownChain(mem: Memory, start: Ptr, ps: seq<Ptr>, n: Node)
    requires Chain(mem, start, ps)
    ensures Chain(mem + [n], start, ps) && Contents(mem + [n], ps) == Contents(mem, ps)
  {}

  // ----- Taking out ------------------------------------------------------------------------

  // `i` taken out of the list, after `prev` if there is one, and put in front of the pool.
  function Taken(mem: Memory, prev: Ptr, i: Ptr, pool: Ptr): Memory {
    SetNext(if prev != 0 then SetNext(mem, prev, Next(mem, i)) else mem, i, pool)
  }

  lemma TakenAt(mem: Memory, prev: Ptr, i: Ptr, pool: Ptr, p: Ptr)
    requires InMem(mem, i) && prev != i
    ensures |Taken(mem, prev, i, pool)| == |mem| && MsgAt(Taken(mem, prev, i, pool), p) == MsgAt(mem, p)
    ensures Next(Taken(mem, prev, i, pool), p) ==
      if p == i then pool else if p == prev && InMem(mem, prev) then Next(mem, i) else Next(mem, p)
  {}

  lemma LessAt(ps: seq<Ptr>, k: nat, j: nat)
    requires k < |ps| && j < |ps| - 1
    ensures var i := if j < k then j else j + 1;
      |Less(ps, k)| == |ps| - 1 && Less(ps, k)[j] == ps[i] &&
      At(Less(ps, k), j + 1) == At(ps, if i == k - 1 then k + 1 else i + 1)
  {}

  lemma DistinctAt(ps: seq<Ptr>, k: nat, i: nat)
    requires Distinct(ps) && k < |ps| && i < |ps| && i != k && ps[i] != 0
    ensures ps[i] != ps[k] && (ps[i] == At(ps, k - 1) <==> i == k - 1)
  {}

  lemma ChainAt(mem: Memory, start: Ptr, ps: seq<Ptr>, i: nat)
    requires Chain(mem, start, ps) && i < |ps|
    ensures InMem(mem, ps[i]) && Next(mem, ps[i]) == At(ps, i + 1) && start == ps[0] == At(ps, 0)
    ensures ps[i] == At(ps, i) != 0
  {}

  lemma TakenOne(mem: Memory, head: Ptr, items: seq<Ptr>, k: nat, pool: Ptr, j: nat)
    requires Chain(mem, head, items) && Distinct(items) && k < |items| && j < |items| - 1
    ensures var mem' := Taken(mem, At(items, k - 1), items[k], pool);
      |Less(items, k)| == |items| - 1 && InMem(mem', Less(items, k)[j]) &&
      Next(mem', Less(items, k)[j]) == At(Less(items, k), j + 1) &&
      MsgAt(mem', Less(items, k)[j]) == MsgAt(mem, Less(items, k)[j])
  {
    var i := if j < k then j else j + 1;
    LessAt(items, k, j);
    ChainAt(mem, head, items, k);
    ChainAt(mem, head, items, i);
    DistinctAt(items, k, i);
    PrevDiffers(items, k);
    TakenAt(mem, At(items, k - 1), items[k], pool, items[i]);
    hide Taken, Less, At, Distinct, Chain, Next, MsgAt;
  }

  lemma PrevDiffers(items: seq<Ptr>, k: nat)
    requires Distinct(items) && k < |items| && items[k] != 0
    ensures At(items, k - 1) != items[k]
  {}

  lemma TakenChain(mem: Memory, head: Ptr, items: seq<Ptr>, k: nat, pool: Ptr)
    requires Chain(mem, head, items) && Distinct(items) && k < |items|
    ensures var mem' := Taken(mem, At(items, k - 1), items[k], pool);
      Chain(mem', if k == 0 then Next(mem, items[k]) else head, Less(items, k)) &&
      Contents(mem', Less(items, k)) == Less(Contents(mem, items), k)
  {
    var mem' := Taken(mem, At(items, k - 1), items[k], pool);
    var rest := Less(items, k);
    TakenHead(mem, head, items, k);
    hide Chain, Distinct, Taken, Next, MsgAt;
    forall j | 0 <= j < |rest|
      ensures InMem(mem', rest[j]) && Next(mem', rest[j]) == At(rest, j + 1)
      ensures MsgAt(mem', rest[j]) == MsgAt(mem, rest[j])
    {
      TakenOne(mem, head, items, k, pool, j);
    }
    ChainMade(mem', if k == 0 then Next(mem, items[k]) else head, rest);
    assert Contents(mem', rest) == Contents(mem, rest);
    LessContents(mem, items, k);
  }

  lemma LessContents(mem: Memory, items: seq<Ptr>, k: nat)
    requires k < |items|
    ensures Contents(mem, Less(items, k)) == Less(Contents(mem, items), k)
  {}

  lemma TakenHead(mem: Memory, head: Ptr, items: seq<Ptr>, k: nat)
    requires Chain(mem, head, items) && k < |items|
    ensures (if k == 0 then Next(mem, items[k]) else head) == At(Less(items, k), 0)
  {}

  lemma ChainMade(mem: Memory, start: Ptr, ps: seq<Ptr>)
    requires start == At(ps, 0) && forall i :: 0 <= i < |ps| ==> InMem(mem, ps[i]) && Next(mem, ps[i]) == At(ps, i + 1)
    ensures Chain(mem, start, ps)
  {}

  lemma TakenPool(mem: Memory, prev: Ptr, i: Ptr, pool: Ptr, free: seq<Ptr>)
    requires Chain(mem, pool, free) && InMem(mem, i) && i !in free && prev !in free && prev != i
    ensures Chain(Taken(mem, prev, i, pool), i, [i] + free)
  {
    var mem' := Taken(mem, prev, i, pool);
    var ps := [i] + free;
    forall j | 0 <= j < |ps| ensures InMem(mem', ps[j]) && Next(mem', ps[j]) == At(ps, j + 1) {
      TakenAt(mem, prev, i, pool, ps[j]);
      if j > 0 {
        assert ps[j] == free[j - 1] && free[j - 1] in free;
      }
    }
    hide Taken, Next;
  }

  // ----- Both states are kept -----------------------------------------------------------

  lemma Elements(items: seq<Ptr>, free: seq<Ptr>)
    requires Distinct(items + free)
    ensures Distinct(items) && Distinct(free)
    ensures forall p :: p in items ==> p !in free
  {
    var all := items + free;
    assert forall i :: 0 <= i < |items| ==> all[i] == items[i];
    assert forall i :: 0 <= i < |free| ==> all[|items| + i] == free[i];
  }

  lemma LessElements(items: seq<Ptr>, k: nat)
    requires Distinct(items) && k < |items|
    ensures Distinct(Less(items, k))
    ensures forall p :: p in Less(items, k) <==> p in items && p != items[k]
  {
    var rest := Less(items, k);
    assert items == items[..k] + [items[k]] + items[k + 1..];
    assert forall j :: 0 <= j < |rest| ==> rest[j] == items[if j < k then j else j + 1];
  }

  lemma DistinctMade(items: seq<Ptr>, free: seq<Ptr>)
    requires Distinct(items) && Distinct(free) && forall p :: p in items ==> p !in free
    ensures Distinct(items + free)
  {
    var all := items + free;
    forall i, j | 0 <= i < j < |all| ensures all[i] != all[j] {
      if i < |items| <= j {
        assert items[i] in items && free[j - |items|] in free;
      }
    }
  }

  // A node for a new message, off the pool or fresh.
  ghost predicate Ready(mem: Memory, head: Ptr, tail: Ptr, pool: Ptr, items: seq<Ptr>, free: seq<Ptr>, item: Ptr) {
    && Chain(mem, head, items) && Chain(mem, pool, free) && InMem(mem, item)
    && Distinct((items + [item]) + free) && Everything(mem, (items + [item]) + free)
    && tail == At(items, |items| - 1)
  }

  lemma SoundIs(mem: Memory, head: Ptr, tail: Ptr, pool: Ptr, items: seq<Ptr>, free: seq<Ptr>)
    requires Sound(mem, head, tail, pool, items, free)
    ensures Chain(mem, head, items) && Chain(mem, pool, free)
    ensures Distinct(items + free) && Everything(mem, items + free) && tail == At(items, |items| - 1)
  {
    hide Chain, Distinct, Everything, At;
  }

  lemma RestChain(mem: Memory, pool: Ptr, free: seq<Ptr>)
    requires Chain(mem, pool, free) && free != []
    ensures pool == free[0] && InMem(mem, pool) && Chain(mem, Next(mem, pool), free[1..])
  {
    ChainAt(mem, pool, free, 0);
    forall i | 0 <= i < |free[1..]|
      ensures InMem(mem, free[1..][i]) && Next(mem, free[1..][i]) == At(free[1..], i + 1)
    {
      ChainAt(mem, pool, free, i + 1);
    }
  }

  lemma ReadyMade(mem: Memory, head: Ptr, tail: Ptr, pool: Ptr, items: seq<Ptr>, free: seq<Ptr>, item: Ptr)
    requires Chain(mem, head, items) && Chain(mem, pool, free) && InMem(mem, item) && tail == At(items, |items| - 1)
    requires Distinct((items + [item]) + free) && Everything(mem, (items + [item]) + free)
    ensures Ready(mem, head, tail, pool, items, free, item)
  {
    hide Chain, Distinct, Everything, At;
  }

  lemma SplitFirst(items: seq<Ptr>, free: seq<Ptr>)
    requires free != []
    ensures items + free == (items + [free[0]]) + free[1..]
  {}

  lemma FromPool(mem: Memory, head: Ptr, tail: Ptr, pool: Ptr, items: seq<Ptr>, free: seq<Ptr>)
    requires Sound(mem, head, tail, pool, items, free)
    ensures pool == 0 <==> free == []
    ensures pool != 0 ==> InMem(mem, pool) && Ready(mem, head, tail, Next(mem, pool), items, free[1..], pool)
  {
    hide *;
    SoundIs(mem, head, tail, pool, items, free);
    InChain(mem, pool, free);
    if free != [] {
      RestChain(mem, pool, free);
      SplitFirst(items, free);
      ReadyMade(mem, head, tail, Next(mem, pool), items, free[1..], pool);
    }
  }

  lemma FromNew(mem: Memory, head: Ptr, tail: Ptr, items: seq<Ptr>, n: Node)
    requires Sound(mem, head, tail, 0, items, [])
    ensures InMem(mem + [n], |mem| + 1)
    ensures Ready(mem + [n], head, tail, 0, items, [], |mem| + 1) && Contents(mem + [n], items) == Contents(mem, items)
  {
    GrownChain(mem, head, items, n);
    GrownChain(mem, 0, [], n);
    assert items + [] == items;
    assert (items + [|mem| + 1]) + [] == items + [|mem| + 1];
    InChain(mem, head, items);
    DistinctMade(items, [|mem| + 1]);
    forall p | InMem(mem + [n], p) ensures p in items + [|mem| + 1] {
      assert InMem(mem, p) || p == |mem| + 1;
    }
    hide Chain, Distinct, Contents;
  }

  lemma InChain(mem: Memory, head: Ptr, items: seq<Ptr>)
    requires Chain(mem, head, items)
    ensures forall p :: p in items ==> InMem(mem, p)
    ensures head == 0 <==> items == []
    ensures At(items, |items| - 1) == 0 <==> items == []
  {
    assert items != [] ==> InMem(mem, items[0]) && InMem(mem, items[|items| - 1]);
  }

  lemma ReadyIs(mem: Memory, head: Ptr, tail: Ptr, pool: Ptr, items: seq<Ptr>, free: seq<Ptr>, item: Ptr)
    requires Ready(mem, head, tail, pool, items, free, item)
    ensures Chain(mem, head, items) && Chain(mem, pool, free) && InMem(mem, item) && tail == At(items, |items| - 1)
    ensures Distinct((items + [item]) + free) && Everything(mem, (items + [item]) + free)
  {
    hide Chain, Distinct, Everything, At;
  }

  lemma ItemApart(items: seq<Ptr>, item: Ptr, free: seq<Ptr>)
    requires Distinct((items + [item]) + free)
    ensures Distinct(items) && item !in items && item !in free && (forall p :: p in items ==> p !in free)
  {
    Elements(items + [item], free);
    Elements(items, [item]);
    hide Distinct;
    assert item in [item] && item in items + [item];
  }

  lemma ReadyParts(mem: Memory, head: Ptr, tail: Ptr, pool: Ptr, items: seq<Ptr>, free: seq<Ptr>, item: Ptr)
    requires Ready(mem, head, tail, pool, items, free, item)
    ensures Chain(mem, head, items) && Chain(mem, pool, free) && InMem(mem, item) && tail == At(items, |items| - 1)
    ensures Distinct(items) && item !in items && item !in free && tail !in free
    ensures tail == 0 <==> items == []
    ensures Distinct((items + [item]) + free) && Everything(mem, (items + [item]) + free)
  {
    hide *;
    ReadyIs(mem, head, tail, pool, items, free, item);
    ItemApart(items, item, free);
    InChain(mem, head, items);
    ZeroApart(mem, pool, free);
    LastIn(items, item, tail);
  }

  lemma ZeroApart(mem: Memory, pool: Ptr, free: seq<Ptr>)
    requires Chain(mem, pool, free)
    ensures 0 !in free
  {}

  lemma HungSound(mem: Memory, head: Ptr, tail: Ptr, pool: Ptr, items: seq<Ptr>, free: seq<Ptr>, item: Ptr, m: Msg)
    requires Ready(mem, head, tail, pool, items, free, item)
    ensures Sound(Hung(mem, tail, item, m), if items == [] then item else head, item, pool, items + [item], free)
    ensures Contents(Hung(mem, tail, item, m), items + [item]) == Contents(mem, items) + [m]
    ensures tail == 0 <==> items == []
  {
    hide *;
    ReadyParts(mem, head, tail, pool, items, free, item);
    HungChain(mem, head, items, item, m);
    HungOther(mem, pool, free, tail, item, m);
    HungAt(mem, tail, item, m, item);
    LastIn(items, item, tail);
    SameEverything(mem, Hung(mem, tail, item, m), (items + [item]) + free);
    SoundMade(Hung(mem, tail, item, m), if items == [] then item else head, item, pool, items + [item], free);
  }

  lemma SameEverything(mem: Memory, mem': Memory, ps: seq<Ptr>)
    requires Everything(mem, ps) && |mem'| == |mem|
    ensures Everything(mem', ps)
  {
    forall p | InMem(mem', p) ensures p in ps {
      assert InMem(mem, p);
    }
  }

  lemma SoundMade(mem: Memory, head: Ptr, tail: Ptr, pool: Ptr, items: seq<Ptr>, free: seq<Ptr>)
    requires Chain(mem, head, items) && Chain(mem, pool, free)
    requires Distinct(items + free) && Everything(mem, items + free) && tail == At(items, |items| - 1)
    ensures Sound(mem, head, tail, pool, items, free)
  {
    hide Chain, Distinct, Everything;
  }

  lemma LastIn(items: seq<Ptr>, item: Ptr, tail: Ptr)
    requires tail == At(items, |items| - 1)
    ensures At(items + [item], |items + [item]| - 1) == item
    ensures tail == 0 || tail in items
  {}

  lemma TakenSound(mem: Memory, head: Ptr, tail: Ptr, pool: Ptr, items: seq<Ptr>, free: seq<Ptr>, k: nat)
    requires Sound(mem, head, tail, pool, items, free) && k < |items|
    ensures var mem' := Taken(mem, At(items, k - 1), items[k], pool);
      Chain(mem', if k == 0 then Next(mem, items[k]) else head, Less(items, k)) &&
      Chain(mem', items[k], [items[k]] + free) &&
      Contents(mem', Less(items, k)) == Less(Contents(mem, items), k)
    ensures Distinct(Less(items, k) + ([items[k]] + free))
    ensures Everything(Taken(mem, At(items, k - 1), items[k], pool), Less(items, k) + ([items[k]] + free))
  {
    hide *;
    SoundIs(mem, head, tail, pool, items, free);
    Elements(items, free);
    TakenChain(mem, head, items, k, pool);
    ChainAt(mem, head, items, k);
    PrevDiffers(items, k);
    PrevIn(items, k);
    ZeroApart(mem, pool, free);
    TakenPool(mem, At(items, k - 1), items[k], pool, free);
    TakenAt(mem, At(items, k - 1), items[k], pool, items[k]);
    Moved(items, free, k);
    SameElements(mem, Taken(mem, At(items, k - 1), items[k], pool), items + free, Less(items, k) + ([items[k]] + free));
  }

  lemma PrevIn(items: seq<Ptr>, k: nat)
    requires k < |items|
    ensures At(items, k - 1) == 0 || At(items, k - 1) in items
  {}

  lemma Moved(items: seq<Ptr>, free: seq<Ptr>, k: nat)
    requires Distinct(items + free) && k < |items|
    ensures Distinct(Less(items, k) + ([items[k]] + free))
    ensures forall p :: p in Less(items, k) + ([items[k]] + free) <==> p in items + free
  {
    Elements(items, free);
    LessElements(items, k);
    hide Distinct, Less;
    DistinctMade([items[k]], free);
    DistinctMade(Less(items, k), [items[k]] + free);
  }

  lemma SameElements(mem: Memory, mem': Memory, ps: seq<Ptr>, qs: seq<Ptr>)
    requires Everything(mem, ps) && |mem'| == |mem| && forall p :: p in ps <==> p in qs
    ensures Everything(mem', qs)
  {
    forall p | InMem(mem', p) ensures p in qs {
      assert InMem(mem, p);
    }
  }

  // The last node stays the last one unless it is the one taken out and others are left.
  lemma LastAfter(items: seq<Ptr>, k: nat)
    requires Distinct(items) && 0 !in items && k < |items|
    ensures At(Less(items, k), |Less(items, k)| - 1) == (if |items| == 1 then 0 else At(items, |items| - 1)) <==>
      !(k > 0 && k == |items| - 1)
    ensures k == |items| - 1 ==> At(items, |items| - 1) == items[k]
  {
    assert items[|items| - 1] in items;
  }

  lemma CutParts(mem: Memory, head: Ptr, tail: Ptr, pool: Ptr, items: seq<Ptr>, free: seq<Ptr>)
    requires Cut(mem, head, tail, pool, items, free)
    ensures items != [] && Chain(mem, head, items) && Chain(mem, pool, free) && Distinct(items + free)
    ensures InMem(mem, tail) && tail !in items && 0 !in items && tail != 0
    ensures pool == 0 <==> free == []
  {
    ZeroApart(mem, head, items);
    InChain(mem, pool, free);
    hide Chain, Distinct;
  }

  lemma CutMade(mem: Memory, head: Ptr, tail: Ptr, pool: Ptr, items: seq<Ptr>, free: seq<Ptr>)
    requires items != [] && Chain(mem, head, items) && Chain(mem, pool, free)
    requires Distinct(items + free) && InMem(mem, tail) && tail !in items
    ensures Cut(mem, head, tail, pool, items, free)
  {
    hide Chain, Distinct;
  }

  // The pool after a message has been hung onto `tail`: if `tail` is in the pool, the pool
  // now ends with the new node, and what came behind `tail` is on no list any more.
  ghost function Dragged(free: seq<Ptr>, tail: Ptr, item: Ptr): seq<Ptr> {
    if free == [] then []
    else if free[0] == tail then [tail, item]
    else [free[0]] + Dragged(free[1..], tail, item)
  }

  lemma {:induction false} DraggedIs(free: seq<Ptr>, tail: Ptr, item: Ptr)
    requires Distinct(free) && item !in free
    ensures Distinct(Dragged(free, tail, item))
    ensures forall p :: p in Dragged(free, tail, item) ==> p in free || p == item
    ensures item in Dragged(free, tail, item) <==> tail in free
    ensures At(Dragged(free, tail, item), 0) == At(free, 0)
  {
    if free != [] && free[0] != tail {
      DraggedIs(free[1..], tail, item);
      DistinctCons(free[0], Dragged(free[1..], tail, item));
    }
  }

  lemma DistinctCons(p: Ptr, ps: seq<Ptr>)
    requires Distinct(ps) && p !in ps
    ensures Distinct([p] + ps)
  {}

  lemma {:induction false} DraggedChain(mem: Memory, mem': Memory, pool: Ptr, free: seq<Ptr>, tail: Ptr, item: Ptr)
    requires Chain(mem, pool, free) && Distinct(free) && item !in free && InMem(mem', item) && |mem'| == |mem|
    requires tail in free ==> Next(mem', tail) == item && Next(mem', item) == 0
    requires forall p :: p in free && p != tail ==> Next(mem', p) == Next(mem, p)
    ensures Chain(mem', pool, Dragged(free, tail, item))
    decreases |free|
  {
    if free != [] {
      ChainAt(mem, pool, free, 0);
      RestChain(mem, pool, free);
      if free[0] != tail {
        DraggedChain(mem, mem', Next(mem, pool), free[1..], tail, item);
        ConsChain(mem', pool, Dragged(free[1..], tail, item));
      }
    }
  }

  lemma ConsChain(mem: Memory, p: Ptr, ps: seq<Ptr>)
    requires InMem(mem, p) && Chain(mem, Next(mem, p), ps)
    ensures Chain(mem, p, [p] + ps)
  {
    var all := [p] + ps;
    forall i | 0 <= i < |all| ensures InMem(mem, all[i]) && Next(mem, all[i]) == At(all, i + 1) {
      if i > 0 {
        ChainAt(mem, Next(mem, p), ps, i - 1);
      }
    }
  }

  // A message hung onto a tail that is cut off does not get into the list.
  lemma CutHung(mem: Memory, head: Ptr, tail: Ptr, pool: Ptr, items: seq<Ptr>, free: seq<Ptr>, item: Ptr, m: Msg)
    requires items != [] && Chain(mem, head, items) && Chain(mem, pool, free) && InMem(mem, item)
    requires Distinct((items + [item]) + free) && InMem(mem, tail) && tail !in items
    ensures Cut(Hung(mem, tail, item, m), head, item, pool, items, Dragged(free, tail, item))
    ensures Contents(Hung(mem, tail, item, m), items) == Contents(mem, items)
  {
    hide *;
    ItemApart(items, item, free);
    Elements(items + [item], free);
    HungOther(mem, head, items, tail, item, m);
    HungFree(mem, pool, free, tail, item, m);
    HungAt(mem, tail, item, m, item);
    DraggedIs(free, tail, item);
    DistinctMade(items, Dragged(free, tail, item));
    SameSize(mem, Hung(mem, tail, item, m), item);
    CutMade(Hung(mem, tail, item, m), head, item, pool, items, Dragged(free, tail, item));
  }

  lemma SameSize(mem: Memory, mem': Memory, p: Ptr)
    requires |mem'| == |mem| && InMem(mem, p)
    ensures InMem(mem', p)
  {}

  lemma HungFree(mem: Memory, pool: Ptr, free: seq<Ptr>, tail: Ptr, item: Ptr, m: Msg)
    requires Chain(mem, pool, free) && Distinct(free) && item !in free && InMem(mem, item) && InMem(mem, tail)
    ensures Chain(Hung(mem, tail, item, m), pool, Dragged(free, tail, item))
  {
    var mem' := Hung(mem, tail, item, m);
    forall p
      ensures |mem'| == |mem| && Next(mem', p) == if p == tail then item else if p == item then 0 else Next(mem, p)
    {
      HungAt(mem, tail, item, m, p);
    }
    hide *;
    SameSize(mem, mem', item);
    DraggedChain(mem, mem', pool, free, tail, item);
  }

  lemma DraggedNone(tail: Ptr, item: Ptr)
    ensures Dragged([], tail, item) == []
  {}

  lemma CutGrown(mem: Memory, head: Ptr, tail: Ptr, items: seq<Ptr>, n: Node)
    requires Chain(mem, head, items) && Distinct(items + []) && InMem(mem, tail)
    ensures Chain(mem + [n], head, items) && Chain(mem + [n], 0, [])
    ensures Contents(mem + [n], items) == Contents(mem, items)
    ensures InMem(mem + [n], tail) && InMem(mem + [n], |mem| + 1) && Distinct((items + [|mem| + 1]) + [])
  {
    GrownChain(mem, head, items, n);
    InChain(mem, head, items);
    assert items + [] == items;
    assert (items + [|mem| + 1]) + [] == items + [|mem| + 1];
    DistinctMade(items, [|mem| + 1]);
    hide Chain, Contents, Distinct;
    assert Chain(mem + [n], 0, []) by {
      GrownChain(mem, 0, [], n);
    }
  }

  function HeadAfter(mem: Memory, head: Ptr, k: nat, i: Ptr): Ptr {
    if k == 0 then Next(mem, i) else head
  }

  lemma TakenHeadIs(mem: Memory, head: Ptr, items: seq<Ptr>, k: nat, pool: Ptr)
    requires Chain(mem, head, items) && Distinct(items) && k < |items|
    ensures Chain(Taken(mem, At(items, k - 1), items[k], pool), HeadAfter(mem, head, k, items[k]), Less(items, k))
    ensures Contents(Taken(mem, At(items, k - 1), items[k], pool), Less(items, k)) == Less(Contents(mem, items), k)
    ensures HeadAfter(mem, head, k, items[k]) == 0 <==> |items| == 1
  {
    TakenChain(mem, head, items, k, pool);
    InChain(Taken(mem, At(items, k - 1), items[k], pool), if k == 0 then Next(mem, items[k]) else head, Less(items, k));
    hide Chain, Taken, Contents, Distinct, Next;
  }

  lemma TakeSound(mem: Memory, head: Ptr, tail: Ptr, pool: Ptr, items: seq<Ptr>, free: seq<Ptr>, k: nat)
    requires Sound(mem, head, tail, pool, items, free) && k < |items|
    ensures |items| == 1 ==> tail == items[k]
    ensures k == 0 || k < |items| - 1 ==>
      Sound(Taken(mem, At(items, k - 1), items[k], pool), HeadAfter(mem, head, k, items[k]),
      if |items| == 1 then 0 else tail, items[k], Less(items, k), [items[k]] + free)
  {
    hide *;
    SoundIs(mem, head, tail, pool, items, free);
    Elements(items, free);
    TakenSound(mem, head, tail, pool, items, free, k);
    TakenHeadIs(mem, head, items, k, pool);
    ZeroApart(mem, head, items);
    LastAfter(items, k);
    if k == 0 || k < |items| - 1 {
      SoundMade(Taken(mem, At(items, k - 1), items[k], pool), HeadAfter(mem, head, k, items[k]),
        if |items| == 1 then 0 else tail, items[k], Less(items, k), [items[k]] + free);
    }
  }

  // Taking the last of several messages leaves `tail` on the node that went to the pool.
  lemma TakeSever(mem: Memory, head: Ptr, tail: Ptr, pool: Ptr, items: seq<Ptr>, free: seq<Ptr>, k: nat)
    requires Sound(mem, head, tail, pool, items, free) && 0 < k == |items| - 1
    ensures Cut(Taken(mem, At(items, k - 1), items[k], pool), HeadAfter(mem, head, k, items[k]), tail, items[k],
      Less(items, k), [items[k]] + free)
  {
    SoundIs(mem, head, tail, pool, items, free);
    InChain(mem, head, items);
    assert items[k] in items;
    hide *;
    Elements(items, free);
    ZeroApart(mem, head, items);
    LastAfter(items, k);
    TakeLists(mem, head, tail, pool, items, free, k);
  }

  lemma TakeCut(mem: Memory, head: Ptr, tail: Ptr, pool: Ptr, items: seq<Ptr>, free: seq<Ptr>, k: nat)
    requires Cut(mem, head, tail, pool, items, free) && k < |items|
    ensures |items| == 1 ==> tail != items[k]
    ensures |items| > 1 ==>
      Cut(Taken(mem, At(items, k - 1), items[k], pool), HeadAfter(mem, head, k, items[k]), tail, items[k],
      Less(items, k), [items[k]] + free)
  {
    CutParts(mem, head, tail, pool, items, free);
    assert items[k] in items && tail !in items;
    hide *;
    if |items| > 1 {
      TakeLists(mem, head, tail, pool, items, free, k);
    }
  }

  lemma TakeLists(mem: Memory, head: Ptr, tail: Ptr, pool: Ptr, items: seq<Ptr>, free: seq<Ptr>, k: nat)
    requires Chain(mem, head, items) && Chain(mem, pool, free) && Distinct(items + free)
    requires k < |items| && |items| > 1 && InMem(mem, tail) && (tail == items[k] || tail !in items)
    ensures Cut(Taken(mem, At(items, k - 1), items[k], pool), HeadAfter(mem, head, k, items[k]), tail, items[k],
      Less(items, k), [items[k]] + free)
  {
    hide *;
    var mem' := Taken(mem, At(items, k - 1), items[k], pool);
    Elements(items, free);
    TakenHeadIs(mem, head, items, k, pool);
    ChainAt(mem, head, items, k);
    PrevDiffers(items, k);
    PrevIn(items, k);
    ZeroApart(mem, pool, free);
    TakenPool(mem, At(items, k - 1), items[k], pool, free);
    TakenAt(mem, At(items, k - 1), items[k], pool, items[k]);
    Moved(items, free, k);
    LessElements(items, k);
    LessNonEmpty(items, k);
    SameSize(mem, mem', tail);
    CutMade(mem', HeadAfter(mem, head, k, items[k]), tail, items[k], Less(items, k), [items[k]] + free);
  }

  lemma LessNonEmpty(items: seq<Ptr>, k: nat)
    requires k < |items| && |items| > 1
    ensures Less(items, k) != []
  {}

  lemma TakenIs(mem: Memory, prev: Ptr, i: Ptr, pool: Ptr)
    ensures Taken(mem, prev, i, pool) == SetNext(if prev != 0 then SetNext(mem, prev, Next(mem, i)) else mem, i, pool)
  {}

  lemma AtIs(ps: seq<Ptr>, k: nat)
    ensures k < |ps| ==> At(ps, k) == ps[k]
    ensures At(ps, -1) == 0
  {}

  lemma HeadIs(mem: Memory, head: Ptr, k: nat, i: Ptr)
    ensures HeadAfter(mem, head, k, i) == if k == 0 then Next(mem, i) else head
  {}

  // ----- The queue ------------------------------------------------------------------------

  datatype Answer = Nothing | Got(m: Msg) | Aborted

  class Queue {
    var mem: Memory
    var head: Ptr
    var tail: Ptr
    var pool: Ptr

    ghost var items: seq<Ptr>
    ghost var free: seq<Ptr>

    ghost predicate Valid()
      reads this
    {
      Sound(mem, head, tail, pool, items, free)
    }

    ghost predicate Severed()
      reads this
    {
      Cut(mem, head, tail, pool, items, free)
    }

    ghost function Queued(): seq<Msg>
      reads this
    {
      Contents(mem, items)
    }

    constructor ()
      ensures Valid() && Queued() == []
    {
      mem, head, tail, pool := [], 0, 0, 0;
      items, free := [], [];
    }

    // postMessage; `room` says whether malloc would succeed.
    method Post(m: Msg, room: bool) returns (ok: bool)
      requires Valid() || Severed()
      modifies this
      ensures ok <==> room || old(pool) != 0
      ensures old(Valid()) ==> Valid() && Queued() == if ok then old(Queued()) + [m] else old(Queued())
      ensures old(Severed()) ==> Severed() && Queued() == old(Queued())
    {
      hide *;
      Shown();
      ghost var valid := Valid();
      var item := pool;
      if item != 0 {
        PostPool(m);
        pool := Next(mem, item);
        free := if valid then free[1..] else Dragged(free[1..], tail, item);
      } else if room {
        PostNew(m);
        mem := mem + [Node(m, 0)];
        item := |mem|;
      } else {
        return false;
      }
      mem := Hung(mem, tail, item, m);
      if tail == 0 {
        head := item;
      }
      tail := item;
      if valid {
        items := items + [item];
      }
      ok := true;
      Shown();
    }

    lemma Shown()
      ensures Valid() <==> Sound(mem, head, tail, pool, items, free)
      ensures Severed() <==> Cut(mem, head, tail, pool, items, free)
      ensures Queued() == Contents(mem, items)
      ensures Valid() ==> !Severed()
    {
      if Valid() && Severed() {
        LastIn(items, tail, tail);
        hide Chain, Distinct, Everything, Contents;
        assert false;
      }
      hide Sound, Cut, Contents;
    }

    lemma PostPool(m: Msg)
      requires pool != 0 && (Valid() || Severed())
      ensures free != []
      ensures Valid() ==> Sound(Hung(mem, tail, pool, m), if tail == 0 then pool else head, pool, Next(mem, pool),
        items + [pool], free[1..])
      ensures Valid() ==> Contents(Hung(mem, tail, pool, m), items + [pool]) == Queued() + [m]
      ensures Severed() ==> Cut(Hung(mem, tail, pool, m), head, pool, Next(mem, pool),
        items, Dragged(free[1..], tail, pool)) && tail != 0
      ensures Severed() ==> Contents(Hung(mem, tail, pool, m), items) == Queued()
    {
      hide *;
      Shown();
      if Valid() {
        FromPool(mem, head, tail, pool, items, free);
        HungSound(mem, head, tail, Next(mem, pool), items, free[1..], pool, m);
      }
      if Severed() {
        CutParts(mem, head, tail, pool, items, free);
        RestChain(mem, pool, free);
        SplitFirst(items, free);
        CutHung(mem, head, tail, Next(mem, pool), items, free[1..], pool, m);
      }
    }

    lemma PostNew(m: Msg)
      requires pool == 0 && (Valid() || Severed())
      ensures free == []
      ensures Valid() ==> Sound(Hung(mem + [Node(m, 0)], tail, |mem| + 1, m), if tail == 0 then |mem| + 1 else head,
        |mem| + 1, 0, items + [|mem| + 1], free)
      ensures Valid() ==> Contents(Hung(mem + [Node(m, 0)], tail, |mem| + 1, m), items + [|mem| + 1]) == Queued() + [m]
      ensures Severed() ==>
        Cut(Hung(mem + [Node(m, 0)], tail, |mem| + 1, m), head, |mem| + 1, 0, items, []) && tail != 0
      ensures Severed() ==> Contents(Hung(mem + [Node(m, 0)], tail, |mem| + 1, m), items) == Queued()
    {
      hide *;
      Shown();
      if Valid() {
        FromPool(mem, head, tail, pool, items, free);
        FromNew(mem, head, tail, items, Node(m, 0));
        HungSound(mem + [Node(m, 0)], head, tail, 0, items, [], |mem| + 1, m);
      }
      if Severed() {
        CutParts(mem, head, tail, pool, items, free);
        CutGrown(mem, head, tail, items, Node(m, 0));
        CutHung(mem + [Node(m, 0)], head, tail, 0, items, [], |mem| + 1, m);
        DraggedNone(tail, |mem| + 1);
      }
    }

    // One turn of WinGetMsg's loop.  The queue keeps working unless the message taken is
    // the last of several, the one case in which `tail` is not mended.
    method TryGet(f: Filter) returns (g: Answer)
      requires Valid() || Severed()
      modifies this
      ensures Index(old(Queued()), f) == |old(Queued())| ==> g == Nothing && Queued() == old(Queued())
      ensures Index(old(Queued()), f) == |old(Queued())| ==>
        (Valid() <==> old(Valid())) && (Severed() <==> old(Severed()))
      ensures Index(old(Queued()), f) < |old(Queued())| && old(Valid()) ==> Valid() || Severed()
      ensures Index(old(Queued()), f) < |old(Queued())| && old(Valid()) ==> (Valid() <==> Mends(old(Queued()), f))
      ensures Index(old(Queued()), f) < |old(Queued())| && (old(Valid()) || |old(Queued())| > 1) ==>
        g == Got(old(Queued())[Index(old(Queued()), f)]) && Queued() == Less(old(Queued()), Index(old(Queued()), f))
      ensures Index(old(Queued()), f) < |old(Queued())| && old(Severed()) && |old(Queued())| > 1 ==> Severed()
      ensures Index(old(Queued()), f) < |old(Queued())| && old(Severed()) && |old(Queued())| == 1 ==> g == Aborted
    {
      hide *;
      Shown();
      var prev, i;
      ghost var k;
      prev, i, k := Search(f);
      Onward(k);
      if i == 0 {
        return Nothing;
      }
      Takes(k, f);
      TakenIs(mem, prev, i, pool);
      HeadIs(mem, head, k, i);
      var next := Next(mem, i);
      g := Got(MsgAt(mem, i));
      if prev != 0 {
        mem := SetNext(mem, prev, next);
      } else {
        head := next;
      }
      if head == 0 {
        if tail != i {
          return Aborted;
        }
        tail := 0;
      }
      mem := SetNext(mem, i, pool);
      pool, items, free := i, Less(items, k), [i] + free;
      Shown();
    }

    // The walk to the first message that the filter lets through.
    method Search(f: Filter) returns (prev: Ptr, i: Ptr, ghost k: nat)
      requires Valid() || Severed()
      ensures k == Index(Queued(), f) <= |items| && i == At(items, k) && prev == At(items, k - 1)
    {
      hide *;
      prev, i, k := 0, head, 0;
      ghost var q := Queued();
      ListFacts();
      SkippedMore(q, 0, f);
      if Filtering(f) {
        while i != 0 && Skip(MsgAt(mem, i), f)
          invariant k <= |items| && i == At(items, k) && prev == At(items, k - 1)
          invariant AllSkipped(q, k, f)
          decreases |items| - k
        {
          Onward(k);
          SkippedMore(q, k, f);
          prev, i, k := i, Next(mem, i), k + 1;
        }
      } else {
        Unfiltered(f, MsgAt(mem, i));
      }
      Onward(k);
      IndexUnique(q, f, k);
    }

    lemma ListFacts()
      requires Valid() || Severed()
      ensures head == At(items, 0) && At(items, -1) == 0 && |Queued()| == |items|
    {
      hide Distinct, Everything;
    }

    lemma Onward(k: nat)
      requires (Valid() || Severed()) && k <= |items|
      ensures At(items, k) == 0 <==> k == |items|
      ensures k < |items| ==> Queued()[k] == MsgAt(mem, At(items, k)) && Next(mem, At(items, k)) == At(items, k + 1)
      ensures At(items, k + 1 - 1) == At(items, k) && |Queued()| == |items|
    {
      hide Distinct, Everything;
    }

    lemma Takes(k: nat, f: Filter)
      requires (Valid() || Severed()) && k < |items| && k == Index(Queued(), f)
      ensures items[k] == At(items, k) && |Queued()| == |items| && Queued()[k] == MsgAt(mem, items[k])
      ensures At(items, k - 1) == 0 <==> k == 0
      ensures HeadAfter(mem, head, k, items[k]) == 0 <==> |items| == 1
      ensures |items| == 1 ==> (tail == items[k] <==> Valid())
      ensures Contents(Taken(mem, At(items, k - 1), items[k], pool), Less(items, k)) == Less(Queued(), k)
      ensures Valid() && Mends(Queued(), f) ==>
        Sound(Taken(mem, At(items, k - 1), items[k], pool), HeadAfter(mem, head, k, items[k]),
        if |items| == 1 then 0 else tail, items[k], Less(items, k), [items[k]] + free)
      ensures (Valid() && !Mends(Queued(), f)) || (Severed() && |items| > 1) ==>
        Cut(Taken(mem, At(items, k - 1), items[k], pool), HeadAfter(mem, head, k, items[k]), tail, items[k],
          Less(items, k), [items[k]] + free)
      ensures !Mends(Queued(), f) ==> |items| > 1
    {
      Onward(k);
      if k > 0 { Onward(k - 1); }
      MendsIs(Queued(), f);
      AtIs(items, k);
      hide *;
      Shown();
      if Valid() {
        SoundIs(mem, head, tail, pool, items, free);
        Elements(items, free);
        TakeSound(mem, head, tail, pool, items, free, k);
        if 0 < k == |items| - 1 {
          TakeSever(mem, head, tail, pool, items, free, k);
        }
      }
      if Severed() {
        CutParts(mem, head, tail, pool, items, free);
        Elements(items, free);
        TakeCut(mem, head, tail, pool, items, free, k);
      }
      TakenHeadIs(mem, head, items, k, pool);
    }

    // Any run of posts and gets; `rooms` says whether there is memory for each.  A post fails
    // only if there is none, and changes nothing then.  Without those posts, a working queue
    // does what the list of messages does, up to the first get that takes the last of several;
    // from then on, as on a queue severed before, no post is heard, and the run ends in the
    // source's failed assertion exactly if a get takes the only message left.
    method Run(ops: seq<Op>, rooms: seq<bool>) returns (out: seq<Msg>, aborted: bool, oks: seq<bool>)
      requires Valid() || Severed()
      requires |rooms| == |ops|
      modifies this
      ensures |oks| <= |ops| && (!aborted ==> |oks| == |ops|)
      ensures forall i :: 0 <= i < |oks| ==> oks[i] || (ops[i].Post? && !rooms[i])
      ensures var ops' := Done(ops, oks);
        aborted <==> if old(Valid()) then AbortsLater(old(Queued()), ops') else Aborts(old(Queued()), ops')
      ensures !aborted ==> Valid() || Severed()
      ensures !aborted && old(Valid()) ==> (Valid() <==> AllMend(old(Queued()), Done(ops, oks)))
      ensures !aborted && old(Valid()) ==>
        var heard := Heard(old(Queued()), Done(ops, oks));
        out == OutAll(old(Queued()), heard) && Queued() == PlayAll(old(Queued()), heard)
      ensures !aborted && old(Severed()) ==>
        var heard := Mute(Done(ops, oks));
        Severed() && out == OutAll(old(Queued()), heard) && Queued() == PlayAll(old(Queued()), heard)
      ensures aborted ==>
        var ops' := Done(ops, oks);
        out <= OutAll(old(Queued()), if old(Valid()) then Heard(old(Queued()), ops') else Mute(ops'))
      decreases |ops|
    {
      hide *;
      Shown();
      ghost var q := Queued();
      out, aborted, oks := [], false, [];
      if ops == [] {
        RunOver(q);
        NoneDone(ops);
        return;
      }
      var first, ok, gone := RunOne(ops[0], rooms[0]);
      if gone {
        aborted, oks := true, [true];
        EndsHere(q, ops);
        return;
      }
      Shown();
      out, aborted, oks := Run(ops[1..], rooms[1..]);
      Shown();
      DoneMore(ops, oks);
      ghost var op, rest := ops[0], Done(ops[1..], oks);
      UnfoldRun(q, [op] + rest);
      UnfoldMute(q, op, Mute(rest));
      UnfoldMute(q, op, Heard(Play(q, op), rest));
      assert [] + out == out;
      out, oks := first + out, [ok] + oks;
    }

    // One call of a run; `gone` is the failed assertion.
    method RunOne(op: Op, room: bool) returns (out: seq<Msg>, ok: bool, gone: bool)
      requires Valid() || Severed()
      modifies this
      ensures (ok || (op.Post? && !room)) && (op.Post? ==> out == [])
      ensures gone <==> old(Severed()) && Empties(old(Queued()), op)
      ensures !ok ==> !gone && out == [] && Queued() == old(Queued())
      ensures !ok ==> (Valid() <==> old(Valid())) && (Severed() <==> old(Severed()))
      ensures ok && !gone ==> Valid() || Severed()
      ensures ok && old(Valid()) ==> (Valid() <==> !Severs(old(Queued()), op))
      ensures ok && old(Valid()) ==> out == Out(old(Queued()), op) && Queued() == Play(old(Queued()), op)
      ensures ok && !gone && old(Severed()) ==> Severed() && out == Out(old(Queued()), op)
      ensures ok && !gone && old(Severed()) ==>
        Queued() == if op.Post? then old(Queued()) else Play(old(Queued()), op)
    {
      hide *;
      Shown();
      ghost var q := Queued();
      out, ok, gone := [], true, false;
      match op {
        case Post(m) =>
          PostStep(q, m);
          ok := Post(m, room);
        case Get(f) =>
          GetStep(q, f);
          var g := TryGet(f);
          gone := g.Aborted?;
          if g.Got? {
            out := [g.m];
          }
      }
      Shown();
    }

    // destroyMessageQueue: the nodes of both lists are freed, each once.  In a working queue
    // those are all of them; in a severed one a node that is on neither list is leaked.
    method Destroy() returns (freed: seq<Ptr>)
      requires Valid() || Severed()
      modifies this
      ensures freed == old(items + free) && Distinct(freed) && forall p :: p in freed ==> InMem(old(mem), p)
      ensures old(Valid()) ==> forall p :: InMem(old(mem), p) ==> p in freed
      ensures Valid() && Queued() == []
    {
      Lists();
      var a := Walk(head, items);
      var b := Walk(pool, free);
      freed := a + b;
      mem, head, tail, pool := [], 0, 0, 0;
      items, free := [], [];
    }

    method Walk(start: Ptr, ghost ps: seq<Ptr>) returns (freed: seq<Ptr>)
      requires Chain(mem, start, ps)
      ensures freed == ps
    {
      freed := [];
      var i := start;
      ghost var k := 0;
      while i != 0
        invariant k <= |ps| && i == At(ps, k) && freed == ps[..k]
        decreases |ps| - k
      {
        freed, i, k := freed + [i], Next(mem, i), k + 1;
      }
      assert k == |ps|;
    }

    lemma Lists()
      requires Valid() || Severed()
      ensures Chain(mem, head, items) && Chain(mem, pool, free) && Distinct(items + free)
      ensures forall p :: p in items + free ==> InMem(mem, p)
      ensures Valid() ==> forall p :: InMem(mem, p) ==> p in items + free
    {
      InChain(mem, head, items);
      InChain(mem, pool, free);
      hide Chain, Distinct;
    }
  }

  // When the queue has just been severed, `tail` is the first node of the pool, so the next
  // message posted takes that very node, which is then on neither list.
  lemma Leaked(items: seq<Ptr>, free: seq<Ptr>, tail: Ptr)
    requires Distinct(items + free) && free != [] && free[0] == tail
    ensures tail !in items + Dragged(free[1..], tail, tail)
  {
    Elements(items, free);
    assert free == [free[0]] + free[1..];
    assert forall i :: 0 <= i < |free[1..]| ==> free[1..][i] == free[i + 1];
    assert tail !in free[1..];
    Undragged(free[1..], tail, tail);
  }

  lemma {:induction false} Undragged(free: seq<Ptr>, tail: Ptr, item: Ptr)
    requires tail !in free
    ensures Dragged(free, tail, item) == free
  {
    if free != [] {
      Undragged(free[1..], tail, item);
      assert free == [free[0]] + free[1..];
    }
  }
}
