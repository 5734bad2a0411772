/**
  The window table of native/pmwin.c: a slot array in which a window's handle is its
  slot number plus 10, linked by parent, first child and next sibling.  Windows are
  named by handle throughout, so growing the array does not move anything.
 */
module WindowTable {
  import opened WindowForest
  import opened Lists

  const FIRST_HWND: Handle := 10
  const HWND_TOP: Handle := 3
  const HWND_BOTTOM: Handle := 4

  datatype Window = Window(hwnd: Handle, parent: Handle, children: Handle, sibling: Handle)

  const ZERO := Window(0, 0, 0, 0)

  // The slots, and the first child of the desktop.
  datatype Table = Table(windows: seq<Window>, top: Handle)

  predicate InTable(t: Table, h: Handle) {
    FIRST_HWND <= h && h - FIRST_HWND < |t.windows|
  }

  function Win(t: Table, h: Handle): Window {
    if InTable(t, h) then t.windows[h - FIRST_HWND] else ZERO
  }

  predicate Live(t: Table, h: Handle) {
    InTable(t, h) && Win(t, h).hwnd == h
  }

  function Head(t: Table, p: Handle): Handle {
    if p == DESKTOP then t.top else Win(t, p).children
  }

  function Sib(t: Table, h: Handle): Handle {
    Win(t, h).sibling
  }

  function Put(t: Table, h: Handle, w: Window): Table {
    if InTable(t, h) then t.(windows := t.windows[h - FIRST_HWND := w]) else t
  }

  function SetHead(t: Table, p: Handle, v: Handle): Table {
    if p == DESKTOP then t.(top := v) else Put(t, p, Win(t, p).(children := v))
  }

  function SetSib(t: Table, h: Handle, v: Handle): Table {
    Put(t, h, Win(t, h).(sibling := v))
  }

  // The links of `p`'s children spell `ks`.
  ghost predicate Chain(t: Table, p: Handle, ks: seq<Handle>) {
    Head(t, p) == At(ks, 0) && forall i :: 0 <= i < |ks| ==> Sib(t, ks[i]) == At(ks, i + 1)
  }

  ghost predicate Slots(t: Table, up: Up) {
    && |t.windows| > 0
    && (forall i :: 0 <= i < |t.windows| ==> t.windows[i] == ZERO || t.windows[i].hwnd == i + FIRST_HWND)
    && (forall h :: h in up ==> Live(t, h) && Win(t, h).parent == up[h])
    && (forall i :: 0 <= i < |t.windows| && t.windows[i].hwnd != 0 ==> i + FIRST_HWND in up)
  }

  ghost predicate Chains(t: Table, kids: Kids) {
    forall p :: p in kids ==> Chain(t, p, kids[p])
  }

  // The table holds exactly this forest.
  ghost predicate Holds(t: Table, up: Up, kids: Kids, rank: Rank) {
    Forest(up, kids, rank) && Slots(t, up) && Chains(t, kids)
  }

  // ----- Unlinking ------------------------------------------------------------------

  // The parent's chain goes around its `k`-th child.
  function Bypass(t: Table, p: Handle, before: Handle, h: Handle): Table {
    if before == 0 then SetHead(t, p, Sib(t, h)) else SetSib(t, before, Sib(t, h))
  }

  lemma SetFacts(t: Table, p: Handle, h: Handle, v: Handle, x: Handle)
    ensures |SetHead(t, p, v).windows| == |t.windows| == |SetSib(t, h, v).windows|
    ensures InTable(t, p) || p == DESKTOP ==> Head(SetHead(t, p, v), p) == v
    ensures x != p ==> Head(SetHead(t, p, v), x) == Head(t, x)
    ensures Sib(SetHead(t, p, v), x) == Sib(t, x)
    ensures InTable(t, h) ==> Sib(SetSib(t, h, v), h) == v
    ensures x != h ==> Sib(SetSib(t, h, v), x) == Sib(t, x)
    ensures Head(SetSib(t, h, v), x) == Head(t, x)
    ensures Win(SetHead(t, p, v), x).hwnd == Win(t, x).hwnd && Win(SetHead(t, p, v), x).parent == Win(t, x).parent
    ensures Win(SetSib(t, h, v), x).hwnd == Win(t, x).hwnd && Win(SetSib(t, h, v), x).parent == Win(t, x).parent
  {}

  lemma {:induction false} WithoutAt(ks: seq<Handle>, k: nat)
    requires Distinct(ks) && k < |ks|
    ensures Without(ks, ks[k]) == ks[..k] + ks[k + 1..]
  {
    if k > 0 {
      WithoutAt(ks[1..], k - 1);
      assert ks[..k] + ks[k + 1..] == [ks[0]] + (ks[1..][..k - 1] + ks[1..][k..]);
    }
  }

  lemma BypassChain(t: Table, p: Handle, ks: seq<Handle>, k: nat)
    requires Chain(t, p, ks) && Distinct(ks) && 0 !in ks && k < |ks|
    requires InTable(t, p) || p == DESKTOP
    requires forall c :: c in ks ==> InTable(t, c)
    ensures Chain(Bypass(t, p, At(ks, k - 1), ks[k]), p, ks[..k] + ks[k + 1..])
  {
    var rest := ks[..k] + ks[k + 1..];
    var t' := Bypass(t, p, At(ks, k - 1), ks[k]);
    BypassHead(t, p, ks, k);
    hide *;
    forall j | 0 <= j < |rest| ensures Sib(t', rest[j]) == At(rest, j + 1) {
      BypassRest(t, p, ks, k, rest, j);
    }
    ChainMade(t', p, rest);
  }

  lemma BypassRest(t: Table, p: Handle, ks: seq<Handle>, k: nat, rest: seq<Handle>, j: nat)
    requires Chain(t, p, ks) && Distinct(ks) && 0 !in ks && k < |ks|
    requires forall c :: c in ks ==> InTable(t, c)
    requires rest == ks[..k] + ks[k + 1..] && j < |rest|
    ensures Sib(Bypass(t, p, At(ks, k - 1), ks[k]), rest[j]) == At(rest, j + 1)
  {
    hide *;
    RestAt(ks, k, rest, j);
    BypassSib(t, p, ks, k, if j < k then j else j + 1);
  }

  lemma RestAt(ks: seq<Handle>, k: nat, rest: seq<Handle>, j: nat)
    requires k < |ks| && rest == ks[..k] + ks[k + 1..] && j < |rest|
    ensures var i := if j < k then j else j + 1;
      i < |ks| && i != k && rest[j] == ks[i] && At(rest, j + 1) == At(ks, if i == k - 1 then k + 1 else i + 1)
  {}

  lemma ChainMade(t: Table, p: Handle, ks: seq<Handle>)
    requires Head(t, p) == At(ks, 0) && forall i :: 0 <= i < |ks| ==> Sib(t, ks[i]) == At(ks, i + 1)
    ensures Chain(t, p, ks)
  {}

  lemma BypassHead(t: Table, p: Handle, ks: seq<Handle>, k: nat)
    requires Chain(t, p, ks) && 0 !in ks && k < |ks| && (InTable(t, p) || p == DESKTOP)
    ensures Head(Bypass(t, p, At(ks, k - 1), ks[k]), p) == At(ks[..k] + ks[k + 1..], 0)
  {
    SetFacts(t, p, At(ks, k - 1), Sib(t, ks[k]), p);
    assert Sib(t, ks[k]) == At(ks, k + 1);
    assert k > 0 ==> ks[k - 1] in ks;
  }

  lemma BypassSib(t: Table, p: Handle, ks: seq<Handle>, k: nat, i: nat)
    requires Chain(t, p, ks) && Distinct(ks) && 0 !in ks && k < |ks| && i < |ks| && i != k
    requires forall c :: c in ks ==> InTable(t, c)
    ensures Sib(Bypass(t, p, At(ks, k - 1), ks[k]), ks[i]) == At(ks, if i == k - 1 then k + 1 else i + 1)
  {
    assert Sib(t, ks[k]) == At(ks, k + 1) && Sib(t, ks[i]) == At(ks, i + 1);
    assert ks[i] in ks && (k > 0 ==> ks[k - 1] in ks);
    hide Chain;
    SetFacts(t, p, At(ks, k - 1), Sib(t, ks[k]), ks[i]);
  }

  // Other chains are not touched by that, nor by clearing a slot outside them.
  lemma BypassOther(t: Table, p: Handle, before: Handle, h: Handle, q: Handle, qs: seq<Handle>)
    requires Chain(t, q, qs) && q != p && before !in qs
    ensures Chain(Bypass(t, p, before, h), q, qs)
  {
    SetFacts(t, p, before, Sib(t, h), q);
    forall i | 0 <= i < |qs| ensures Sib(Bypass(t, p, before, h), qs[i]) == At(qs, i + 1) {
      assert qs[i] in qs;
      SetFacts(t, p, before, Sib(t, h), qs[i]);
    }
  }

  lemma PutOther(t: Table, h: Handle, w: Window, q: Handle, qs: seq<Handle>)
    requires Chain(t, q, qs) && q != h && h !in qs
    ensures Chain(Put(t, h, w), q, qs)
  {
    forall i | 0 <= i < |qs| ensures Sib(Put(t, h, w), qs[i]) == At(qs, i + 1) {
      assert qs[i] in qs;
    }
  }

  lemma BypassSlots(t: Table, up: Up, p: Handle, before: Handle, h: Handle)
    requires Slots(t, up) && h in up && DESKTOP !in up && (p == DESKTOP || p in up) && (before == 0 || before in up)
    ensures Slots(Put(Bypass(t, p, before, h), h, ZERO), up - {h})
  {
    var t1 := Bypass(t, p, before, h);
    var t2 := Put(t1, h, ZERO);
    forall x
      ensures Win(t1, x).hwnd == Win(t, x).hwnd && Win(t1, x).parent == Win(t, x).parent && |t1.windows| == |t.windows|
    {
      SetFacts(t, p, before, Sib(t, h), x);
    }
    hide Bypass;
    assert forall i :: 0 <= i < |t.windows| ==> t1.windows[i].hwnd == Win(t, i + FIRST_HWND).hwnd;
  }

  // ----- Removing a leaf ---------------------------------------------------------------

  // The ghost side of removing the leaf `h`.
  ghost function LessKids(up: Up, kids: Kids, h: Handle): Kids
    requires h in up && up[h] in kids
  {
    kids[up[h] := Without(kids[up[h]], h)] - {h}
  }

  lemma LessKidsIs(up: Up, kids: Kids, h: Handle)
    requires h in up && up[h] in kids
    ensures LessKids(up, kids, h) == kids[up[h] := Without(kids[up[h]], h)] - {h}
  {}

  lemma RemovedChain(t: Table, up: Up, kids: Kids, rank: Rank, h: Handle, k: nat, q: Handle)
    requires Holds(t, up, kids, rank) && h in up && up[h] in kids && k < |kids[up[h]]| && kids[up[h]][k] == h
    requires q in LessKids(up, kids, h)
    ensures Chain(Put(Bypass(t, up[h], At(kids[up[h]], k - 1), h), h, ZERO), q, LessKids(up, kids, h)[q])
  {
    var p := up[h];
    var ks := kids[p];
    var before := At(ks, k - 1);
    var t1 := Bypass(t, p, before, h);
    HoldsFacts(t, up, kids, rank, p);
    HoldsFacts(t, up, kids, rank, q);
    ParentDiffers(up, kids, rank, h);
    WithoutAt(ks, k);
    WithoutElems(ks, h);
    if k > 0 { assert ks[k - 1] in ks; }
    hide *;
    if q == p {
      BypassChain(t, p, ks, k);
      PutOther(t1, h, ZERO, p, Without(ks, h));
    } else {
      BypassOther(t, p, before, h, q, kids[q]);
      PutOther(t1, h, ZERO, q, kids[q]);
    }
  }

  // What a table that holds a forest knows about one parent.
  lemma HoldsFacts(t: Table, up: Up, kids: Kids, rank: Rank, p: Handle)
    requires Holds(t, up, kids, rank) && p in kids
    ensures Chain(t, p, kids[p]) && Distinct(kids[p]) && 0 !in kids[p]
    ensures InTable(t, p) || p == DESKTOP
    ensures forall c :: c in kids[p] ==> InTable(t, c) && c in up && up[c] == p
  {
    assert OwnedBy(up, p, kids[p]);
    hide Chain, Distinct, Ranked, Listed;
  }

  lemma RemovedHolds(t: Table, up: Up, kids: Kids, rank: Rank, h: Handle, k: nat)
    requires Holds(t, up, kids, rank) && h in up && up[h] in kids && k < |kids[up[h]]| && kids[up[h]][k] == h
    ensures var t' := Put(Bypass(t, up[h], At(kids[up[h]], k - 1), h), h, ZERO);
      Slots(t', up - {h}) && Chains(t', LessKids(up, kids, h))
  {
    var p := up[h];
    var before := At(kids[p], k - 1);
    var t' := Put(Bypass(t, p, before, h), h, ZERO);
    HoldsFacts(t, up, kids, rank, p);
    ParentDiffers(up, kids, rank, h);
    ForestParent(up, kids, rank, h);
    if k > 0 { assert kids[p][k - 1] in kids[p]; }
    assert DESKTOP !in up;
    BypassSlots(t, up, p, before, h);
    hide Holds, Slots, Chain, LessKids, Put, Bypass;
    forall q | q in LessKids(up, kids, h) ensures Chain(t', q, LessKids(up, kids, h)[q]) {
      RemovedChain(t, up, kids, rank, h, k, q);
    }
  }

  lemma SameSize(t: Table, p: Handle, before: Handle, h: Handle)
    ensures |Put(Bypass(t, p, before, h), h, ZERO).windows| == |t.windows|
  {}

  // The list ends where the links end.
  lemma NoneLeft(ks: seq<Handle>, k: nat, rest: seq<Handle>)
    requires k <= |ks| && rest == ks[k..] && At(ks, k) == 0 && 0 !in rest
    ensures k == |ks| && rest == []
  {
    Rest(ks, k, rest);
  }

  lemma Rest(ks: seq<Handle>, k: nat, rest: seq<Handle>)
    requires k <= |ks| && rest == ks[k..]
    ensures k < |ks| ==> At(ks, k) in rest
  {
    assert k < |ks| ==> rest[0] == ks[k];
  }

  ghost predicate Bounded(rank: Rank, serial: nat) {
    forall x :: x in rank ==> rank[x] < serial
  }

  // ----- Placing a window ------------------------------------------------------------

  function Doubled(t: Table): Table {
    t.(windows := t.windows + seq(|t.windows|, _ => ZERO))
  }

  function Placed(t: Table, h: Handle, p: Handle): Table {
    Put(t, h, Window(h, p, 0, 0))
  }

  // `h` goes into the chain of `p` behind `before`, or to its front if that is 0.
  function Threaded(t: Table, p: Handle, before: Handle, h: Handle): Table {
    if before == 0 then SetHead(SetSib(t, h, Head(t, p)), p, h) else SetSib(SetSib(t, h, Sib(t, before)), before, h)
  }

  lemma DoubledSame(t: Table, x: Handle)
    ensures Win(Doubled(t), x) == Win(t, x) && Head(Doubled(t), x) == Head(t, x) && Sib(Doubled(t), x) == Sib(t, x)
    ensures InTable(t, x) ==> InTable(Doubled(t), x)
  {}

  lemma DoubledChain(t: Table, p: Handle, ks: seq<Handle>)
    requires Chain(t, p, ks)
    ensures Chain(Doubled(t), p, ks)
  {
    DoubledSame(t, p);
    forall i | 0 <= i < |ks| ensures Sib(Doubled(t), ks[i]) == At(ks, i + 1) {
      DoubledSame(t, ks[i]);
    }
    hide Doubled, Sib, Head;
  }

  lemma DoubledHolds(t: Table, up: Up, kids: Kids, rank: Rank)
    requires Holds(t, up, kids, rank)
    ensures Holds(Doubled(t), up, kids, rank)
  {
    DoubledSlots(t, up);
    hide Slots, Forest, Chain, Doubled;
    forall p | p in kids ensures Chain(Doubled(t), p, kids[p]) {
      DoubledChain(t, p, kids[p]);
    }
  }

  lemma DoubledSlots(t: Table, up: Up)
    requires Slots(t, up)
    ensures Slots(Doubled(t), up)
  {
    forall h | h in up ensures Live(Doubled(t), h) && Win(Doubled(t), h).parent == up[h] {
      DoubledSame(t, h);
    }
  }

  lemma PlacedSlots(t: Table, up: Up, h: Handle, p: Handle)
    requires Slots(t, up) && InTable(t, h)
    ensures Slots(Placed(t, h, p), up[h := p])
  {}

  lemma PlacedChain(t: Table, h: Handle, p: Handle)
    requires InTable(t, h) && h != DESKTOP
    ensures Chain(Placed(t, h, p), h, [])
  {}

  lemma PlacedChains(t: Table, up: Up, kids: Kids, rank: Rank, h: Handle, p: Handle)
    requires Holds(t, up, kids, rank) && InTable(t, h) && h !in up && h != DESKTOP
    ensures h !in kids && Chains(Placed(t, h, p), kids[h := []])
  {
    var kids' := kids[h := []];
    ForestParts(up, kids, rank, h);
    PlacedChain(t, h, p);
    hide *;
    forall q | q in kids' ensures Chain(Placed(t, h, p), q, kids'[q]) {
      if q != h {
        PlacedOther(t, up, kids, rank, h, p, q);
      }
    }
    ChainsMade(Placed(t, h, p), kids');
  }

  lemma PlacedOther(t: Table, up: Up, kids: Kids, rank: Rank, h: Handle, p: Handle, q: Handle)
    requires Holds(t, up, kids, rank) && h !in up && q in kids && q != h
    ensures Chain(Placed(t, h, p), q, kids[q])
  {
    HoldsFacts(t, up, kids, rank, q);
    hide Holds, Chain, Distinct;
    PutOther(t, h, Window(h, p, 0, 0), q, kids[q]);
  }

  lemma ChainsMade(t: Table, kids: Kids)
    requires forall p :: p in kids ==> Chain(t, p, kids[p])
    ensures Chains(t, kids)
  {}

  lemma SetSibSlots(t: Table, up: Up, h: Handle, v: Handle)
    requires Slots(t, up) && h in up
    ensures Slots(SetSib(t, h, v), up)
  {}

  lemma SetHeadSlots(t: Table, up: Up, p: Handle, v: Handle)
    requires Slots(t, up) && (p == DESKTOP || p in up)
    ensures Slots(SetHead(t, p, v), up)
  {}

  lemma ThreadedSlots(t: Table, up: Up, p: Handle, before: Handle, h: Handle)
    requires Slots(t, up) && h in up && (before == 0 || before in up) && (p == DESKTOP || p in up)
    ensures Slots(Threaded(t, p, before, h), up)
  {
    hide Slots, SetSib, SetHead;
    if before == 0 {
      SetSibSlots(t, up, h, Head(t, p));
      SetHeadSlots(SetSib(t, h, Head(t, p)), up, p, h);
    } else {
      SetSibSlots(t, up, h, Sib(t, before));
      SetSibSlots(SetSib(t, h, Sib(t, before)), up, before, h);
    }
  }

  // One link after threading.
  lemma ThreadedSib(t: Table, p: Handle, before: Handle, h: Handle, x: Handle)
    requires InTable(t, h) && before != h && (before == 0 || InTable(t, before))
    ensures var t' := Threaded(t, p, before, h);
      Sib(t', x) ==
        if x == h then (if before == 0 then Head(t, p) else Sib(t, before))
        else if x == before != 0 then h else Sib(t, x)
  {
    hide SetSib, SetHead, Head, Sib;
    var t1 := SetSib(t, h, if before == 0 then Head(t, p) else Sib(t, before));
    SetFacts(t, p, h, if before == 0 then Head(t, p) else Sib(t, before), x);
    SetFacts(t1, p, before, h, x);
  }

  lemma ThreadedHead(t: Table, p: Handle, before: Handle, h: Handle, q: Handle)
    requires InTable(t, p) || p == DESKTOP
    ensures Head(Threaded(t, p, before, h), q) == if q == p && before == 0 then h else Head(t, q)
  {
    hide SetSib, SetHead, Head, Sib;
    var v := if before == 0 then Head(t, p) else Sib(t, before);
    SetFacts(t, p, h, v, q);
    SetFacts(SetSib(t, h, v), p, before, h, q);
  }

  lemma ThreadedChain(t: Table, p: Handle, ks: seq<Handle>, k: nat, h: Handle)
    requires Chain(t, p, ks) && Distinct(ks) && 0 !in ks && h !in ks && k <= |ks| && InTable(t, h)
    requires InTable(t, p) || p == DESKTOP
    requires forall c :: c in ks ==> InTable(t, c)
    ensures Chain(Threaded(t, p, At(ks, k - 1), h), p, ks[..k] + [h] + ks[k..])
  {
    var ks' := ks[..k] + [h] + ks[k..];
    var t' := Threaded(t, p, At(ks, k - 1), h);
    ThreadedHead(t, p, At(ks, k - 1), h, p);
    assert Head(t', p) == At(ks', 0) by {
      assert k > 0 ==> ks[k - 1] in ks;
    }
    hide *;
    forall i | 0 <= i < |ks'| ensures Sib(t', ks'[i]) == At(ks', i + 1) {
      ThreadedAt(t, p, ks, k, h, ks', i);
    }
    ChainMade(t', p, ks');
  }

  lemma ThreadedAt(t: Table, p: Handle, ks: seq<Handle>, k: nat, h: Handle, ks': seq<Handle>, i: nat)
    requires Chain(t, p, ks) && Distinct(ks) && 0 !in ks && h !in ks && k <= |ks| && InTable(t, h)
    requires forall c :: c in ks ==> InTable(t, c)
    requires ks' == ks[..k] + [h] + ks[k..] && i < |ks'|
    ensures Sib(Threaded(t, p, At(ks, k - 1), h), ks'[i]) == At(ks', i + 1)
  {
    InsertedAt(ks, k, h, ks', i);
    var j := if i < k then i else i - 1;
    BeforeIn(t, ks, k);
    hide *;
    if i != k {
      ChainAt(t, p, ks, j);
    }
    ChainAt(t, p, ks, k - 1);
    ThreadedSib(t, p, At(ks, k - 1), h, ks'[i]);
  }

  lemma InsertedAt(ks: seq<Handle>, k: nat, h: Handle, ks': seq<Handle>, i: nat)
    requires Distinct(ks) && 0 !in ks && h !in ks && k <= |ks| && ks' == ks[..k] + [h] + ks[k..] && i < |ks'|
    ensures i == k ==> ks'[i] == h && At(ks', i + 1) == At(ks, k)
    ensures i == k - 1 ==>
      i < |ks| && ks'[i] == ks[i] == At(ks, k - 1) && ks[i] != h && At(ks', i + 1) == h && ks[i] != 0
    ensures i != k && i != k - 1 ==>
      (var j := if i < k then i else i - 1;
        0 <= j < |ks| && ks'[i] == ks[j] && ks[j] != h && At(ks', i + 1) == At(ks, j + 1) && ks[j] != At(ks, k - 1))
  {
    if i != k {
      var j := if i < k then i else i - 1;
      assert ks[j] in ks && ks'[i] == ks[j];
    }
  }

  lemma BeforeIn(t: Table, ks: seq<Handle>, k: nat)
    requires forall c :: c in ks ==> InTable(t, c)
    ensures At(ks, k - 1) == 0 || (At(ks, k - 1) in ks && InTable(t, At(ks, k - 1)))
  {}

  lemma ChainAt(t: Table, p: Handle, ks: seq<Handle>, j: int)
    requires Chain(t, p, ks)
    ensures Head(t, p) == At(ks, 0)
    ensures 0 <= j < |ks| ==> Sib(t, ks[j]) == At(ks, j + 1) && At(ks, j) == ks[j]
    ensures j < 0 ==> At(ks, j) == 0
    ensures j >= |ks| ==> At(ks, j) == 0
  {}

  lemma ThreadedOther(t: Table, p: Handle, before: Handle, h: Handle, q: Handle, qs: seq<Handle>)
    requires Chain(t, q, qs) && q != p && before !in qs && h !in qs && before != h && InTable(t, h)
    requires InTable(t, p) || p == DESKTOP
    requires before == 0 || InTable(t, before)
    ensures Chain(Threaded(t, p, before, h), q, qs)
  {
    ThreadedHead(t, p, before, h, q);
    forall i | 0 <= i < |qs| ensures Sib(Threaded(t, p, before, h), qs[i]) == At(qs, i + 1) {
      assert qs[i] in qs;
      ThreadedSib(t, p, before, h, qs[i]);
    }
    hide Threaded, Head, Sib;
  }

  // ----- A new window's place ----------------------------------------------------------

  // Behind `behind`, or at the end if that is not in the list.
  ghost function After(ks: seq<Handle>, behind: Handle): nat {
    if ks == [] then 0 else if ks[0] == behind then 1 else 1 + After(ks[1..], behind)
  }

  ghost function Place(ks: seq<Handle>, behind: Handle): nat {
    if behind == HWND_TOP then 0 else After(ks, behind)
  }

  lemma {:induction false} AfterIs(ks: seq<Handle>, behind: Handle)
    ensures After(ks, behind) <= |ks|
    ensures behind in ks ==> After(ks, behind) > 0 && ks[After(ks, behind) - 1] == behind
    ensures behind !in ks ==> After(ks, behind) == |ks|
  {
    if ks != [] {
      AfterIs(ks[1..], behind);
    }
  }

  // Handles count from 10, where the first window goes.
  lemma FirstHandle(t: Table, h: Handle)
    requires FirstFree(t, h)
    ensures h >= 10 && (!Live(t, 10) ==> h == 10)
  {}

  // Behind HWND_TOP (3) is the front of the list, behind HWND_BOTTOM (4) or a window that is
  // no child is its end, and behind a child is the place after it.
  lemma PlaceIs(ks: seq<Handle>, behind: Handle)
    requires 3 !in ks && 4 !in ks
    ensures behind == 3 ==> Place(ks, behind) == 0
    ensures behind == 4 || (behind != 3 && behind !in ks) ==> Place(ks, behind) == |ks|
    ensures behind in ks ==> 0 < Place(ks, behind) <= |ks| && ks[Place(ks, behind) - 1] == behind
  {
    AfterIs(ks, behind);
  }

  ghost function Inserted(kids: Kids, h: Handle, p: Handle, k: nat): Kids
    requires p in kids && k <= |kids[p]|
  {
    kids[h := []][p := kids[p][..k] + [h] + kids[p][k..]]
  }

  lemma ThreadedHolds(t: Table, up: Up, kids: Kids, rank: Rank, h: Handle, p: Handle, k: nat)
    requires Holds(t, up, kids, rank) && InTable(t, h) && h !in up && h != 0 && h != DESKTOP
    requires p in kids && k <= |kids[p]|
    ensures Slots(Threaded(Placed(t, h, p), p, At(kids[p], k - 1), h), up[h := p])
    ensures Chains(Threaded(Placed(t, h, p), p, At(kids[p], k - 1), h), Inserted(kids, h, p, k))
  {
    var before := At(kids[p], k - 1);
    var t1 := Placed(t, h, p);
    var t2 := Threaded(t1, p, before, h);
    var kids' := Inserted(kids, h, p, k);
    ThreadNeeds(t, up, kids, rank, h, p, k);
    ThreadedSlots(t1, up[h := p], p, before, h);
    InsertedKeys(kids, h, p, k);
    hide *;
    forall q | q in kids' ensures Chain(t2, q, kids'[q]) {
      ThreadedOne(t, up, kids, rank, h, p, k, q);
    }
    ChainsMade(t2, kids');
  }

  lemma InsertedKeys(kids: Kids, h: Handle, p: Handle, k: nat)
    requires p in kids && k <= |kids[p]|
    ensures forall q :: q in Inserted(kids, h, p, k) <==> q in kids || q == h
  {}

  lemma ThreadNeeds(t: Table, up: Up, kids: Kids, rank: Rank, h: Handle, p: Handle, k: nat)
    requires Holds(t, up, kids, rank) && InTable(t, h) && h !in up && h != DESKTOP
    requires p in kids && k <= |kids[p]|
    ensures Slots(Placed(t, h, p), up[h := p])
    ensures At(kids[p], k - 1) == 0 || At(kids[p], k - 1) in up
    ensures p == DESKTOP || p in up
  {
    PlacedSlots(t, up, h, p);
    ForestChild(up, kids, rank, p, At(kids[p], k - 1));
    hide Slots, Forest, Chains;
  }

  lemma ThreadedOne(t: Table, up: Up, kids: Kids, rank: Rank, h: Handle, p: Handle, k: nat, q: Handle)
    requires Holds(t, up, kids, rank) && InTable(t, h) && h !in up && h != DESKTOP && h != 0
    requires p in kids && k <= |kids[p]| && q in Inserted(kids, h, p, k) && (q in kids || q == h)
    ensures Chain(Threaded(Placed(t, h, p), p, At(kids[p], k - 1), h), q, Inserted(kids, h, p, k)[q])
  {
    var t1 := Placed(t, h, p);
    var before := At(kids[p], k - 1);
    PlacedChains(t, up, kids, rank, h, p);
    ThreadTables(t, up, kids, rank, h, p, k, q);
    InsertedAs(kids, h, p, k, q);
    hide *;
    if q == p {
      ChainsAt(t1, kids[h := []], p);
      ThreadedChain(t1, p, kids[p], k, h);
    } else if q == h {
      ChainsAt(t1, kids[h := []], h);
      ThreadedOther(t1, p, before, h, h, []);
    } else {
      ChainsAt(t1, kids[h := []], q);
      ThreadedOther(t1, p, before, h, q, kids[q]);
    }
  }

  lemma ChainsAt(t: Table, kids: Kids, p: Handle)
    requires Chains(t, kids) && p in kids
    ensures Chain(t, p, kids[p])
  {
    hide Chain;
  }

  lemma InsertedAs(kids: Kids, h: Handle, p: Handle, k: nat, q: Handle)
    requires h !in kids && p in kids && k <= |kids[p]| && (q in kids || q == h)
    ensures q in Inserted(kids, h, p, k)
    ensures Inserted(kids, h, p, k)[q] ==
      if q == p then kids[p][..k] + [h] + kids[p][k..] else if q == h then [] else kids[q]
  {}

  lemma ThreadTables(t: Table, up: Up, kids: Kids, rank: Rank, h: Handle, p: Handle, k: nat, q: Handle)
    requires Holds(t, up, kids, rank) && InTable(t, h) && h !in up && h != DESKTOP && p in kids && k <= |kids[p]|
    ensures InTable(Placed(t, h, p), h) && (InTable(Placed(t, h, p), p) || p == DESKTOP)
    ensures Distinct(kids[p]) && 0 !in kids[p] && h !in kids[p] && p != h
    ensures forall c :: c in kids[p] ==> InTable(Placed(t, h, p), c)
    ensures h != 0 ==> At(kids[p], k - 1) != h
    ensures At(kids[p], k - 1) == 0 || InTable(Placed(t, h, p), At(kids[p], k - 1))
    ensures q in kids && q != p ==> h !in kids[q] && At(kids[p], k - 1) !in kids[q]
  {
    HoldsFacts(t, up, kids, rank, p);
    ForestParts(up, kids, rank, h);
    if q in kids {
      HoldsFacts(t, up, kids, rank, q);
    }
    hide Holds, Chain, Distinct;
  }

  lemma NoSelfLoop(t: Table, up: Up, kids: Kids, rank: Rank, h: Handle)
    requires Holds(t, up, kids, rank) && Live(t, h) && h != 0
    ensures Sib(t, h) != h
  {
    assert t.windows[h - FIRST_HWND].hwnd != 0;
    assert h in up;
    ForestParent(up, kids, rank, h);
    HoldsFacts(t, up, kids, rank, up[h]);
    var ks := kids[up[h]];
    var i :| 0 <= i < |ks| && ks[i] == h;
    hide Holds, Forest, Slots, Chains;
    assert Sib(t, ks[i]) == At(ks, i + 1);
  }

  // A table in which a window is its own sibling holds no forest at all.
  lemma SelfLoop(t: Table, up: Up, kids: Kids, rank: Rank, h: Handle)
    requires Live(t, h) && h != 0 && Sib(t, h) == h
    ensures !Holds(t, up, kids, rank)
  {
    hide Holds;
    if Holds(t, up, kids, rank) {
      NoSelfLoop(t, up, kids, rank, h);
    }
  }

  // The slot of the lowest free handle, past the end if there is none.
  ghost predicate FirstFree(t: Table, h: Handle) {
    && FIRST_HWND <= h <= FIRST_HWND + |t.windows|
    && (forall x :: FIRST_HWND <= x < h ==> Live(t, x))
    && !Live(t, h)
  }

  ghost predicate Full(t: Table) {
    FirstFree(t, FIRST_HWND + |t.windows|)
  }

  lemma FreeFacts(t: Table, up: Up, kids: Kids, rank: Rank, h: Handle)
    requires Holds(t, up, kids, rank) && FirstFree(t, h)
    ensures h !in up && h != 0 && h != DESKTOP && h != HWND_TOP && h != HWND_BOTTOM
    ensures InTable(t, h) ==> !Full(t)
    ensures InTable(Doubled(t), h) && FirstFree(Doubled(t), h)
  {
    hide Chain, Forest;
    forall x | FIRST_HWND <= x < h ensures Live(Doubled(t), x) {
      assert Live(t, x);
    }
  }

  lemma SetSibSame(t: Table, h: Handle)
    ensures SetSib(t, h, Sib(t, h)) == t
  {
    if InTable(t, h) {
      assert t.windows[h - FIRST_HWND := t.windows[h - FIRST_HWND]] == t.windows;
    }
  }

  // A handle that names a window with the parent `p`.
  predicate ChildOf(t: Table, h: Handle, p: Handle) {
    Live(t, h) && Win(t, h).parent == p
  }

  lemma HeadZero(t: Table, p: Handle, ks: seq<Handle>)
    requires Chain(t, p, ks) && 0 !in ks
    ensures Head(t, p) == 0 <==> ks == []
  {
    assert ks != [] ==> At(ks, 0) in ks;
  }

  // Getting ready to link the new window `h`, which is in its slot already.
  lemma LinkFacts(t: Table, up: Up, kids: Kids, rank: Rank, h: Handle, p: Handle, behind: Handle)
    requires Holds(t, up, kids, rank) && FirstFree(t, h) && InTable(t, h) && p in kids
    ensures Chain(Placed(t, h, p), p, kids[p]) && 0 !in kids[p] && h !in kids[p] && h != 0
    ensures Sib(Placed(t, h, p), h) == 0
    ensures HWND_TOP !in kids[p] && HWND_BOTTOM !in kids[p]
    ensures ChildOf(Placed(t, h, p), behind, p) <==> behind == h || behind in kids[p]
  {
    FreeFacts(t, up, kids, rank, h);
    HoldsFacts(t, up, kids, rank, p);
    LinkChild(t, up, kids, rank, h, p, behind);
    hide Holds, Forest, Slots, Chain, Distinct, FirstFree, ChildOf;
    PutOther(t, h, Window(h, p, 0, 0), p, kids[p]);
  }

  lemma LinkChild(t: Table, up: Up, kids: Kids, rank: Rank, h: Handle, p: Handle, behind: Handle)
    requires Holds(t, up, kids, rank) && h !in up && InTable(t, h) && p in kids
    ensures ChildOf(Placed(t, h, p), behind, p) <==> behind == h || behind in kids[p]
  {
    hide *;
    PlacedChildOf(t, h, p, behind);
    if behind != h {
      ChildOfIs(t, up, kids, rank, p, behind);
    }
  }

  lemma PlacedChildOf(t: Table, h: Handle, p: Handle, x: Handle)
    requires InTable(t, h)
    ensures ChildOf(Placed(t, h, p), x, p) <==> x == h || ChildOf(t, x, p)
  {}

  lemma ChildOfIs(t: Table, up: Up, kids: Kids, rank: Rank, p: Handle, x: Handle)
    requires Holds(t, up, kids, rank) && p in kids
    ensures ChildOf(t, x, p) <==> x in kids[p]
  {
    HoldsFacts(t, up, kids, rank, p);
    SlotsFacts(t, up, x);
    if ChildOf(t, x, p) {
      ForestParent(up, kids, rank, x);
    }
    hide Holds, Chain, Distinct;
  }

  lemma SlotsFacts(t: Table, up: Up, x: Handle)
    requires Slots(t, up)
    ensures x in up ==> Live(t, x) && Win(t, x).parent == up[x]
    ensures Live(t, x) ==> x in up
  {
    assert InTable(t, x) ==> (x - FIRST_HWND) + FIRST_HWND == x;
  }

  // What linking does to the table in the three ways the source does it.
  lemma LinkedOnly(t: Table, p: Handle, h: Handle, ks: seq<Handle>, behind: Handle)
    requires Chain(t, p, ks) && Sib(t, h) == 0 && ks == []
    ensures Head(t, p) == 0 && SetHead(t, p, h) == Threaded(t, p, At(ks, Place(ks, behind) - 1), h)
  {
    SetSibSame(t, h);
  }

  lemma LinkedTop(t: Table, p: Handle, h: Handle, ks: seq<Handle>)
    ensures SetHead(SetSib(t, h, Head(t, p)), p, h) == Threaded(t, p, At(ks, Place(ks, HWND_TOP) - 1), h)
  {}

  lemma LinkedLast(t: Table, p: Handle, h: Handle, ks: seq<Handle>, behind: Handle)
    requires Chain(t, p, ks) && Sib(t, h) == 0 && ks != [] && 0 !in ks && behind !in ks && behind != HWND_TOP
    ensures SetSib(t, ks[|ks| - 1], h) == Threaded(t, p, At(ks, Place(ks, behind) - 1), h)
  {
    AfterIs(ks, behind);
    SetSibSame(t, h);
    assert ks[|ks| - 1] in ks;
    hide SetSib, Distinct;
  }

  lemma LinkedBehind(t: Table, p: Handle, h: Handle, ks: seq<Handle>, behind: Handle)
    requires 0 !in ks && behind in ks && behind != HWND_TOP
    ensures SetSib(SetSib(t, h, Sib(t, behind)), behind, h) == Threaded(t, p, At(ks, Place(ks, behind) - 1), h)
  {
    AfterIs(ks, behind);
  }

  // The table with its new window linked.
  ghost function Linked(t: Table, kids: Kids, h: Handle, p: Handle, behind: Handle): Table
    requires p in kids
  {
    Threaded(Placed(t, h, p), p, At(kids[p], Place(kids[p], behind) - 1), h)
  }

  lemma LinkedIs(t: Table, kids: Kids, h: Handle, p: Handle, behind: Handle)
    requires p in kids
    ensures Linked(t, kids, h, p, behind) == Threaded(Placed(t, h, p), p, At(kids[p], Place(kids[p], behind) - 1), h)
  {}

  lemma LinkedHolds(t: Table, up: Up, kids: Kids, rank: Rank, serial: nat, h: Handle, p: Handle, behind: Handle)
    requires Holds(t, up, kids, rank) && Bounded(rank, serial) && FirstFree(t, h) && InTable(t, h) && p in kids
    ensures Place(kids[p], behind) <= |kids[p]|
    ensures Forest(up[h := p], Inserted(kids, h, p, Place(kids[p], behind)), rank[h := serial])
    ensures Slots(Linked(t, kids, h, p, behind), up[h := p])
    ensures Chains(Linked(t, kids, h, p, behind), Inserted(kids, h, p, Place(kids[p], behind)))
    ensures Bounded(rank[h := serial], serial + 1)
  {
    hide *;
    PlaceIn(kids[p], behind);
    var k := Place(kids[p], behind);
    FreeFacts(t, up, kids, rank, h);
    BoundedMore(rank, h, serial);
    LinkedIs(t, kids, h, p, behind);
    HoldsForest(t, up, kids, rank, serial);
    InsertedIs(kids, h, p, k);
    InsertForest(up, kids, rank, h, p, k, serial, up[h := p], Inserted(kids, h, p, k), rank[h := serial]);
    ThreadedHolds(t, up, kids, rank, h, p, k);
  }

  lemma HoldsForest(t: Table, up: Up, kids: Kids, rank: Rank, serial: nat)
    requires Holds(t, up, kids, rank) && Bounded(rank, serial)
    ensures Forest(up, kids, rank) && forall x :: x in rank ==> rank[x] < serial
  {
    hide Forest, Slots, Chains;
  }

  lemma InsertedIs(kids: Kids, h: Handle, p: Handle, k: nat)
    requires p in kids && k <= |kids[p]|
    ensures Inserted(kids, h, p, k) == kids[h := []][p := kids[p][..k] + [h] + kids[p][k..]]
  {}

  lemma BoundedMore(rank: Rank, h: Handle, serial: nat)
    requires Bounded(rank, serial)
    ensures Bounded(rank[h := serial], serial + 1) && Bounded(rank, serial + 1)
  {}

  lemma PlaceIn(ks: seq<Handle>, behind: Handle)
    ensures Place(ks, behind) <= |ks|
  {
    AfterIs(ks, behind);
  }

  lemma PlacedGone(t: Table, up: Up, kids: Kids, rank: Rank, h: Handle, p: Handle)
    requires Holds(t, up, kids, rank) && FirstFree(t, h) && InTable(t, h)
    ensures Put(Placed(t, h, p), h, ZERO) == t && Win(Placed(t, h, p), h).parent == p
  {
    hide Chains, Forest;
    assert t.windows[h - FIRST_HWND] == ZERO;
    assert t.windows[h - FIRST_HWND := Window(h, p, 0, 0)][h - FIRST_HWND := ZERO] == t.windows;
  }

  function Looped(t: Table, h: Handle, p: Handle): Table {
    SetSib(Placed(t, h, p), h, h)
  }

  lemma LoopedIs(t: Table, h: Handle, p: Handle)
    ensures Looped(t, h, p) == SetSib(Placed(t, h, p), h, h)
  {}

  // It is in no chain, and without it the table is the one it was made in.
  lemma LoopedGone(t: Table, up: Up, kids: Kids, rank: Rank, h: Handle, p: Handle)
    requires Holds(t, up, kids, rank) && FirstFree(t, h) && InTable(t, h) && p in kids
    ensures Put(Looped(t, h, p), h, ZERO) == t
    ensures Win(Looped(t, h, p), h).parent == p && Head(Looped(t, h, p), h) == 0
    ensures Chain(Looped(t, h, p), p, kids[p]) && 0 !in kids[p] && h !in kids[p] && h != 0
  {
    assert Forest(up, kids, rank) && h !in up by {
      FreeFacts(t, up, kids, rank, h);
    }
    hide *;
    PlacedGone(t, up, kids, rank, h, p);
    LinkFacts(t, up, kids, rank, h, p, h);
    LoopedSlot(t, h, p);
    LoopedIs(t, h, p);
    LoopedChain(Placed(t, h, p), up, kids, rank, h, p, kids[p]);
  }

  lemma LoopedSlot(t: Table, h: Handle, p: Handle)
    requires InTable(t, h)
    ensures Put(Looped(t, h, p), h, ZERO) == Put(Placed(t, h, p), h, ZERO)
    ensures Win(Looped(t, h, p), h) == Window(h, p, 0, h) && Head(Looped(t, h, p), h) == 0
  {
    assert Win(Placed(t, h, p), h) == Window(h, p, 0, 0);
    assert InTable(Placed(t, h, p), h);
  }

  // A window made its own sibling: no list has it.
  lemma LoopedHolds(t: Table, up: Up, kids: Kids, rank: Rank, h: Handle, p: Handle)
    requires Holds(t, up, kids, rank) && FirstFree(t, h) && InTable(t, h) && p in kids
    ensures var t' := SetSib(Placed(t, h, p), h, h);
      Live(t', h) && Sib(t', h) == h && Slots(t', up[h := p]) && Chains(t', kids[h := []])
  {
    var t1 := Placed(t, h, p);
    FreeFacts(t, up, kids, rank, h);
    PlacedSlots(t, up, h, p);
    PlacedChains(t, up, kids, rank, h, p);
    SetSibSlots(t1, up[h := p], h, h);
    SetFacts(t1, h, h, h, h);
    hide Slots, Forest, Placed, SetSib, Chain, FirstFree, Chains;
    var kids' := kids[h := []];
    forall q | q in kids' ensures Chain(SetSib(t1, h, h), q, kids'[q]) {
      ChainsAt(t1, kids', q);
      LoopedChain(t1, up, kids, rank, h, q, kids'[q]);
    }
    ChainsMade(SetSib(t1, h, h), kids');
  }

  lemma LoopedChain(t: Table, up: Up, kids: Kids, rank: Rank, h: Handle, q: Handle, qs: seq<Handle>)
    requires Chain(t, q, qs) && Forest(up, kids, rank) && h !in up && ((q in kids && qs == kids[q]) || qs == [])
    ensures Chain(SetSib(t, h, h), q, qs)
  {
    if q in kids {
      ForestChild(up, kids, rank, q, h);
    }
    hide Forest;
    SetFacts(t, q, h, h, q);
    forall i | 0 <= i < |qs| ensures Sib(SetSib(t, h, h), qs[i]) == At(qs, i + 1) {
      assert qs[i] in qs;
      SetFacts(t, q, h, h, qs[i]);
    }
    hide SetSib, Sib, Head;
  }

  // The sibling to go behind is not the new window itself, or there is nothing to go behind.
  ghost predicate Good(kids: Kids, h: Handle, p: Handle, behind: Handle) {
    behind != h || (p in kids && kids[p] == [])
  }

  lemma GoodIs(kids: Kids, h: Handle, p: Handle, behind: Handle)
    ensures Good(kids, h, p, behind) <==> behind != h || (p in kids && kids[p] == [])
  {}

  lemma FirstIn(ks: seq<Handle>)
    ensures ks == [] || ks[0] in ks
  {}

  // No window has one of the first `n` slots.
  ghost predicate Cleared(up: Up, n: nat) {
    forall h :: h in up ==> FIRST_HWND + n <= h
  }

  // ----- The class -------------------------------------------------------------------

  class Anchor {
    var t: Table

    ghost var up: Up
    ghost var kids: Kids
    ghost var rank: Rank
    ghost var serial: nat

    ghost predicate Valid()
      reads this
    {
      Holds(t, up, kids, rank) && Bounded(rank, serial)
    }

    ghost function Age(h: Handle): nat
      reads `rank, `serial
    {
      if h in rank && rank[h] < serial then serial - rank[h] else 0
    }

    constructor ()
      ensures Valid() && up == map[] && |t.windows| == 16
    {
      t := Table(seq(16, _ => ZERO), 0);
      up, kids, rank, serial := map[], map[DESKTOP := []], map[], 0;
    }

    // getWindowFromHWND
    method FromHandle(h: Handle) returns (found: bool)
      requires Valid()
      ensures found <==> h in up || h == DESKTOP
    {
      if h >= FIRST_HWND {
        found := h - FIRST_HWND < |t.windows| && t.windows[h - FIRST_HWND].hwnd == h;
      } else {
        found := h == DESKTOP;
      }
    }

    // The search of the parent's list for `h`: the window in front of it, 0 if it is the first.
    method FindBefore(p: Handle, h: Handle, ghost ks: seq<Handle>) returns (there: bool, before: Handle, ghost k: nat)
      requires Chain(t, p, ks) && 0 !in ks && h != 0
      ensures there <==> h in ks
      ensures there ==> k < |ks| && ks[k] == h && before == At(ks, k - 1)
    {
      there, before, k := true, 0, 0;
      if Head(t, p) == h {
        return;
      }
      var i := Head(t, p);
      while i != 0
        invariant 0 <= k <= |ks| && i == At(ks, k) && h !in ks[..k] && (k < |ks| ==> ks[k] != h)
        decreases |ks| - k
      {
        k := k + 1;
        if Sib(t, i) == h {
          before := i;
          return;
        }
        i := Sib(t, i);
      }
      there := false;
    }

    lemma RemoveNeeds(h: Handle)
      requires Valid() && h in up
      ensures Holds(t, up, kids, rank) && up[h] in kids && Win(t, h).parent == up[h] && h != 0
      ensures Chain(t, up[h], kids[up[h]]) && 0 !in kids[up[h]] && h in kids[up[h]]
    {
      ForestParent(up, kids, rank, h);
      HoldsFacts(t, up, kids, rank, up[h]);
    }

    // The end of destroyWindow: leave the parent's list and clear the slot.
    method Remove(h: Handle)
      requires Valid() && h in up && h in kids && kids[h] == []
      modifies `t, `up, `kids
      ensures |t.windows| == |old(t).windows|
      ensures up == old(up) - {h}
      ensures old(up)[h] in old(kids)
      ensures kids == old(kids)[old(up)[h] := Without(old(kids)[old(up)[h]], h)] - {h}
      ensures Slots(t, up) && Chains(t, kids)
    {
      hide *;
      RemoveNeeds(h);
      var p := Win(t, h).parent;
      var there, before, k := FindBefore(p, h, kids[p]);
      RemovedHolds(t, up, kids, rank, h, k);
      SameSize(t, p, before, h);
      t := Put(Bypass(t, p, before, h), h, ZERO);
      LessKidsIs(up, kids, h);
      kids := LessKids(up, kids, h);
      up := up - {h};
    }

    // destroyWindow: the children one after the other, then the window itself.
    method Destroy(win: Handle)
      requires Valid()
      modifies `t, `up, `kids
      ensures Valid() && |t.windows| == |old(t).windows|
      ensures win !in old(up) ==> t == old(t) && up == old(up) && kids == old(kids)
      ensures win in old(up) ==> Ranked(old(up), rank) && Pruned(old(up), old(kids), rank, win, up, kids)
      decreases Age(win)
    {
      hide *;
      LiveIsUp(win);
      if !Live(t, win) {
        return;
      }
      ghost var up0, kids0, ks := up, kids, kids[win];
      HeadIs(win);
      PeeledNone(up, kids, rank, win);
      var i := Head(t, win);
      ghost var k := 0;
      while i != 0
        invariant Valid() && |t.windows| == |old(t).windows|
        invariant Peeled(up0, kids0, rank, win, k, up, kids) && win in up
        invariant 0 <= k <= |ks| && i == At(ks, k)
        decreases |ks| - k
      {
        ghost var up1, kids1 := up, kids;
        PeeledNext(up0, kids0, win, k, i);
        var next := Sib(t, i);
        Destroy(i);
        PeeledOn(up0, kids0, up1, kids1, win, k, i);
        i, k := next, k + 1;
      }
      PeeledDone(up0, kids0, win, k);
      ghost var up1, kids1 := up, kids;
      Remove(win);
      PeeledLast(up0, kids0, rank, win, up1, kids1, up, kids);
      PrunedForest(up0, kids0, rank, win, up, kids);
      Made();
    }

    lemma LiveIsUp(h: Handle)
      requires Valid()
      ensures Live(t, h) <==> h in up
      ensures Forest(up, kids, rank) && Ranked(up, rank) && Bounded(rank, serial)
      ensures h in up ==> h in kids && h != 0
    {
      if h in up {
        ForestParent(up, kids, rank, h);
      }
    }

    lemma HeadIs(win: Handle)
      requires Valid() && win in up && win in kids
      ensures Head(t, win) == At(kids[win], 0)
    {
      HoldsFacts(t, up, kids, rank, win);
    }

    // The next child to destroy.
    lemma PeeledNext(up0: Up, kids0: Kids, win: Handle, k: nat, i: Handle)
      requires Valid() && Ranked(up0, rank) && win in up && win in kids0 && i == At(kids0[win], k) && i != 0
      requires Peeled(up0, kids0, rank, win, k, up, kids)
      ensures k < |kids0[win]| && i in up && up[i] == win && i == kids0[win][k]
      ensures Sib(t, i) == At(kids0[win], k + 1)
      ensures Forest(up, kids, rank) && Ranked(up, rank)
      ensures Age(i) < Age(win)
    {
      hide *;
      LiveIsUp(win);
      PeeledRest(up0, kids0, rank, win, k, up, kids);
      HeadNext(win, kids0[win], k);
      Younger(i);
    }

    lemma HeadNext(win: Handle, ks: seq<Handle>, k: nat)
      requires Valid() && win in kids && k <= |ks| && kids[win] == ks[k..] && At(ks, k) != 0
      ensures k < |ks| && ks[k] in up && up[ks[k]] == win && At(ks, k) == ks[k]
      ensures Sib(t, ks[k]) == At(ks, k + 1)
    {
      HoldsFacts(t, up, kids, rank, win);
      hide Valid, Holds, Distinct;
      assert kids[win][0] == ks[k] && ks[k] in kids[win];
    }

    lemma Younger(i: Handle)
      requires Valid() && i in up && up[i] in up
      ensures Age(i) < Age(up[i])
    {
      hide Slots, Chains, Owned, Listed, EachDistinct, Keyed;
    }

    lemma PeeledOn(up0: Up, kids0: Kids, up1: Up, kids1: Kids, win: Handle, k: nat, i: Handle)
      requires Ranked(up0, rank) && Ranked(up1, rank) && Forest(up1, kids1, rank)
      requires Peeled(up0, kids0, rank, win, k, up1, kids1)
      requires win in up1 && win in kids0 && k < |kids0[win]| && i == kids0[win][k] && i in up1 && up1[i] == win
      requires Pruned(up1, kids1, rank, i, up, kids)
      ensures Peeled(up0, kids0, rank, win, k + 1, up, kids) && win in up
    {
      hide *;
      PrunedAt(up1, kids1, rank, i, up, kids, win);
      ParentAbove(up1, kids1, i);
      PeeledMore(up0, kids0, rank, win, k, up1, kids1, up, kids);
    }

    lemma ParentAbove(up1: Up, kids1: Kids, i: Handle)
      requires Forest(up1, kids1, rank) && i in up1 && up1[i] in up1
      ensures Ranked(up1, rank) && !Under(up1, rank, up1[i], i)
    {
      if Under(up1, rank, up1[i], i) {
        UnderRank(up1, rank, up1[i], i);
        ParentDiffers(up1, kids1, rank, i);
      }
    }

    lemma PeeledDone(up0: Up, kids0: Kids, win: Handle, k: nat)
      requires Valid() && Ranked(up0, rank) && win in up0 && win in up && win in kids0
      requires k <= |kids0[win]| && At(kids0[win], k) == 0
      requires Peeled(up0, kids0, rank, win, k, up, kids)
      ensures win in kids && k == |kids0[win]| && kids[win] == [] && up[win] == up0[win]
    {
      PeeledRest(up0, kids0, rank, win, k, up, kids);
      HoldsFacts(t, up, kids, rank, win);
      hide *;
      NoneLeft(kids0[win], k, kids[win]);
    }

    lemma Made()
      requires Forest(up, kids, rank) && Slots(t, up) && Chains(t, kids) && Bounded(rank, serial)
      ensures Valid()
    {
      hide Forest, Slots, Chains, Bounded;
    }

    method FreeSlot() returns (h: Handle)
      requires Valid()
      ensures FirstFree(t, h)
    {
      var i := 0;
      hide Valid;
      while i < |t.windows| && t.windows[i].hwnd != 0
        invariant 0 <= i <= |t.windows|
        invariant forall j :: 0 <= j < i ==> t.windows[j].hwnd != 0
      {
        i := i + 1;
      }
      IsFirstFree(i);
      h := i + FIRST_HWND;
    }

    lemma IsFirstFree(i: nat)
      requires Valid() && i <= |t.windows|
      requires forall j :: 0 <= j < i ==> t.windows[j].hwnd != 0
      requires i < |t.windows| ==> t.windows[i].hwnd == 0
      ensures FirstFree(t, i + FIRST_HWND)
    {
      hide Chains, Forest;
      forall x | FIRST_HWND <= x < i + FIRST_HWND ensures Live(t, x) {
        assert t.windows[x - FIRST_HWND].hwnd != 0;
      }
    }

    // The slot for a new window, the array doubled if every slot is taken and there is room.
    method Reserve(room: bool) returns (h: Handle)
      requires Valid()
      modifies `t
      ensures Valid() && (h == 0 <==> Full(old(t)) && !room)
      ensures h != 0 ==> InTable(t, h) && FirstFree(t, h) && FirstFree(old(t), h)
      ensures t == if h != 0 && Full(old(t)) then Doubled(old(t)) else old(t)
    {
      h := FreeSlot();
      FreeFacts(t, up, kids, rank, h);
      assert !InTable(t, h) ==> Full(t);
      hide FirstFree, Full, Holds;
      if !InTable(t, h) {
        if !room {
          return 0;
        }
        DoubledHolds(t, up, kids, rank);
        t := Doubled(t);
      }
    }

    // The end of the list whose links spell `ks`.
    method Last(p: Handle, ghost ks: seq<Handle>) returns (prev: Handle)
      requires Chain(t, p, ks) && ks != [] && 0 !in ks
      ensures prev == ks[|ks| - 1]
    {
      prev := 0;
      var i := Head(t, p);
      ghost var k := 0;
      while i != 0
        invariant 0 <= k <= |ks| && i == At(ks, k) && prev == At(ks, k - 1)
        decreases |ks| - k
      {
        prev, i, k := i, Sib(t, i), k + 1;
      }
    }

    // Linking the new window `h` into the list of its parent.
    method Link(h: Handle, p: Handle, behind: Handle, ghost t0: Table)
      requires Holds(t0, up, kids, rank) && FirstFree(t0, h) && InTable(t0, h) && p in kids
      requires t == Placed(t0, h, p)
      modifies `t
      ensures behind != h || kids[p] == [] ==> t == Linked(t0, kids, h, p, behind)
      ensures behind == h && kids[p] != [] ==> t == SetSib(Placed(t0, h, p), h, h)
    {
      hide *;
      LinkFacts(t0, up, kids, rank, h, p, behind);
      FreeFacts(t0, up, kids, rank, h);
      LinkedIs(t0, kids, h, p, behind);
      var at := behind;
      if at != HWND_TOP && at != HWND_BOTTOM && !ChildOf(t, at, p) {
        at := HWND_BOTTOM;
      }
      LinkAt(h, p, at, behind, kids[p]);
    }

    // The four ways of linking; `at` is `behind`, or HWND_BOTTOM if that is no child of `p`.
    method LinkAt(h: Handle, p: Handle, at: Handle, ghost behind: Handle, ghost ks: seq<Handle>)
      requires Chain(t, p, ks) && 0 !in ks && HWND_TOP !in ks && HWND_BOTTOM !in ks && Sib(t, h) == 0
      requires h != HWND_TOP && h != HWND_BOTTOM
      requires at == if behind == HWND_TOP || behind == h || behind in ks then behind else HWND_BOTTOM
      modifies `t
      ensures behind != h || ks == [] ==> t == Threaded(old(t), p, At(ks, Place(ks, behind) - 1), h)
      ensures behind == h && ks != [] ==> t == SetSib(old(t), h, h)
    {
      assert HWND_TOP != HWND_BOTTOM;
      hide *;
      HeadZero(t, p, ks);
      if Head(t, p) == 0 {
        LinkedOnly(t, p, h, ks, behind);
        t := SetHead(t, p, h);
      } else if at == HWND_TOP {
        LinkedTop(t, p, h, ks);
        t := SetHead(SetSib(t, h, Head(t, p)), p, h);
      } else if at == HWND_BOTTOM {
        LinkedLast(t, p, h, ks, behind);
        var prev := Last(p, ks);
        t := SetSib(t, prev, h);
      } else {
        if at == h {
          SetSibSame(t, h);
        } else {
          LinkedBehind(t, p, h, ks, behind);
        }
        t := SetSib(SetSib(t, h, Sib(t, at)), at, h);
      }
    }

    // destroyWindow on a window that was never linked: its parent's list does not have it.
    method Forget(h: Handle, ghost t0: Table, ghost p: Handle)
      requires Holds(t0, up, kids, rank) && FirstFree(t0, h) && InTable(t0, h) && p in kids
      requires t == Placed(t0, h, p)
      modifies `t
      ensures t == t0
    {
      hide *;
      LinkFacts(t0, up, kids, rank, h, p, h);
      PlacedGone(t0, up, kids, rank, h, p);
      var there, before, k := FindBefore(Win(t, h).parent, h, kids[p]);
      assert !there;
      t := Put(t, h, ZERO);
    }

    // WinCreateWindow.  `known`: there is a queue and the class is registered; `room`: the
    // array can grow; `made`: everything else the window needs was allocated; `cancel`: the
    // answer to WM_CREATE; `behind`: the sibling to go behind, after WM_ADJUSTWINDOWPOS.
    method Create(p: Handle, behind: Handle, known: bool, room: bool, made: bool, cancel: bool) returns (h: Handle)
      requires Valid()
      modifies this
      ensures h != 0 <==> known && (p in old(up) || p == DESKTOP) && (room || !Full(old(t))) && made && !cancel
      ensures h == 0 ==> Valid() && up == old(up) && kids == old(kids) && rank == old(rank)
      ensures h == 0 ==> t == old(t) || (t == Doubled(old(t)) && Full(old(t)))
      ensures h != 0 ==> FirstFree(old(t), h) && p in old(kids) && h !in old(up) && h !in old(kids)
      ensures h != 0 ==> up == old(up)[h := p] && Slots(t, up) && Chains(t, kids)
      ensures h != 0 && Good(old(kids), h, p, behind) ==>
        Valid() && Place(old(kids)[p], behind) <= |old(kids)[p]| &&
        kids == Inserted(old(kids), h, p, Place(old(kids)[p], behind))
      ensures h != 0 && !Good(old(kids), h, p, behind) ==> Live(t, h) && Sib(t, h) == h && kids == old(kids)[h := []]
      ensures h != 0 && !Good(old(kids), h, p, behind) ==>
        var t0 := if Full(old(t)) then Doubled(old(t)) else old(t);
        Holds(t0, old(up), old(kids), old(rank)) && InTable(t0, h) && FirstFree(t0, h) && t == Looped(t0, h, p) &&
        Bounded(old(rank), serial)
    {
      hide *;
      h := 0;
      if !known {
        return;
      }
      var found := FromHandle(p);
      if !found {
        return;
      }
      var slot := Reserve(room);
      if slot == 0 || !made {
        return;
      }
      ghost var t0 := t;
      SlotReady(slot, p);
      t := Placed(t, slot, p);
      if cancel {
        Forget(slot, t0, p);
        return;
      }
      Link(slot, p, behind, t0);
      h := slot;
      LinkedHolds(t0, up, kids, rank, serial, h, p, behind);
      LoopedHolds(t0, up, kids, rank, h, p);
      LoopedIs(t0, h, p);
      BoundedMore(rank, h, serial);
      GoodIs(kids, h, p, behind);
      kids := if Good(kids, h, p, behind) then Inserted(kids, h, p, Place(kids[p], behind)) else kids[h := []];
      up, rank, serial := up[h := p], rank[h := serial], serial + 1;
      if Good(old(kids), h, p, behind) {
        Made();
      }
    }

    lemma SlotReady(h: Handle, p: Handle)
      requires Valid() && FirstFree(t, h) && (p in up || p == DESKTOP)
      ensures Holds(t, up, kids, rank) && Bounded(rank, serial) && p in kids && h !in up && h !in kids
    {
      FreeFacts(t, up, kids, rank, h);
      ForestParts(up, kids, rank, h);
      hide Holds, FirstFree, Bounded;
    }

    // WinDestroyWindow
    method DestroyWindow(h: Handle) returns (ok: bool)
      requires Valid()
      modifies `t, `up, `kids
      ensures Valid() && (ok <==> h in old(up) || h == DESKTOP)
      ensures h !in old(up) ==> t == old(t) && up == old(up) && kids == old(kids)
      ensures h in old(up) ==> Ranked(old(up), rank) && Pruned(old(up), old(kids), rank, h, up, kids)
    {
      hide *;
      ok := FromHandle(h);
      if ok {
        Destroy(h);
      }
    }

    // WinDestroyWindow on a window that has just been made its own sibling: it has no
    // children and is in no list, so its slot is cleared and the forest it was made in is back.
    method DestroyLooped(h: Handle, ghost p: Handle, ghost t0: Table, ghost up0: Up, ghost kids0: Kids,
        ghost rank0: Rank)
      requires Holds(t0, up0, kids0, rank0) && Bounded(rank0, serial)
      requires FirstFree(t0, h) && InTable(t0, h) && p in kids0 && t == Looped(t0, h, p)
      modifies this
      ensures Valid() && t == t0 && up == up0 && kids == kids0 && rank == rank0
    {
      hide *;
      LoopedGone(t0, up0, kids0, rank0, h, p);
      assert Head(t, h) == 0;
      var there, before, k := FindBefore(Win(t, h).parent, h, kids0[p]);
      assert !there;
      t := Put(t, h, ZERO);
      up, kids, rank := up0, kids0, rank0;
      Back();
    }

    lemma Back()
      requires Holds(t, up, kids, rank) && Bounded(rank, serial)
      ensures Valid()
    {
      hide Holds, Bounded;
    }

    // The part of WinTerminate that destroys every window, in slot order.
    method Terminate()
      requires Valid()
      modifies `t, `up, `kids
      ensures Valid() && up == map[] && kids == map[DESKTOP := []] && t.top == 0
      ensures forall i :: 0 <= i < |t.windows| ==> t.windows[i] == ZERO
    {
      hide *;
      NoneCleared();
      var i := 0;
      while i < |t.windows|
        invariant Valid() && 0 <= i <= |t.windows| && Cleared(up, i)
        decreases |t.windows| - i
      {
        ghost var up0, kids0 := up, kids;
        Destroy(i + FIRST_HWND);
        ClearedMore(up0, kids0, i);
        i := i + 1;
      }
      AllCleared();
    }

    lemma NoneCleared()
      requires Valid()
      ensures Cleared(up, 0)
    {
      forall h | h in up ensures FIRST_HWND <= h {
        SlotsFacts(t, up, h);
      }
    }

    lemma ClearedMore(up0: Up, kids0: Kids, i: nat)
      requires Cleared(up0, i)
      requires i + FIRST_HWND !in up0 ==> up == up0
      requires i + FIRST_HWND in up0 ==> Ranked(up0, rank) && Pruned(up0, kids0, rank, i + FIRST_HWND, up, kids)
      ensures Cleared(up, i + 1)
    {
      if i + FIRST_HWND in up0 {
        PrunedAt(up0, kids0, rank, i + FIRST_HWND, up, kids, i + FIRST_HWND);
        UnderFacts(up0, rank, i + FIRST_HWND, i + FIRST_HWND);
      }
      hide Ranked, Under;
    }

    lemma AllCleared()
      requires Valid() && Cleared(up, |t.windows|)
      ensures up == map[] && kids == map[DESKTOP := []] && t.top == 0
      ensures forall i :: 0 <= i < |t.windows| ==> t.windows[i] == ZERO
    {
      forall h ensures h !in up {
        SlotsFacts(t, up, h);
      }
      assert up == map[];
      ForestChild(up, kids, rank, DESKTOP, 0);
      FirstIn(kids[DESKTOP]);
      assert Chain(t, DESKTOP, kids[DESKTOP]);
    }
  }
}
