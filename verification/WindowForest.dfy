/**
  The forest of windows behind the slot table of native/pmwin.c, on plain values:
  `up` gives each live window its parent, `kids` gives each parent its children in
  z-order, and `rank` numbers windows in order of creation.
 */
module WindowForest {
  import opened Lists

  type Handle = nat
  const DESKTOP: Handle := 1

  type Up = map<Handle, Handle>
  type Kids = map<Handle, seq<Handle>>
  type Rank = map<Handle, nat>

  // Parents are older than their children.
  ghost predicate Ranked(up: Up, rank: Rank) {
    forall c {:trigger up[c]} :: c in up ==> c in rank && (up[c] in up ==> up[c] in rank && rank[up[c]] < rank[c])
  }

  ghost predicate Keyed(up: Up, kids: Kids) {
    kids.Keys == up.Keys + {DESKTOP} && DESKTOP !in up && 0 !in up
  }

  ghost predicate Listed(up: Up, kids: Kids) {
    forall c {:trigger up[c]} :: c in up ==> up[c] in kids && c in kids[up[c]]
  }

  ghost predicate OwnedBy(up: Up, p: Handle, ks: seq<Handle>) {
    forall c :: c in ks ==> c in up && up[c] == p
  }

  ghost predicate Owned(up: Up, kids: Kids) {
    forall p :: p in kids ==> OwnedBy(up, p, kids[p])
  }

  ghost predicate EachDistinct(kids: Kids) {
    forall p :: p in kids ==> Distinct(kids[p])
  }

  // Every window is in the list of its parent, exactly once, and in no other list.
  ghost predicate Forest(up: Up, kids: Kids, rank: Rank) {
    Keyed(up, kids) && Ranked(up, rank) && Listed(up, kids) && Owned(up, kids) && EachDistinct(kids)
  }

  // `x` is `w` or below it.
  ghost predicate Under(up: Up, rank: Rank, x: Handle, w: Handle)
    requires Ranked(up, rank)
    decreases if x in rank then rank[x] else 0
  {
    x in up && (x == w || (up[x] in up && Under(up, rank, up[x], w)))
  }

  ghost function Without(s: seq<Handle>, w: Handle): seq<Handle> {
    if s == [] then [] else if s[0] == w then s[1..] else [s[0]] + Without(s[1..], w)
  }

  lemma {:induction false} WithoutElems(s: seq<Handle>, w: Handle)
    requires Distinct(s)
    ensures Distinct(Without(s, w))
    ensures forall x :: x in Without(s, w) <==> x in s && x != w
  {
    if s != [] {
      WithoutElems(s[1..], w);
      assert s == [s[0]] + s[1..] && s[0] !in s[1..];
      var t := Without(s[1..], w);
      assert forall j :: 0 <= j < |t| ==> t[j] in t;
    }
  }

  // What destroying `w` does: its subtree goes, its parent's list loses it, every other
  // list stays as it is.
  ghost predicate Pruned(up: Up, kids: Kids, rank: Rank, w: Handle, up': Up, kids': Kids)
    requires Ranked(up, rank)
  {
    && w in up
    && (forall x :: x in up' <==> x in up && !Under(up, rank, x, w))
    && (forall x {:trigger up'[x]} :: x in up' ==> up'[x] == up[x])
    && kids'.Keys == up'.Keys + {DESKTOP}
    && (forall p :: p in kids' ==> p in kids && kids'[p] == if p == up[w] then Without(kids[p], w) else kids[p])
  }

  // ----- Ancestors ----------------------------------------------------------------

  // Removing windows together with everything below them does not change who is below whom.
  lemma {:induction false} UnderFrame(up: Up, up': Up, rank: Rank, x: Handle, w: Handle)
    requires Ranked(up, rank) && Ranked(up', rank)
    requires forall y :: y in up' ==> y in up && up'[y] == up[y] && (up[y] in up ==> up[y] in up')
    requires x in up'
    ensures Under(up', rank, x, w) <==> Under(up, rank, x, w)
    decreases if x in rank then rank[x] else 0
  {
    if x != w && up[x] in up {
      UnderFrame(up, up', rank, up[x], w);
    }
  }

  // Below `w` means being `w` or below one of its children.
  lemma {:induction false} UnderChild(up: Up, kids: Kids, rank: Rank, x: Handle, w: Handle)
    requires Forest(up, kids, rank) && w in up
    ensures Under(up, rank, x, w) <==>
      x == w || exists c :: c in kids[w] && Under(up, rank, x, c)
    decreases if x in rank then rank[x] else 0
  {
    if x in up && x != w {
      if up[x] == w {
        assert x in kids[w] && Under(up, rank, x, x);
      }
      if up[x] in up {
        UnderChild(up, kids, rank, up[x], w);
      }
    }
  }

  // A window is not below its own sibling or child.
  lemma {:induction false} UnderRank(up: Up, rank: Rank, x: Handle, w: Handle)
    requires Ranked(up, rank) && Under(up, rank, x, w)
    ensures w in up && x in rank && w in rank && (x == w || rank[w] < rank[x])
    decreases if x in rank then rank[x] else 0
  {
    if x != w {
      UnderRank(up, rank, up[x], w);
    }
  }

  // ----- One child less ------------------------------------------------------------

  lemma {:induction false} WithoutHead(s: seq<Handle>)
    requires s != []
    ensures Without(s, s[0]) == s[1..]
  {}

  // `x` is below one of `ws`.
  ghost predicate UnderAny(up: Up, rank: Rank, x: Handle, ws: seq<Handle>)
    requires Ranked(up, rank)
  {
    ws != [] && (Under(up, rank, x, ws[|ws| - 1]) || UnderAny(up, rank, x, ws[..|ws| - 1]))
  }

  lemma {:induction false} UnderAnyUp(up: Up, rank: Rank, x: Handle, ws: seq<Handle>)
    requires Ranked(up, rank) && x in up && up[x] in up
    ensures UnderAny(up, rank, up[x], ws) ==> UnderAny(up, rank, x, ws)
  {
    if ws != [] {
      UnderAnyUp(up, rank, x, ws[..|ws| - 1]);
    }
  }

  lemma {:induction false} UnderAnyOf(up: Up, rank: Rank, x: Handle, ws: seq<Handle>)
    requires Ranked(up, rank)
    ensures UnderAny(up, rank, x, ws) <==> exists c :: c in ws && Under(up, rank, x, c)
  {
    if ws != [] {
      var n := |ws| - 1;
      UnderAnyOf(up, rank, x, ws[..n]);
      assert ws == ws[..n] + [ws[n]];
      assert ws[n] in ws;
      if UnderAny(up, rank, x, ws[..n]) {
        var c :| c in ws[..n] && Under(up, rank, x, c);
        assert c in ws;
      }
    }
  }

  // Destroying the children one after the other leaves the window itself a leaf: the
  // state after the first `k` of them.
  ghost predicate Peeled(up: Up, kids: Kids, rank: Rank, w: Handle, k: nat, up': Up, kids': Kids)
    requires Ranked(up, rank)
  {
    && w in up && w in kids && k <= |kids[w]|
    && (forall x :: x in up' <==> x in up && !UnderAny(up, rank, x, kids[w][..k]))
    && (forall x {:trigger up'[x]} :: x in up' ==> up'[x] == up[x])
    && kids'.Keys == up'.Keys + {DESKTOP}
    && (forall p :: p in kids' ==> p in kids && kids'[p] == if p == w then kids[w][k..] else kids[p])
  }

  lemma PeeledNone(up: Up, kids: Kids, rank: Rank, w: Handle)
    requires Forest(up, kids, rank) && w in up
    ensures Peeled(up, kids, rank, w, 0, up, kids)
  {}

  // What is left is closed under parents.
  lemma PeeledClosed(up: Up, kids: Kids, rank: Rank, w: Handle, k: nat, up1: Up, kids1: Kids)
    requires Ranked(up, rank) && Peeled(up, kids, rank, w, k, up1, kids1)
    ensures forall y :: y in up1 ==> y in up && up1[y] == up[y] && (up[y] in up ==> up[y] in up1)
  {
    forall y | y in up1 && up[y] in up ensures up[y] in up1 {
      UnderAnyUp(up, rank, y, kids[w][..k]);
    }
  }

  lemma PeeledUnder(up: Up, kids: Kids, rank: Rank, w: Handle, k: nat, up1: Up, kids1: Kids, x: Handle)
    requires Ranked(up, rank) && Ranked(up1, rank) && Peeled(up, kids, rank, w, k, up1, kids1)
    requires x in up1 && k < |kids[w]|
    ensures Under(up1, rank, x, kids[w][k]) <==> Under(up, rank, x, kids[w][k])
  {
    PeeledClosed(up, kids, rank, w, k, up1, kids1);
    UnderFrame(up, up1, rank, x, kids[w][k]);
  }

  lemma PeeledRest(up: Up, kids: Kids, rank: Rank, w: Handle, k: nat, up1: Up, kids1: Kids)
    requires Ranked(up, rank) && Peeled(up, kids, rank, w, k, up1, kids1) && w in up1
    ensures w in kids1 && k <= |kids[w]| && kids1[w] == kids[w][k..] && up1[w] == up[w]
  {
    hide UnderAny, Ranked;
  }

  lemma PeeledMore(up: Up, kids: Kids, rank: Rank, w: Handle, k: nat, up1: Up, kids1: Kids, up2: Up, kids2: Kids)
    requires Ranked(up, rank) && Ranked(up1, rank)
    requires Peeled(up, kids, rank, w, k, up1, kids1) && k < |kids[w]|
    requires Pruned(up1, kids1, rank, kids[w][k], up2, kids2) && up1[kids[w][k]] == w && w in up2
    ensures Peeled(up, kids, rank, w, k + 1, up2, kids2)
  {
    PeeledMoreUp(up, kids, rank, w, k, up1, kids1, up2, kids2);
    hide Under, Ranked, UnderAny;
    WithoutHead(kids1[w]);
    assert kids[w][k..][1..] == kids[w][k + 1..];
  }

  lemma PeeledMoreUp(up: Up, kids: Kids, rank: Rank, w: Handle, k: nat, up1: Up, kids1: Kids, up2: Up, kids2: Kids)
    requires Ranked(up, rank) && Ranked(up1, rank)
    requires Peeled(up, kids, rank, w, k, up1, kids1) && k < |kids[w]|
    requires Pruned(up1, kids1, rank, kids[w][k], up2, kids2)
    ensures forall x :: x in up2 <==> x in up && !UnderAny(up, rank, x, kids[w][..k + 1])
    ensures forall x :: x in up2 ==> up2[x] == up[x]
  {
    var c := kids[w][k];
    assert kids[w][..k + 1][..k] == kids[w][..k];
    forall x ensures x in up2 <==> x in up && !UnderAny(up, rank, x, kids[w][..k + 1]) {
      assert UnderAny(up, rank, x, kids[w][..k + 1]) <==> Under(up, rank, x, c) || UnderAny(up, rank, x, kids[w][..k]);
      if x in up1 {
        PeeledUnder(up, kids, rank, w, k, up1, kids1, x);
      }
    }
  }

  lemma ParentDiffers(up: Up, kids: Kids, rank: Rank, w: Handle)
    requires Forest(up, kids, rank) && w in up
    ensures Ranked(up, rank) && up[w] != w && w != DESKTOP && up[w] in kids && w in kids[up[w]] && w in kids
  {}

  lemma PeeledLastUp(up: Up, kids: Kids, rank: Rank, w: Handle, up1: Up, kids1: Kids, up2: Up)
    requires Forest(up, kids, rank) && w in up
    requires Peeled(up, kids, rank, w, |kids[w]|, up1, kids1) && up2 == up1 - {w}
    ensures forall x :: x in up2 <==> x in up && !Under(up, rank, x, w)
    ensures forall x :: x in up2 ==> up2[x] == up[x]
  {
    var ks := kids[w];
    assert ks[..|ks|] == ks;
    forall x ensures x in up2 <==> x in up && !Under(up, rank, x, w) {
      UnderChild(up, kids, rank, x, w);
      UnderAnyOf(up, rank, x, ks);
    }
  }

  lemma PeeledLastKids(up: Up, kids: Kids, rank: Rank, w: Handle, up1: Up, kids1: Kids, up2: Up, kids2: Kids)
    requires Ranked(up, rank) && w in up && w in kids && Peeled(up, kids, rank, w, |kids[w]|, up1, kids1)
    requires up[w] != w && w != DESKTOP && up[w] in kids1 && up2 == up1 - {w}
    requires kids2 == kids1[up[w] := Without(kids1[up[w]], w)] - {w}
    ensures kids2.Keys == up2.Keys + {DESKTOP}
    ensures forall p :: p in kids2 ==> p in kids && kids2[p] == if p == up[w] then Without(kids[p], w) else kids[p]
  {
    hide Under, UnderAny, Without, Ranked;
  }

  // Taking the leaf itself out completes the destruction.
  lemma PeeledLast(up: Up, kids: Kids, rank: Rank, w: Handle, up1: Up, kids1: Kids, up2: Up, kids2: Kids)
    requires Forest(up, kids, rank) && w in up
    requires Peeled(up, kids, rank, w, |kids[w]|, up1, kids1)
    requires up[w] in kids1 && up2 == up1 - {w}
    requires kids2 == kids1[up[w] := Without(kids1[up[w]], w)] - {w}
    ensures Pruned(up, kids, rank, w, up2, kids2)
  {
    hide *;
    ParentDiffers(up, kids, rank, w);
    PeeledLastUp(up, kids, rank, w, up1, kids1, up2);
    PeeledLastKids(up, kids, rank, w, up1, kids1, up2, kids2);
    PrunedParts(up, kids, rank, w, up2, kids2);
  }

  lemma PrunedParts(up: Up, kids: Kids, rank: Rank, w: Handle, up': Up, kids': Kids)
    requires Ranked(up, rank) && w in up
    requires forall x :: x in up' <==> x in up && !Under(up, rank, x, w)
    requires forall x :: x in up' ==> up'[x] == up[x]
    requires kids'.Keys == up'.Keys + {DESKTOP}
    requires forall p :: p in kids' ==> p in kids && kids'[p] == if p == up[w] then Without(kids[p], w) else kids[p]
    ensures Pruned(up, kids, rank, w, up', kids')
  {}

  // ----- What is left after a destruction is a forest again ---------------------------

  lemma PrunedAt(up: Up, kids: Kids, rank: Rank, w: Handle, up': Up, kids': Kids, x: Handle)
    requires Ranked(up, rank) && Pruned(up, kids, rank, w, up', kids')
    ensures x in up' <==> x in up && !Under(up, rank, x, w)
    ensures x in up' ==> up'[x] == up[x]
    ensures x in kids' <==> x in up' || x == DESKTOP
    ensures x in kids' ==> x in kids && kids'[x] == if x == up[w] then Without(kids[x], w) else kids[x]
  {}

  lemma PrunedRanked(up: Up, kids: Kids, rank: Rank, w: Handle, up': Up, kids': Kids)
    requires Ranked(up, rank) && Pruned(up, kids, rank, w, up', kids')
    ensures Ranked(up', rank)
  {
    hide Under;
  }

  lemma ForestChild(up: Up, kids: Kids, rank: Rank, p: Handle, c: Handle)
    requires Forest(up, kids, rank) && p in kids
    ensures Ranked(up, rank) && Distinct(kids[p])
    ensures c in kids[p] ==> c in up && up[c] == p
    ensures DESKTOP !in up && (p == DESKTOP || p in up)
  {
    assert OwnedBy(up, p, kids[p]);
    hide Ranked, Listed, Distinct;
  }

  lemma ForestParent(up: Up, kids: Kids, rank: Rank, c: Handle)
    requires Forest(up, kids, rank) && c in up
    ensures Ranked(up, rank) && c != DESKTOP && up[c] in kids && c in kids[up[c]]
    ensures up[c] == DESKTOP || up[c] in up
  {
    hide Ranked, Owned, Distinct;
  }

  lemma UnderFacts(up: Up, rank: Rank, x: Handle, w: Handle)
    requires Ranked(up, rank) && x in up
    ensures Under(up, rank, w, w) <==> w in up
    ensures x != w ==> (Under(up, rank, x, w) <==> up[x] in up && Under(up, rank, up[x], w))
  {}

  lemma PrunedChild(up: Up, kids: Kids, rank: Rank, w: Handle, up': Up, kids': Kids, p: Handle, c: Handle)
    requires Ranked(up, rank) && Forest(up, kids, rank) && Pruned(up, kids, rank, w, up', kids')
    requires w in up && p in kids' && c in kids'[p]
    ensures c in up' && up'[c] == p
  {
    hide *;
    PrunedAt(up, kids, rank, w, up', kids', p);
    PrunedAt(up, kids, rank, w, up', kids', c);
    ForestChild(up, kids, rank, p, c);
    WithoutElems(kids[p], w);
    UnderFacts(up, rank, c, w);
    ForestParent(up, kids, rank, w);
    ForestChild(up, kids, rank, up[w], w);
  }

  lemma PrunedParent(up: Up, kids: Kids, rank: Rank, w: Handle, up': Up, kids': Kids, c: Handle)
    requires Ranked(up, rank) && Forest(up, kids, rank) && Pruned(up, kids, rank, w, up', kids')
    requires w in up && c in up'
    ensures up'[c] in kids' && c in kids'[up'[c]]
  {
    hide *;
    PrunedAt(up, kids, rank, w, up', kids', c);
    PrunedAt(up, kids, rank, w, up', kids', up[c]);
    ForestParent(up, kids, rank, c);
    ForestChild(up, kids, rank, up[c], c);
    WithoutElems(kids[up[c]], w);
    UnderFacts(up, rank, c, w);
  }

  lemma PrunedDistinct(up: Up, kids: Kids, rank: Rank, w: Handle, up': Up, kids': Kids, p: Handle)
    requires Forest(up, kids, rank) && Pruned(up, kids, rank, w, up', kids')
    requires p in kids'
    ensures Distinct(kids'[p])
  {
    PrunedAt(up, kids, rank, w, up', kids', p);
    assert Distinct(kids[p]);
    WithoutElems(kids[p], w);
  }

  lemma PrunedForest(up: Up, kids: Kids, rank: Rank, w: Handle, up': Up, kids': Kids)
    requires Ranked(up, rank) && Forest(up, kids, rank) && Pruned(up, kids, rank, w, up', kids')
    ensures Forest(up', kids', rank)
  {
    PrunedRanked(up, kids, rank, w, up', kids');
    PrunedKeyed(up, kids, rank, w, up', kids');
    PrunedOwned(up, kids, rank, w, up', kids');
    PrunedListed(up, kids, rank, w, up', kids');
    hide Ranked, Keyed, Owned, Listed, Pruned, Distinct;
    forall p | p in kids' ensures Distinct(kids'[p]) {
      PrunedDistinct(up, kids, rank, w, up', kids', p);
    }
  }

  lemma PrunedOwned(up: Up, kids: Kids, rank: Rank, w: Handle, up': Up, kids': Kids)
    requires Ranked(up, rank) && Forest(up, kids, rank) && Pruned(up, kids, rank, w, up', kids')
    ensures Owned(up', kids')
  {
    assert w in up;
    hide Forest, Pruned, Ranked, OwnedBy;
    forall p | p in kids' ensures OwnedBy(up', p, kids'[p]) {
      PrunedOwnedBy(up, kids, rank, w, up', kids', p);
    }
  }

  lemma PrunedOwnedBy(up: Up, kids: Kids, rank: Rank, w: Handle, up': Up, kids': Kids, p: Handle)
    requires Ranked(up, rank) && Forest(up, kids, rank) && Pruned(up, kids, rank, w, up', kids')
    requires w in up && p in kids'
    ensures OwnedBy(up', p, kids'[p])
  {
    hide Forest, Pruned, Ranked;
    forall c | c in kids'[p] ensures c in up' && up'[c] == p {
      PrunedChild(up, kids, rank, w, up', kids', p, c);
    }
  }

  lemma PrunedListed(up: Up, kids: Kids, rank: Rank, w: Handle, up': Up, kids': Kids)
    requires Ranked(up, rank) && Forest(up, kids, rank) && Pruned(up, kids, rank, w, up', kids')
    ensures Listed(up', kids')
  {
    assert w in up;
    hide *;
    forall c | c in up' ensures up'[c] in kids' && c in kids'[up'[c]] {
      PrunedParent(up, kids, rank, w, up', kids', c);
    }
    ListedOf(up', kids');
  }

  lemma ListedOf(up: Up, kids: Kids)
    requires forall c {:trigger up[c]} :: c in up ==> up[c] in kids && c in kids[up[c]]
    ensures Listed(up, kids)
  {}

  lemma PrunedKeyed(up: Up, kids: Kids, rank: Rank, w: Handle, up': Up, kids': Kids)
    requires Keyed(up, kids) && Ranked(up, rank) && Pruned(up, kids, rank, w, up', kids')
    ensures Keyed(up', kids')
  {
    hide Under;
  }

  // ----- A new window --------------------------------------------------------------

  lemma InsertElems(ks: seq<Handle>, k: nat, h: Handle)
    requires k <= |ks| && Distinct(ks) && h !in ks
    ensures var ks' := ks[..k] + [h] + ks[k..]; Distinct(ks') && forall x :: x in ks' <==> x in ks || x == h
  {
    var ks' := ks[..k] + [h] + ks[k..];
    assert ks == ks[..k] + ks[k..];
  }

  // A leaf put into the list of its parent `p` after the first `k` children.
  lemma InsertForest(up: Up, kids: Kids, rank: Rank, h: Handle, p: Handle, k: nat, n: nat, up': Up, kids': Kids,
      rank': Rank)
    requires Forest(up, kids, rank) && h !in up && h != DESKTOP && h != 0
    requires p in kids && k <= |kids[p]| && forall x :: x in rank ==> rank[x] < n
    requires up' == up[h := p] && rank' == rank[h := n]
    requires kids' == kids[h := []][p := kids[p][..k] + [h] + kids[p][k..]]
    ensures Forest(up', kids', rank')
  {
    hide *;
    var ks := kids[p][..k] + [h] + kids[p][k..];
    ForestChild(up, kids, rank, p, h);
    ForestParts(up, kids, rank, h);
    InsertElems(kids[p], k, h);
    InsertRanked(up, kids, rank, h, p, n);
    InsertOwned(up, kids, h, p, ks);
    InsertListed(up, kids, h, p, ks);
    InsertKeyed(up, kids, h, p, ks);
    ForestMade(up', kids', rank');
  }

  lemma ForestParts(up: Up, kids: Kids, rank: Rank, h: Handle)
    requires Forest(up, kids, rank)
    ensures Keyed(up, kids) && Ranked(up, rank) && Listed(up, kids) && Owned(up, kids) && EachDistinct(kids)
    ensures h !in up && h != DESKTOP ==> h !in kids
  {
    hide Ranked, Listed, Owned, EachDistinct;
  }

  lemma ForestMade(up: Up, kids: Kids, rank: Rank)
    requires Keyed(up, kids) && Ranked(up, rank) && Listed(up, kids) && Owned(up, kids) && EachDistinct(kids)
    ensures Forest(up, kids, rank)
  {
    hide Ranked, Listed, Owned, EachDistinct, Keyed;
  }

  lemma InsertKeyed(up: Up, kids: Kids, h: Handle, p: Handle, ks: seq<Handle>)
    requires Keyed(up, kids) && EachDistinct(kids) && h != DESKTOP && h != 0 && p in kids && Distinct(ks)
    ensures Keyed(up[h := p], kids[h := []][p := ks]) && EachDistinct(kids[h := []][p := ks])
  {
    assert Distinct([]);
    hide Distinct;
  }

  lemma InsertOwned(up: Up, kids: Kids, h: Handle, p: Handle, ks: seq<Handle>)
    requires Owned(up, kids) && h !in up && p in kids && p != h
    requires forall x :: x in ks <==> x in kids[p] || x == h
    ensures Owned(up[h := p], kids[h := []][p := ks])
  {
    var kids' := kids[h := []][p := ks];
    forall q | q in kids' ensures OwnedBy(up[h := p], q, kids'[q]) {
      if q != h {
        assert OwnedBy(up, q, kids[q]);
      }
    }
  }

  lemma InsertListed(up: Up, kids: Kids, h: Handle, p: Handle, ks: seq<Handle>)
    requires Listed(up, kids) && h !in up && h !in kids && p in kids && p != h
    requires forall x :: x in ks <==> x in kids[p] || x == h
    ensures Listed(up[h := p], kids[h := []][p := ks])
  {}

  lemma InsertRanked(up: Up, kids: Kids, rank: Rank, h: Handle, p: Handle, n: nat)
    requires Keyed(up, kids) && Listed(up, kids) && Ranked(up, rank) && h !in up && h != DESKTOP && p in kids
    requires forall x :: x in rank ==> rank[x] < n
    ensures Ranked(up[h := p], rank[h := n])
  {
    forall c | c in up ensures up[c] != h {
      assert up[c] in kids;
    }
  }
}
