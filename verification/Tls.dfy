/**
  The allocator of thread-local slots of native/doscalls.c: 32 slots, a 32-bit word with a
  bit for each slot in use, and the length of the block that starts at each slot.  A word
  is given here as the set of its bits.
 */
module Tls {

  const SLOTS := 32

  type Word = set<nat>

  function Xor(a: Word, b: Word): Word {
    (a - b) + (b - a)
  }

  function And(a: Word, b: Word): Word {
    a * b
  }

  // The shift drops what leaves the word.
  function ShiftLeft(a: Word): Word {
    set b | b in a && b + 1 < SLOTS :: b + 1
  }

  predicate InRun(b: nat, i: nat, cb: nat) {
    i <= b < i + cb
  }

  // 0xFF >> (8 - cb)
  function Ones(cb: nat): Word {
    set b: nat | b < SLOTS && InRun(b, 0, cb)
  }

  // The bits for a block of `cb` slots at `i`, as far as they are in the word.
  function Block(i: nat, cb: nat): Word {
    set b: nat | b < SLOTS && InRun(b, i, cb)
  }

  // ----- What is in use ------------------------------------------------------------

  predicate Fits(mask: Word, i: nat, cb: nat) {
    Block(i, cb) !! mask
  }

  ghost function FirstFit(mask: Word, i: nat, cb: nat): (r: nat)
    requires i <= SLOTS
    ensures i <= r <= SLOTS
    decreases SLOTS - i
  {
    if i == SLOTS || Fits(mask, i, cb) then i else FirstFit(mask, i + 1, cb)
  }

  // The word is the disjoint union of the blocks.
  ghost predicate Sound(mask: Word, allocs: seq<nat>) {
    && |allocs| == SLOTS
    && (forall b :: b in mask ==> exists i :: 0 <= i < SLOTS && b in Block(i, allocs[i]))
    && (forall i :: 0 <= i < SLOTS ==> Block(i, allocs[i]) <= mask)
    && (forall i, j :: 0 <= i < j < SLOTS ==> Block(i, allocs[i]) !! Block(j, allocs[j]))
  }

  lemma {:induction false} FirstFitIs(mask: Word, i: nat, cb: nat)
    requires i <= SLOTS
    ensures i <= FirstFit(mask, i, cb) <= SLOTS
    ensures FirstFit(mask, i, cb) < SLOTS ==> Fits(mask, FirstFit(mask, i, cb), cb)
    ensures forall j :: i <= j < FirstFit(mask, i, cb) ==> !Fits(mask, j, cb)
    decreases SLOTS - i
  {
    if i < SLOTS && !Fits(mask, i, cb) {
      FirstFitIs(mask, i + 1, cb);
    }
  }

  // A gap as long as the block, inside the word.
  ghost predicate Gap(mask: Word, i: nat, cb: nat) {
    i + cb <= SLOTS && Fits(mask, i, cb)
  }

  // The block found is as long as asked for exactly if there is such a gap anywhere.
  lemma FullSizeIff(mask: Word, cb: nat)
    requires 0 < cb
    ensures FirstFit(mask, 0, cb) + cb <= SLOTS <==> exists i :: Gap(mask, i, cb)
  {
    FirstFitIs(mask, 0, cb);
    if i :| Gap(mask, i, cb) {
      assert FirstFit(mask, 0, cb) <= i;
    }
    assert FirstFit(mask, 0, cb) + cb <= SLOTS ==> Gap(mask, FirstFit(mask, 0, cb), cb);
  }

  // Nothing is found exactly if there is no gap and the last slot is in use: a last slot
  // that is free passes for a block of any length.
  lemma NotFoundIff(mask: Word, cb: nat)
    requires 0 < cb
    ensures FirstFit(mask, 0, cb) == SLOTS <==> (forall i :: !Gap(mask, i, cb)) && SLOTS - 1 in mask
  {
    FirstFitIs(mask, 0, cb);
    assert Block(SLOTS - 1, cb) == {SLOTS - 1};
    var i := FirstFit(mask, 0, cb);
    if i == SLOTS {
      assert !Fits(mask, SLOTS - 1, cb);
    } else if i + cb <= SLOTS {
      assert Gap(mask, i, cb);
    } else {
      assert SLOTS - 1 in Block(i, cb);
    }
  }

  // ----- Taking and giving back ---------------------------------------------------------

  lemma BlockStart(i: nat, cb: nat)
    requires i < SLOTS
    ensures i in Block(i, cb) <==> cb > 0
  {}

  // A slot whose bit is clear starts no block, so the source's assertion holds.
  lemma StartsNone(mask: Word, allocs: seq<nat>, i: nat)
    requires Sound(mask, allocs) && i < SLOTS && i !in mask
    ensures |allocs| == SLOTS && allocs[i] == 0
  {
    BlockStart(i, allocs[i]);
  }

  lemma TakeSound(mask: Word, allocs: seq<nat>, i: nat, cb: nat)
    requires Sound(mask, allocs) && i < SLOTS && 0 < cb && Fits(mask, i, cb)
    ensures Sound(mask + Block(i, cb), allocs[i := cb])
  {
    BlockStart(i, cb);
    StartsNone(mask, allocs, i);
    var mask', allocs' := mask + Block(i, cb), allocs[i := cb];
    hide Block;
    forall b | b in mask' ensures exists j :: 0 <= j < SLOTS && b in Block(j, allocs'[j]) {
      if b in Block(i, cb) {
        assert b in Block(i, allocs'[i]);
      } else {
        var j :| 0 <= j < SLOTS && b in Block(j, allocs[j]);
        NoBits(i);
        assert b in Block(j, allocs'[j]);
      }
    }
    forall j | 0 <= j < SLOTS ensures Block(j, allocs'[j]) <= mask' {
      assert Block(j, allocs[j]) <= mask;
    }
    forall j, k | 0 <= j < k < SLOTS ensures Block(j, allocs'[j]) !! Block(k, allocs'[k]) {
      assert Block(j, allocs[j]) !! Block(k, allocs[k]);
      assert Block(j, allocs[j]) <= mask && Block(k, allocs[k]) <= mask;
    }
  }

  lemma NoBits(i: nat)
    ensures Block(i, 0) == {}
  {}

  lemma GiveSound(mask: Word, allocs: seq<nat>, i: nat)
    requires Sound(mask, allocs) && i < SLOTS
    ensures Sound(mask - Block(i, allocs[i]), allocs[i := 0])
  {
    var mask', allocs' := mask - Block(i, allocs[i]), allocs[i := 0];
    NoBits(i);
    hide Block;
    forall b | b in mask' ensures exists j :: 0 <= j < SLOTS && b in Block(j, allocs'[j]) {
      var j :| 0 <= j < SLOTS && b in Block(j, allocs[j]);
      assert j != i;
      assert b in Block(j, allocs'[j]);
    }
    forall j | 0 <= j < SLOTS ensures Block(j, allocs'[j]) <= mask' {
      if j < i {
        assert Block(j, allocs[j]) !! Block(i, allocs[i]);
      } else if i < j {
        assert Block(i, allocs[i]) !! Block(j, allocs[j]);
      }
      assert Block(j, allocs[j]) <= mask;
    }
  }

  // With the first `n` slots in use, a block goes behind them, and extends them.
  lemma FirstSlots(n: nat, cb: nat)
    requires n < SLOTS && 0 < cb
    ensures Fits(Block(0, n), n, cb) && FirstFit(Block(0, n), 0, cb) == n
    ensures Block(0, n) + Block(n, cb) == Block(0, n + cb)
  {
    var mask := Block(0, n);
    FirstFitIs(mask, 0, cb);
    assert Fits(mask, n, cb);
    forall j | 0 <= j < n ensures !Fits(mask, j, cb) {
      assert j in Block(j, cb) && j in mask;
    }
    assert Block(0, n) + Block(n, cb) == Block(0, n + cb);
    hide Fits, Block, FirstFit;
    assert !(FirstFit(mask, 0, cb) < n) && !(n < FirstFit(mask, 0, cb));
  }

  lemma NextSlots(n: nat, allocs: seq<nat>, cb: nat)
    requires Sound(Block(0, n), allocs) && n < SLOTS && 0 < cb
    ensures |allocs| == SLOTS && Sound(Block(0, n + cb), allocs[n := cb])
  {
    assert |allocs| == SLOTS;
    hide *;
    FirstSlots(n, cb);
    TakeSound(Block(0, n), allocs, n, cb);
  }

  lemma NoSlots(allocs: seq<nat>)
    requires |allocs| == SLOTS && forall i :: 0 <= i < SLOTS ==> allocs[i] == 0
    ensures Sound(Block(0, 0), allocs)
  {
    NoBits(0);
    assert forall i :: 0 <= i < SLOTS ==> Block(i, allocs[i]) == {};
  }

  // So blocks of 8, 8, 8 and 7 slots leave only the last slot, and a block of 2 slots gets it.
  lemma PastEnd()
    ensures Sound(Block(0, 31), seq(SLOTS, _ => 0)[0 := 8][8 := 8][16 := 8][24 := 7])
    ensures FirstFit(Block(0, 31), 0, 2) == 31 && Block(31, 2) == {31}
  {
    var none := seq(SLOTS, _ => 0);
    assert Block(31, 2) == {31};
    hide *;
    NoSlots(none);
    NextSlots(0, none, 8);
    NextSlots(8, none[0 := 8], 8);
    NextSlots(16, none[0 := 8][8 := 8], 8);
    NextSlots(24, none[0 := 8][8 := 8][16 := 8], 7);
    FirstSlots(31, 2);
  }

  // Giving back the block just taken undoes the taking.
  lemma TakeGive(mask: Word, allocs: seq<nat>, i: nat, cb: nat)
    requires Sound(mask, allocs) && i < SLOTS && 0 < cb && Fits(mask, i, cb)
    ensures mask + Block(i, cb) - Block(i, cb) == mask && allocs[i := cb][i := 0] == allocs
  {
    BlockStart(i, cb);
    StartsNone(mask, allocs, i);
  }

  // No two blocks handed out share a slot, unless one of them runs over the end.
  lemma BlocksApart(mask: Word, allocs: seq<nat>, i: nat, j: nat)
    requires Sound(mask, allocs) && i < j < SLOTS && allocs[i] > 0 && allocs[j] > 0
    ensures i + allocs[i] <= j
  {
    BlockStart(j, allocs[j]);
    assert Block(i, allocs[i]) !! Block(j, allocs[j]);
    assert j !in Block(i, allocs[i]);
  }

  // ----- The allocator ---------------------------------------------------------------------

  ghost predicate Small(allocs: seq<nat>) {
    forall i :: 0 <= i < |allocs| ==> allocs[i] <= 8
  }

  datatype Result = Slot(i: nat) | Done | Invalid | NoMemory | Aborted

  class Allocator {
    var page: bool
    var mask: Word
    var allocs: seq<nat>

    ghost predicate Valid()
      reads this
    {
      Sound(mask, allocs) && Small(allocs) && (!page ==> mask == {})
    }

    constructor ()
      ensures Valid() && mask == {} && !page
    {
      page, mask, allocs := false, {}, seq(SLOTS, _ => 0);
    }

    // DosAllocThreadLocalMemory; `room` says whether the page can be mapped.  A request for
    // no slots finds slot 0 free whatever the mask says; it takes nothing, and trips the
    // source's assertion if a block starts there.
    method Alloc(cb: nat, room: bool) returns (r: Result)
      requires Valid()
      modifies this
      ensures Valid() && |old(allocs)| == |allocs| == SLOTS
      ensures 0 < cb <= 8 && (old(page) || room) && FirstFit(old(mask), 0, cb) < SLOTS ==>
        r == Slot(FirstFit(old(mask), 0, cb)) && old(allocs)[r.i] == 0 &&
        mask == old(mask) + Block(r.i, cb) && allocs == old(allocs)[r.i := cb]
      ensures 0 < cb <= 8 && (old(page) || room) && FirstFit(old(mask), 0, cb) == SLOTS ==> r == NoMemory
      ensures cb == 0 && (old(page) || room) ==> r == if 0 in mask then Aborted else Slot(0)
      ensures cb <= 8 && !old(page) && !room ==> r == NoMemory
      ensures cb > 8 ==> r == Invalid
      ensures (r.Slot? && cb > 0) || (mask == old(mask) && allocs == old(allocs))
    {
      hide *;
      Parts();
      if cb > 8 {
        return Invalid;
      }
      if !page {
        if !room {
          return NoMemory;
        }
        page := true;
        Parts();
      }
      var i, m := Search(cb);
      if i == SLOTS {
        return NoMemory;
      }
      if allocs[i] != 0 {
        return Aborted;
      }
      Takes(i, cb);
      allocs := allocs[i := cb];
      mask := mask + m;
      r := Slot(i);
      Parts();
    }

    lemma Parts()
      ensures Valid() <==> Sound(mask, allocs) && Small(allocs) && (!page ==> mask == {})
      ensures SLOTS == 32
      ensures Valid() ==> |allocs| == SLOTS
    {
      hide Block;
    }

    // The loop over the shifted masks.
    method Search(cb: nat) returns (i: nat, m: Word)
      requires Valid()
      ensures i == FirstFit(mask, 0, cb) && m == Block(i, cb) && |allocs| == SLOTS
      ensures cb == 0 ==> i == 0 && (allocs[0] > 0 <==> 0 in mask)
      ensures i < SLOTS && cb > 0 ==> allocs[i] == 0
    {
      hide *;
      Parts();
      i, m := 0, Ones(cb);
      OnesBlock(cb);
      while i < SLOTS && And(Xor(mask, m), m) != m
        invariant 0 <= i <= SLOTS && m == Block(i, cb) && FirstFit(mask, 0, cb) == FirstFit(mask, i, cb)
        invariant cb == 0 ==> i == 0
        decreases SLOTS - i
      {
        MaskTest(mask, m);
        NextFit(mask, i, cb);
        ShiftBlock(i, cb);
        i, m := i + 1, ShiftLeft(m);
      }
      MaskTest(mask, m);
      NextFit(mask, i, cb);
      StartFree(mask, allocs, i, cb);
      ZeroStart(mask, allocs);
    }

    lemma Takes(i: nat, cb: nat)
      requires Valid() && i < SLOTS && i == FirstFit(mask, 0, cb) && allocs[i] == 0 && cb <= 8
      ensures Sound(mask + Block(i, cb), allocs[i := cb])
      ensures Small(allocs[i := cb])
      ensures cb == 0 ==> mask + Block(i, cb) == mask && allocs[i := cb] == allocs
    {
      FirstFitIs(mask, 0, cb);
      NoBits(i);
      if cb > 0 {
        TakeSound(mask, allocs, i, cb);
      } else {
        assert allocs[i := 0] == allocs;
      }
      hide Sound, Block;
    }

    // DosFreeThreadLocalMemory, for a pointer `slot` slots into the page.
    method Free(slot: nat) returns (r: Result)
      requires Valid()
      modifies this
      ensures Valid() && page == old(page)
      ensures slot < SLOTS && old(allocs)[slot] > 0 && page ==>
        r == Done && mask == old(mask) - Block(slot, old(allocs)[slot]) && allocs == old(allocs)[slot := 0]
      ensures slot >= SLOTS || old(allocs)[slot] == 0 || !page ==>
        r == Invalid && mask == old(mask) && allocs == old(allocs)
    {
      if page && slot < SLOTS && allocs[slot] > 0 {
        var m := Block(slot, allocs[slot]);
        GiveSound(mask, allocs, slot);
        assert And(mask, m) == m;
        mask := mask - m;
        allocs := allocs[slot := 0];
        return Done;
      }
      r := Invalid;
    }
  }

  lemma NextFit(mask: Word, i: nat, cb: nat)
    requires i <= SLOTS
    ensures i < SLOTS && !(Block(i, cb) !! mask) ==> FirstFit(mask, i, cb) == FirstFit(mask, i + 1, cb)
    ensures i == SLOTS || Block(i, cb) !! mask ==> FirstFit(mask, i, cb) == i
    ensures cb == 0 ==> Block(i, cb) !! mask
  {
    NoBits(i);
    hide Block;
  }

  lemma StartFree(mask: Word, allocs: seq<nat>, i: nat, cb: nat)
    requires Sound(mask, allocs) && (i == SLOTS || Block(i, cb) !! mask)
    ensures |allocs| == SLOTS && (i < SLOTS && cb > 0 ==> allocs[i] == 0)
  {
    if i < SLOTS && cb > 0 {
      BlockStart(i, cb);
      StartsNone(mask, allocs, i);
    }
    hide Sound, Block;
  }

  lemma OnesBlock(cb: nat)
    ensures Ones(cb) == Block(0, cb)
  {}

  lemma ShiftBlock(i: nat, cb: nat)
    ensures ShiftLeft(Block(i, cb)) == Block(i + 1, cb)
  {
    var a := ShiftLeft(Block(i, cb));
    forall b | b in Block(i + 1, cb) ensures b in a {
      assert b - 1 in Block(i, cb);
    }
  }

  // The source's way of asking whether the bits of `m` are all clear.
  lemma MaskTest(mask: Word, m: Word)
    ensures And(Xor(mask, m), m) == m <==> m !! mask
  {
    assert And(Xor(mask, m), m) == m - mask;
  }

  // The first slot is in use exactly if a block starts there.
  lemma ZeroStart(mask: Word, allocs: seq<nat>)
    requires Sound(mask, allocs)
    ensures |allocs| == SLOTS
    ensures 0 in mask <==> allocs[0] > 0
    ensures forall i :: 0 <= i < SLOTS && i !in mask ==> allocs[i] == 0
  {
    BlockStart(0, allocs[0]);
    if 0 in mask {
      var i :| 0 <= i < SLOTS && 0 in Block(i, allocs[i]);
      assert i == 0;
    }
    forall i | 0 <= i < SLOTS && i !in mask ensures allocs[i] == 0 {
      StartsNone(mask, allocs, i);
    }
  }
}
