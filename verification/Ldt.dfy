/**
  The selector table of lx_loader.c: 8192 descriptors, each either free (0) or the base
  of a 64K tile of the address space, and the 16:16 pointers made from them.
 */
module Ldt {
  import opened MachineTypes

  const SLOTS := 8192
  const TILE := 0x1_0000
  // Addresses below this have a slot of their own, the tiled one.
  const TILED := 0x2000_0000
  // The base of the last tile of the address space: its end does not fit in 32 bits.
  const TOP := 0xFFFF_0000

  type Slots = s: seq<uint32> | |s| == SLOTS witness seq(SLOTS, _ => 0)

  function Base(addr: uint32): uint32 {
    addr - addr % TILE
  }

  // The test of the source, with its 32-bit addition.
  predicate Covers(tile: uint32, addr: uint32) {
    tile != 0 && tile <= addr && (tile + TILE) % TWO32 > addr
  }

  ghost predicate Covered(s: seq<uint32>, addr: uint32) {
    exists i :: 0 <= i < |s| && Covers(s[i], addr)
  }

  ghost predicate HasFree(s: seq<uint32>) {
    exists i :: 0 <= i < |s| && s[i] == 0
  }

  // Every tile in use starts on a 64K border, and no two slots have the same one.
  ghost predicate Tidy(s: seq<uint32>) {
    && (forall i :: 0 <= i < |s| ==> s[i] % TILE == 0)
    && (forall i, j :: 0 <= i < j < |s| && s[i] != 0 ==> s[i] != s[j])
  }

  // ----- Finding a selector, by definition ------------------------------------------

  datatype Found = None | Selector(index: nat, offset: nat)

  // The first slot that covers the address, |s| if none does.
  ghost function FirstCover(s: seq<uint32>, addr: uint32): nat {
    if s == [] then 0 else if Covers(s[0], addr) then 0 else 1 + FirstCover(s[1..], addr)
  }

  // The last free slot, -1 if there is none.
  ghost function LastFree(s: seq<uint32>): int {
    if s == [] then -1 else if s[|s| - 1] == 0 then |s| - 1 else LastFree(s[..|s| - 1])
  }

  // The slot the source's fast lookup tries first.
  function Home(addr: uint32): nat
    ensures addr < TILED ==> Home(addr) < SLOTS
  {
    addr / TILE
  }

  predicate Fast(s: Slots, addr: uint32) {
    addr < TILED && Covers(s[Home(addr)], addr)
  }

  ghost function Cover(s: Slots, addr: uint32): nat {
    if Fast(s, addr) then Home(addr) else FirstCover(s, addr)
  }

  // The slot a new tile goes to.
  ghost function Room(s: Slots, addr: uint32): int {
    if addr < TILED && s[Home(addr)] == 0 then Home(addr) else LastFree(s)
  }

  // The answer, and the table afterwards.  `refuses` is what the kernel says to a new
  // descriptor.
  ghost function Lookup(s: Slots, addr: uint32, refuses: bool): Found {
    if addr < 4096 then None
    else if Covered(s, addr) then Selector(Cover(s, addr), addr % TILE)
    else if Room(s, addr) < 0 || refuses then None
    else Selector(Room(s, addr), addr % TILE)
  }

  ghost function After(s: Slots, addr: uint32, refuses: bool): (r: seq<uint32>)
    ensures |r| == |s|
  {
    if addr < 4096 || Covered(s, addr) || Room(s, addr) < 0 || Room(s, addr) >= |s| || refuses then s
    else s[Room(s, addr) := Base(addr)]
  }

  lemma {:induction false} FirstCoverIs(s: seq<uint32>, addr: uint32)
    ensures FirstCover(s, addr) <= |s|
    ensures FirstCover(s, addr) < |s| <==> Covered(s, addr)
    ensures FirstCover(s, addr) < |s| ==> Covers(s[FirstCover(s, addr)], addr)
    ensures forall i :: 0 <= i < FirstCover(s, addr) ==> !Covers(s[i], addr)
  {
    if s != [] {
      FirstCoverIs(s[1..], addr);
      assert forall i :: 0 < i < |s| ==> s[i] == s[1..][i - 1];
    }
  }

  lemma {:induction false} LastFreeIs(s: seq<uint32>)
    ensures -1 <= LastFree(s) < |s|
    ensures LastFree(s) >= 0 <==> HasFree(s)
    ensures LastFree(s) >= 0 ==> s[LastFree(s)] == 0
    ensures forall i :: LastFree(s) < i < |s| ==> s[i] != 0
  {
    if s != [] {
      LastFreeIs(s[..|s| - 1]);
      assert forall i :: 0 <= i < |s| - 1 ==> s[i] == s[..|s| - 1][i];
    }
  }

  lemma RoomIs(s: Slots, addr: uint32)
    ensures -1 <= Room(s, addr) < |s|
    ensures Room(s, addr) >= 0 <==> HasFree(s)
    ensures Room(s, addr) >= 0 ==> s[Room(s, addr)] == 0
  {
    LastFreeIs(s);
    assert addr < TILED && s[Home(addr)] == 0 ==> HasFree(s);
  }

  lemma CoverIs(s: Slots, addr: uint32)
    requires Covered(s, addr)
    ensures Cover(s, addr) < |s| && Covers(s[Cover(s, addr)], addr)
  {
    FirstCoverIs(s, addr);
  }

  // ----- Arithmetic of tiles ----------------------------------------------------------

  lemma CoversIs(tile: uint32, addr: uint32)
    requires tile % TILE == 0
    ensures Covers(tile, addr) <==> tile != 0 && tile != TOP && tile == Base(addr)
  {
    if tile + TILE < TWO32 {
      assert Covers(tile, addr) ==> tile / TILE == addr / TILE;
    } else {
      assert tile == TOP;
    }
  }

  // ----- What a lookup means -----------------------------------------------------------

  // At most one slot covers an address, so the fast lookup finds what the full scan finds.
  lemma OneCover(s: Slots, addr: uint32, i: nat, j: nat)
    requires Tidy(s) && i < |s| && j < |s| && Covers(s[i], addr) && Covers(s[j], addr)
    ensures i == j
  {
    CoversIs(s[i], addr);
    CoversIs(s[j], addr);
  }

  lemma FastIsScan(s: Slots, addr: uint32)
    requires Tidy(s)
    ensures Covered(s, addr) ==> Cover(s, addr) == FirstCover(s, addr)
    ensures Fast(s, addr) ==> FirstCover(s, addr) == Home(addr)
  {
    FirstCoverIs(s, addr);
    if Fast(s, addr) {
      assert Covered(s, addr);
      OneCover(s, addr, FirstCover(s, addr), Home(addr));
    }
  }

  // A find fails only for a page that is never mapped, or when no slot covers the address
  // and either all slots are taken or the kernel refuses.
  lemma FailsIff(s: Slots, addr: uint32, refuses: bool)
    ensures Lookup(s, addr, refuses) == None <==> addr < 4096 || (!Covered(s, addr) && (!HasFree(s) || refuses))
  {
    RoomIs(s, addr);
  }

  // The selector found is for the tile of the address, unless that is the first tile: a
  // base of 0 reads as a free slot.
  lemma FoundTile(s: Slots, addr: uint32, refuses: bool)
    requires (forall i :: 0 <= i < |s| ==> s[i] % TILE == 0) && Lookup(s, addr, refuses) != None
    ensures var f := Lookup(s, addr, refuses);
      f.index < SLOTS && f.offset == addr % TILE && After(s, addr, refuses)[f.index] == Base(addr)
    ensures addr < TILE ==> After(s, addr, refuses) == s
  {
    RoomIs(s, addr);
    if Covered(s, addr) {
      CoverIs(s, addr);
      CoversIs(s[Cover(s, addr)], addr);
    } else if addr < TILE {
      assert s[Room(s, addr) := 0] == s;
    }
  }

  // ----- The invariant ------------------------------------------------------------------

  // A find keeps the table tidy unless it makes a second slot for the last tile.
  lemma FindTidyIff(s: Slots, addr: uint32, refuses: bool)
    requires Tidy(s)
    ensures Tidy(After(s, addr, refuses)) <==> addr < TOP || TOP !in s || !HasFree(s) || refuses
  {
    RoomIs(s, addr);
    var r := Room(s, addr);
    var s' := After(s, addr, refuses);
    if addr >= TOP && HasFree(s) && !refuses {
      TopNeverCovered(s, addr);
      if TOP in s {
        var i :| 0 <= i < |s| && s[i] == TOP;
        assert s'[i] == s'[r] == TOP;
      }
    }
    if !Covered(s, addr) && r >= 0 {
      forall i | 0 <= i < |s| ensures s[i] == Base(addr) ==> s[i] == 0 || s[i] == TOP {
        CoversIs(s[i], addr);
      }
    }
  }

  lemma TopNeverCovered(s: Slots, addr: uint32)
    requires Tidy(s) && addr >= TOP
    ensures !Covered(s, addr) && Base(addr) == TOP
  {
    forall i | 0 <= i < |s| ensures !Covers(s[i], addr) {
      CoversIs(s[i], addr);
    }
  }

  // ----- 16:16 pointers ------------------------------------------------------------------

  // lxSelectorToSegment: the shift drops what does not fit 16 bits.
  function Segment(selector: uint16): uint16 {
    (selector * 8 + 7) % TILE
  }

  function Pack(selector: uint16, offset: uint16): uint32 {
    Segment(selector) * TILE + offset
  }

  function SelectorOf(p: uint32): (r: nat)
    ensures r < SLOTS
  {
    p / 0x8_0000
  }

  function OffsetOf(p: uint32): uint16 {
    p % TILE
  }

  lemma PackInverse(selector: uint16, offset: uint16)
    requires selector < SLOTS
    ensures Pack(selector, offset) != 0
    ensures SelectorOf(Pack(selector, offset)) == selector && OffsetOf(Pack(selector, offset)) == offset
  {
    assert Segment(selector) == selector * 8 + 7;
    var low := 7 * TILE + offset;
    assert Pack(selector, offset) == 0x8_0000 * selector + low;
    Shifted(selector, low);
    Shifted16(Segment(selector), offset);
  }

  lemma Shifted(a: nat, low: nat)
    requires low < 0x8_0000
    ensures (0x8_0000 * a + low) / 0x8_0000 == a
  {}

  lemma Shifted16(a: nat, low: nat)
    requires low < TILE
    ensures (a * TILE + low) % TILE == low
  {}

  datatype Address = Null | Linear(addr: uint32) | Unmapped

  // Unmapped is the failed assertion of the source: a selector that is free.
  ghost function ToLinear(s: Slots, p: uint32): Address {
    if p == 0 then Null
    else if s[SelectorOf(p)] == 0 then Unmapped
    else Linear((s[SelectorOf(p)] + OffsetOf(p)) % TWO32)
  }

  ghost function ToSegmented(s: Slots, addr: uint32, refuses: bool): uint32 {
    match Lookup(s, addr, refuses)
    case None => 0
    case Selector(i, off) => if i < SLOTS && off < TILE then Pack(i, off) else 0
  }

  ghost predicate Aligned(s: seq<uint32>) {
    forall i :: 0 <= i < |s| ==> s[i] % TILE == 0
  }

  // A pointer converts back to its address exactly when that is not in the first tile.
  lemma RoundTripIff(s: Slots, addr: uint32, refuses: bool)
    requires Aligned(s) && ToSegmented(s, addr, refuses) != 0
    ensures ToLinear(After(s, addr, refuses), ToSegmented(s, addr, refuses)) == Linear(addr) <==> addr >= TILE
    ensures ToLinear(After(s, addr, refuses), ToSegmented(s, addr, refuses)) == Unmapped <==> addr < TILE
  {
    FoundTile(s, addr, refuses);
    var f := Lookup(s, addr, refuses);
    PackInverse(f.index, f.offset);
    BaseZero(addr);
    hide After, Lookup, Pack, SelectorOf, OffsetOf;
  }

  lemma BaseZero(addr: uint32)
    ensures Base(addr) == 0 <==> addr < TILE
  {}

  lemma ConvertFailsIff(s: Slots, addr: uint32, refuses: bool)
    requires Aligned(s)
    ensures ToSegmented(s, addr, refuses) == 0 <==> Lookup(s, addr, refuses) == None
  {
    if Lookup(s, addr, refuses) != None {
      FoundTile(s, addr, refuses);
      PackInverse(Lookup(s, addr, refuses).index, Lookup(s, addr, refuses).offset);
    }
    hide After, Pack;
  }

  // A slot that covers the address, reached by the fast lookup or first in the scan.
  lemma FoundAt(s: Slots, addr: uint32, i: nat)
    requires Aligned(s) && i < |s| && Covers(s[i], addr) && addr >= 4096
    requires (addr < TILED && i == Home(addr)) || (!Fast(s, addr) && i == FirstCover(s, addr))
    ensures Lookup(s, addr, false) == Lookup(s, addr, true) == Selector(i, addr - s[i])
    ensures After(s, addr, false) == After(s, addr, true) == s
  {
    assert Covered(s, addr);
    CoversIs(s[i], addr);
  }

  // No slot covers the address.
  lemma NotFound(s: Slots, addr: uint32)
    requires addr >= 4096
    ensures -1 <= LastFree(s) < |s| && -1 <= Room(s, addr) < |s| && (Room(s, addr) >= 0 ==> s[Room(s, addr)] == 0)
    ensures Room(s, addr) == if addr < TILED && s[Home(addr)] == 0 then Home(addr) else LastFree(s)
    ensures FirstCover(s, addr) == |s| && Room(s, addr) < 0 ==>
      forall r :: Lookup(s, addr, r) == None && After(s, addr, r) == s
    ensures FirstCover(s, addr) == |s| && Room(s, addr) >= 0 ==>
      Lookup(s, addr, true) == None && After(s, addr, true) == s &&
      Lookup(s, addr, false) == Selector(Room(s, addr), addr % TILE) &&
      After(s, addr, false) == s[Room(s, addr) := Base(addr)]
  {
    FirstCoverIs(s, addr);
    LastFreeIs(s);
    RoomIs(s, addr);
  }

  // ----- Tiling the stack ------------------------------------------------------------------

  // The tiles `lo` up to `hi`, each put into its home slot if that is free and the kernel
  // does not refuse it, or each taken out.
  ghost function Tiled(s: Slots, lo: nat, hi: nat, drop: bool, refuse: nat -> bool): (r: seq<uint32>)
    requires lo <= hi <= SLOTS
    ensures |r| == |s|
  {
    seq(SLOTS, i requires 0 <= i < SLOTS =>
      if i < lo || i >= hi || refuse(i) then s[i] else if drop then 0 else if s[i] == 0 then i * TILE else s[i])
  }

  lemma TiledNone(s: Slots, lo: nat, drop: bool, refuse: nat -> bool)
    requires lo <= SLOTS
    ensures Tiled(s, lo, lo, drop, refuse) == s
  {}

  lemma TiledMore(s: Slots, lo: nat, hi: nat, drop: bool, refuse: nat -> bool)
    requires lo <= hi < SLOTS
    ensures var s' := Tiled(s, lo, hi, drop, refuse);
      Tiled(s, lo, hi + 1, drop, refuse) ==
      if refuse(hi) || (!drop && s'[hi] != 0) then s' else s'[hi := if drop then 0 else hi * TILE]
  {}

  // A 16-bit stack pointer of a tiled stack is its 32-bit one, shifted.
  lemma ShiftedPointer(s: Slots, lo: nat, hi: nat, refuse: nat -> bool, addr: uint32, refuses: bool)
    requires lo <= Home(addr) < hi <= SLOTS && addr >= TILE
    requires s[Home(addr)] == 0 && !refuse(Home(addr))
    ensures ToSegmented(Tiled(s, lo, hi, false, refuse), addr, refuses) == (addr / TILE * 8 + 7) * TILE + addr % TILE
  {
    var s' := Tiled(s, lo, hi, false, refuse);
    assert s'[Home(addr)] == Base(addr);
    CoversIs(s'[Home(addr)], addr);
    assert Covered(s', addr);
    hide Covers, Tiled, Room;
  }

  // Tiling keeps the table tidy unless one of its tiles has a slot already.
  lemma TiledTidyIff(s: Slots, lo: nat, hi: nat, refuse: nat -> bool)
    requires Tidy(s) && lo <= hi <= SLOTS
    ensures Tidy(Tiled(s, lo, hi, false, refuse)) <==>
      forall i :: lo <= i < hi && s[i] == 0 && !refuse(i) && i > 0 ==> i * TILE !in s
  {
    var s' := Tiled(s, lo, hi, false, refuse);
    assert |s'| == |s|;
    if i :| lo <= i < hi && s[i] == 0 && !refuse(i) && i > 0 && i * TILE in s {
      var j :| 0 <= j < |s| && s[j] == i * TILE;
      assert s'[i] == s'[j] == i * TILE && i != j;
    } else {
      forall i, j | 0 <= i < j < |s'| && s'[i] != 0 ensures s'[i] != s'[j] {
        assert s[i] == s'[i] || s'[i] == i * TILE;
        assert s[j] == s'[j] || s'[j] == j * TILE;
        assert s[i] in s && s[j] in s;
      }
    }
  }

  // ----- Runs ------------------------------------------------------------------------------

  // Tile is the tiling of a thread's stack, or the end of it.
  datatype Call =
    | Find(addr: uint32, refuses: bool)
    | Free(index: nat, refuses: bool)
    | Tile(lo: nat, hi: nat, drop: bool, refuse: nat -> bool)

  ghost function Freed(s: Slots, i: nat, refuses: bool): (r: seq<uint32>)
    ensures |r| == |s|
  {
    if i >= |s| || refuses then s else s[i := 0]
  }

  ghost function Step(s: Slots, c: Call): (r: seq<uint32>)
    ensures |r| == |s|
  {
    match c
    case Find(addr, refuses) => After(s, addr, refuses)
    case Free(i, refuses) => Freed(s, i, refuses)
    case Tile(lo, hi, drop, refuse) => if lo <= hi <= SLOTS then Tiled(s, lo, hi, drop, refuse) else s
  }

  ghost function Runs(s: Slots, calls: seq<Call>): (r: seq<uint32>)
    ensures |r| == |s|
    decreases |calls|
  {
    if calls == [] then s else Runs(Step(s, calls[0]), calls[1..])
  }

  ghost predicate BelowTop(calls: seq<Call>) {
    forall c :: c in calls && c.Find? ==> c.addr < TOP
  }

  ghost predicate Frees(c: Call, i: nat) {
    match c
    case Find(_, _) => false
    case Free(index, refuses) => index == i && !refuses
    case Tile(lo, hi, drop, refuse) => drop && lo <= i < hi && !refuse(i)
  }

  ghost predicate NotFreed(calls: seq<Call>, i: nat) {
    forall c :: c in calls ==> !Frees(c, i)
  }

  // When a call keeps a tidy table tidy.
  ghost predicate Keeps(s: Slots, c: Call) {
    match c
    case Find(addr, refuses) => addr < TOP || TOP !in s || !HasFree(s) || refuses
    case Free(_, _) => true
    case Tile(lo, hi, drop, refuse) =>
      drop || hi > SLOTS || forall i :: lo <= i < hi && s[i] == 0 && !refuse(i) && i > 0 ==> i * TILE !in s
  }

  ghost predicate AllKeep(s: Slots, calls: seq<Call>)
    decreases |calls|
  {
    calls == [] || (Keeps(s, calls[0]) && AllKeep(Step(s, calls[0]), calls[1..]))
  }

  ghost predicate AlwaysTidy(s: Slots, calls: seq<Call>)
    decreases |calls|
  {
    Tidy(s) && (calls == [] || AlwaysTidy(Step(s, calls[0]), calls[1..]))
  }

  lemma StepTidyIff(s: Slots, c: Call)
    requires Tidy(s)
    ensures Tidy(Step(s, c)) <==> Keeps(s, c)
  {
    match c
    case Find(addr, refuses) => FindTidyIff(s, addr, refuses);
    case Free(_, _) =>
    case Tile(lo, hi, drop, refuse) =>
      if lo <= hi <= SLOTS && !drop {
        TiledTidyIff(s, lo, hi, refuse);
      }
  }

  // Over a run of any calls, the table is tidy all the time exactly if no find makes a
  // second slot for the last tile and no tiling one for a tile that has a slot elsewhere.
  lemma {:induction false} RunsTidyIff(s: Slots, calls: seq<Call>)
    requires Tidy(s)
    ensures AlwaysTidy(s, calls) <==> AllKeep(s, calls)
    decreases |calls|
  {
    if calls != [] {
      StepTidyIff(s, calls[0]);
      hide Tidy, Step, Keeps;
      if Tidy(Step(s, calls[0])) {
        RunsTidyIff(Step(s, calls[0]), calls[1..]);
      }
    }
  }

  // Each tile in use is in its home slot.
  ghost predicate AtHome(s: seq<uint32>) {
    forall i :: 0 <= i < |s| ==> s[i] == 0 || s[i] == i * TILE
  }

  ghost predicate BelowTiled(calls: seq<Call>) {
    forall c :: c in calls && c.Find? ==> c.addr < 0x2000_0000
  }

  lemma HomeTidy(s: Slots)
    requires AtHome(s)
    ensures Tidy(s)
  {}

  lemma StepHome(s: Slots, c: Call)
    requires AtHome(s) && (c.Find? ==> c.addr < TILED)
    ensures AtHome(Step(s, c))
  {
    if c.Find? && Home(c.addr) != 0 {
      var i := Home(c.addr);
      CoversIs(s[i], c.addr);
      HomeIs(c.addr);
    }
  }

  lemma HomeIs(addr: uint32)
    requires addr < TILED
    ensures Base(addr) == Home(addr) * TILE && (Home(addr) == 0 ==> Base(addr) == 0)
    ensures Home(addr) * TILE != TOP
  {}

  // So over every run of finds in the first 512 megabytes, of frees and of stacks that come
  // and go, a selector and its tile determine each other.
  lemma {:induction false} RunsHome(s: Slots, calls: seq<Call>)
    requires AtHome(s) && BelowTiled(calls)
    ensures AtHome(Runs(s, calls)) && AlwaysTidy(s, calls)
    decreases |calls|
  {
    HomeTidy(s);
    if calls != [] {
      StepHome(s, calls[0]);
      hide AtHome, Step, Tidy;
      RunsHome(Step(s, calls[0]), calls[1..]);
    }
  }

  ghost predicate NoTiling(calls: seq<Call>) {
    forall c :: c in calls && c.Tile? ==> c.drop
  }

  // Over every run of finds below the last tile, of frees and of stacks that go, the table
  // stays tidy.
  lemma {:induction false} RunsTidy(s: Slots, calls: seq<Call>)
    requires Tidy(s) && BelowTop(calls) && NoTiling(calls)
    ensures Tidy(Runs(s, calls))
    decreases |calls|
  {
    if calls != [] {
      StepTidyIff(s, calls[0]);
      assert Keeps(s, calls[0]);
      hide Tidy, Step, Keeps;
      RunsTidy(Step(s, calls[0]), calls[1..]);
    }
  }

  lemma {:induction false} AlwaysRunsTidy(s: Slots, calls: seq<Call>)
    requires Tidy(s) && BelowTop(calls) && NoTiling(calls)
    ensures AlwaysTidy(s, calls)
    decreases |calls|
  {
    if calls != [] {
      StepTidyIff(s, calls[0]);
      assert Keeps(s, calls[0]);
      hide Tidy, Step, Keeps;
      AlwaysRunsTidy(Step(s, calls[0]), calls[1..]);
    }
  }

  ghost predicate Empty(s: Slots) {
    forall i :: 0 <= i < |s| ==> s[i] == 0
  }

  // What the loader does: it tiles the one stack in an empty table; then come any finds below
  // the last tile, frees, and the end of the stack.  The table is tidy all the time.
  lemma LoaderTidy(s: Slots, lo: nat, hi: nat, refuse: nat -> bool, calls: seq<Call>)
    requires Empty(s) && BelowTop(calls) && NoTiling(calls)
    ensures AlwaysTidy(s, [Tile(lo, hi, false, refuse)] + calls)
  {
    var all := [Tile(lo, hi, false, refuse)] + calls;
    assert all[0] == Tile(lo, hi, false, refuse) && all[1..] == calls;
    StepTidyIff(s, all[0]);
    assert Keeps(s, all[0]);
    hide Step, Keeps, Empty;
    AlwaysRunsTidy(Step(s, all[0]), calls);
  }

  // A run the loader does not make, tiling a stack while another tile is in its home slot:
  // the tile below 512 MB goes elsewhere and gets a second slot.
  lemma TiledTwice(s: Slots)
    requires Empty(s)
    ensures var f: nat -> bool := _ => false;
      var calls :=
        [Find(TILED, false), Find(TILED - TILE, false), Free(SLOTS - 1, false), Tile(SLOTS - 1, SLOTS, false, f)];
      Runs(s, calls)[SLOTS - 2] == Runs(s, calls)[SLOTS - 1] == TILED - TILE && !Tidy(Runs(s, calls))
  {
    var f: nat -> bool := _ => false;
    var calls :=
      [Find(TILED, false), Find(TILED - TILE, false), Free(SLOTS - 1, false), Tile(SLOTS - 1, SLOTS, false, f)];
    var s1, s2 := s[SLOTS - 1 := TILED], s[SLOTS - 1 := TILED][SLOTS - 2 := TILED - TILE];
    FirstFind(s, s1);
    SecondFind(s, s1, s2);
    FourSteps(s, calls[0], calls[1], calls[2], calls[3]);
  }

  lemma FirstFind(s: Slots, s': Slots)
    requires Empty(s) && s' == s[SLOTS - 1 := TILED]
    ensures Step(s, Find(TILED, false)) == s'
  {
    LastFreeIs(s);
    assert !Covered(s, TILED);
  }

  lemma SecondFind(s: Slots, s1: Slots, s2: Slots)
    requires Empty(s) && s1 == s[SLOTS - 1 := TILED] && s2 == s1[SLOTS - 2 := TILED - TILE]
    ensures Step(s1, Find(TILED - TILE, false)) == s2
  {
    LastFreeIs(s1);
    assert Home(TILED - TILE) == SLOTS - 1 && Base(TILED - TILE) == TILED - TILE;
    assert !Covered(s1, TILED - TILE);
  }

  lemma FourSteps(s: Slots, a: Call, b: Call, c: Call, d: Call)
    ensures Runs(s, [a, b, c, d]) == Step(Step(Step(Step(s, a), b), c), d)
  {
    var calls := [a, b, c, d];
    assert calls[1..] == [b, c, d] && calls[1..][1..] == [c, d] && calls[1..][1..][1..] == [d];
    hide Step;
    assert [d][1..] == [] && [c, d][1..] == [d];
    assert forall s1: Slots :: Runs(s1, [d]) == Step(s1, d);
    assert forall s1: Slots :: Runs(s1, [c, d]) == Step(Step(s1, c), d);
    assert forall s1: Slots :: Runs(s1, [b, c, d]) == Step(Step(Step(s1, b), c), d);
  }

  // A slot in use keeps its tile until it is freed, whatever else is found or freed.
  lemma StepKeeps(s: Slots, c: Call, i: nat)
    requires i < SLOTS && s[i] != 0 && !Frees(c, i)
    ensures Step(s, c)[i] == s[i]
  {
    if c.Find? {
      RoomIs(s, c.addr);
    }
  }

  lemma {:induction false} RunsKeep(s: Slots, calls: seq<Call>, i: nat)
    requires i < SLOTS && s[i] != 0 && NotFreed(calls, i)
    ensures Runs(s, calls)[i] == s[i]
    decreases |calls|
  {
    if calls != [] {
      StepKeeps(s, calls[0], i);
      hide Step;
      RunsKeep(Step(s, calls[0]), calls[1..], i);
    }
  }

  // A pointer made for an address past the first tile still means that address after any
  // further calls that do not free its selector.
  lemma PointerStable(s: Slots, addr: uint32, refuses: bool, calls: seq<Call>)
    requires Aligned(s) && addr >= TILE && ToSegmented(s, addr, refuses) != 0
    requires NotFreed(calls, SelectorOf(ToSegmented(s, addr, refuses)))
    ensures ToLinear(Runs(After(s, addr, refuses), calls), ToSegmented(s, addr, refuses)) == Linear(addr)
  {
    RoundTripIff(s, addr, refuses);
    hide After, ToSegmented, SelectorOf, OffsetOf, Runs, NotFreed, Aligned;
    RunsKeep(After(s, addr, refuses), calls, SelectorOf(ToSegmented(s, addr, refuses)));
  }

  // Asking again gives the same pointer and changes nothing.
  lemma AskAgain(s: Slots, addr: uint32, refuses: bool, again: bool)
    requires Tidy(s) && TILE <= addr < TOP && ToSegmented(s, addr, refuses) != 0
    ensures ToSegmented(After(s, addr, refuses), addr, again) == ToSegmented(s, addr, refuses)
    ensures After(After(s, addr, refuses), addr, again) == After(s, addr, refuses)
  {
    var s' := After(s, addr, refuses);
    FindTidyIff(s, addr, refuses);
    FoundTile(s, addr, refuses);
    var i := Lookup(s, addr, refuses).index;
    CoversIs(s'[i], addr);
    BaseZero(addr);
    BelowTopBase(addr);
    assert Covered(s', addr);
    CoverIs(s', addr);
    OneCover(s', addr, i, Cover(s', addr));
    hide Cover, Covers, Tidy, Covered, Base;
  }

  lemma BelowTopBase(addr: uint32)
    ensures Base(addr) == TOP <==> addr >= TOP
  {}

  // The last tile gets a new slot every time it is asked for.
  lemma TopTwice(s: Slots, addr: uint32)
    requires Tidy(s) && addr >= TOP && HasFree(s) && HasFree(After(s, addr, false))
    ensures var s1 := After(s, addr, false);
      Lookup(s1, addr, false).Selector? && Lookup(s1, addr, false).index != Lookup(s, addr, false).index
    ensures !Tidy(After(After(s, addr, false), addr, false))
  {
    var s1 := After(s, addr, false);
    TopNeverCovered(s, addr);
    RoomIs(s, addr);
    RoomIs(s1, addr);
    forall i | 0 <= i < |s1| ensures !Covers(s1[i], addr) {
      CoversIs(s1[i], addr);
    }
    var i, j := Room(s, addr), Room(s1, addr);
    assert s1[i] == TOP;
    assert After(s1, addr, false)[i] == After(s1, addr, false)[j] == TOP;
  }

  lemma FreeFacts(s: Slots, i: nat, refuses: bool)
    requires i < |s|
    ensures Freed(s, i, refuses) == if refuses then s else s[i := 0]
  {}

  // ----- The table in memory ------------------------------------------------------------------

  class Table {
    const ldt: array<uint32>

    ghost predicate Valid()
      reads this, ldt
    {
      ldt.Length == SLOTS && Aligned(ldt[..])
    }

    constructor ()
      ensures Valid() && fresh(ldt) && Tidy(ldt[..]) && forall i :: 0 <= i < SLOTS ==> ldt[i] == 0
    {
      ldt := new uint32[SLOTS](_ => 0);
    }

    // allocateSelector
    method Allocate(index: nat, addr: uint32, refuses: bool) returns (ok: bool)
      requires Valid() && index < SLOTS && addr % TILE == 0
      modifies ldt
      ensures Valid() && (ok <==> old(ldt[index]) == 0 && !refuses)
      ensures ldt[..] == if ok then old(ldt[..])[index := addr] else old(ldt[..])
    {
      if ldt[index] != 0 || refuses {
        return false;
      }
      ldt[index] := addr;
      ok := true;
    }

    // lxFindSelector
    method FindSelector(addr: uint32, refuses: bool) returns (f: Found)
      requires Valid()
      modifies ldt
      ensures Valid()
      ensures f == Lookup(old(ldt[..]), addr, refuses)
      ensures ldt[..] == After(old(ldt[..]), addr, refuses)
    {
      if addr < 4096 {
        return None;
      }
      ghost var s := ldt[..];
      var available, preferred := -1, -1;
      if addr < TILED {
        var index := addr / TILE;
        var tile := ldt[index];
        if tile == 0 {
          preferred, available := index, index;
        } else if Covers(tile, addr) {
          FoundAt(s, addr, index);
          return Selector(index, addr - tile);
        }
      }
      FirstCoverIs(s, addr);
      hide Aligned, Lookup, After, Covered, FirstCover;
      var i := 0;
      while i < SLOTS
        invariant 0 <= i <= SLOTS && i <= FirstCover(s, addr) && s == ldt[..]
        invariant available == if LastFree(s[..i]) >= 0 then LastFree(s[..i]) else preferred
      {
        var tile := ldt[i];
        assert s[..i + 1][..i] == s[..i];
        if tile == 0 {
          available := i;
        } else if Covers(tile, addr) {
          FoundAt(s, addr, i);
          return Selector(i, addr - tile);
        }
        i := i + 1;
      }
      assert s[..SLOTS] == s;
      NotFound(s, addr);
      hide Covers, Covered, FirstCover, LastFree, Lookup, After, Room, Fast, Aligned;
      if available == -1 {
        return None;
      }
      var index := if preferred != -1 then preferred else available;
      f := NewSelector(index, addr, refuses);
    }

    // A new selector for the tile of the address, in a slot that is free.
    method NewSelector(index: nat, addr: uint32, refuses: bool) returns (f: Found)
      requires Valid() && index < SLOTS && ldt[index] == 0
      modifies ldt
      ensures Valid() && f == if refuses then None else Selector(index, addr % TILE)
      ensures ldt[..] == if refuses then old(ldt[..]) else old(ldt[..])[index := Base(addr)]
    {
      var diff := addr % TILE;
      var ok := Allocate(index, addr - diff, refuses);
      f := if ok then Selector(index, diff) else None;
    }

    // lxFreeSelector
    method FreeSelector(index: nat, refuses: bool)
      requires Valid() && index < SLOTS
      modifies ldt
      ensures Valid() && ldt[..] == Freed(old(ldt[..]), index, refuses)
    {
      if ldt[index] == 0 || refuses {
        assert old(ldt[..])[index := ldt[index]] == old(ldt[..]);
        return;
      }
      ldt[index] := 0;
    }

    // lxConvert32to1616
    method Convert32to1616(addr: uint32, refuses: bool) returns (p: uint32)
      requires Valid()
      modifies ldt
      ensures Valid()
      ensures p == ToSegmented(old(ldt[..]), addr, refuses)
      ensures ldt[..] == After(old(ldt[..]), addr, refuses)
    {
      if addr == 0 {
        return 0;
      }
      ghost var s := ldt[..];
      var f := FindSelector(addr, refuses);
      match f {
        case None => p := 0;
        case Selector(i, off) =>
          FoundTile(s, addr, refuses);
          p := Segment(i) * TILE + off;
      }
    }

    // lxConvert1616to32
    method Convert1616to32(p: uint32) returns (a: Address)
      requires Valid()
      ensures a == ToLinear(ldt[..], p)
    {
      if p == 0 {
        return Null;
      }
      var selector := p / 0x8_0000;
      var offset := p % TILE;
      if ldt[selector] == 0 {
        return Unmapped;
      }
      a := Linear((ldt[selector] + offset) % TWO32);
    }

    // initOs2StackSegments
    method StackSegments(addr: uint32, length: uint32, drop: bool, refuse: nat -> bool)
      requires Valid() && addr + length <= TILED
      modifies ldt
      ensures Valid()
      ensures var hi := (addr + length + TILE - 1) / TILE;
        hi <= SLOTS && Home(addr) <= hi && ldt[..] == Tiled(old(ldt[..]), Home(addr), hi, drop, refuse)
    {
      var diff := addr % TILE;
      var at, left := addr - diff, length + diff;
      if left % TILE != 0 {
        left := left + (TILE - left % TILE);
      }
      ghost var s, k := ldt[..], Home(addr);
      ghost var hi := (addr + length + TILE - 1) / TILE;
      assert at == k * TILE && left == (hi - k) * TILE;
      TiledNone(s, Home(addr), drop, refuse);
      hide Tiled, Aligned, Freed, Home;
      while left != 0
        invariant Home(addr) <= k <= hi && at == k * TILE && left == (hi - k) * TILE && Valid()
        invariant ldt[..] == Tiled(s, Home(addr), k, drop, refuse)
        decreases hi - k
      {
        var index := at / TILE;
        assert index == k;
        TiledMore(s, Home(addr), k, drop, refuse);
        if drop {
          FreeFacts(ldt[..], index, refuse(index));
          FreeSelector(index, refuse(index));
        } else {
          var ok := Allocate(index, at, refuse(index));
        }
        left, at, k := left - TILE, at + TILE, k + 1;
      }
    }
  }
}
