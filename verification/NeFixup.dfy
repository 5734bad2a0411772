/**
  Fixups of a 16-bit segment, lx_loader.c's fixupNeSegment: a table of records, each of
  which adds to one place or patches a chain of places.  A chain is linked through the
  very words it patches, so every write destroys the link that led on from it.
 */
module NeFixup {
  import opened MachineTypes
  import opened Patches
  import Ldt

  // ----- Sources ---------------------------------------------------------------------

  const LOBYTE := 0
  const SEGMENT := 2
  const FAR_ADDR := 3
  const OFFSET := 5

  // The offset and the segment of a 16:16 pointer.
  function Lo(target: uint32): uint16 {
    target % 0x1_0000
  }

  function Hi(target: uint32): uint16 {
    target / 0x1_0000
  }

  // What a source of type `source` holds once it refers to `target`.
  function Holds(source: nat, target: uint32): seq<uint8> {
    var lo, hi := Lo(target), Hi(target);
    if source == LOBYTE then [Low(lo)]
    else if source == SEGMENT then Two(hi)
    else if source == FAR_ADDR then Two(lo) + Two(hi)
    else if source == OFFSET then Two(lo)
    else []
  }

  // What it is for a source at `x` to refer to `target`: a far pointer to it, its segment,
  // its offset, or the low byte of that.
  ghost predicate Refers(mem: seq<uint8>, x: nat, source: nat, target: uint32) {
    && (source == 3 ==> x + 4 <= |mem| && Word(mem, x) + 0x1_0000 * Word(mem, x + 2) == target)
    && (source == 2 ==> x + 2 <= |mem| && Word(mem, x) == target / 0x1_0000)
    && (source == 5 ==> x + 2 <= |mem| && Word(mem, x) == target % 0x1_0000)
    && (source == 0 ==> x < |mem| && mem[x] == target % 0x100)
  }

  lemma WordTwo(mem: seq<uint8>, x: nat, w: uint16)
    requires x + 2 <= |mem| && mem[x] == Low(w) && mem[x + 1] == High(w)
    ensures Word(mem, x) == w
  {}

  lemma HoldsRefers(mem: seq<uint8>, x: nat, source: nat, target: uint32)
    requires Has(mem, x, Holds(source, target))
    ensures Refers(mem, x, source, target)
  {
    HasBytes(mem, x, Holds(source, target));
    hide Low, High, Has;
    if source == 3 {
      WordTwo(mem, x, Lo(target));
      WordTwo(mem, x + 2, Hi(target));
    } else if source == 2 {
      WordTwo(mem, x, Hi(target));
    } else if source == 5 {
      WordTwo(mem, x, Lo(target));
    } else if source == 0 {
      LowLow(target);
    }
  }

  lemma LowLow(target: uint32)
    ensures Low(Lo(target)) == target % 0x100
  {}

  // The bytes of a source, its link included.
  function Width(source: nat): nat {
    if source == FAR_ADDR then 4 else 2
  }

  // The same for a source that is added to; each word wraps on its own.
  function Sum(mem: seq<uint8>, at: nat, source: nat, target: uint32): (r: seq<uint8>)
    requires at + Width(source) <= |mem|
    ensures |r| <= Width(source)
  {
    var lo, hi := Lo(target), Hi(target);
    var w, v := Word(mem, at), if source == FAR_ADDR then Word(mem, at + 2) else 0;
    if source == LOBYTE then [Low(mem[at] + lo)]
    else if source == SEGMENT then Two(w + hi)
    else if source == FAR_ADDR then Two(w + lo) + Two(v + hi)
    else if source == OFFSET then Two(w + lo)
    else []
  }

  method PutByte(dst: array<uint8>, at: nat, b: uint8)
    requires at < dst.Length
    modifies dst
    ensures dst[..] == Over(old(dst[..]), Patch(at, [b]))
  {
    dst[at] := b;
  }

  method PutWord(dst: array<uint8>, at: nat, w: int)
    requires at + 2 <= dst.Length
    modifies dst
    ensures dst[..] == Over(old(dst[..]), Patch(at, Two(w)))
  {
    hide Low, High;
    dst[at], dst[at + 1] := Low(w), High(w);
  }

  lemma OverTwo(mem: seq<uint8>, at: nat, w: int, v: int)
    requires at + 4 <= |mem|
    ensures Over(Over(mem, Patch(at, Two(w))), Patch(at + 2, Two(v))) == Over(mem, Patch(at, Two(w) + Two(v)))
  {
    hide Low, High;
  }

  method PutWords(dst: array<uint8>, at: nat, w: int, v: int)
    requires at + 4 <= dst.Length
    modifies dst
    ensures dst[..] == Over(old(dst[..]), Patch(at, Two(w) + Two(v)))
  {
    hide *;
    OverTwo(dst[..], at, w, v);
    PutWord(dst, at, w);
    PutWord(dst, at + 2, v);
  }

  // Putting the target into one source.
  method Put(dst: array<uint8>, at: nat, source: nat, target: uint32)
    requires at + Span(Patch(at, Holds(source, target))) <= dst.Length
    modifies dst
    ensures dst[..] == Over(old(dst[..]), Patch(at, Holds(source, target)))
  {
    var lo, hi := Lo(target), Hi(target);
    hide Low, High;
    if source == LOBYTE {
      PutByte(dst, at, Low(lo));
    } else if source == SEGMENT {
      PutWord(dst, at, hi);
    } else if source == FAR_ADDR {
      PutWords(dst, at, lo, hi);
    } else if source == OFFSET {
      PutWord(dst, at, lo);
    }
  }

  // ----- Chains ------------------------------------------------------------------------

  // From `start`, the links of the segment lead through exactly `slots` and then out of it.
  ghost predicate Spells(mem: seq<uint8>, start: uint16, limit: nat, slots: seq<nat>)
    decreases |slots|
  {
    if slots == [] then start >= limit
    else start == slots[0] && start < limit && start + 2 <= |mem| && Spells(mem, Word(mem, start), limit, slots[1..])
  }

  ghost function ChainPatches(slots: seq<nat>, bytes: seq<uint8>): seq<Patch> {
    seq(|slots|, i requires 0 <= i < |slots| => Patch(slots[i], bytes))
  }

  // A write outside the slots keeps the chain.
  lemma {:induction false} SpellsFrame(mem: seq<uint8>, mem': seq<uint8>, start: uint16, limit: nat, slots: seq<nat>)
    requires Spells(mem, start, limit, slots) && |mem'| == |mem|
    requires forall i, x :: 0 <= i < |slots| && slots[i] <= x < slots[i] + 2 && x < |mem| ==> mem'[x] == mem[x]
    ensures Spells(mem', start, limit, slots)
    decreases |slots|
  {
    if slots != [] {
      assert mem'[slots[0]] == mem[slots[0]] && mem'[slots[0] + 1] == mem[slots[0] + 1];
      forall i, x | 0 <= i < |slots[1..]| && slots[1..][i] <= x < slots[1..][i] + 2 && x < |mem|
        ensures mem'[x] == mem[x]
      {
        assert slots[1..][i] == slots[i + 1];
      }
      SpellsFrame(mem, mem', Word(mem, start), limit, slots[1..]);
    }
  }

  lemma FirstWritten(mem: seq<uint8>, start: uint16, limit: nat, slots: seq<nat>, bytes: seq<uint8>)
    requires Spells(mem, start, limit, slots) && slots != []
    requires Apart(ChainPatches(slots, bytes))
    ensures Spells(Over(mem, Patch(slots[0], bytes)), Word(mem, start), limit, slots[1..])
  {
    var mem' := Over(mem, Patch(slots[0], bytes));
    forall i, x | 0 <= i < |slots[1..]| && slots[1..][i] <= x < slots[1..][i] + 2 && x < |mem|
      ensures mem'[x] == mem[x]
    {
      var ps := ChainPatches(slots, bytes);
      assert Clear(ps[0], ps[i + 1]);
    }
    SpellsFrame(mem, mem', Word(mem, start), limit, slots[1..]);
  }

  // A chain is fixed by the bytes of the segment.
  lemma {:induction false} SpellsOne(mem: seq<uint8>, start: uint16, limit: nat, slots: seq<nat>, slots': seq<nat>)
    requires Spells(mem, start, limit, slots) && Spells(mem, start, limit, slots')
    ensures slots == slots'
    decreases |slots|
  {
    if slots != [] {
      SpellsOne(mem, Word(mem, start), limit, slots[1..], slots'[1..]);
      assert slots == [slots[0]] + slots[1..] && slots' == [slots'[0]] + slots'[1..];
    }
  }

  // From `at`, the loop visits exactly `slots`: at each it reads the link that is there by
  // then and writes `bytes` over it, which may be a link it will read later.
  ghost predicate Leads(mem: seq<uint8>, at: uint16, limit: nat, bytes: seq<uint8>, slots: seq<nat>)
    decreases |slots|
  {
    if slots == [] then at >= limit
    else
      at == slots[0] && at < limit && at + Span(Patch(at, bytes)) <= |mem| && at + 2 <= |mem|
      && Leads(Over(mem, Patch(at, bytes)), Word(mem, at), limit, bytes, slots[1..])
  }

  lemma {:induction false} LeadsOne(mem: seq<uint8>, at: uint16, limit: nat, bytes: seq<uint8>, slots: seq<nat>,
      slots': seq<nat>)
    requires Leads(mem, at, limit, bytes, slots) && Leads(mem, at, limit, bytes, slots')
    ensures slots == slots'
    decreases |slots|
  {
    if slots != [] {
      LeadsOne(Over(mem, Patch(at, bytes)), Word(mem, at), limit, bytes, slots[1..], slots'[1..]);
      assert slots == [slots[0]] + slots[1..] && slots' == [slots'[0]] + slots'[1..];
    }
  }

  lemma ApartTail(slots: seq<nat>, bytes: seq<uint8>, n: nat)
    requires slots != [] && Apart(ChainPatches(slots, bytes)) && Fits(ChainPatches(slots, bytes), n)
    ensures Apart(ChainPatches(slots[1..], bytes)) && Fits(ChainPatches(slots[1..], bytes), n)
    ensures slots[0] + Span(Patch(slots[0], bytes)) <= n
  {
    var ps, qs := ChainPatches(slots, bytes), ChainPatches(slots[1..], bytes);
    assert ps[0] == Patch(slots[0], bytes);
    assert forall i :: 0 <= i < |qs| ==> qs[i] == ps[i + 1];
  }

  // If the slots do not overlap, the loop visits the chain that the segment was loaded with.
  lemma {:induction false} SpellsLeads(mem: seq<uint8>, at: uint16, limit: nat, bytes: seq<uint8>, slots: seq<nat>)
    requires Spells(mem, at, limit, slots)
    requires Apart(ChainPatches(slots, bytes)) && Fits(ChainPatches(slots, bytes), |mem|)
    ensures Leads(mem, at, limit, bytes, slots)
    decreases |slots|
  {
    if slots != [] {
      ApartTail(slots, bytes, |mem|);
      FirstWritten(mem, at, limit, slots, bytes);
      assert slots[0] == at && at < limit && at + 2 <= |mem|;
      hide Spells, Apart, Fits, ChainPatches, Over;
      SpellsLeads(Over(mem, Patch(at, bytes)), Word(mem, at), limit, bytes, slots[1..]);
    }
  }

  // What the format means by a size: 0 stands for 64K, in which every link but the mark at
  // the end of a chain, 0xFFFF, leads to a slot.
  function Limit(size: uint16): nat {
    if size == 0 then 0xFFFF else size
  }

  // The loop compares with the size as it is written, so a chain of the format is followed
  // exactly unless that is 0; then no slot is visited.
  lemma FollowedIff(mem: seq<uint8>, at: uint16, size: uint16, bytes: seq<uint8>, slots: seq<nat>)
    requires Spells(mem, at, Limit(size), slots)
    requires Apart(ChainPatches(slots, bytes)) && Fits(ChainPatches(slots, bytes), |mem|)
    ensures Leads(mem, at, size, bytes, slots) <==> size != 0 || slots == []
    ensures size == 0 ==> Leads(mem, at, size, bytes, [])
  {
    SpellsLeads(mem, at, Limit(size), bytes, slots);
  }

  // One turn of the loop: `k` slots are written, the chain leads on through the others.
  ghost predicate Upto(mem0: seq<uint8>, mem: seq<uint8>, at: uint16, limit: nat, slots: seq<nat>,
      bytes: seq<uint8>, k: nat) {
    k <= |slots| && Leads(mem, at, limit, bytes, slots[k..]) && mem == Write(mem0, ChainPatches(slots[..k], bytes))
  }

  lemma UptoNone(mem: seq<uint8>, at: uint16, limit: nat, slots: seq<nat>, bytes: seq<uint8>)
    requires Leads(mem, at, limit, bytes, slots)
    ensures Upto(mem, mem, at, limit, slots, bytes, 0)
  {
    assert slots[0..] == slots;
  }

  lemma UptoAll(mem0: seq<uint8>, mem: seq<uint8>, at: uint16, limit: nat, slots: seq<nat>, bytes: seq<uint8>, k: nat)
    requires Upto(mem0, mem, at, limit, slots, bytes, k) && at >= limit
    ensures mem == Write(mem0, ChainPatches(slots, bytes))
  {
    assert slots[k..] == [];
    assert slots[..k] == slots;
  }

  lemma UptoMore(mem0: seq<uint8>, mem: seq<uint8>, at: uint16, limit: nat, slots: seq<nat>, bytes: seq<uint8>, k: nat)
    requires Upto(mem0, mem, at, limit, slots, bytes, k) && at < limit
    ensures k < |slots| && at + Span(Patch(at, bytes)) <= |mem| && at + 2 <= |mem|
    ensures Upto(mem0, Over(mem, Patch(at, bytes)), Word(mem, at), limit, slots, bytes, k + 1)
  {
    assert slots[k..] != [];
    assert slots[k..][0] == slots[k] && slots[k..][1..] == slots[k + 1..];
    assert ChainPatches(slots[..k + 1], bytes) == ChainPatches(slots[..k], bytes) + [Patch(at, bytes)];
    hide Over, Write;
    WriteMore(mem0, ChainPatches(slots[..k], bytes), Patch(at, bytes));
  }

  // The loop over the chain.
  method FollowChain(dst: array<uint8>, start: uint16, size: uint16, source: nat, target: uint32, ghost slots: seq<nat>)
    requires Leads(dst[..], start, size, Holds(source, target), slots)
    modifies dst
    ensures dst[..] == Write(old(dst[..]), ChainPatches(slots, Holds(source, target)))
    ensures var ps := ChainPatches(slots, Holds(source, target));
      Apart(ps) && Fits(ps, dst.Length) ==> forall i :: 0 <= i < |slots| ==> Refers(dst[..], slots[i], source, target)
  {
    hide *;
    var at: uint16 := start;
    ghost var bytes, mem := Holds(source, target), dst[..];
    ghost var k := 0;
    UptoNone(mem, at, size, slots, bytes);
    while at < size
      invariant Upto(mem, dst[..], at, size, slots, bytes, k)
      invariant k <= |slots|
      decreases |slots| - k
    {
      UptoMore(mem, dst[..], at, size, slots, bytes, k);
      var next := Word(dst[..], at);
      Put(dst, at, source, target);
      at, k := next, k + 1;
    }
    UptoAll(mem, dst[..], at, size, slots, bytes, k);
    if Apart(ChainPatches(slots, bytes)) && Fits(ChainPatches(slots, bytes), dst.Length) {
      ChainRefers(mem, slots, source, target);
    }
  }

  // Every place of a chain refers to the target.
  lemma ChainRefers(mem: seq<uint8>, slots: seq<nat>, source: nat, target: uint32)
    requires Apart(ChainPatches(slots, Holds(source, target)))
    requires Fits(ChainPatches(slots, Holds(source, target)), |mem|)
    ensures forall i :: 0 <= i < |slots| ==>
      Refers(Write(mem, ChainPatches(slots, Holds(source, target))), slots[i], source, target)
  {
    hide *;
    var ps := ChainPatches(slots, Holds(source, target));
    forall i | 0 <= i < |slots| ensures Refers(Write(mem, ps), slots[i], source, target) {
      ChainAt(slots, Holds(source, target), i);
      Written(mem, ps, i);
      HoldsRefers(Write(mem, ps), slots[i], source, target);
    }
  }

  lemma ChainAt(slots: seq<nat>, bytes: seq<uint8>, i: nat)
    requires i < |slots|
    ensures |ChainPatches(slots, bytes)| == |slots| && ChainPatches(slots, bytes)[i] == Patch(slots[i], bytes)
  {}

  // A far pointer that refers to a selector and an offset converts, through the selector
  // table, to that place.
  lemma FarConverts(mem: seq<uint8>, x: nat, selector: uint16, off: uint16, ldt: Ldt.Slots)
    requires Refers(mem, x, 3, Ldt.Segment(selector) * TWO16 + off)
    requires selector < Ldt.SLOTS && ldt[selector] != 0
    ensures Ldt.ToLinear(ldt, Word(mem, x) + 0x1_0000 * Word(mem, x + 2)) == Ldt.Linear((ldt[selector] + off) % TWO32)
  {
    Ldt.PackInverse(selector, off);
  }

  // So a source that refers to a segment of the module is a pointer to that place in it.
  lemma InternalConverts(mem: seq<uint8>, x: nat, r: Record, resolve: Resolver, ldt: Ldt.Slots)
    requires r.flags % 4 == 0 && r.first % 0x100 != 0xFF && Refers(mem, x, 3, Target(r, resolve))
    requires var selector := resolve.alias(r.first % 0x100); selector < Ldt.SLOTS && ldt[selector] != 0
    ensures Ldt.ToLinear(ldt, Word(mem, x) + 0x1_0000 * Word(mem, x + 2)) ==
      Ldt.Linear((ldt[resolve.alias(r.first % 0x100)] + r.second) % TWO32)
  {
    FarConverts(mem, x, resolve.alias(r.first % 0x100), r.second, ldt);
  }

  method AddByte(dst: array<uint8>, at: nat, v: int)
    requires at < dst.Length
    modifies dst
    ensures dst[..] == Over(old(dst[..]), Patch(at, [Low(old(dst[at]) + v)]))
  {
    PutByte(dst, at, Low(dst[at] + v));
  }

  method AddWord(dst: array<uint8>, at: nat, v: int)
    requires at + 2 <= dst.Length
    modifies dst
    ensures dst[..] == Over(old(dst[..]), Patch(at, Two(Word(old(dst[..]), at) + v)))
  {
    hide *;
    PutWord(dst, at, Word(dst[..], at) + v);
  }

  method AddWords(dst: array<uint8>, at: nat, v: int, v': int)
    requires at + 4 <= dst.Length
    modifies dst
    ensures dst[..] ==
      Over(old(dst[..]), Patch(at, Two(Word(old(dst[..]), at) + v) + Two(Word(old(dst[..]), at + 2) + v')))
  {
    hide *;
    PutWords(dst, at, Word(dst[..], at) + v, Word(dst[..], at + 2) + v');
  }

  // Adding the target to one source.
  method Add(dst: array<uint8>, at: nat, source: nat, target: uint32)
    requires at + Width(source) <= dst.Length
    modifies dst
    ensures dst[..] == Over(old(dst[..]), Patch(at, Sum(old(dst[..]), at, source, target)))
    ensures Added(old(dst[..]), dst[..], at, source, target)
  {
    hide *;
    SumWidth(dst[..], at, source, target);
    OverHas(dst[..], Patch(at, Sum(dst[..], at, source, target)));
    SumAdded(dst[..], Over(dst[..], Patch(at, Sum(dst[..], at, source, target))), at, source, target);
    if source == LOBYTE {
      SumByte(dst[..], at, source, target);
      AddByte(dst, at, Lo(target));
    } else if source == SEGMENT || source == OFFSET {
      SumWord(dst[..], at, source, target);
      AddWord(dst, at, if source == SEGMENT then Hi(target) else Lo(target));
    } else if source == FAR_ADDR {
      SumWords(dst[..], at, source, target);
      AddWords(dst, at, Lo(target), Hi(target));
    } else {
      SumNone(dst[..], at, source, target);
    }
  }

  // What it is to have added to a source at `x`: each word wraps on its own.
  ghost predicate Added(mem: seq<uint8>, mem': seq<uint8>, x: nat, source: nat, target: uint32)
    requires x + Width(source) <= |mem| && |mem'| == |mem|
  {
    && (source == 3 ==> (Word(mem', x) - Word(mem, x) - target) % 0x1_0000 == 0)
    && (source == 3 ==> (Word(mem', x + 2) - Word(mem, x + 2) - target / 0x1_0000) % 0x1_0000 == 0)
    && (source == 2 ==> (Word(mem', x) - Word(mem, x) - target / 0x1_0000) % 0x1_0000 == 0)
    && (source == 5 ==> (Word(mem', x) - Word(mem, x) - target) % 0x1_0000 == 0)
    && (source == 0 ==> (mem'[x] - mem[x] - target) % 0x100 == 0)
  }

  // Writing the sum does that.
  lemma SumAdded(mem: seq<uint8>, mem': seq<uint8>, x: nat, source: nat, target: uint32)
    requires x + Width(source) <= |mem| == |mem'|
    requires Has(mem', x, Sum(mem, x, source, target))
    ensures Added(mem, mem', x, source, target)
  {
    hide *;
    if source == 3 {
      SumFar(mem, mem', x, source, target);
    } else if source == 2 || source == 5 {
      SumNear(mem, mem', x, source, target);
    } else if source == 0 {
      SumLow(mem, mem', x, source, target);
    } else {
      SumOther(mem, mem', x, source, target);
    }
  }

  lemma SumFar(mem: seq<uint8>, mem': seq<uint8>, x: nat, source: nat, target: uint32)
    requires x + Width(source) <= |mem| == |mem'| && source == 3
    requires Has(mem', x, Sum(mem, x, source, target))
    ensures Added(mem, mem', x, source, target)
  {
    var w, v := Word(mem, x) + Lo(target), Word(mem, x + 2) + Hi(target);
    HasBytes(mem', x, Sum(mem, x, source, target));
    SumWords(mem, x, source, target);
    LoHi(target);
    hide Low, High, Lo, Hi, Sum, Word, Has;
    assert mem'[x + 0] == (Two(w) + Two(v))[0] && mem'[x + 1] == (Two(w) + Two(v))[1];
    assert mem'[x + 2] == (Two(w) + Two(v))[2] && mem'[x + 3] == (Two(w) + Two(v))[3];
    WordSum(mem', x, w);
    WordSum(mem', x + 2, v);
    Wraps(Word(mem, x), Lo(target), target);
    Wraps(Word(mem, x + 2), Hi(target), target / 0x1_0000);
  }

  lemma SumNear(mem: seq<uint8>, mem': seq<uint8>, x: nat, source: nat, target: uint32)
    requires x + Width(source) <= |mem| == |mem'| && source in {2, 5}
    requires Has(mem', x, Sum(mem, x, source, target))
    ensures Added(mem, mem', x, source, target)
  {
    var v := if source == 2 then Hi(target) else Lo(target);
    var w := Word(mem, x) + v;
    HasBytes(mem', x, Sum(mem, x, source, target));
    SumWord(mem, x, source, target);
    LoHi(target);
    hide Low, High, Lo, Hi, Sum, Word, Has;
    assert mem'[x + 0] == Two(w)[0] && mem'[x + 1] == Two(w)[1];
    WordSum(mem', x, w);
    Wraps(Word(mem, x), v, if source == 2 then target / 0x1_0000 else target);
  }

  lemma SumLow(mem: seq<uint8>, mem': seq<uint8>, x: nat, source: nat, target: uint32)
    requires x + Width(source) <= |mem| == |mem'| && source == 0
    requires Has(mem', x, Sum(mem, x, source, target))
    ensures Added(mem, mem', x, source, target)
  {
    HasBytes(mem', x, Sum(mem, x, source, target));
    SumByte(mem, x, source, target);
    LowSum(mem[x], target);
    hide Low, Lo, Sum, Word, Has;
    assert mem'[x + 0] == [Low(mem[x] + Lo(target))][0];
  }

  lemma SumOther(mem: seq<uint8>, mem': seq<uint8>, x: nat, source: nat, target: uint32)
    requires x + Width(source) <= |mem| == |mem'| && source !in {0, 2, 3, 5}
    ensures Added(mem, mem', x, source, target)
  {
    hide Word;
  }

  lemma SumWidth(mem: seq<uint8>, x: nat, source: nat, target: uint32)
    requires x + Width(source) <= |mem|
    ensures x + |Sum(mem, x, source, target)| <= |mem|
  {
    hide Sum;
  }

  lemma LoHi(target: uint32)
    ensures (Lo(target) - target) % 0x1_0000 == 0 && Hi(target) == target / 0x1_0000
  {}

  lemma WordSum(mem: seq<uint8>, x: nat, w: nat)
    requires x + 2 <= |mem| && mem[x] == Low(w) && mem[x + 1] == High(w)
    ensures Word(mem, x) == w % 0x1_0000
  {
    var q, high, low := w / 0x1_0000, w % 0x1_0000 / 0x100, w % 0x1_0000 % 0x100;
    assert w == 0x100 * (0x100 * q + high) + low;
    OneByte(0x100 * q + high, low);
    OneByte(q, high);
  }

  lemma OneByte(high: nat, low: nat)
    requires low < 0x100
    ensures (0x100 * high + low) % 0x100 == low && (0x100 * high + low) / 0x100 == high
  {}

  lemma Wraps(a: uint16, v: uint16, w: nat)
    requires (v - w) % 0x1_0000 == 0
    ensures ((a + v) % 0x1_0000 - a - w) % 0x1_0000 == 0
  {}

  lemma LowSum(a: uint8, target: uint32)
    ensures (Low(a + Lo(target)) - a - target) % 0x100 == 0
  {}

  lemma SumByte(mem: seq<uint8>, at: nat, source: nat, target: uint32)
    requires at + Width(source) <= |mem| && source == LOBYTE
    ensures at < |mem| && Sum(mem, at, source, target) == [Low(mem[at] + Lo(target))]
  {}

  lemma SumWord(mem: seq<uint8>, at: nat, source: nat, target: uint32)
    requires at + Width(source) <= |mem| && source in {SEGMENT, OFFSET}
    ensures at + 2 <= |mem|
    ensures Sum(mem, at, source, target) == Two(Word(mem, at) + if source == SEGMENT then Hi(target) else Lo(target))
  {}

  lemma SumWords(mem: seq<uint8>, at: nat, source: nat, target: uint32)
    requires at + Width(source) <= |mem| && source == FAR_ADDR
    ensures at + 4 <= |mem|
    ensures Sum(mem, at, source, target) == Two(Word(mem, at) + Lo(target)) + Two(Word(mem, at + 2) + Hi(target))
  {}

  lemma SumNone(mem: seq<uint8>, at: nat, source: nat, target: uint32)
    requires at + Width(source) <= |mem| && source !in {LOBYTE, SEGMENT, FAR_ADDR, OFFSET}
    ensures Over(mem, Patch(at, Sum(mem, at, source, target))) == mem
  {}

  // ----- Records -------------------------------------------------------------------------

  // `first` and `second` are the two words that name the target.
  datatype Record = Record(source: uint8, flags: uint8, at: uint16, first: uint16, second: uint16) {
    function Kind(): nat { flags % 4 }
    predicate OsFixup() { Kind() == 3 }
    predicate Additive() { flags / 4 % 2 == 1 }
    function Source(): nat { source % 16 }
  }

  function RecordAt(table: seq<uint8>, i: nat): Record
    requires 2 + 8 * i + 8 <= |table|
  {
    var p := 2 + 8 * i;
    Record(table[p], table[p + 1], Word(table, p + 2), Word(table, p + 4), Word(table, p + 6))
  }

  // A record and a table as the file holds them.
  function EncodeRecord(r: Record): seq<uint8> {
    [r.source, r.flags] + Two(r.at) + Two(r.first) + Two(r.second)
  }

  function EncodeRecords(rs: seq<Record>): (t: seq<uint8>)
    ensures |t| == 8 * |rs|
  {
    if rs == [] then [] else EncodeRecords(rs[..|rs| - 1]) + EncodeRecord(rs[|rs| - 1])
  }

  function EncodeTable(rs: seq<Record>): seq<uint8> {
    Two(|rs|) + EncodeRecords(rs)
  }

  lemma {:induction false} RecordBytes(rs: seq<Record>, i: nat)
    requires i < |rs|
    ensures EncodeRecords(rs)[8 * i..8 * i + 8] == EncodeRecord(rs[i])
  {
    var n := |rs| - 1;
    hide EncodeRecord;
    if i < n {
      RecordBytes(rs[..n], i);
      assert EncodeRecords(rs)[8 * i..8 * i + 8] == EncodeRecords(rs[..n])[8 * i..8 * i + 8];
    }
  }

  // Each record is read back from the table.
  lemma TableRead(rs: seq<Record>, i: nat)
    requires i < |rs| < 0x1_0000
    ensures Word(EncodeTable(rs), 0) == |rs| && |EncodeTable(rs)| == 2 + 8 * |rs|
    ensures RecordAt(EncodeTable(rs), i) == rs[i]
  {
    var t, p, r := EncodeTable(rs), 2 + 8 * i, rs[i];
    RecordBytes(rs, i);
    WordTwo(t, 0, |rs|);
    var part := EncodeRecords(rs)[8 * i..8 * i + 8];
    assert forall k :: 0 <= k < 8 ==> part[k] == t[p + k];
    hide EncodeRecords, EncodeTable, Low, High;
    RecordFields(t, p, r);
  }

  lemma RecordFields(t: seq<uint8>, p: nat, r: Record)
    requires p + 8 <= |t| && forall k :: 0 <= k < 8 ==> t[p + k] == EncodeRecord(r)[k]
    ensures t[p] == r.source && t[p + 1] == r.flags
    ensures Word(t, p + 2) == r.at && Word(t, p + 4) == r.first && Word(t, p + 6) == r.second
  {
    hide Low, High, Word;
    var e := EncodeRecord(r);
    assert t[p + 0] == e[0] && t[p + 1] == e[1];
    assert t[p + 2] == e[2] && t[p + 3] == e[3] && t[p + 4] == e[4];
    assert t[p + 5] == e[5] && t[p + 6] == e[6] && t[p + 7] == e[7];
    WordTwo(t, p + 2, r.at);
    WordTwo(t, p + 4, r.first);
    WordTwo(t, p + 6, r.second);
  }

  // The bits of the flags, and of the type of source.
  lemma RecordFlags(r: Record, kind: nat, additive: nat, more: nat)
    requires r.flags == kind + 4 * additive + 8 * more && kind < 4 && additive < 2
    ensures r.Kind() == kind && (r.Additive() <==> additive == 1) && (r.OsFixup() <==> kind == 3)
  {}

  // The selectors of the module's segments, and what entry points come to as 16:16 pointers,
  // 0 if there is none: its own by ordinal, and other modules' by ordinal or place of name.
  datatype Resolver = Resolver(
    alias: nat -> uint16, own: nat -> uint32, byOrdinal: (nat, nat) -> uint32, byName: (nat, nat) -> uint32)

  function Target(r: Record, resolve: Resolver): uint32 {
    match r.Kind()
    case 0 =>
      if r.first % 0x100 == 0xFF then resolve.own(r.second)
      else Ldt.Segment(resolve.alias(r.first % 0x100)) * TWO16 + r.second
    case 1 => resolve.byOrdinal(r.first, r.second)
    case 2 => resolve.byName(r.first, r.second)
    case _ => 0
  }

  // What a record refers to, by its fields: an entry point of the module, a place in one of
  // its segments, or an entry point of another module, by ordinal or by name.
  ghost predicate Means(r: Record, resolve: Resolver, target: uint32) {
    && (r.flags % 4 == 0 && r.first % 0x100 == 0xFF ==> target == resolve.own(r.second))
    && (r.flags % 4 == 0 && r.first % 0x100 != 0xFF ==>
      target == (resolve.alias(r.first % 0x100) * 8 + 7) % 0x1_0000 * 0x1_0000 + r.second)
    && (r.flags % 4 == 1 ==> target == resolve.byOrdinal(r.first, r.second))
    && (r.flags % 4 == 2 ==> target == resolve.byName(r.first, r.second))
  }

  lemma MeansTarget(r: Record, resolve: Resolver, target: uint32)
    requires Means(r, resolve, target)
    ensures r.OsFixup() || target == Target(r, resolve)
  {}

  // The patches of one record, to a segment that holds `mem`.
  ghost function RecordPatches(mem: seq<uint8>, r: Record, resolve: Resolver, chain: seq<nat>): seq<Patch> {
    if r.OsFixup() then []
    else if r.Additive() then
      if r.at + Width(r.Source()) <= |mem| then [Patch(r.at, Sum(mem, r.at, r.Source(), Target(r, resolve)))] else []
    else ChainPatches(chain, Holds(r.Source(), Target(r, resolve)))
  }

  // What the source needs of a record when its turn comes: its loop ends, having visited
  // `chain`, and it stays in the segment.
  ghost predicate Visits(mem: seq<uint8>, size: uint16, r: Record, resolve: Resolver, chain: seq<nat>) {
    if r.OsFixup() then true
    else if r.Additive() then r.at + Width(r.Source()) <= |mem|
    else Leads(mem, r.at, size, Holds(r.Source(), Target(r, resolve)), chain)
  }

  // The segment after the first `n` records.
  ghost function Fixed(mem: seq<uint8>, table: seq<uint8>, n: nat, resolve: Resolver,
      chains: seq<seq<nat>>): (r: seq<uint8>)
    requires 2 + 8 * n <= |table| && n <= |chains|
    ensures |r| == |mem|
  {
    if n == 0 then mem
    else
      var m := Fixed(mem, table, n - 1, resolve, chains);
      Write(m, RecordPatches(m, RecordAt(table, n - 1), resolve, chains[n - 1]))
  }

  ghost predicate AllVisit(mem: seq<uint8>, size: uint16, table: seq<uint8>, n: nat, resolve: Resolver,
      chains: seq<seq<nat>>)
    requires 2 + 8 * n <= |table|
  {
    && n <= |chains|
    && forall i :: 0 <= i < n ==>
      Visits(Fixed(mem, table, i, resolve, chains), size, RecordAt(table, i), resolve, chains[i])
  }

  // ----- The segment and its table in the file ----------------------------------------------

  // Whether the segment has a table of records.
  predicate Relocates(flags: uint16) {
    flags / 0x100 % 2 == 1
  }

  // Where the table is read: behind the data of the segment, which starts at `seg`.
  function TableAt(seg: nat, size: uint16): nat {
    seg + if size == 0 then 0xFFFF else size
  }

  predicate Readable(table: seq<uint8>) {
    |table| >= 2 && |table| >= 2 + 8 * Word(table, 0)
  }

  // How long the data of the segment is: here the loader does take 0 for 64K.
  function DataLength(size: uint16): nat {
    if size == 0 then 0x1_0000 else size
  }

  // A file as the format has it: the data of the segment at `seg`, then its table.  The table
  // is read where it is exactly unless the size is written as 0; then it is read one byte
  // early, and its first byte is the last one of the data.
  lemma TableReadIff(exe: seq<uint8>, seg: nat, size: uint16, data: seq<uint8>, table: seq<uint8>)
    requires seg <= |exe| && |data| == DataLength(size) && exe[seg..] == data + table
    ensures TableAt(seg, size) <= |exe|
    ensures exe[TableAt(seg, size)..] == table <==> size != 0
    ensures size == 0 ==> exe[TableAt(seg, size)..] == [data[0xFFFF]] + table
  {
    var k := TableAt(seg, size) - seg;
    assert exe[TableAt(seg, size)..] == exe[seg..][k..];
    assert (data + table)[k..] == data[k..] + table;
  }

  // So in 64K of data that end in a 0, a table of one record is taken for one of 256.
  lemma TableMisread(exe: seq<uint8>, seg: nat, data: seq<uint8>, table: seq<uint8>)
    requires seg <= |exe| && |data| == 0x1_0000 && exe[seg..] == data + table && |table| >= 2
    requires Word(table, 0) == 1 && data[0xFFFF] == 0
    ensures Word(exe[TableAt(seg, 0)..], 0) == 0x100
  {
    TableReadIff(exe, seg, 0, data, table);
    assert table[0] == 1;
  }

  // fixupNeSegment: each record finds the segment as the earlier ones have left it.
  method FixupSegment(dst: array<uint8>, exe: seq<uint8>, seg: nat, size: uint16, flags: uint16,
      resolve: Resolver, ghost chains: seq<seq<nat>>)
    requires Relocates(flags) ==> TableAt(seg, size) <= |exe| && Readable(exe[TableAt(seg, size)..])
    requires Relocates(flags) ==>
      var table := exe[TableAt(seg, size)..]; AllVisit(dst[..], size, table, Word(table, 0), resolve, chains)
    modifies dst
    ensures !Relocates(flags) ==> dst[..] == old(dst[..])
    ensures Relocates(flags) ==>
      var table := exe[TableAt(seg, size)..];
      Word(table, 0) <= |chains| && dst[..] == Fixed(old(dst[..]), table, Word(table, 0), resolve, chains)
  {
    if !Relocates(flags) {
      return;
    }
    FixupTable(dst, exe[TableAt(seg, size)..], size, resolve, chains);
  }

  method FixupTable(dst: array<uint8>, table: seq<uint8>, size: uint16, resolve: Resolver, ghost chains: seq<seq<nat>>)
    requires Readable(table) && AllVisit(dst[..], size, table, Word(table, 0), resolve, chains)
    modifies dst
    ensures Word(table, 0) <= |chains| && dst[..] == Fixed(old(dst[..]), table, Word(table, 0), resolve, chains)
  {
    hide *;
    ReadableIs(table);
    var n := Word(table, 0);
    ghost var mem := dst[..];
    var i := 0;
    VisitsAll(mem, size, table, n, resolve, chains);
    while i < n
      invariant 0 <= i <= n <= |chains| && 2 + 8 * n <= |table|
      invariant dst[..] == Fixed(mem, table, i, resolve, chains)
    {
      VisitsAt(mem, size, table, i, n, resolve, chains);
      var r := RecordAt(table, i);
      FixupRecord(dst, size, r, resolve, chains[i]);
      i := i + 1;
    }
  }

  lemma ReadableIs(table: seq<uint8>)
    requires Readable(table)
    ensures |table| >= 2 && |table| >= 2 + 8 * Word(table, 0)
  {}

  // In a segment whose size is written as 0, only additive records change anything.
  lemma ZeroWrites(mem: seq<uint8>, r: Record, resolve: Resolver, chain: seq<nat>)
    requires Visits(mem, 0, r, resolve, chain) && !r.Additive()
    ensures RecordPatches(mem, r, resolve, chain) == []
  {
    hide Holds, Target;
  }

  lemma VisitsAll(mem: seq<uint8>, size: uint16, table: seq<uint8>, n: nat, resolve: Resolver, chains: seq<seq<nat>>)
    requires 2 + 8 * n <= |table| && AllVisit(mem, size, table, n, resolve, chains)
    ensures n <= |chains| && Fixed(mem, table, 0, resolve, chains) == mem
  {}

  lemma VisitsAt(mem: seq<uint8>, size: uint16, table: seq<uint8>, i: nat, n: nat, resolve: Resolver,
      chains: seq<seq<nat>>)
    requires i < n <= |chains| && 2 + 8 * n <= |table| && AllVisit(mem, size, table, n, resolve, chains)
    ensures var m := Fixed(mem, table, i, resolve, chains);
      Visits(m, size, RecordAt(table, i), resolve, chains[i]) &&
      Fixed(mem, table, i + 1, resolve, chains) == Write(m, RecordPatches(m, RecordAt(table, i), resolve, chains[i]))
  {}

  // One record.
  method FixupRecord(dst: array<uint8>, size: uint16, r: Record, resolve: Resolver, ghost chain: seq<nat>)
    requires Visits(dst[..], size, r, resolve, chain)
    modifies dst
    ensures dst[..] == Write(old(dst[..]), RecordPatches(old(dst[..]), r, resolve, chain))
  {
    RecordIs(dst[..], size, r, resolve, chain);
    hide *;
    if r.OsFixup() {
      return;
    }
    var source, target := r.Source(), Target(r, resolve);
    if r.Additive() {
      Add(dst, r.at, source, target);
    } else {
      FollowChain(dst, r.at, size, source, target, chain);
    }
  }

  lemma RecordIs(mem: seq<uint8>, size: uint16, r: Record, resolve: Resolver, chain: seq<nat>)
    requires Visits(mem, size, r, resolve, chain)
    ensures r.OsFixup() ==> Write(mem, RecordPatches(mem, r, resolve, chain)) == mem
    ensures !r.OsFixup() && r.Additive() ==> r.at + Width(r.Source()) <= |mem|
    ensures !r.OsFixup() && r.Additive() ==>
      Write(mem, RecordPatches(mem, r, resolve, chain)) ==
      Over(mem, Patch(r.at, Sum(mem, r.at, r.Source(), Target(r, resolve))))
    ensures !r.OsFixup() && !r.Additive() ==>
      Leads(mem, r.at, size, Holds(r.Source(), Target(r, resolve)), chain) &&
      RecordPatches(mem, r, resolve, chain) == ChainPatches(chain, Holds(r.Source(), Target(r, resolve)))
  {
    if !r.OsFixup() && r.Additive() {
      WriteOne(mem, Patch(r.at, Sum(mem, r.at, r.Source(), Target(r, resolve))));
    }
    hide Leads, Sum, Over, Width;
  }

  lemma WriteOne(mem: seq<uint8>, p: Patch)
    ensures Write(mem, [p]) == Over(mem, p)
  {
    assert [p][..0] == [];
  }

  // ----- Records whose places are apart ---------------------------------------------------

  // The chain of the record is well formed, or the place it adds to is in the segment.
  ghost predicate WellFormed(mem: seq<uint8>, size: uint16, r: Record, chain: seq<nat>) {
    if r.OsFixup() then true
    else if r.Additive() then r.at + Width(r.Source()) <= |mem|
    else Spells(mem, r.at, size, chain)
  }

  // The patches of the records, all from the segment as it was loaded.
  ghost function AllPatches(mem: seq<uint8>, table: seq<uint8>, n: nat, resolve: Resolver,
      chains: seq<seq<nat>>): seq<Patch>
    requires 2 + 8 * n <= |table| && n <= |chains|
  {
    if n == 0 then []
    else
      AllPatches(mem, table, n - 1, resolve, chains) +
      RecordPatches(mem, RecordAt(table, n - 1), resolve, chains[n - 1])
  }

  ghost predicate AllWellFormed(mem: seq<uint8>, size: uint16, table: seq<uint8>, n: nat, chains: seq<seq<nat>>)
    requires 2 + 8 * n <= |table|
  {
    n <= |chains| && forall i :: 0 <= i < n ==> WellFormed(mem, size, RecordAt(table, i), chains[i])
  }

  // So a chain that the earlier patches are clear of is still there when its turn comes.
  lemma StillSpells(mem: seq<uint8>, ps: seq<Patch>, start: uint16, size: uint16, slots: seq<nat>, bytes: seq<uint8>)
    requires Spells(mem, start, size, slots) && ClearOf(ps, ChainPatches(slots, bytes))
    ensures Spells(Write(mem, ps), start, size, slots)
  {
    var mem' := Write(mem, ps);
    var qs := ChainPatches(slots, bytes);
    hide Spells, Write, Clear;
    forall i, x | 0 <= i < |slots| && slots[i] <= x < slots[i] + 2 && x < |mem| ensures mem'[x] == mem[x] {
      assert qs[i] == Patch(slots[i], bytes);
      Untouched(mem, ps, qs[i], x);
    }
    SpellsFrame(mem, mem', start, size, slots);
  }

  lemma SameSum(mem: seq<uint8>, ps: seq<Patch>, at: nat, source: nat, target: uint32)
    requires at + Width(source) <= |mem|
    requires ClearOf(ps, [Patch(at, Sum(mem, at, source, target))])
    ensures Sum(Write(mem, ps), at, source, target) == Sum(mem, at, source, target)
  {
    var p := Patch(at, Sum(mem, at, source, target));
    var mem' := Write(mem, ps);
    SumSpan(mem, at, source, target);
    assert forall i :: 0 <= i < |ps| ==> Clear(ps[i], [p][0]);
    hide Sum, Write, Clear, Span, Width;
    forall x | at <= x < at + Width(source) ensures mem'[x] == mem[x] {
      Untouched(mem, ps, p, x);
    }
    SumFrame(mem, mem', at, source, target);
  }

  lemma SumSpan(mem: seq<uint8>, at: nat, source: nat, target: uint32)
    requires at + Width(source) <= |mem|
    ensures Span(Patch(at, Sum(mem, at, source, target))) == Width(source)
  {}

  lemma SumFrame(mem: seq<uint8>, mem': seq<uint8>, at: nat, source: nat, target: uint32)
    requires at + Width(source) <= |mem| == |mem'|
    requires forall x :: at <= x < at + Width(source) ==> mem'[x] == mem[x]
    ensures Sum(mem', at, source, target) == Sum(mem, at, source, target)
  {
    hide Low, High;
    assert Word(mem', at) == Word(mem, at);
    assert source == FAR_ADDR ==> Word(mem', at + 2) == Word(mem, at + 2);
  }

  // If the places of all records are apart, each of them gets its value as computed from
  // the segment as loaded, and no other byte changes.
  lemma {:induction false} FixedApart(mem: seq<uint8>, size: uint16, table: seq<uint8>, n: nat,
      resolve: Resolver, chains: seq<seq<nat>>)
    requires 2 + 8 * n <= |table| && AllWellFormed(mem, size, table, n, chains)
    requires Apart(AllPatches(mem, table, n, resolve, chains))
    requires Fits(AllPatches(mem, table, n, resolve, chains), |mem|)
    ensures AllVisit(mem, size, table, n, resolve, chains)
    ensures Fixed(mem, table, n, resolve, chains) == Write(mem, AllPatches(mem, table, n, resolve, chains))
    decreases n
  {
    hide *;
    WellFormedLast(mem, size, table, n, chains);
    if n == 0 {
      FixedNone(mem, size, table, resolve, chains);
    } else {
      AllLast(mem, table, n, resolve, chains);
      FixedApart(mem, size, table, n - 1, resolve, chains);
      var r := RecordAt(table, n - 1);
      var ps, qs := AllPatches(mem, table, n - 1, resolve, chains), RecordPatches(mem, r, resolve, chains[n - 1]);
      RecordStill(mem, ps, size, r, resolve, chains[n - 1]);
      WriteAll(mem, ps, qs);
      FixedMore(mem, size, table, n, resolve, chains);
    }
  }

  // Then every place of every chain refers to its record's target, and every place added to
  // has had that target added.
  lemma FixedRefers(mem: seq<uint8>, size: uint16, table: seq<uint8>, n: nat, resolve: Resolver,
      chains: seq<seq<nat>>, i: nat, j: nat, target: uint32)
    requires i < n <= |chains| && 2 + 8 * n <= |table| && AllWellFormed(mem, size, table, n, chains)
    requires Apart(AllPatches(mem, table, n, resolve, chains))
    requires Fits(AllPatches(mem, table, n, resolve, chains), |mem|) && Means(RecordAt(table, i), resolve, target)
    requires var r := RecordAt(table, i); !r.OsFixup() && !r.Additive() && j < |chains[i]|
    ensures var r := RecordAt(table, i);
      Refers(Fixed(mem, table, n, resolve, chains), chains[i][j], r.Source(), target)
  {
    hide *;
    var r, ps := RecordAt(table, i), AllPatches(mem, table, n, resolve, chains);
    MeansTarget(r, resolve, target);
    FixedApart(mem, size, table, n, resolve, chains);
    RecordShape(mem, size, table, n, resolve, chains, i);
    ChainAt(chains[i], Holds(r.Source(), Target(r, resolve)), j);
    var k := AllHas(mem, table, n, resolve, chains, i, j);
    Written(mem, ps, k);
    HoldsRefers(Write(mem, ps), chains[i][j], r.Source(), Target(r, resolve));
  }

  lemma FixedAdds(mem: seq<uint8>, size: uint16, table: seq<uint8>, n: nat, resolve: Resolver,
      chains: seq<seq<nat>>, i: nat, target: uint32)
    requires i < n <= |chains| && 2 + 8 * n <= |table| && AllWellFormed(mem, size, table, n, chains)
    requires Apart(AllPatches(mem, table, n, resolve, chains))
    requires Fits(AllPatches(mem, table, n, resolve, chains), |mem|) && Means(RecordAt(table, i), resolve, target)
    requires var r := RecordAt(table, i); !r.OsFixup() && r.Additive()
    ensures var r := RecordAt(table, i);
      r.at + Width(r.Source()) <= |mem| &&
      Added(mem, Fixed(mem, table, n, resolve, chains), r.at, r.Source(), target)
  {
    hide *;
    var r, ps := RecordAt(table, i), AllPatches(mem, table, n, resolve, chains);
    MeansTarget(r, resolve, target);
    FixedApart(mem, size, table, n, resolve, chains);
    RecordShape(mem, size, table, n, resolve, chains, i);
    var k := AllHas(mem, table, n, resolve, chains, i, 0);
    Written(mem, ps, k);
    SumAdded(mem, Write(mem, ps), r.at, r.Source(), Target(r, resolve));
  }

  lemma RecordShape(mem: seq<uint8>, size: uint16, table: seq<uint8>, n: nat, resolve: Resolver,
      chains: seq<seq<nat>>, i: nat)
    requires i < n <= |chains| && 2 + 8 * n <= |table| && AllWellFormed(mem, size, table, n, chains)
    ensures var r := RecordAt(table, i);
      !r.OsFixup() && r.Additive() ==>
        r.at + Width(r.Source()) <= |mem| &&
        RecordPatches(mem, r, resolve, chains[i]) == [Patch(r.at, Sum(mem, r.at, r.Source(), Target(r, resolve)))]
    ensures var r := RecordAt(table, i);
      !r.OsFixup() && !r.Additive() ==>
        RecordPatches(mem, r, resolve, chains[i]) == ChainPatches(chains[i], Holds(r.Source(), Target(r, resolve)))
  {
    assert WellFormed(mem, size, RecordAt(table, i), chains[i]);
    hide Spells, Sum, Holds, RecordAt, Target, Width, ChainPatches;
  }

  // Where a patch of a record is among those of all records.
  lemma {:induction false} AllHas(mem: seq<uint8>, table: seq<uint8>, n: nat, resolve: Resolver,
      chains: seq<seq<nat>>, i: nat, j: nat) returns (k: nat)
    requires i < n <= |chains| && 2 + 8 * n <= |table|
    requires j < |RecordPatches(mem, RecordAt(table, i), resolve, chains[i])|
    ensures k < |AllPatches(mem, table, n, resolve, chains)|
    ensures AllPatches(mem, table, n, resolve, chains)[k] ==
      RecordPatches(mem, RecordAt(table, i), resolve, chains[i])[j]
    decreases n
  {
    hide RecordPatches, RecordAt;
    if i < n - 1 {
      k := AllHas(mem, table, n - 1, resolve, chains, i, j);
    } else {
      k := |AllPatches(mem, table, n - 1, resolve, chains)| + j;
    }
  }

  lemma WellFormedLast(mem: seq<uint8>, size: uint16, table: seq<uint8>, n: nat, chains: seq<seq<nat>>)
    requires 2 + 8 * n <= |table| && AllWellFormed(mem, size, table, n, chains)
    ensures n <= |chains|
    ensures n > 0 ==> AllWellFormed(mem, size, table, n - 1, chains)
    ensures n > 0 ==> WellFormed(mem, size, RecordAt(table, n - 1), chains[n - 1])
  {}

  lemma FixedNone(mem: seq<uint8>, size: uint16, table: seq<uint8>, resolve: Resolver, chains: seq<seq<nat>>)
    requires 2 <= |table|
    ensures AllVisit(mem, size, table, 0, resolve, chains)
    ensures Fixed(mem, table, 0, resolve, chains) == Write(mem, AllPatches(mem, table, 0, resolve, chains))
  {}

  lemma FixedMore(mem: seq<uint8>, size: uint16, table: seq<uint8>, n: nat, resolve: Resolver, chains: seq<seq<nat>>)
    requires 0 < n <= |chains| && 2 + 8 * n <= |table| && AllVisit(mem, size, table, n - 1, resolve, chains)
    requires Visits(Fixed(mem, table, n - 1, resolve, chains), size, RecordAt(table, n - 1), resolve, chains[n - 1])
    ensures AllVisit(mem, size, table, n, resolve, chains)
    ensures var m := Fixed(mem, table, n - 1, resolve, chains);
      Fixed(mem, table, n, resolve, chains) ==
      Write(m, RecordPatches(m, RecordAt(table, n - 1), resolve, chains[n - 1]))
  {
    hide Visits, RecordPatches, RecordAt;
  }

  lemma AllLast(mem: seq<uint8>, table: seq<uint8>, n: nat, resolve: Resolver, chains: seq<seq<nat>>)
    requires 0 < n <= |chains| && 2 + 8 * n <= |table|
    requires Apart(AllPatches(mem, table, n, resolve, chains))
    requires Fits(AllPatches(mem, table, n, resolve, chains), |mem|)
    ensures var ps := AllPatches(mem, table, n - 1, resolve, chains);
      var qs := RecordPatches(mem, RecordAt(table, n - 1), resolve, chains[n - 1]);
      AllPatches(mem, table, n, resolve, chains) == ps + qs &&
      Apart(ps) && Fits(ps, |mem|) && Apart(qs) && Fits(qs, |mem|) && ClearOf(ps, qs)
  {
    hide Apart, Fits, ClearOf, RecordPatches;
    ApartSplit(AllPatches(mem, table, n - 1, resolve, chains),
      RecordPatches(mem, RecordAt(table, n - 1), resolve, chains[n - 1]), |mem|);
  }

  // A record after patches that its own are clear of.
  lemma RecordStill(mem: seq<uint8>, ps: seq<Patch>, size: uint16, r: Record, resolve: Resolver, chain: seq<nat>)
    requires WellFormed(mem, size, r, chain)
    requires var qs := RecordPatches(mem, r, resolve, chain); Apart(qs) && Fits(qs, |mem|) && ClearOf(ps, qs)
    ensures Visits(Write(mem, ps), size, r, resolve, chain)
    ensures RecordPatches(Write(mem, ps), r, resolve, chain) == RecordPatches(mem, r, resolve, chain)
  {
    var source, target := r.Source(), Target(r, resolve);
    hide Write, Spells, Leads, Sum, Holds, Apart, Fits, ClearOf, Width;
    if !r.OsFixup() && r.Additive() {
      SameSum(mem, ps, r.at, source, target);
    } else if !r.OsFixup() {
      StillSpells(mem, ps, r.at, size, chain, Holds(source, target));
      SpellsLeads(Write(mem, ps), r.at, size, Holds(source, target), chain);
    }
  }
}
