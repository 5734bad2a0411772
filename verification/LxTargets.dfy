/**
  What the bytes mean that fixing up a 32-bit page writes: which place each source refers
  to once the page is done.
 */
module LxTargets {
  import opened MachineTypes
  import opened Patches
  import opened Options
  import opened LxFixup
  import Ldt

  // What a source of type `source` holds if it refers to `target`: the low byte, the low
  // word, a word of four bytes, those with a selector behind them, or the distance from the
  // byte behind the source, which is at `loc`.
  ghost predicate Refers(bytes: Bytes, source: nat, target: uint32, selector: uint16, loc: int) {
    && (source == 0 ==> bytes == [target % 0x100])
    && (source == 2 || source == 5 ==> bytes == Two(target % 0x1_0000))
    && (source == 3 || source == 7 ==> bytes == Four(target))
    && (source == 6 ==> bytes == Four(target) + Two(selector))
    && (source == 8 ==> bytes == Four((target - loc - 4) % 0x1_0000_0000))
  }

  lemma FieldTwo(v: uint16)
    ensures Field(v, 2) == Two(v)
  {
    assert Field(v, 2) == [v % 0x100] + Field(v / 0x100, 1);
    assert Field(v / 0x100, 1) == [v / 0x100 % 0x100] + Field(v / 0x100 / 0x100, 0);
  }

  lemma FieldSplit(v: nat, w: nat)
    ensures Field(v, 2 + w) == Field(v % 0x1_0000, 2) + Field(v / 0x1_0000, w)
  {
    FieldTwo(v % 0x1_0000);
    assert Field(v, 2 + w) == [v % 0x100] + Field(v / 0x100, 1 + w);
    assert Field(v / 0x100, 1 + w) == [v / 0x100 % 0x100] + Field(v / 0x100 / 0x100, w);
    Halves(v);
  }

  lemma Halves(v: nat)
    ensures v % 0x1_0000 % 0x100 == v % 0x100 && v % 0x1_0000 / 0x100 == v / 0x100 % 0x100
    ensures v / 0x100 / 0x100 == v / 0x1_0000
  {}

  lemma FieldFour(v: uint32)
    ensures Field(v, 4) == Four(v)
  {
    FieldSplit(v, 2);
    FieldTwo(v % 0x1_0000);
    FieldTwo(v / 0x1_0000);
  }

  lemma OutRefers(r: Reference, f: Final, addr: uint32, o: int)
    ensures Refers(Out(r, f, addr, o), r.source % 16, f.value, f.selector, addr + o)
  {
    var v := Stored(r, f, addr, o);
    FieldTwo(v % TWO16);
    FieldFour(v);
    FieldTwo(f.selector);
    hide Field, Two, Four;
    assert (f.value - (addr + o + 4)) == f.value - (addr + o) - 4;
  }

  // ----- Targets ------------------------------------------------------------------------

  lemma WritesAt(env: Env, r: LxRecord, page: nat, addr: uint32, i: nat)
    requires InTable(env, r.ref) && i < |r.offsets| && page + r.offsets[i] >= 0
    ensures RecordWrites(env, r, page, addr)[i] ==
      Patch(page + r.offsets[i], Out(r.ref, Resolved(env, r.ref), addr, r.offsets[i]))
  {
    hide Out, Resolved;
  }

  // A reference into the module itself: to the object's address plus the offset.
  lemma InternalRefers(env: Env, r: LxRecord, page: nat, addr: uint32, i: nat)
    requires r.ref.flags % 4 == 0 && r.ref.source / 16 % 2 == 0 && 1 <= r.ref.id <= |env.objects|
    requires i < |r.offsets| && page + r.offsets[i] >= 0
    ensures InTable(env, r.ref)
    ensures var p := RecordWrites(env, r, page, addr)[i];
      var target := (env.objects[r.ref.id - 1].addr + r.ref.value + r.ref.extra) % 0x1_0000_0000;
      p.at == page + r.offsets[i] && Refers(p.bytes, r.ref.source % 16, target, env.cs, addr + r.offsets[i])
  {
    WritesAt(env, r, page, addr, i);
    OutRefers(r.ref, Resolved(env, r.ref), addr, r.offsets[i]);
    InternalIs(env, r.ref);
    hide Out, Resolved;
  }

  lemma InternalIs(env: Env, r: Reference)
    requires r.flags % 4 == 0 && r.source / 16 % 2 == 0 && 1 <= r.id <= |env.objects|
    ensures InTable(env, r) && Resolved(env, r).value == (env.objects[r.id - 1].addr + r.value + r.extra) % TWO32
    ensures r.source % 16 == 6 ==> Resolved(env, r).selector == env.cs
  {
    Sums(env.objects[r.id - 1].addr + r.value, r.extra);
  }

  lemma Sums(a: nat, b: nat)
    ensures (a % TWO32 + b) % TWO32 == (a + b) % TWO32
  {}

  // A reference to another module: to what the import comes to, 0 for a module there is not.
  // The same goes for an alias if there is none.
  lemma ImportRefers(env: Env, r: LxRecord, page: nat, addr: uint32, i: nat, import_: Import)
    requires r.ref.flags % 4 in {1, 2} && i < |r.offsets| && page + r.offsets[i] >= 0
    requires var alias := r.ref.source / 16 % 2 == 1;
      import_ ==
        if r.ref.id == 0 || r.ref.id > env.modules then Import(0, None)
        else if r.ref.flags % 4 == 1 then env.byOrdinal(r.ref.id, r.ref.value, alias)
        else env.byName(r.ref.id, r.ref.value, alias)
    requires r.ref.source / 16 % 2 == 1 ==> import_.from == None || import_.from.value.alias == 0xFFFF
    ensures InTable(env, r.ref)
    ensures var p, target := RecordWrites(env, r, page, addr)[i], (import_.value + r.ref.extra) % 0x1_0000_0000;
      p.at == page + r.offsets[i] && Refers(p.bytes, r.ref.source % 16, target, env.cs, addr + r.offsets[i])
  {
    WritesAt(env, r, page, addr, i);
    OutRefers(r.ref, Resolved(env, r.ref), addr, r.offsets[i]);
    ImportIs(env, r.ref, import_);
    hide Out, Resolved;
  }

  lemma ImportIs(env: Env, r: Reference, import_: Import)
    requires r.flags % 4 in {1, 2}
    requires var alias := r.source / 16 % 2 == 1;
      import_ ==
        if r.id == 0 || r.id > env.modules then Import(0, None)
        else if r.flags % 4 == 1 then env.byOrdinal(r.id, r.value, alias)
        else env.byName(r.id, r.value, alias)
    requires r.source / 16 % 2 == 1 ==> import_.from == None || import_.from.value.alias == 0xFFFF
    ensures InTable(env, r) && Resolved(env, r).value == (import_.value + r.extra) % TWO32
    ensures r.source % 16 == 6 ==> Resolved(env, r).selector == env.cs
  {
    assert Asked(env, r) == import_;
  }

  // An object that has no alias: nothing but the additive is written.
  lemma MissingRefers(env: Env, r: LxRecord, page: nat, addr: uint32, i: nat)
    requires r.ref.flags % 4 == 0 && r.ref.source / 16 % 2 == 1 && 1 <= r.ref.id <= |env.objects|
    requires env.objects[r.ref.id - 1].alias == 0xFFFF && i < |r.offsets| && page + r.offsets[i] >= 0
    ensures InTable(env, r.ref)
    ensures var p := RecordWrites(env, r, page, addr)[i];
      p.at == page + r.offsets[i] &&
      Refers(p.bytes, r.ref.source % 16, r.ref.extra % 0x1_0000_0000, env.cs, addr + r.offsets[i])
  {
    WritesAt(env, r, page, addr, i);
    OutRefers(r.ref, Resolved(env, r.ref), addr, r.offsets[i]);
    assert Resolved(env, r.ref).value == r.ref.extra % 0x1_0000_0000;
    hide Out, Resolved;
  }

  // An alias: selector `seg` for the object, and the offset in it.  A 16:32 pointer holds
  // them apart, a 16:16 pointer one above the other, and a selector stands alone.
  lemma AliasRefers(env: Env, r: LxRecord, page: nat, addr: uint32, i: nat, off: uint32, seg: uint16)
    requires InTable(env, r.ref) && r.ref.source / 16 % 2 == 1 && HasAlias(Home(env, r.ref))
    requires seg == (Home(env, r.ref).value.alias * 8 + 7) % 0x1_0000
    requires off ==
      if r.ref.flags % 4 == 0 then r.ref.value % 0x1_0000_0000
      else (Asked(env, r.ref).value - Home(env, r.ref).value.addr) % 0x1_0000_0000
    requires i < |r.offsets| && page + r.offsets[i] >= 0
    ensures var p, extra := RecordWrites(env, r, page, addr)[i], r.ref.extra;
      && p.at == page + r.offsets[i]
      && (r.ref.source % 16 == 6 ==> p.bytes == Four((off + extra) % 0x1_0000_0000) + Two(seg))
      && (r.ref.source % 16 == 3 ==> p.bytes == Four((Or(seg, off) + extra) % 0x1_0000_0000))
      && (r.ref.source % 16 == 2 ==> p.bytes == Two((seg + extra) % 0x1_0000))
  {
    WritesAt(env, r, page, addr, i);
    OutRefers(r.ref, Resolved(env, r.ref), addr, r.offsets[i]);
    AliasIs(env, r.ref, off, seg);
    hide Out, Resolved, Or, Two, Four, Home, Asked, HasAlias, InTable;
    if r.ref.source % 16 == 2 {
      LowWord(seg + r.ref.extra);
    }
  }

  lemma AliasIs(env: Env, r: Reference, off: uint32, seg: uint16)
    requires InTable(env, r) && r.source / 16 % 2 == 1 && HasAlias(Home(env, r))
    requires seg == (Home(env, r).value.alias * 8 + 7) % 0x1_0000
    requires off ==
      if r.flags % 4 == 0 then r.value % 0x1_0000_0000
      else (Asked(env, r).value - Home(env, r).value.addr) % 0x1_0000_0000
    ensures r.source % 16 == 6 ==> Resolved(env, r) == Final((off + r.extra) % TWO32, seg)
    ensures r.source % 16 == 3 ==> Resolved(env, r).value == (Or(seg, off) + r.extra) % TWO32
    ensures r.source % 16 == 2 ==> Resolved(env, r).value == (seg + r.extra) % TWO32
  {
    hide Or;
  }

  lemma LowWord(v: nat)
    ensures v % 0x1_0000_0000 % 0x1_0000 == v % 0x1_0000
  {}

  // ----- The bits of a 16:16 pointer --------------------------------------------------------

  function Bit(x: nat, k: nat): bool {
    if k == 0 then x % 2 == 1 else Bit(x / 2, k - 1)
  }

  lemma {:induction false} OrBitsAt(a: nat, b: nat, w: nat, k: nat)
    requires k < w
    ensures Bit(OrBits(a, b, w), k) <==> Bit(a, k) || Bit(b, k)
  {
    OrHalf(a, b, w);
    hide OrBits;
    if k > 0 {
      OrBitsAt(a / 2, b / 2, w - 1, k - 1);
    }
  }

  lemma OrHalf(a: nat, b: nat, w: nat)
    requires w > 0
    ensures OrBits(a, b, w) / 2 == OrBits(a / 2, b / 2, w - 1)
    ensures OrBits(a, b, w) % 2 == 1 <==> a % 2 == 1 || b % 2 == 1
  {}

  lemma {:induction false} BitParts(high: nat, low: nat, w: nat, k: nat)
    requires low < Pow2(w)
    ensures Bit(high * Pow2(w) + low, k) <==> if k < w then Bit(low, k) else Bit(high, k - w)
    decreases w
  {
    if w > 0 {
      var p := Pow2(w - 1);
      Double(high, p);
      if k > 0 {
        BitParts(high, low / 2, w - 1, k - 1);
        HalfSum(high * p, low);
      } else {
        HalfSum(high * p, low);
      }
    }
  }

  lemma Double(a: nat, p: nat)
    ensures a * (2 * p) == 2 * (a * p)
  {}

  lemma HalfSum(a: nat, low: nat)
    ensures (2 * a + low) / 2 == a + low / 2 && (2 * a + low) % 2 == low % 2
  {}

  // Each bit of the pointer is one of the shifted segment or of the offset.
  lemma OrIs(seg: uint16, off: uint32, k: nat)
    requires k < 32
    ensures Bit(Or(seg, off), k) <==> (k >= 16 && Bit(seg, k - 16)) || Bit(off, k)
  {
    Pow16();
    BitParts(OrBits(seg, off / TWO16, 16), off % TWO16, 16, k);
    BitParts(off / TWO16, off % TWO16, 16, k);
    assert off == off / TWO16 * TWO16 + off % TWO16;
    if k >= 16 {
      OrBitsAt(seg, off / TWO16, 16, k - 16);
    }
    hide OrBits, Bit;
  }

  // ----- The format ---------------------------------------------------------------------------

  // The bits of the two flag bytes.
  lemma FlagFields(r: Reference, kind: nat, extra: nat, unused: nat, wide: nat, wideExtra: nat, wideId: nat, small: nat)
    requires kind < 4 && extra < 2 && unused < 2 && wide < 2 && wideExtra < 2 && wideId < 2 && small < 2
    requires r.flags == kind + 4 * extra + 8 * unused + 16 * wide + 32 * wideExtra + 64 * wideId + 128 * small
    ensures r.Kind() == kind && r.IdWidth() == 1 + wideId
    ensures r.ExtraWidth() == extra * (2 + 2 * wideExtra)
    ensures r.ValueWidth() ==
      if kind == 0 && r.source % 16 == 2 then 0 else if kind == 1 && small == 1 then 1 else 2 + 2 * wide
  {
    var c := wide + 2 * wideExtra + 4 * wideId + 8 * small;
    var e := wideId + 2 * small;
    LowBits(r.flags, 4, kind, extra + 2 * (unused + 2 * c));
    LowBits(r.flags, 16, kind + 4 * extra + 8 * unused, c);
    LowBits(r.flags, 32, kind + 4 * extra + 8 * unused + 16 * wide, wideExtra + 2 * e);
    LowBits(r.flags, 64, kind + 4 * extra + 8 * unused + 16 * wide + 32 * wideExtra, e);
    LowBits(r.flags, 128, kind + 4 * extra + 8 * unused + 16 * wide + 32 * wideExtra + 64 * wideId, small);
    hide *;
    Widths(r, kind, extra, wide, wideExtra, wideId, small);
  }

  lemma LowBits(v: nat, n: nat, low: nat, high: nat)
    requires n in {4, 16, 32, 64, 128} && v == low + n * high && low < n
    ensures v / n == high && v % n == low
  {}

  lemma Widths(r: Reference, kind: nat, extra: nat, wide: nat, wideExtra: nat, wideId: nat, small: nat)
    requires r.flags % 4 == kind && r.flags / 4 % 2 == extra && r.flags / 16 % 2 == wide
    requires r.flags / 32 % 2 == wideExtra && r.flags / 64 % 2 == wideId && r.flags / 128 % 2 == small
    ensures r.Kind() == kind && r.IdWidth() == 1 + wideId && r.ExtraWidth() == extra * (2 + 2 * wideExtra)
    ensures r.ValueWidth() ==
      if kind == 0 && r.source % 16 == 2 then 0 else if kind == 1 && small == 1 then 1 else 2 + 2 * wide
  {}

  lemma SourceFields(r: Reference, type_: nat, alias: nat, listed: nat, more: nat)
    requires type_ < 16 && alias < 2 && listed < 2 && r.source == type_ + 16 * alias + 32 * listed + 64 * more
    ensures r.Type() == type_ && (r.Alias() <==> alias == 1) && (r.Listed() <==> listed == 1)
  {}

  // ----- The page ------------------------------------------------------------------------------

  // Where a write of a record is among those of all records.
  lemma {:induction false} WritesHave(env: Env, rs: seq<LxRecord>, page: nat, addr: uint32, j: nat, i: nat)
      returns (k: nat)
    requires AllInTable(env, rs) && !SomeEnds(env, rs) && j < |rs| && i < |rs[j].offsets|
    ensures InTable(env, rs[j].ref) && k < |Writes(env, rs, page, addr)|
    ensures Writes(env, rs, page, addr)[k] == RecordWrites(env, rs[j], page, addr)[i]
    decreases |rs|
  {
    assert InTable(env, rs[0].ref) && !Ends(env, rs[0]);
    assert forall n :: 0 < n < |rs| ==> rs[n] == rs[1..][n - 1];
    hide RecordWrites, InTable, Ends;
    if j == 0 {
      k := i;
    } else {
      k := WritesHave(env, rs[1..], page, addr, j - 1, i);
      k := k + |RecordWrites(env, rs[0], page, addr)|;
    }
  }

  // If the sources of a page are apart, each holds its own bytes when the page is done.
  lemma PageHolds(env: Env, rs: seq<LxRecord>, page: nat, addr: uint32, mem: Bytes, j: nat, i: nat)
    requires AllInTable(env, rs) && !SomeEnds(env, rs) && j < |rs| && i < |rs[j].offsets|
    requires Apart(Writes(env, rs, page, addr)) && Fits(Writes(env, rs, page, addr), |mem|)
    ensures InTable(env, rs[j].ref)
    ensures var p := RecordWrites(env, rs[j], page, addr)[i];
      Has(Write(mem, Writes(env, rs, page, addr)), p.at, p.bytes)
  {
    hide *;
    var k := WritesHave(env, rs, page, addr, j, i);
    Written(mem, Writes(env, rs, page, addr), k);
  }
}
