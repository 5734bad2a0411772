/**
  Fixups of a 32-bit page, lx_loader.c's fixupPage: a stream of records whose fields have
  the widths that two flag bytes say, each of which writes one value to a list of places.
 */
module LxFixup {
  import opened MachineTypes
  import opened Patches
  import opened Options
  import Ldt

  function Flag(b: uint8, bit: nat): bool
    requires bit > 0
  {
    b / bit % 2 == 1
  }

  // ----- Records ---------------------------------------------------------------------

  // `id` is an object or module, `value` an offset, an ordinal or the place of a name.
  datatype Reference = Reference(source: uint8, flags: uint8, id: nat, value: nat, extra: nat) {
    function Type(): nat { source % 16 }
    function Alias(): bool { Flag(source, 0x10) }
    function Listed(): bool { Flag(source, 0x20) }
    function Kind(): nat { flags % 4 }
    function IdWidth(): nat { if Flag(flags, 0x40) then 2 else 1 }
    function ValueWidth(): nat {
      if Kind() == 0 && Type() == 2 then 0
      else if Kind() == 1 && Flag(flags, 0x80) then 1
      else if Flag(flags, 0x10) then 4
      else 2
    }
    function ExtraWidth(): nat { if !Flag(flags, 4) then 0 else if Flag(flags, 0x20) then 4 else 2 }
  }

  // `offsets` has one element unless the record has a source list.
  datatype LxRecord = LxRecord(ref: Reference, offsets: seq<int>)

  // An unsigned number in `w` bytes, the low ones first.
  function Field(v: nat, w: nat): Bytes {
    if w == 0 then [] else [v % 0x100] + Field(v / 0x100, w - 1)
  }

  predicate Within(v: nat, w: nat) {
    if w == 0 then v == 0 else Within(v / 0x100, w - 1)
  }

  // A 16-bit offset, as the unsigned number with the same bits.
  function Unsigned(o: int): nat
    requires -0x8000 <= o < 0x8000
  {
    if o < 0 then o + TWO16 else o
  }

  function Signed(v: nat): int {
    if v >= 0x8000 then v - TWO16 else v
  }

  ghost predicate InRange(r: LxRecord) {
    && Within(r.ref.id, r.ref.IdWidth()) && Within(r.ref.value, r.ref.ValueWidth())
    && Within(r.ref.extra, r.ref.ExtraWidth())
    && (if r.ref.Listed() then |r.offsets| < 0x100 else |r.offsets| == 1)
    && forall i :: 0 <= i < |r.offsets| ==> -0x8000 <= r.offsets[i] < 0x8000
  }

  function Offsets(os: seq<int>): Bytes
    requires forall i :: 0 <= i < |os| ==> -0x8000 <= os[i] < 0x8000
  {
    if os == [] then [] else Field(Unsigned(os[0]), 2) + Offsets(os[1..])
  }

  // The record as the file holds it.
  function Encode(r: LxRecord): Bytes
    requires InRange(r)
  {
    [r.ref.source, r.ref.flags]
      + (if r.ref.Listed() then [|r.offsets|] else Offsets(r.offsets))
      + Field(r.ref.id, r.ref.IdWidth()) + Field(r.ref.value, r.ref.ValueWidth())
      + Field(r.ref.extra, r.ref.ExtraWidth())
      + (if r.ref.Listed() then Offsets(r.offsets) else [])
  }

  ghost predicate AllInRange(rs: seq<LxRecord>) {
    forall i :: 0 <= i < |rs| ==> InRange(rs[i])
  }

  ghost function EncodeAll(rs: seq<LxRecord>): Bytes
    requires AllInRange(rs)
  {
    if rs == [] then [] else Encode(rs[0]) + EncodeAll(rs[1..])
  }

  // ----- Reading fields -----------------------------------------------------------------

  lemma {:induction false} FieldSize(v: nat, w: nat)
    ensures |Field(v, w)| == w
  {
    if w > 0 {
      FieldSize(v / 0x100, w - 1);
    }
  }

  // Reading back a number written in `w` bytes.
  method ReadField(t: Bytes, at: nat, w: nat, ghost v: nat) returns (r: nat)
    requires Has(t, at, Field(v, w)) && Within(v, w)
    ensures r == v
    decreases w
  {
    if w == 0 {
      return 0;
    }
    HasSplit(t, at, [v % 0x100], Field(v / 0x100, w - 1));
    assert t[at] == t[at..at + 1][0];
    var high := ReadField(t, at + 1, w - 1, v / 0x100);
    r := t[at] as int + 0x100 * high;
  }

  // ----- Targets --------------------------------------------------------------------------

  // An object of the module: its address, and its 16-bit selector or 0xFFFF.
  datatype Object = Object(addr: uint32, alias: uint16)
  datatype Import = Import(value: uint32, from: Option<Object>)

  // The module being fixed up, and what its imports come to: an import by ordinal or by the
  // place of its name, asked of a module, for a 16-bit or a 32-bit caller.
  datatype Env = Env(objects: seq<Object>, modules: nat, byOrdinal: (nat, nat, bool) -> Import,
      byName: (nat, nat, bool) -> Import, cs: uint16)

  // The value to write and, for a 16:32 pointer, its selector.
  datatype Final = Final(value: uint32, selector: uint16)

  function Pow2(w: nat): nat {
    if w == 0 then 1 else 2 * Pow2(w - 1)
  }

  lemma Pow16()
    ensures Pow2(16) == TWO16
  {
    assert Pow2(4) == 16;
    assert Pow2(8) == 0x100;
    assert Pow2(12) == 0x1000;
  }

  // The bits of both, of the `w` low ones.
  function OrBits(a: nat, b: nat, w: nat): (r: nat)
    ensures r < Pow2(w)
  {
    if w == 0 then 0 else (if a % 2 == 1 || b % 2 == 1 then 1 else 0) + 2 * OrBits(a / 2, b / 2, w - 1)
  }

  // A segment in the high half, and an offset that may reach into it.
  function Or(seg: uint16, off: uint32): uint32 {
    Pow16();
    OrBits(seg, off / TWO16, 16) * TWO16 + off % TWO16
  }

  lemma {:induction false} OrZero(a: nat, w: nat)
    requires a < Pow2(w)
    ensures OrBits(a, 0, w) == a
  {
    if w > 0 {
      OrZero(a / 2, w - 1);
    }
  }

  function Selector(env: Env, r: Reference): uint16 {
    if r.Type() == 6 then env.cs else 0
  }

  // The target as a 16-bit address: segment `seg`, offset `off`.
  function Aliased(r: Reference, seg: uint16, off: uint32, cs: uint16): Final {
    if r.Type() == 2 then Final(seg, cs)
    else if r.Type() == 3 then Final(Or(seg, off), cs)
    else Final(off, seg)
  }

  predicate InTable(env: Env, r: Reference) {
    r.Kind() == 0 ==> 1 <= r.id <= |env.objects|
  }

  function Internal(env: Env, r: Reference): Final
    requires 1 <= r.id <= |env.objects|
  {
    var o := env.objects[r.id - 1];
    if !r.Alias() then Final((o.addr + r.value) % TWO32, Selector(env, r))
    else if o.alias == 0xFFFF then Final(0, Selector(env, r))
    else Aliased(r, Ldt.Segment(o.alias), r.value % TWO32, Selector(env, r))
  }

  function Asked(env: Env, r: Reference): Import {
    if r.id == 0 || r.id > env.modules then Import(0, None)
    else if r.Kind() == 1 then env.byOrdinal(r.id, r.value, r.Alias())
    else env.byName(r.id, r.value, r.Alias())
  }

  predicate HasAlias(o: Option<Object>) {
    o != None && o.value.alias != 0xFFFF
  }

  function Imported(env: Env, r: Reference): Final {
    var i := Asked(env, r);
    if !r.Alias() || !HasAlias(i.from) then Final(i.value, Selector(env, r))
    else Aliased(r, Ldt.Segment(i.from.value.alias), (i.value - i.from.value.addr) % TWO32, Selector(env, r))
  }

  // The object that the target is in, and where in it.
  function Home(env: Env, r: Reference): Option<Object>
    requires InTable(env, r)
  {
    if r.Kind() == 0 then Some(env.objects[r.id - 1]) else Asked(env, r).from
  }

  ghost function Inside(env: Env, r: Reference): uint32
    requires InTable(env, r) && HasAlias(Home(env, r))
  {
    if r.Kind() == 0 then r.value % TWO32 else (Asked(env, r).value - Home(env, r).value.addr) % TWO32
  }

  // The assertion of the source: an alias that is there, asked for by a type of source
  // that cannot hold it.
  predicate BadAlias(env: Env, r: Reference)
    requires InTable(env, r)
  {
    && r.Alias() && r.Type() !in {2, 3, 6}
    && HasAlias(Home(env, r))
  }

  // Whether the program ends at a record with `n` sources: at a target of kind 3, at the
  // assertion, or at the first source of a type it does not know.
  predicate Stops(env: Env, r: Reference, n: nat)
    requires InTable(env, r)
  {
    r.Kind() == 3 || BadAlias(env, r) || (r.Type() !in {0, 2, 3, 5, 6, 7, 8} && n > 0)
  }

  function Resolved(env: Env, r: Reference): Final
    requires InTable(env, r)
  {
    var f := if r.Kind() == 0 then Internal(env, r) else Imported(env, r);
    f.(value := (f.value + r.extra) % TWO32)
  }

  // ----- What gets written ----------------------------------------------------------------

  function Width32(r: Reference): nat {
    match r.Type()
    case 0 => 1
    case 2 => 2
    case 3 => 4
    case 5 => 2
    case 6 => 6
    case 7 => 4
    case 8 => 4
    case _ => 0
  }

  // A self-relative source holds the distance from the byte behind it.
  function Stored(r: Reference, f: Final, addr: uint32, o: int): uint32 {
    if r.Type() == 8 then (f.value - (addr + o + 4)) % TWO32 else f.value
  }

  function Out(r: Reference, f: Final, addr: uint32, o: int): Bytes {
    var v := Stored(r, f, addr, o);
    match Width32(r)
    case 1 => [v % 0x100]
    case 2 => Field(v % TWO16, 2)
    case 4 => Field(v, 4)
    case 6 => Field(v, 4) + Field(f.selector, 2)
    case _ => []
  }

  // The place `o` bytes from the start of the page, which is at `page` in memory.
  function Place(page: nat, o: int): nat {
    if page + o >= 0 then page + o else 0
  }

  ghost function RecordWrites(env: Env, r: LxRecord, page: nat, addr: uint32): (ps: seq<Patch>)
    requires InTable(env, r.ref)
    ensures |ps| == |r.offsets|
  {
    seq(|r.offsets|, i requires 0 <= i < |r.offsets| =>
      Patch(Place(page, r.offsets[i]), Out(r.ref, Resolved(env, r.ref), addr, r.offsets[i])))
  }

  ghost predicate Ends(env: Env, r: LxRecord)
    requires InTable(env, r.ref)
  {
    Stops(env, r.ref, |r.offsets|)
  }

  ghost predicate AllInTable(env: Env, rs: seq<LxRecord>) {
    forall i :: 0 <= i < |rs| ==> InTable(env, rs[i].ref)
  }

  // Of the records before the first that ends the program.
  ghost function Writes(env: Env, rs: seq<LxRecord>, page: nat, addr: uint32): seq<Patch>
    requires AllInTable(env, rs)
  {
    if rs == [] || Ends(env, rs[0]) then []
    else RecordWrites(env, rs[0], page, addr) + Writes(env, rs[1..], page, addr)
  }

  ghost predicate Reaches(r: LxRecord, page: nat, size: nat) {
    forall i :: 0 <= i < |r.offsets| ==> 0 <= page + r.offsets[i] && page + r.offsets[i] + Width32(r.ref) <= size
  }

  ghost predicate AllReach(env: Env, rs: seq<LxRecord>, page: nat, size: nat)
    requires AllInTable(env, rs)
  {
    rs == [] || Ends(env, rs[0]) || (Reaches(rs[0], page, size) && AllReach(env, rs[1..], page, size))
  }

  ghost predicate SomeEnds(env: Env, rs: seq<LxRecord>)
    requires AllInTable(env, rs)
  {
    exists i :: 0 <= i < |rs| && Ends(env, rs[i])
  }

  // The number in `w` bytes.
  function Number(s: Bytes): nat {
    if s == [] then 0 else s[0] as int + 0x100 * Number(s[1..])
  }

  lemma {:induction false} NumberField(v: nat, w: nat)
    requires Within(v, w)
    ensures |Field(v, w)| == w && Number(Field(v, w)) == v
  {
    if w > 0 {
      NumberField(v / 0x100, w - 1);
    }
  }

  // What a self-relative source is for: its location plus 4 plus what it holds is the
  // target, modulo 32 bits.
  lemma SelfRelative(env: Env, r: LxRecord, page: nat, addr: uint32, i: nat)
    requires InTable(env, r.ref) && r.ref.Type() == 8 && i < |r.offsets|
    ensures var p := RecordWrites(env, r, page, addr)[i];
      |p.bytes| == 4 && (addr + r.offsets[i] + 4 + Number(p.bytes)) % TWO32 == Resolved(env, r.ref).value
  {
    WritesFour(env, r, page, addr, i);
    hide *;
    Turned(Resolved(env, r.ref).value, addr + r.offsets[i] + 4);
  }

  lemma Turned(v: uint32, at: int)
    ensures (at + (v - at) % TWO32) % TWO32 == v
  {}

  // What a 16:16 alias is for: with the object's address in the slot of its selector, the
  // four bytes convert back to the place in the object they stand for.
  lemma AliasConverts(env: Env, r: LxRecord, page: nat, addr: uint32, i: nat, s: Ldt.Slots)
    requires InTable(env, r.ref) && r.ref.Type() == 3 && r.ref.Alias() && HasAlias(Home(env, r.ref)) && i < |r.offsets|
    requires var o := Home(env, r.ref).value; o.alias < Ldt.SLOTS && s[o.alias] == o.addr != 0
    requires Inside(env, r.ref) + r.ref.extra < TWO16
    ensures var o, p := Home(env, r.ref).value, RecordWrites(env, r, page, addr)[i];
      Number(p.bytes) < TWO32 &&
      Ldt.ToLinear(s, Number(p.bytes)) == Ldt.Linear((o.addr + Inside(env, r.ref) + r.ref.extra) % TWO32)
  {
    AliasIs(env, r.ref);
    var o, off, v := Home(env, r.ref).value, Inside(env, r.ref) + r.ref.extra, Resolved(env, r.ref).value;
    WritesFour(env, r, page, addr, i);
    hide *;
    LinearAt(s, o.alias, o.addr, off);
  }

  lemma LinearAt(s: Ldt.Slots, alias: uint16, addr: uint32, off: uint16)
    requires alias < Ldt.SLOTS && s[alias] == addr != 0
    ensures Ldt.ToLinear(s, Ldt.Segment(alias) * TWO16 + off) == Ldt.Linear((addr + off) % TWO32)
  {
    Ldt.PackInverse(alias, off);
    assert Ldt.Pack(alias, off) == Ldt.Segment(alias) * TWO16 + off;
    hide Ldt.Pack, Ldt.Segment, Ldt.SelectorOf, Ldt.OffsetOf;
  }

  lemma WritesFour(env: Env, r: LxRecord, page: nat, addr: uint32, i: nat)
    requires InTable(env, r.ref) && r.ref.Type() in {3, 8} && i < |r.offsets|
    ensures var p, v := RecordWrites(env, r, page, addr)[i], Resolved(env, r.ref).value;
      |p.bytes| == 4 &&
      Number(p.bytes) == if r.ref.Type() == 8 then (v - (addr + r.offsets[i] + 4)) % TWO32 else v
  {
    hide Resolved, Field, Number, Within, InTable;
    var v := Stored(r.ref, Resolved(env, r.ref), addr, r.offsets[i]);
    Within32(v);
    NumberField(v, 4);
  }

  lemma AliasIs(env: Env, r: Reference)
    requires InTable(env, r) && r.Type() == 3 && r.Alias() && HasAlias(Home(env, r))
    requires Inside(env, r) + r.extra < TWO16
    ensures Resolved(env, r).value == Ldt.Segment(Home(env, r).value.alias) * TWO16 + (Inside(env, r) + r.extra)
  {
    var seg, off := Ldt.Segment(Home(env, r).value.alias), Inside(env, r);
    AliasSum(env, r);
    hide *;
    OrLow(seg, off);
    NoCarry(seg, off + r.extra);
  }

  lemma AliasSum(env: Env, r: Reference)
    requires InTable(env, r) && r.Type() == 3 && r.Alias() && HasAlias(Home(env, r))
    ensures Resolved(env, r).value == (Or(Ldt.Segment(Home(env, r).value.alias), Inside(env, r)) + r.extra) % TWO32
  {
    hide Or, Ldt.Segment, Flag;
  }

  lemma SelectorIs(env: Env, r: Reference)
    requires InTable(env, r) && r.Type() == 2 && r.Alias() && HasAlias(Home(env, r)) && r.extra == 0
    ensures Resolved(env, r).value == Ldt.Segment(Home(env, r).value.alias)
  {
    hide Ldt.Segment, Flag;
  }

  lemma NoCarry(seg: uint16, off: uint16)
    ensures (seg * TWO16 + off) % TWO32 == seg * TWO16 + off
  {}

  lemma OrLow(seg: uint16, off: uint16)
    ensures Or(seg, off) == seg * TWO16 + off
  {
    Pow16();
    OrZero(seg, 16);
    assert off / TWO16 == 0;
  }

  // And a selector alone, with any offset.
  lemma SelectorConverts(env: Env, r: LxRecord, page: nat, addr: uint32, i: nat, s: Ldt.Slots, off: uint16)
    requires InTable(env, r.ref) && r.ref.Type() == 2 && r.ref.Alias() && HasAlias(Home(env, r.ref)) && i < |r.offsets|
    requires var o := Home(env, r.ref).value; o.alias < Ldt.SLOTS && s[o.alias] == o.addr != 0
    requires r.ref.extra == 0
    ensures var o, p := Home(env, r.ref).value, RecordWrites(env, r, page, addr)[i];
      Ldt.ToLinear(s, (Number(p.bytes) * TWO16 + off) % TWO32) == Ldt.Linear((o.addr + off) % TWO32)
  {
    var o := Home(env, r.ref).value;
    WritesTwo(env, r, page, addr, i);
    hide *;
    LinearAt(s, o.alias, o.addr, off);
    NoCarry(Ldt.Segment(o.alias), off);
  }

  lemma WritesTwo(env: Env, r: LxRecord, page: nat, addr: uint32, i: nat)
    requires InTable(env, r.ref) && r.ref.Type() == 2 && r.ref.Alias() && HasAlias(Home(env, r.ref)) && i < |r.offsets|
    requires r.ref.extra == 0
    ensures Number(RecordWrites(env, r, page, addr)[i].bytes) == Ldt.Segment(Home(env, r.ref).value.alias)
  {
    SelectorIs(env, r.ref);
    BytesTwo(env, r, page, addr, i);
    hide *;
    FieldTwo(Ldt.Segment(Home(env, r.ref).value.alias));
  }

  lemma BytesTwo(env: Env, r: LxRecord, page: nat, addr: uint32, i: nat)
    requires InTable(env, r.ref) && r.ref.Type() == 2 && i < |r.offsets|
    ensures RecordWrites(env, r, page, addr)[i].bytes == Field(Resolved(env, r.ref).value % TWO16, 2)
  {
    hide Resolved, Field, InTable;
  }

  lemma FieldTwo(v: uint16)
    ensures Number(Field(v % TWO16, 2)) == v
  {
    Within16(v);
    hide *;
    NumberField(v, 2);
  }

  lemma Within16(v: uint16)
    ensures Within(v, 2) && v % TWO16 == v
  {
    assert Within(v / 0x100, 1);
  }

  lemma Within32(v: uint32)
    ensures Within(v, 4)
  {
    assert Within(v / 0x100 / 0x100 / 0x100 / 0x100, 0);
    assert Within(v / 0x100 / 0x100, 2) by {
      assert Within(v / 0x100 / 0x100 / 0x100, 1);
    }
  }

  // ----- Fixing up a page -------------------------------------------------------------------

  method Store(mem: array<uint8>, at: nat, bytes: Bytes)
    requires at + |bytes| <= mem.Length
    modifies mem
    ensures mem[..] == Over(old(mem[..]), Patch(at, bytes))
  {
    forall i | 0 <= i < |bytes| {
      mem[at + i] := bytes[i];
    }
    ghost var want := Over(old(mem[..]), Patch(at, bytes));
    assert forall i :: 0 <= i < mem.Length ==> mem[i] == want[i];
  }

  ghost function Front(r: LxRecord): Bytes
    requires InRange(r)
  {
    if r.ref.Listed() then [|r.offsets|] else Offsets(r.offsets)
  }

  ghost function Back(r: LxRecord): Bytes
    requires InRange(r)
  {
    if r.ref.Listed() then Offsets(r.offsets) else []
  }

  lemma {:induction false} OffsetsSize(os: seq<int>)
    requires forall i :: 0 <= i < |os| ==> -0x8000 <= os[i] < 0x8000
    ensures |Offsets(os)| == 2 * |os|
  {
    if os != [] {
      OffsetsSize(os[1..]);
      FieldSize(Unsigned(os[0]), 2);
    }
  }

  // Where the parts of an encoded record are.
  lemma Parts(t: Bytes, at: nat, r: LxRecord)
    requires InRange(r) && Has(t, at, Encode(r))
    ensures Has(t, at, [r.ref.source, r.ref.flags]) && Has(t, at + 2, Front(r))
    ensures |Front(r)| == if r.ref.Listed() then 1 else 2
    ensures var p := at + 2 + |Front(r)|;
      Has(t, p, Field(r.ref.id, r.ref.IdWidth())) &&
      Has(t, p + r.ref.IdWidth(), Field(r.ref.value, r.ref.ValueWidth()))
    ensures var p := at + 2 + |Front(r)| + r.ref.IdWidth() + r.ref.ValueWidth();
      Has(t, p, Field(r.ref.extra, r.ref.ExtraWidth())) && Has(t, p + r.ref.ExtraWidth(), Back(r)) &&
      |Encode(r)| == p + r.ref.ExtraWidth() + |Back(r)| - at
  {
    OffsetsSize(r.offsets);
    FieldSize(r.ref.id, r.ref.IdWidth());
    FieldSize(r.ref.value, r.ref.ValueWidth());
    FieldSize(r.ref.extra, r.ref.ExtraWidth());
    var head, front, back := [r.ref.source, r.ref.flags], Front(r), Back(r);
    var id, value := Field(r.ref.id, r.ref.IdWidth()), Field(r.ref.value, r.ref.ValueWidth());
    var extra := Field(r.ref.extra, r.ref.ExtraWidth());
    assert Encode(r) == head + front + id + value + extra + back;
    hide *;
    HasSplit(t, at, head + front + id + value + extra, back);
    HasSplit(t, at, head + front + id + value, extra);
    HasSplit(t, at, head + front + id, value);
    HasSplit(t, at, head + front, id);
    HasSplit(t, at, head, front);
  }

  lemma HeadAt(t: Bytes, at: nat, a: uint8, b: uint8)
    requires Has(t, at, [a, b])
    ensures at + 2 <= |t| && t[at] == a && t[at + 1] == b
  {
    assert t[at..at + 2][0] == a && t[at..at + 2][1] == b;
  }

  // The `i`-th offset of a list.
  lemma {:induction false} OffsetAt(t: Bytes, at: nat, os: seq<int>, i: nat)
    requires (forall j :: 0 <= j < |os| ==> -0x8000 <= os[j] < 0x8000) && Has(t, at, Offsets(os)) && i < |os|
    ensures Has(t, at + 2 * i, Field(Unsigned(os[i]), 2)) && Within(Unsigned(os[i]), 2)
    ensures Signed(Unsigned(os[i])) == os[i]
    decreases |os|
  {
    FieldSize(Unsigned(os[0]), 2);
    HasSplit(t, at, Field(Unsigned(os[0]), 2), Offsets(os[1..]));
    if i > 0 {
      OffsetAt(t, at + 2, os[1..], i - 1);
    } else {
      assert Within(Unsigned(os[0]) / 0x100, 1);
    }
  }

  lemma OutSize(r: Reference, f: Final, addr: uint32, o: int)
    ensures |Out(r, f, addr, o)| == Width32(r)
  {
    FieldSize(Stored(r, f, addr, o) % TWO16, 2);
    FieldSize(Stored(r, f, addr, o), 4);
    FieldSize(f.selector, 2);
  }

  // Reading a record from the file, but for its source list.
  method ReadReference(t: Bytes, at: nat, ghost r: LxRecord) returns (ref: Reference, front: int, next: nat)
    requires InRange(r) && Has(t, at, Encode(r))
    ensures ref == r.ref
    ensures if r.ref.Listed() then front == |r.offsets| else r.offsets == [front]
    ensures Has(t, next, Back(r)) && next + |Back(r)| == at + |Encode(r)|
  {
    hide *;
    Parts(t, at, r);
    HeadAt(t, at, r.ref.source, r.ref.flags);
    RangeIs(r);
    ref := Reference(t[at], t[at + 1], 0, 0, 0);
    SameHead(ref, r.ref);
    var p: nat := at + 2;
    front, p := ReadFront(t, p, ref.Listed(), r);
    var id := ReadField(t, p, ref.IdWidth(), r.ref.id);
    p := p + ref.IdWidth();
    var value := ReadField(t, p, ref.ValueWidth(), r.ref.value);
    p := p + ref.ValueWidth();
    var extra := ReadField(t, p, ref.ExtraWidth(), r.ref.extra);
    next := p + ref.ExtraWidth();
    ref := Reference(t[at], t[at + 1], id, value, extra);
  }

  method ReadFront(t: Bytes, at: nat, listed: bool, ghost r: LxRecord) returns (front: int, next: nat)
    requires InRange(r) && Has(t, at, Front(r)) && listed == r.ref.Listed()
    ensures if r.ref.Listed() then front == |r.offsets| else r.offsets == [front]
    ensures next == at + (if listed then 1 else 2)
  {
    hide *;
    RangeIs(r);
    FrontAt(t, at, r);
    if listed {
      front, next := t[at], at + 1;
    } else {
      var o := ReadField(t, at, 2, Unsigned(r.offsets[0]));
      front, next := Signed(o), at + 2;
    }
  }

  lemma RangeIs(r: LxRecord)
    requires InRange(r)
    ensures Within(r.ref.id, r.ref.IdWidth()) && Within(r.ref.value, r.ref.ValueWidth())
    ensures Within(r.ref.extra, r.ref.ExtraWidth())
    ensures if r.ref.Listed() then |r.offsets| < 0x100 else |r.offsets| == 1
    ensures forall i :: 0 <= i < |r.offsets| ==> -0x8000 <= r.offsets[i] < 0x8000
  {}

  lemma FrontAt(t: Bytes, at: nat, r: LxRecord)
    requires InRange(r) && Has(t, at, Front(r))
    ensures r.ref.Listed() ==> at < |t| && t[at] == |r.offsets|
    ensures !r.ref.Listed() ==> |r.offsets| == 1 && r.offsets == [r.offsets[0]]
    ensures !r.ref.Listed() ==> Has(t, at, Field(Unsigned(r.offsets[0]), 2)) && Within(Unsigned(r.offsets[0]), 2)
    ensures !r.ref.Listed() ==> Signed(Unsigned(r.offsets[0])) == r.offsets[0]
  {
    if r.ref.Listed() {
      assert t[at..at + 1][0] == |r.offsets|;
    } else {
      OffsetAt(t, at, r.offsets, 0);
    }
  }

  lemma SameHead(a: Reference, b: Reference)
    requires a.source == b.source && a.flags == b.flags
    ensures a.Listed() == b.Listed() && a.IdWidth() == b.IdWidth() && a.ValueWidth() == b.ValueWidth()
    ensures a.ExtraWidth() == b.ExtraWidth()
  {}

  // One source, `o` bytes from the start of the page.
  method DoFixup(mem: array<uint8>, page: nat, addr: uint32, o: int, ref: Reference, f: Final)
    requires 0 <= page + o && page + o + Width32(ref) <= mem.Length
    modifies mem
    ensures mem[..] == Over(old(mem[..]), Patch(Place(page, o), Out(ref, f, addr, o)))
  {
    OutSize(ref, f, addr, o);
    Store(mem, page + o, Out(ref, f, addr, o));
  }

  lemma ReachAt(r: LxRecord, page: nat, size: nat, i: nat)
    requires Reaches(r, page, size) && i < |r.offsets|
    ensures 0 <= page + r.offsets[i] && page + r.offsets[i] + Width32(r.ref) <= size
  {}

  lemma WriteNext(env: Env, r: LxRecord, page: nat, addr: uint32, mem: Bytes, i: nat)
    requires InTable(env, r.ref) && i < |r.offsets|
    ensures Write(mem, RecordWrites(env, r, page, addr)[..i + 1]) ==
      Over(Write(mem, RecordWrites(env, r, page, addr)[..i]),
        Patch(Place(page, r.offsets[i]), Out(r.ref, Resolved(env, r.ref), addr, r.offsets[i])))
  {
    var ps := RecordWrites(env, r, page, addr);
    assert ps[..i + 1] == ps[..i] + [ps[i]];
    WriteMore(mem, ps[..i], ps[i]);
  }

  lemma WriteEnds(env: Env, r: LxRecord, page: nat, addr: uint32, mem: Bytes)
    requires InTable(env, r.ref)
    ensures RecordWrites(env, r, page, addr)[..|r.offsets|] == RecordWrites(env, r, page, addr)
    ensures Write(mem, RecordWrites(env, r, page, addr)[..0]) == mem
  {}

  // One record; `ok` is false if it ends the program, with nothing written.
  method FixupRecord(mem: array<uint8>, page: nat, addr: uint32, t: Bytes, at: nat, env: Env, ghost r: LxRecord)
    returns (ok: bool, next: nat)
    requires InRange(r) && Has(t, at, Encode(r)) && InTable(env, r.ref)
    requires Ends(env, r) || Reaches(r, page, mem.Length)
    modifies mem
    ensures ok <==> !Ends(env, r)
    ensures ok ==> next == at + |Encode(r)| && mem[..] == Write(old(mem[..]), RecordWrites(env, r, page, addr))
    ensures !ok ==> mem[..] == old(mem[..])
  {
    EndsIs(env, r);
    hide *;
    RangeIs(r);
    ghost var before := mem[..];
    WriteEnds(env, r, page, addr, before);
    var ref, front;
    ref, front, next := ReadReference(t, at, r);
    BackIs(r);
    if Stops(env, ref, if ref.Listed() then front else 1) {
      return false, next;
    }
    var f := Resolved(env, ref);
    ok := true;
    if ref.Listed() {
      next := FixupList(mem, page, addr, t, next, ref, front, f, env, r);
    } else {
      WriteNext(env, r, page, addr, before, 0);
      ReachAt(r, page, mem.Length, 0);
      DoFixup(mem, page, addr, front, ref, f);
    }
  }

  // The sources of a record with a source list.
  method FixupList(mem: array<uint8>, page: nat, addr: uint32, t: Bytes, at: nat, ref: Reference, n: nat,
      f: Final, env: Env, ghost r: LxRecord)
    returns (next: nat)
    requires InRange(r) && InTable(env, r.ref) && Reaches(r, page, mem.Length) && ref == r.ref
    requires f == Resolved(env, ref)
    requires n == |r.offsets| && (forall j :: 0 <= j < n ==> -0x8000 <= r.offsets[j] < 0x8000)
    requires Has(t, at, Offsets(r.offsets))
    modifies mem
    ensures next == at + 2 * n
    ensures mem[..] == Write(old(mem[..]), RecordWrites(env, r, page, addr)[..n])
  {
    hide *;
    ghost var before := mem[..];
    WriteEnds(env, r, page, addr, before);
    next := at;
    var i := 0;
    while i < n
      invariant 0 <= i <= n && next == at + 2 * i
      invariant mem[..] == Write(before, RecordWrites(env, r, page, addr)[..i])
    {
      OffsetAt(t, at, r.offsets, i);
      var o := ReadField(t, next, 2, Unsigned(r.offsets[i]));
      WriteNext(env, r, page, addr, before, i);
      ReachAt(r, page, mem.Length, i);
      DoFixup(mem, page, addr, Signed(o), ref, f);
      next, i := next + 2, i + 1;
    }
  }

  lemma EndsIs(env: Env, r: LxRecord)
    requires InTable(env, r.ref)
    ensures Ends(env, r) <==> Stops(env, r.ref, |r.offsets|)
  {}

  lemma BackIs(r: LxRecord)
    requires InRange(r)
    ensures r.ref.Listed() ==> Back(r) == Offsets(r.offsets) && |Back(r)| == 2 * |r.offsets|
    ensures !r.ref.Listed() ==> Back(r) == []
  {
    OffsetsSize(r.offsets);
  }

  // The page: for the encoding of any list of records, exactly the writes of those before
  // the first that ends the program are done, in their order.
  method FixupPage(mem: array<uint8>, page: nat, addr: uint32, t: Bytes, at: nat, len: nat, env: Env,
      ghost rs: seq<LxRecord>)
    returns (ok: bool)
    requires AllInRange(rs) && Has(t, at, EncodeAll(rs)) && len == |EncodeAll(rs)|
    requires AllInTable(env, rs) && AllReach(env, rs, page, mem.Length)
    modifies mem
    ensures ok <==> !SomeEnds(env, rs)
    ensures mem[..] == Write(old(mem[..]), Writes(env, rs, page, addr))
  {
    hide *;
    ghost var rest, before, done := rs, mem[..], [];
    var next: nat, end: nat := at, at + len;
    FirstRecord(env, rs, page, addr, before);
    while next < end
      invariant AllInRange(rest) && AllInTable(env, rest) && AllReach(env, rest, page, mem.Length)
      invariant Has(t, next, EncodeAll(rest)) && next + |EncodeAll(rest)| == end
      invariant SomeEnds(env, rs) == SomeEnds(env, rest)
      invariant mem[..] == Write(before, done) && done + Writes(env, rest, page, addr) == Writes(env, rs, page, addr)
      decreases |rest|
    {
      NextRecord(env, rest, page, addr, mem.Length, t, next);
      EndsFirst(env, rest, page, addr, done);
      WriteAll(before, done, RecordWrites(env, rest[0], page, addr));
      Regroup(done, RecordWrites(env, rest[0], page, addr), Writes(env, rest[1..], page, addr));
      var more;
      more, next := FixupRecord(mem, page, addr, t, next, env, rest[0]);
      if !more {
        return false;
      }
      done, rest := done + RecordWrites(env, rest[0], page, addr), rest[1..];
    }
    LastRecord(env, rest, page, addr, done);
    ok := true;
  }

  lemma FirstRecord(env: Env, rs: seq<LxRecord>, page: nat, addr: uint32, mem: Bytes)
    requires AllInTable(env, rs)
    ensures [] + Writes(env, rs, page, addr) == Writes(env, rs, page, addr) && Write(mem, []) == mem
  {}

  lemma NextRecord(env: Env, rs: seq<LxRecord>, page: nat, addr: uint32, size: nat, t: Bytes, at: nat)
    requires AllInRange(rs) && AllInTable(env, rs) && AllReach(env, rs, page, size) && Has(t, at, EncodeAll(rs))
    requires |EncodeAll(rs)| > 0
    ensures rs != [] && InRange(rs[0]) && InTable(env, rs[0].ref)
    ensures AllInRange(rs[1..]) && AllInTable(env, rs[1..])
    ensures Ends(env, rs[0]) || (Reaches(rs[0], page, size) && AllReach(env, rs[1..], page, size))
    ensures Has(t, at, Encode(rs[0])) && Has(t, at + |Encode(rs[0])|, EncodeAll(rs[1..]))
    ensures |EncodeAll(rs)| == |Encode(rs[0])| + |EncodeAll(rs[1..])|
  {
    hide Has, Encode, InRange, InTable, Reaches, Ends;
    assert rs != [];
    HasSplit(t, at, Encode(rs[0]), EncodeAll(rs[1..]));
  }

  lemma EndsFirst(env: Env, rs: seq<LxRecord>, page: nat, addr: uint32, done: seq<Patch>)
    requires AllInTable(env, rs) && rs != [] && AllInTable(env, rs[1..])
    ensures Ends(env, rs[0]) ==> SomeEnds(env, rs) && done + Writes(env, rs, page, addr) == done
    ensures !Ends(env, rs[0]) ==> SomeEnds(env, rs) == SomeEnds(env, rs[1..])
    ensures !Ends(env, rs[0]) ==>
      Writes(env, rs, page, addr) == RecordWrites(env, rs[0], page, addr) + Writes(env, rs[1..], page, addr)
  {
    hide Ends, RecordWrites, InTable;
    assert forall i :: 0 < i < |rs| ==> rs[i] == rs[1..][i - 1];
    assert done + [] == done;
    if SomeEnds(env, rs) && !Ends(env, rs[0]) {
      var i :| 0 <= i < |rs| && Ends(env, rs[i]);
      assert Ends(env, rs[1..][i - 1]);
    }
  }

  lemma Regroup(a: seq<Patch>, b: seq<Patch>, c: seq<Patch>)
    ensures a + (b + c) == (a + b) + c
  {}

  lemma LastRecord(env: Env, rs: seq<LxRecord>, page: nat, addr: uint32, done: seq<Patch>)
    requires AllInRange(rs) && AllInTable(env, rs) && |EncodeAll(rs)| == 0
    ensures done + Writes(env, rs, page, addr) == done && !SomeEnds(env, rs)
  {
    EncodedSize(rs);
    hide EncodeAll;
    assert done + [] == done;
  }

  lemma EncodedSize(rs: seq<LxRecord>)
    requires AllInRange(rs)
    ensures rs == [] || |EncodeAll(rs)| > 0
  {}
}
