/**
  Entry tables as the two file formats define them: bundles of entry points and their bytes,
  and that looking up an ordinal in those bytes finds the entry point it stands for.
 */
module EntryFormat {
  import opened MachineTypes
  import opened Options
  import opened EntryTable

  // An entry point.  `segment` is used by movable entries only, and so are the two bytes of
  // `trap`, which nobody reads.
  datatype Item = Item(flags: uint8, trap: uint16, segment: uint8, offset: nat)

  // `kind` is the byte of the bundle's header, `owner` the number of the object that the 32-bit format has
  // behind it.
  datatype BundleOf = BundleOf(kind: uint8, owner: uint16, items: seq<Item>)

  ghost predicate Proper(f: Format, b: BundleOf) {
    && 0 < |b.items| < 0x100
    && (f == Lx ==> b.kind % 0x80 in {0, 1, 3} && (b.kind % 0x80 != 0 ==> b.owner > 0))
    && forall i :: 0 <= i < |b.items| ==>
      && b.items[i].offset < (if f == Lx && b.kind % 0x80 == 3 then TWO32 else TWO16)
      && (f == Ne && b.kind == 0xFF ==> b.items[i].segment > 0)
  }

  ghost predicate AllProper(f: Format, bs: seq<BundleOf>) {
    forall i :: 0 <= i < |bs| ==> Proper(f, bs[i])
  }

  // ----- Bytes ---------------------------------------------------------------------------

  function EncodeItem(f: Format, kind: nat, item: Item): Bytes {
    match f
    case Lx => [item.flags] + if kind == 1 then Two(item.offset) else Four(item.offset)
    case Ne =>
      if kind == 0xFF then [item.flags] + Two(item.trap) + [item.segment] + Two(item.offset)
      else [item.flags] + Two(item.offset)
  }

  function EncodeItems(f: Format, kind: nat, items: seq<Item>): Bytes {
    if items == [] then [] else EncodeItem(f, kind, items[0]) + EncodeItems(f, kind, items[1..])
  }

  function Meant(f: Format, kind: uint8): nat {
    if f == Lx then kind % 0x80 else kind
  }

  function EncodeBundle(f: Format, b: BundleOf): Bytes
    requires |b.items| < 0x100
  {
    [|b.items|, b.kind] +
    if Meant(f, b.kind) == 0 then []
    else (if f == Lx then Two(b.owner) else []) + EncodeItems(f, Meant(f, b.kind), b.items)
  }

  ghost function EncodeBundles(f: Format, bs: seq<BundleOf>): Bytes
    requires AllProper(f, bs)
  {
    if bs == [] then [0] else EncodeBundle(f, bs[0]) + EncodeBundles(f, bs[1..])
  }

  // ----- Entry points ------------------------------------------------------------------------

  // What the items of a bundle are: nothing, or a place in a segment, counted from 0.
  function Points(f: Format, b: BundleOf, i: nat): Option<Target>
    requires i < |b.items|
  {
    var item := b.items[i];
    if Meant(f, b.kind) == 0 then None
    else if f == Lx then Some(Target(if b.owner > 0 then b.owner - 1 else 0, item.offset))
    else if b.kind == 0xFF then Some(Target(if item.segment > 0 then item.segment - 1 else 0, item.offset))
    else Some(Target(if b.kind > 0 then b.kind - 1 else 0, item.offset))
  }

  // The `k`-th entry point of all the bundles.
  ghost function Point(f: Format, bs: seq<BundleOf>, k: nat): Option<Target>
    decreases |bs|
  {
    if bs == [] then None
    else if k < |bs[0].items| then Points(f, bs[0], k)
    else Point(f, bs[1..], k - |bs[0].items|)
  }

  // ----- Reading --------------------------------------------------------------------------------

  lemma WordHas(t: Bytes, at: nat, v: nat)
    requires Has(t, at, Two(v)) && v < TWO16
    ensures at + 2 <= |t| && Word(t, at) == v
  {
    HasBytes(t, at, Two(v));
    assert t[at + 0] == Two(v)[0] && t[at + 1] == Two(v)[1];
  }

  lemma DWordHas(t: Bytes, at: nat, v: nat)
    requires Has(t, at, Four(v)) && v < TWO32
    ensures at + 4 <= |t| && DWord(t, at) == v
  {
    HasSplit(t, at, Two(v), Two(v / 0x1_0000));
    LowTwo(v);
    hide Two, Has;
    WordHas(t, at, v % 0x1_0000);
    WordHas(t, at + 2, v / 0x1_0000);
  }

  lemma LowTwo(v: nat)
    ensures Two(v) == Two(v % 0x1_0000)
  {
    var q, r := v / 0x1_0000, v % 0x1_0000;
    Divide(0x100 * q + r / 0x100, r % 0x100);
    Divide(q, r / 0x100);
    assert v == 0x100 * (0x100 * q + r / 0x100) + r % 0x100;
  }

  lemma Divide(a: nat, b: nat)
    requires b < 0x100
    ensures (0x100 * a + b) / 0x100 == a && (0x100 * a + b) % 0x100 == b
  {}

  lemma ByteHas(t: Bytes, at: nat, b: uint8)
    requires Has(t, at, [b])
    ensures at < |t| && t[at] == b
  {
    HasBytes(t, at, [b]);
    assert t[at + 0] == b;
  }

  lemma ItemSize(f: Format, kind: nat, item: Item)
    ensures |EncodeItem(f, kind, item)| == Span(f, kind, 1)
  {}

  lemma {:induction false} ItemsSize(f: Format, kind: nat, items: seq<Item>)
    ensures |EncodeItems(f, kind, items)| == Span(f, kind, |items|)
  {
    if items != [] {
      ItemSize(f, kind, items[0]);
      ItemsSize(f, kind, items[1..]);
      hide EncodeItem;
    }
  }

  // The `i`-th item of a bundle.
  lemma {:induction false} ItemAt(f: Format, kind: nat, items: seq<Item>, t: Bytes, at: nat, i: nat)
    requires Has(t, at, EncodeItems(f, kind, items)) && i < |items|
    ensures Has(t, at + Span(f, kind, i), EncodeItem(f, kind, items[i]))
    decreases |items|
  {
    hide *;
    ItemsFirst(f, kind, items, i);
    HasSplit(t, at, EncodeItem(f, kind, items[0]), EncodeItems(f, kind, items[1..]));
    ItemSize(f, kind, items[0]);
    SpanMore(f, kind, i);
    if i > 0 {
      ItemAt(f, kind, items[1..], t, at + Span(f, kind, 1), i - 1);
    }
  }

  lemma ItemsFirst(f: Format, kind: nat, items: seq<Item>, i: nat)
    requires i < |items|
    ensures EncodeItems(f, kind, items) == EncodeItem(f, kind, items[0]) + EncodeItems(f, kind, items[1..])
    ensures i > 0 ==> items[1..][i - 1] == items[i]
  {}

  lemma SpanMore(f: Format, kind: nat, i: nat)
    ensures Span(f, kind, 0) == 0 && (i > 0 ==> Span(f, kind, i) == Span(f, kind, 1) + Span(f, kind, i - 1))
  {}

  // A bundle where it is in the file.
  lemma BundleAt(f: Format, b: BundleOf, t: Bytes, at: nat)
    requires Proper(f, b) && Has(t, at, EncodeBundle(f, b))
    ensures at + 2 <= |t| && t[at] == |b.items| && t[at + 1] == b.kind
    ensures Next(f, t, at) == at + |EncodeBundle(f, b)| <= |t| && Known(f, Kind(f, t[at + 1]))
  {
    var rest :=
      if Meant(f, b.kind) == 0 then []
      else (if f == Lx then Two(b.owner) else []) + EncodeItems(f, Meant(f, b.kind), b.items);
    HasSplit(t, at, [|b.items|, b.kind], rest);
    HasBytes(t, at, [|b.items|, b.kind]);
    assert t[at + 0] == |b.items| && t[at + 1] == b.kind;
    ItemsSize(f, Meant(f, b.kind), b.items);
    hide EncodeItems, Has;
  }

  // And its entry points.
  lemma EntryAt(f: Format, b: BundleOf, t: Bytes, at: nat, i: nat)
    requires Proper(f, b) && Has(t, at, EncodeBundle(f, b)) && i < |b.items|
    ensures at + 2 <= |t| && t[at] == |b.items| && Next(f, t, at) <= |t|
    ensures (if Kind(f, t[at + 1]) == 0 then None else Some(Entry(f, t, at, i))) == Points(f, b, i)
  {
    hide *;
    BundleAt(f, b, t, at);
    var kind := Meant(f, b.kind);
    KindIs(f, b, i);
    if kind != 0 {
      var p := at + Head(f) + Span(f, kind, i);
      BundleItem(f, b, t, at, i);
      if f == Lx {
        ObjectAt(b, t, at);
        ItemLx(kind, b.items[i], t, p);
        EntryLx(b, t, at, i);
      } else {
        ItemNe(kind, b.items[i], t, p);
        EntryNe(b, t, at, i);
      }
    }
  }

  lemma KindIs(f: Format, b: BundleOf, i: nat)
    requires Proper(f, b) && i < |b.items|
    ensures Meant(f, b.kind) == Kind(f, b.kind) && (Meant(f, b.kind) == 0 ==> Points(f, b, i) == None)
    ensures b.items[i].offset < if f == Lx && Meant(f, b.kind) == 3 then TWO32 else TWO16
    ensures f == Lx ==> Meant(f, b.kind) in {0, 1, 3}
  {}

  lemma EntryLx(b: BundleOf, t: Bytes, at: nat, i: nat)
    requires Proper(Lx, b) && i < |b.items| && at + 2 <= |t| && t[at] == |b.items| && t[at + 1] == b.kind
    requires Next(Lx, t, at) <= |t| && Meant(Lx, b.kind) != 0 && at + 4 <= |t| && Word(t, at + 2) == b.owner
    requires var p, kind := at + Head(Lx) + Span(Lx, Meant(Lx, b.kind), i), Meant(Lx, b.kind);
      if kind == 1 then p + 3 <= |t| && Word(t, p + 1) == b.items[i].offset
      else p + 5 <= |t| && DWord(t, p + 1) == b.items[i].offset
    ensures Kind(Lx, t[at + 1]) != 0 && Some(Entry(Lx, t, at, i)) == Points(Lx, b, i)
  {
    hide Word, DWord, Next;
  }

  lemma EntryNe(b: BundleOf, t: Bytes, at: nat, i: nat)
    requires Proper(Ne, b) && i < |b.items| && at + 2 <= |t| && t[at] == |b.items| && t[at + 1] == b.kind
    requires Next(Ne, t, at) <= |t| && Meant(Ne, b.kind) != 0
    requires var p, kind := at + Head(Ne) + Span(Ne, Meant(Ne, b.kind), i), Meant(Ne, b.kind);
      if kind == 0xFF then p + 6 <= |t| && t[p + 3] == b.items[i].segment && Word(t, p + 4) == b.items[i].offset
      else p + 3 <= |t| && Word(t, p + 1) == b.items[i].offset
    ensures Kind(Ne, t[at + 1]) != 0 && Some(Entry(Ne, t, at, i)) == Points(Ne, b, i)
  {
    hide Word, Next;
  }

  lemma BundleItem(f: Format, b: BundleOf, t: Bytes, at: nat, i: nat)
    requires Proper(f, b) && Has(t, at, EncodeBundle(f, b)) && i < |b.items| && Meant(f, b.kind) != 0
    ensures var kind := Meant(f, b.kind);
      Has(t, at + Head(f) + Span(f, kind, i), EncodeItem(f, kind, b.items[i]))
  {
    hide *;
    var kind := Meant(f, b.kind);
    var objects := if f == Lx then Two(b.owner) else [];
    BundleBytes(f, b);
    HasSplit(t, at, [|b.items|, b.kind], objects + EncodeItems(f, kind, b.items));
    HasSplit(t, at + 2, objects, EncodeItems(f, kind, b.items));
    ItemAt(f, kind, b.items, t, at + Head(f), i);
  }

  lemma BundleBytes(f: Format, b: BundleOf)
    requires Proper(f, b) && Meant(f, b.kind) != 0
    ensures |b.items| < 0x100
    ensures var objects := if f == Lx then Two(b.owner) else [];
      |objects| + 2 == Head(f) &&
      EncodeBundle(f, b) == [|b.items|, b.kind] + (objects + EncodeItems(f, Meant(f, b.kind), b.items))
  {
    hide EncodeItems;
  }

  lemma ObjectAt(b: BundleOf, t: Bytes, at: nat)
    requires Proper(Lx, b) && Has(t, at, EncodeBundle(Lx, b)) && Meant(Lx, b.kind) != 0
    ensures at + 4 <= |t| && Word(t, at + 2) == b.owner
  {
    var rest := EncodeItems(Lx, Meant(Lx, b.kind), b.items);
    HasSplit(t, at, [|b.items|, b.kind], Two(b.owner) + rest);
    HasSplit(t, at + 2, Two(b.owner), rest);
    WordHas(t, at + 2, b.owner);
  }

  lemma ItemLx(kind: nat, item: Item, t: Bytes, p: nat)
    requires Has(t, p, EncodeItem(Lx, kind, item)) && item.offset < if kind == 1 then TWO16 else TWO32
    ensures kind == 1 ==> p + 3 <= |t| && Word(t, p + 1) == item.offset
    ensures kind != 1 ==> p + 5 <= |t| && DWord(t, p + 1) == item.offset
  {
    HasSplit(t, p, [item.flags], if kind == 1 then Two(item.offset) else Four(item.offset));
    hide Has, Two, Four;
    if kind == 1 {
      WordHas(t, p + 1, item.offset);
    } else {
      DWordHas(t, p + 1, item.offset);
    }
  }

  lemma ItemNe(kind: nat, item: Item, t: Bytes, p: nat)
    requires Has(t, p, EncodeItem(Ne, kind, item)) && item.offset < TWO16
    ensures kind == 0xFF ==> p + 6 <= |t| && t[p + 3] == item.segment && Word(t, p + 4) == item.offset
    ensures kind != 0xFF ==> p + 3 <= |t| && Word(t, p + 1) == item.offset
  {
    if kind == 0xFF {
      HasSplit(t, p, [item.flags] + Two(item.trap) + [item.segment], Two(item.offset));
      HasSplit(t, p, [item.flags] + Two(item.trap), [item.segment]);
      ByteHas(t, p + 3, item.segment);
      WordHas(t, p + 4, item.offset);
    } else {
      HasSplit(t, p, [item.flags], Two(item.offset));
      WordHas(t, p + 1, item.offset);
    }
  }

  // ----- The table read back ---------------------------------------------------------------------

  // In the bytes of any bundles, every ordinal leads to the entry point it stands for.
  lemma {:induction false} ScanReads(f: Format, bs: seq<BundleOf>, t: Bytes, at: nat, k: nat)
    requires AllProper(f, bs) && Has(t, at, EncodeBundles(f, bs))
    ensures Formed(f, t, at) && AllKnown(f, t, at) && Scan(f, t, at, k) == Point(f, bs, k)
    decreases |bs|
  {
    if bs == [] {
      ByteHas(t, at, 0);
    } else {
      hide *;
      FirstBundle(f, bs, t, at);
      ScanReads(f, bs[1..], t, Next(f, t, at), if k < |bs[0].items| then 0 else k - |bs[0].items|);
      if k < |bs[0].items| {
        EntryAt(f, bs[0], t, at, k);
      }
      ScanFirst(f, bs, t, at, k);
    }
  }

  lemma FirstBundle(f: Format, bs: seq<BundleOf>, t: Bytes, at: nat)
    requires AllProper(f, bs) && Has(t, at, EncodeBundles(f, bs)) && bs != []
    ensures Proper(f, bs[0]) && AllProper(f, bs[1..]) && Has(t, at, EncodeBundle(f, bs[0]))
    ensures at + 2 <= |t| && t[at] == |bs[0].items| > 0 && Known(f, Kind(f, t[at + 1])) && Next(f, t, at) <= |t|
    ensures Has(t, Next(f, t, at), EncodeBundles(f, bs[1..]))
  {
    hide *;
    BundlesAre(f, bs);
    HasSplit(t, at, EncodeBundle(f, bs[0]), EncodeBundles(f, bs[1..]));
    BundleAt(f, bs[0], t, at);
  }

  lemma BundlesAre(f: Format, bs: seq<BundleOf>)
    requires AllProper(f, bs) && bs != []
    ensures Proper(f, bs[0]) && 0 < |bs[0].items| < 0x100 && AllProper(f, bs[1..])
    ensures EncodeBundles(f, bs) == EncodeBundle(f, bs[0]) + EncodeBundles(f, bs[1..])
  {
    hide EncodeBundle;
  }

  lemma ScanFirst(f: Format, bs: seq<BundleOf>, t: Bytes, at: nat, k: nat)
    requires bs != [] && at + 2 <= |t| && t[at] == |bs[0].items| > 0 && Known(f, Kind(f, t[at + 1]))
    requires var next, n := Next(f, t, at), |bs[0].items|;
      && next <= |t| && Formed(f, t, next) && AllKnown(f, t, next)
      && (k < n ==> (if Kind(f, t[at + 1]) == 0 then None else Some(Entry(f, t, at, k))) == Points(f, bs[0], k))
      && (k >= n ==> Scan(f, t, next, k - n) == Point(f, bs[1..], k - n))
    ensures Formed(f, t, at) && AllKnown(f, t, at) && Scan(f, t, at, k) == Point(f, bs, k)
  {
    hide Entry, Next, Points, Known, Kind;
  }
}
