/**
  The entry table of a module, lx_loader.c: bundles of entry points, read twice, once to
  count them and once to fill the array of exports that ordinals are looked up in.
 */
module EntryTable {
  import opened MachineTypes
  import opened Options

  // The two formats differ in their bundle headers and entries.
  datatype Format = Lx | Ne

  datatype Target = Target(segment: nat, offset: nat)
  datatype Export = Export(ordinal: nat, target: Target)

  // ----- The format -------------------------------------------------------------------

  function Kind(f: Format, b: uint8): nat {
    if f == Lx then b % 0x80 else b
  }

  // The bytes of `n` entries, and of a whole bundle.
  function Span(f: Format, kind: nat, n: nat): nat {
    match f
    case Lx => if kind == 1 then 3 * n else 5 * n
    case Ne => if kind == 0xFF then 6 * n else 3 * n
  }

  function Head(f: Format): nat {
    if f == Lx then 4 else 2
  }

  function Size(f: Format, kind: nat, n: nat): nat {
    if kind == 0 then 2 else Head(f) + Span(f, kind, n)
  }

  // Where the next bundle starts.
  function Next(f: Format, t: Bytes, at: nat): (r: nat)
    requires at + 2 <= |t|
    ensures r >= at + 2
  {
    at + Size(f, Kind(f, t[at + 1]), t[at])
  }

  predicate Known(f: Format, kind: nat) {
    f == Ne || kind == 0 || kind == 1 || kind == 3
  }

  // From `at`, the bundles are inside the file and end with a zero.
  ghost predicate Formed(f: Format, t: Bytes, at: nat)
    decreases |t| - at
  {
    at < |t| && (t[at] == 0 ||
      (at + 2 <= |t| && Next(f, t, at) <= |t| && Formed(f, t, Next(f, t, at))))
  }

  ghost predicate AllKnown(f: Format, t: Bytes, at: nat)
    requires Formed(f, t, at)
    decreases |t| - at
  {
    t[at] == 0 || (Known(f, Kind(f, t[at + 1])) && AllKnown(f, t, Next(f, t, at)))
  }

  // Object and segment numbers start at 1 and are stored one less.
  function Entry(f: Format, t: Bytes, at: nat, i: nat): Target
    requires at + 2 <= |t| && i < t[at] && Next(f, t, at) <= |t| && Kind(f, t[at + 1]) != 0
  {
    var kind := Kind(f, t[at + 1]);
    var p := at + Head(f) + Span(f, kind, i);
    match f
    case Lx =>
      var segment := (Word(t, at + 2) + 0xFFFF) % 0x1_0000;
      if kind == 1 then Target(segment, Word(t, p + 1)) else Target(segment, DWord(t, p + 1))
    case Ne =>
      if kind == 0xFF then Target((t[p + 3] as int + 0xFF) % 0x100, Word(t, p + 4))
      else Target(kind - 1, Word(t, p + 1))
  }

  // How the format defines a lookup: go from bundle to bundle, taking off the entries of
  // each, then index the bundle that is left with.
  ghost function Scan(f: Format, t: Bytes, at: nat, k: nat): Option<Target>
    requires Formed(f, t, at)
    decreases |t| - at
  {
    var n := t[at];
    if n == 0 then None
    else
      var kind := Kind(f, t[at + 1]);
      if k < n then if kind == 0 then None else Some(Entry(f, t, at, k))
      else Scan(f, t, Next(f, t, at), k - n)
  }

  // ----- The exports ---------------------------------------------------------------------

  ghost function Bundle(f: Format, t: Bytes, at: nat, ordinal: nat, n: nat): seq<Export>
    requires at + 2 <= |t| && n <= t[at] && Next(f, t, at) <= |t|
  {
    if Kind(f, t[at + 1]) == 0 then []
    else seq(n, i requires 0 <= i < n => Export(ordinal + i, Entry(f, t, at, i)))
  }

  ghost function Exports(f: Format, t: Bytes, at: nat, ordinal: nat): seq<Export>
    requires Formed(f, t, at)
    decreases |t| - at
  {
    if t[at] == 0 then []
    else Bundle(f, t, at, ordinal, t[at]) + Exports(f, t, Next(f, t, at), ordinal + t[at])
  }

  // The first export with this ordinal.
  ghost function Lookup(es: seq<Export>, ordinal: nat): Option<Target> {
    if es == [] then None else if es[0].ordinal == ordinal then Some(es[0].target) else Lookup(es[1..], ordinal)
  }

  ghost predicate Increasing(es: seq<Export>, from: nat) {
    && (forall i :: 0 <= i < |es| ==> from <= es[i].ordinal)
    && (forall i, j :: 0 <= i < j < |es| ==> es[i].ordinal < es[j].ordinal)
  }

  lemma Unfold(f: Format, t: Bytes, at: nat, ordinal: nat, k: nat)
    requires Formed(f, t, at) && at < |t| && t[at] != 0
    ensures at + 2 <= |t| && Next(f, t, at) <= |t| && Formed(f, t, Next(f, t, at))
    ensures Exports(f, t, at, ordinal) ==
      Bundle(f, t, at, ordinal, t[at]) + Exports(f, t, Next(f, t, at), ordinal + t[at])
    ensures Scan(f, t, at, k) ==
      if k >= t[at] then Scan(f, t, Next(f, t, at), k - t[at])
      else if Kind(f, t[at + 1]) == 0 then None
      else Some(Entry(f, t, at, k))
  {
    hide Entry, Next, Bundle;
  }

  lemma FormedAt(f: Format, t: Bytes, at: nat)
    requires Formed(f, t, at)
    ensures at < |t|
  {}

  lemma Ended(f: Format, t: Bytes, at: nat, ordinal: nat, k: nat)
    requires Formed(f, t, at) && at < |t| && t[at] == 0
    ensures Exports(f, t, at, ordinal) == [] && Scan(f, t, at, k) == None
    ensures Increasing(Exports(f, t, at, ordinal), ordinal) && Lookup(Exports(f, t, at, ordinal), ordinal + k) == None
  {}

  lemma BundleIncreases(f: Format, t: Bytes, at: nat, ordinal: nat)
    requires at + 2 <= |t| && Next(f, t, at) <= |t|
    ensures |Bundle(f, t, at, ordinal, t[at])| <= t[at] && Increasing(Bundle(f, t, at, ordinal, t[at]), ordinal)
    ensures forall i :: 0 <= i < |Bundle(f, t, at, ordinal, t[at])| ==>
      Bundle(f, t, at, ordinal, t[at])[i].ordinal < ordinal + t[at]
  {
    hide Entry;
  }

  lemma IncreasingConcat(es: seq<Export>, fs: seq<Export>, from: nat, mid: nat)
    requires Increasing(es, from) && Increasing(fs, mid) && from <= mid
    requires forall i :: 0 <= i < |es| ==> es[i].ordinal < mid
    ensures Increasing(es + fs, from)
  {}

  lemma {:induction false} ExportsIncrease(f: Format, t: Bytes, at: nat, ordinal: nat)
    requires Formed(f, t, at)
    ensures Increasing(Exports(f, t, at, ordinal), ordinal)
    decreases |t| - at
  {
    hide *;
    FormedAt(f, t, at);
    if t[at] == 0 {
      Ended(f, t, at, ordinal, 0);
    } else {
      Unfold(f, t, at, ordinal, 0);
      var next := Next(f, t, at);
      ExportsIncrease(f, t, next, ordinal + t[at]);
      BundleIncreases(f, t, at, ordinal);
      IncreasingConcat(Bundle(f, t, at, ordinal, t[at]), Exports(f, t, next, ordinal + t[at]), ordinal,
        ordinal + t[at]);
    }
  }

  lemma {:induction false} LookupConcat(es: seq<Export>, fs: seq<Export>, ordinal: nat)
    ensures Lookup(es + fs, ordinal) == if Lookup(es, ordinal) != None then Lookup(es, ordinal) else Lookup(fs, ordinal)
  {
    if es == [] {
      assert es + fs == fs;
    } else {
      assert (es + fs)[1..] == es[1..] + fs;
      LookupConcat(es[1..], fs, ordinal);
    }
  }

  lemma {:induction false} LookupNone(es: seq<Export>, ordinal: nat)
    requires forall i :: 0 <= i < |es| ==> es[i].ordinal != ordinal
    ensures Lookup(es, ordinal) == None
  {
    if es != [] {
      LookupNone(es[1..], ordinal);
    }
  }

  lemma {:induction false} LookupAt(es: seq<Export>, ordinal: nat, i: nat)
    requires i < |es| && es[i].ordinal == ordinal && forall j :: 0 <= j < i ==> es[j].ordinal != ordinal
    ensures Lookup(es, ordinal) == Some(es[i].target)
  {
    if i > 0 {
      LookupAt(es[1..], ordinal, i - 1);
    }
  }

  lemma BundleAt(f: Format, t: Bytes, at: nat, ordinal: nat, k: nat)
    requires at + 2 <= |t| && Next(f, t, at) <= |t|
    ensures |Bundle(f, t, at, ordinal, t[at])| == if Kind(f, t[at + 1]) == 0 then 0 else t[at]
    ensures forall i :: 0 <= i < |Bundle(f, t, at, ordinal, t[at])| ==>
      Bundle(f, t, at, ordinal, t[at])[i].ordinal == ordinal + i
    ensures k < t[at] && Kind(f, t[at + 1]) != 0 ==> Bundle(f, t, at, ordinal, t[at])[k].target == Entry(f, t, at, k)
  {
    hide Entry;
  }

  lemma LookupBundle(f: Format, t: Bytes, at: nat, ordinal: nat, k: nat)
    requires at + 2 <= |t| && Next(f, t, at) <= |t|
    ensures Lookup(Bundle(f, t, at, ordinal, t[at]), ordinal + k) ==
      if k < t[at] && Kind(f, t[at + 1]) != 0 then Some(Entry(f, t, at, k)) else None
  {
    hide *;
    var es := Bundle(f, t, at, ordinal, t[at]);
    BundleAt(f, t, at, ordinal, k);
    if k < |es| {
      LookupAt(es, ordinal + k, k);
    } else {
      LookupNone(es, ordinal + k);
    }
  }

  lemma LookupBeyond(es: seq<Export>, from: nat, ordinal: nat)
    requires Increasing(es, from) && ordinal < from
    ensures Lookup(es, ordinal) == None
  {
    LookupNone(es, ordinal);
  }

  // A lookup in the exports finds what scanning the bundles finds, for every ordinal.
  lemma {:induction false} LookupIsScan(f: Format, t: Bytes, at: nat, ordinal: nat, k: nat)
    requires Formed(f, t, at)
    ensures Lookup(Exports(f, t, at, ordinal), ordinal + k) == Scan(f, t, at, k)
    decreases |t| - at
  {
    hide *;
    FormedAt(f, t, at);
    if t[at] == 0 {
      Ended(f, t, at, ordinal, k);
    } else {
      var n := t[at];
      Unfold(f, t, at, ordinal, k);
      var next := Next(f, t, at);
      var es, rest := Bundle(f, t, at, ordinal, n), Exports(f, t, next, ordinal + n);
      LookupBundle(f, t, at, ordinal, k);
      LookupConcat(es, rest, ordinal + k);
      if k >= n {
        LookupIsScan(f, t, next, ordinal + n, k - n);
      } else {
        ExportsIncrease(f, t, next, ordinal + n);
        LookupBeyond(rest, ordinal + n, ordinal + k);
      }
    }
  }

  // ----- The two passes ------------------------------------------------------------------

  // What the first pass counts: the 16-bit format counts unused entries too.
  ghost function Counted(f: Format, t: Bytes, at: nat): nat
    requires Formed(f, t, at)
    decreases |t| - at
  {
    if t[at] == 0 then 0
    else (if f == Lx && Kind(f, t[at + 1]) == 0 then 0 else t[at] as int) + Counted(f, t, Next(f, t, at))
  }

  lemma CountedMore(f: Format, t: Bytes, at: nat)
    requires Formed(f, t, at)
    ensures at < |t| && (t[at] == 0 ==> Counted(f, t, at) == 0)
    ensures t[at] != 0 ==> at + 2 <= |t| && Next(f, t, at) <= |t| && Formed(f, t, Next(f, t, at))
    ensures t[at] != 0 ==>
      Counted(f, t, at) ==
      (if f == Lx && Kind(f, t[at + 1]) == 0 then 0 else t[at] as int) + Counted(f, t, Next(f, t, at))
    ensures t[at] == 0 ==> AllKnown(f, t, at)
    ensures t[at] != 0 ==> (AllKnown(f, t, at) <==> Known(f, Kind(f, t[at + 1])) && AllKnown(f, t, Next(f, t, at)))
  {
    hide Next, Known;
  }

  // There is room for every export, and in the 32-bit format no more than that.
  lemma {:induction false} CountedEnough(f: Format, t: Bytes, at: nat, ordinal: nat)
    requires Formed(f, t, at)
    ensures |Exports(f, t, at, ordinal)| <= Counted(f, t, at)
    ensures f == Lx ==> |Exports(f, t, at, ordinal)| == Counted(f, t, at)
    decreases |t| - at
  {
    hide *;
    CountedMore(f, t, at);
    if t[at] == 0 {
      Ended(f, t, at, ordinal, 0);
    } else {
      Unfold(f, t, at, ordinal, 0);
      BundleAt(f, t, at, ordinal, 0);
      CountedEnough(f, t, Next(f, t, at), ordinal + t[at]);
    }
  }

  // The first pass.
  method Count(f: Format, t: Bytes) returns (total: nat)
    requires Formed(f, t, 0)
    ensures total == Counted(f, t, 0)
  {
    hide *;
    total := 0;
    var at := 0;
    CountedMore(f, t, 0);
    while t[at] != 0
      invariant at < |t| && Formed(f, t, at) && total + Counted(f, t, at) == Counted(f, t, 0)
      decreases |t| - at
    {
      CountedMore(f, t, at);
      if f == Ne || Kind(f, t[at + 1]) != 0 {
        total := total + t[at] as int;
      }
      at := Next(f, t, at);
      CountedMore(f, t, at);
    }
    CountedMore(f, t, at);
  }

  method FillBundle(f: Format, t: Bytes, at: nat, ordinal: nat, exports: array<Export>, k: nat)
    requires at + 2 <= |t| && Next(f, t, at) <= |t| && Kind(f, t[at + 1]) != 0 && k + t[at] <= exports.Length
    modifies exports
    ensures exports[..k + t[at]] == old(exports[..k]) + Bundle(f, t, at, ordinal, t[at])
  {
    hide Entry, Next, Kind;
    var i := 0;
    while i < t[at]
      invariant 0 <= i <= t[at] && exports[..k + i] == old(exports[..k]) + Bundle(f, t, at, ordinal, i)
    {
      assert Bundle(f, t, at, ordinal, i + 1) ==
        Bundle(f, t, at, ordinal, i) + [Export(ordinal + i, Entry(f, t, at, i))];
      exports[k + i] := Export(ordinal + i, Entry(f, t, at, i));
      i := i + 1;
    }
  }

  // The second pass.  It gives up at a bundle of a type it does not know.
  method Fill(f: Format, t: Bytes, exports: array<Export>) returns (ok: bool, num: nat)
    requires Formed(f, t, 0) && exports.Length == Counted(f, t, 0)
    modifies exports
    ensures ok <==> AllKnown(f, t, 0)
    ensures ok ==> num <= exports.Length && exports[..num] == Exports(f, t, 0, 1)
  {
    hide *;
    var at: nat, ordinal: nat, k: nat := 0, 1, 0;
    assert exports[..0] + Exports(f, t, 0, 1) == Exports(f, t, 0, 1);
    CountedMore(f, t, 0);
    while t[at] != 0
      invariant at < |t| && Formed(f, t, at) && k <= exports.Length && k + Counted(f, t, at) <= exports.Length
      invariant exports[..k] + Exports(f, t, at, ordinal) == Exports(f, t, 0, 1)
      invariant AllKnown(f, t, at) <==> AllKnown(f, t, 0)
      decreases |t| - at
    {
      CountedMore(f, t, at);
      Unfold(f, t, at, ordinal, 0);
      BundleAt(f, t, at, ordinal, 0);
      if !Known(f, Kind(f, t[at + 1])) {
        return false, 0;
      }
      ghost var next := Exports(f, t, Next(f, t, at), ordinal + t[at]);
      Shift(exports[..k], Bundle(f, t, at, ordinal, t[at]), next);
      if Kind(f, t[at + 1]) != 0 {
        FillBundle(f, t, at, ordinal, exports, k);
        k := k + t[at] as int;
      }
      ordinal, at := ordinal + t[at] as int, Next(f, t, at);
      CountedMore(f, t, at);
    }
    CountedMore(f, t, at);
    Ended(f, t, at, ordinal, 0);
    assert exports[..k] + [] == exports[..k];
    ok, num := true, k;
  }

  lemma Shift(a: seq<Export>, b: seq<Export>, c: seq<Export>)
    ensures a + (b + c) == (a + b) + c
    ensures b == [] ==> a + (b + c) == a + c
  {}

  // Both passes.  The second never runs past what the first counted.
  method LoadExports(f: Format, t: Bytes) returns (ok: bool, exports: array<Export>, num: nat)
    requires Formed(f, t, 0)
    ensures ok <==> AllKnown(f, t, 0)
    ensures ok ==> num <= exports.Length && exports[..num] == Exports(f, t, 0, 1) && (f == Lx ==> num == exports.Length)
  {
    var total := Count(f, t);
    exports := new Export[total](_ => Export(0, Target(0, 0)));
    ok, num := Fill(f, t, exports);
    CountedEnough(f, t, 0, 1);
  }

  // The loop of getModuleProcAddrByOrdinal.
  method Find(exports: array<Export>, num: nat, ordinal: nat) returns (r: Option<Target>)
    requires num <= exports.Length
    ensures r == Lookup(exports[..num], ordinal)
  {
    var i := 0;
    while i < num
      invariant 0 <= i <= num && forall j :: 0 <= j < i ==> exports[..num][j].ordinal != ordinal
    {
      if exports[i].ordinal == ordinal {
        LookupAt(exports[..num], ordinal, i);
        return Some(exports[i].target);
      }
      i := i + 1;
    }
    LookupNone(exports[..num], ordinal);
    r := None;
  }

  // An ordinal looked up in the exports of a module is the entry that the format gives it.
  method Resolve(f: Format, t: Bytes, exports: array<Export>, num: nat, ordinal: nat) returns (r: Option<Target>)
    requires Formed(f, t, 0) && num <= exports.Length && exports[..num] == Exports(f, t, 0, 1)
    ensures r == if ordinal == 0 then None else Scan(f, t, 0, ordinal - 1)
  {
    r := Find(exports, num, ordinal);
    if ordinal == 0 {
      ExportsIncrease(f, t, 0, 1);
      LookupBeyond(exports[..num], 1, 0);
    } else {
      LookupIsScan(f, t, 0, 1, ordinal - 1);
    }
  }
}
