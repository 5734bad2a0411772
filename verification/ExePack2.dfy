/**
  The ExePack2 page decompressor (lx_loader.c).

  A packed page is a string of tokens.  `Token` gives their meaning-level form,
  `Encode` their bytes and `Append` what each adds to the output; the method
  `Decompress` is the loader's byte machine.
 */
module ExePack2 {
  import opened MachineTypes
  import opened Options

  datatype Token =
    | Skip                                                  // 00 00
    | Fill(count: nat, value: uint8)                        // 00 count value
    | Literal(bytes: Bytes)
    | Short(lead: Bytes, offset: nat, count: nat)           // 9-bit offset
    | Near(offset: nat, count: nat)                         // 12-bit offset, no lead
    | Long(lead: Bytes, offset: nat, count: nat)            // 12-bit offset
  {
    // The field widths of the packed form.
    predicate InRange() {
      match this
      case Skip => true
      case Fill(n, _) => 1 <= n < 256
      case Literal(b) => 1 <= |b| < 64
      case Short(b, off, n) => |b| < 4 && off < 512 && 3 <= n < 11
      case Near(off, n) => off < 4096 && 3 <= n < 7
      case Long(b, off, n) => |b| < 16 && off < 4096 && n < 64
    }

    function Lead(): Bytes {
      match this
      case Skip => []
      case Fill(n, v) => seq(n, _ => v)
      case Literal(b) => b
      case Short(b, _, _) => b
      case Near(_, _) => []
      case Long(b, _, _) => b
    }

    function Offset(): nat {
      if Short? || Near? || Long? then offset else 0
    }

    // How many bytes are copied from earlier output.
    function Copied(): nat {
      if Short? || Near? || Long? then count else 0
    }

    // Whether the machine accepts the token after `d` bytes of output.
    predicate Fits(d: nat, size: nat) {
      Offset() <= d + |Lead()| && d + |Lead()| + Copied() <= size
    }
  }

  // ----- Meaning ------------------------------------------------------------

  // `n` bytes continuing `out` with period `off`; a zero offset copies what the
  // destination held before.
  function Repeat(out: Bytes, off: nat, n: nat, before: Bytes): (r: Bytes)
    requires off <= |out| && |out| + n <= |before|
    ensures |r| == n
  {
    if off == 0 then before[|out|..|out| + n]
    else seq(n, k requires 0 <= k < n => out[|out| - off + k % off])
  }

  function Append(out: Bytes, t: Token, before: Bytes): (r: Bytes)
    requires t.Fits(|out|, |before|)
    ensures |r| == |out| + |t.Lead()| + t.Copied() && out <= r
  {
    var o := out + t.Lead();
    o + Repeat(o, t.Offset(), t.Copied(), before)
  }

  predicate AllFit(ts: seq<Token>, d: nat, size: nat) {
    ts == [] || (ts[0].Fits(d, size) && AllFit(ts[1..], d + |ts[0].Lead()| + ts[0].Copied(), size))
  }

  function Expand(ts: seq<Token>, out: Bytes, before: Bytes): (r: Bytes)
    requires AllFit(ts, |out|, |before|)
    ensures out <= r
  {
    if ts == [] then out else Expand(ts[1..], Append(out, ts[0], before), before)
  }

  // ----- Packed form -----------------------------------------------------------

  function Bytes2(x: nat): (r: Bytes)
    requires x < 0x1_0000
  {
    [x % 256, x / 256]
  }

  function Encode(t: Token): (r: Bytes)
    requires t.InRange()
    ensures |r| > 0
  {
    match t
    case Skip => [0, 0]
    case Fill(n, v) => [0, n, v]
    case Literal(b) => [4 * |b|] + b
    case Short(b, off, n) => Bytes2(1 + 4 * |b| + 16 * (n - 3) + 128 * off) + b
    case Near(off, n) => Bytes2(2 + 4 * (n - 3) + 16 * off)
    case Long(b, off, n) =>
      var x := 3 + 4 * |b| + 64 * n + 4096 * off;
      [x % 256, x / 256 % 256, x / 0x1_0000] + b
  }

  predicate AllInRange(ts: seq<Token>) {
    ts == [] || (ts[0].InRange() && AllInRange(ts[1..]))
  }

  function EncodeAll(ts: seq<Token>): Bytes
    requires AllInRange(ts)
  {
    if ts == [] then [] else Encode(ts[0]) + EncodeAll(ts[1..])
  }

  // The token at the front of `src` and its size, or None where the machine gives up.
  function Read(src: Bytes): (r: Option<(Token, nat)>)
    requires src != []
    ensures r.Some? ==> r.value.0.InRange() && 0 < r.value.1 <= |src|
  {
    var b1 := src[0];
    match b1 % 4
    case 0 =>
      if b1 == 0 then
        if |src| < 2 then None
        else if src[1] == 0 then Some((Skip, 2))
        else if |src| < 3 then None
        else Some((Fill(src[1], src[2]), 3))
      else if |src| < b1 / 4 + 1 then None
      else Some((Literal(src[1..b1 / 4 + 1]), b1 / 4 + 1))
    case 1 =>
      var n := b1 / 4 % 4;
      if |src| < 2 + n then None
      else Some((Short(src[2..2 + n], Word(src, 0) / 128, b1 / 16 % 8 + 3), 2 + n))
    case 2 =>
      if |src| < 2 then None
      else Some((Near(Word(src, 0) / 16, b1 / 4 % 4 + 3), 2))
    case _ =>
      var n := b1 / 4 % 16;
      if |src| < 3 + n then None
      else Some((Long(src[3..3 + n], Word(src, 1) / 16, Word(src, 0) / 64 % 64), 3 + n))
  }

  // ----- Bit fields ----------------------------------------------------------------

  lemma Multiple(q: int, k: int)
    requires q >= 0
    ensures k >= 1 ==> q * k >= q
    ensures k <= -1 ==> q * k <= -q
  {
    if k >= 1 {
      assert q * (k - 1) >= 0;
    } else if k <= -1 {
      assert q * (-k - 1) >= 0;
    }
  }

  // Division and remainder are determined by x == q * a + r.
  lemma Quotient(x: nat, q: nat, a: nat, r: nat)
    requires r < q && x == q * a + r
    ensures x / q == a && x % q == r
  {
    var d, e := x / q, x % q;
    assert x == q * d + e;
    assert q * (d - a) == r - e;
    Multiple(q, d - a);
  }

  lemma ShortFields(l: nat, m: nat, off: nat, x: nat)
    requires l < 4 && m < 8 && off < 512 && x == 1 + 4 * l + 16 * m + 128 * off
    ensures x < 0x1_0000 && x / 128 == off
    ensures x % 256 % 4 == 1 && x % 256 / 4 % 4 == l && x % 256 / 16 % 8 == m
  {
    var lo := 1 + 4 * l + 16 * m + 128 * (off % 2);
    Quotient(x, 256, off / 2, lo);
    Quotient(x, 128, off, 1 + 4 * l + 16 * m);
    Quotient(lo, 4, l + 4 * m + 32 * (off % 2), 1);
    Quotient(l + 4 * m + 32 * (off % 2), 4, m + 8 * (off % 2), l);
    Quotient(lo, 16, m + 8 * (off % 2), 1 + 4 * l);
    Quotient(m + 8 * (off % 2), 8, off % 2, m);
  }

  lemma NearFields(m: nat, off: nat, x: nat)
    requires m < 4 && off < 4096 && x == 2 + 4 * m + 16 * off
    ensures x < 0x1_0000 && x / 16 == off
    ensures x % 256 % 4 == 2 && x % 256 / 4 % 4 == m
  {
    var lo := 2 + 4 * m + 16 * (off % 16);
    Quotient(x, 256, off / 16, lo);
    Quotient(x, 16, off, 2 + 4 * m);
    Quotient(lo, 4, m + 4 * (off % 16), 2);
    Quotient(m + 4 * (off % 16), 4, off % 16, m);
  }

  lemma LongFields(l: nat, n: nat, off: nat, x: nat)
    requires l < 16 && n < 64 && off < 4096 && x == 3 + 4 * l + 64 * n + 4096 * off
    ensures x / 0x1_0000 < 256
    ensures x % 256 % 4 == 3 && x % 256 / 4 % 16 == l
    ensures (x % 256 + 256 * (x / 256 % 256)) / 64 % 64 == n
    ensures (x / 256 % 256 + 256 * (x / 0x1_0000)) / 16 == off
  {
    var lo := 3 + 4 * l + 64 * (n % 4);
    var mid := n / 4 + 16 * (off % 16);
    Quotient(x, 256, n / 4 + 16 * off, lo);
    Quotient(n / 4 + 16 * off, 256, off / 16, mid);
    Quotient(x, 0x1_0000, off / 16, lo + 256 * mid);
    Quotient(lo, 4, l + 16 * (n % 4), 3);
    Quotient(l + 16 * (n % 4), 16, n % 4, l);
    Quotient(lo + 256 * mid, 64, n + 64 * (off % 16), 3 + 4 * l);
    Quotient(n + 64 * (off % 16), 64, off % 16, n);
    Quotient(mid + 256 * (off / 16), 16, off, n / 4);
  }

  // ----- The packed form is read back ------------------------------------------------

  lemma ReadEncode(t: Token, rest: Bytes)
    requires t.InRange()
    ensures Read(Encode(t) + rest) == Some((t, |Encode(t)|))
  {
    match t
    case Skip =>
    case Fill(n, v) =>
    case Literal(b) =>
      Quotient(4 * |b|, 4, |b|, 0);
      assert (Encode(t) + rest)[1..|b| + 1] == b;
    case Short(b, off, n) => ReadShort(b, off, n, rest);
    case Near(off, n) => ReadNear(off, n, rest);
    case Long(b, off, n) => ReadLong(b, off, n, rest);
  }

  lemma ReadShort(b: Bytes, off: nat, n: nat, rest: Bytes)
    requires Short(b, off, n).InRange()
    ensures var t := Short(b, off, n); Read(Encode(t) + rest) == Some((t, |Encode(t)|))
  {
    var x := 1 + 4 * |b| + 16 * (n - 3) + 128 * off;
    var src := Encode(Short(b, off, n)) + rest;
    ShortFields(|b|, n - 3, off, x);
    assert src[0] == x % 256 && src[1] == x / 256 && Word(src, 0) == x;
    assert src[2..2 + |b|] == b;
  }

  lemma ReadNear(off: nat, n: nat, rest: Bytes)
    requires Near(off, n).InRange()
    ensures var t := Near(off, n); Read(Encode(t) + rest) == Some((t, |Encode(t)|))
  {
    var x := 2 + 4 * (n - 3) + 16 * off;
    var src := Encode(Near(off, n)) + rest;
    NearFields(n - 3, off, x);
    assert src[0] == x % 256 && src[1] == x / 256 && Word(src, 0) == x;
  }

  lemma ReadLong(b: Bytes, off: nat, n: nat, rest: Bytes)
    requires Long(b, off, n).InRange()
    ensures var t := Long(b, off, n); Read(Encode(t) + rest) == Some((t, |Encode(t)|))
  {
    var x := 3 + 4 * |b| + 64 * n + 4096 * off;
    var src := Encode(Long(b, off, n)) + rest;
    LongFields(|b|, n, off, x);
    assert src[0] == x % 256 && src[1] == x / 256 % 256 && src[2] == x / 0x1_0000;
    assert src[3..3 + |b|] == b;
  }

  // Nothing is lost in reading: the token encodes to the bytes it was read from.
  lemma EncodeRead(src: Bytes)
    requires src != [] && Read(src).Some?
    ensures var (t, n) := Read(src).value; Encode(t) == src[..n]
  {
    var b1 := src[0];
    if b1 % 4 == 0 {
      if b1 != 0 {
        assert b1 == 4 * (b1 / 4);
      }
    } else if b1 % 4 == 1 {
      EncodeShort(src);
    } else if b1 % 4 == 2 {
      EncodeNear(src);
    } else {
      EncodeLong(src);
    }
  }

  lemma ShortBytes(lo: uint8, hi: uint8)
    requires lo % 4 == 1
    ensures var x := lo as int + 256 * (hi as int);
      x == 1 + 4 * (lo / 4 % 4) + 16 * (lo / 16 % 8) + 128 * (x / 128) && x % 256 == lo && x / 256 == hi
  {
    var x: nat := lo as int + 256 * (hi as int);
    Quotient(lo / 4, 4, lo / 16, lo / 4 % 4);
    Quotient(lo / 16, 8, lo / 128, lo / 16 % 8);
    Quotient(x, 128, lo / 128 + 2 * hi, lo % 128);
    Quotient(x, 256, hi, lo);
  }

  lemma EncodeShort(src: Bytes)
    requires src != [] && Read(src).Some? && src[0] % 4 == 1
    ensures var (t, n) := Read(src).value; Encode(t) == src[..n]
  {
    ShortBytes(src[0], src[1]);
  }

  lemma EncodeNear(src: Bytes)
    requires src != [] && Read(src).Some? && src[0] % 4 == 2
    ensures var (t, n) := Read(src).value; Encode(t) == src[..n]
  {
    var lo, hi := src[0] as int, src[1] as int;
    var x := Word(src, 0);
    Quotient(x, 16, lo / 16 + 16 * hi, lo % 16);
    Quotient(x, 256, hi, lo);
    assert x == 2 + 4 * (lo / 4 % 4) + 16 * (x / 16);
  }

  lemma LongBytes(lo: uint8, mid: uint8, hi: uint8)
    requires lo % 4 == 3
    ensures var w, w' := lo as int + 256 * (mid as int), mid as int + 256 * (hi as int);
      var x := 3 + 4 * (lo / 4 % 16) + 64 * (w / 64 % 64) + 4096 * (w' / 16);
      x % 256 == lo && x / 256 % 256 == mid && x / 0x1_0000 == hi
  {
    var w, w' := lo as int + 256 * (mid as int), mid as int + 256 * (hi as int);
    LowField(lo, mid);
    Quotient(w', 16, mid / 16 + 16 * hi, mid % 16);
    var x: nat := 3 + 4 * (lo / 4 % 16) + 64 * (w / 64 % 64) + 4096 * (w' / 16);
    LowByte(lo);
    LongDigits(lo, mid, hi, x);
  }

  lemma LowByte(lo: uint8)
    requires lo % 4 == 3
    ensures lo == 3 + 4 * (lo / 4 % 16) + 64 * (lo / 64)
  {}

  lemma LowField(lo: uint8, mid: uint8)
    ensures (lo as int + 256 * (mid as int)) / 64 % 64 == lo / 64 + 4 * (mid % 16)
  {
    var w: nat := lo as int + 256 * (mid as int);
    Quotient(w, 64, lo / 64 + 4 * mid, lo % 64);
    Quotient(lo / 64 + 4 * mid, 64, mid / 16, lo / 64 + 4 * (mid % 16));
  }

  lemma LongDigits(lo: uint8, mid: uint8, hi: uint8, x: nat)
    requires x == lo as int + 256 * (mid as int) + 0x1_0000 * (hi as int)
    ensures x % 256 == lo && x / 256 % 256 == mid && x / 0x1_0000 == hi
  {
    var w: nat, w': nat := lo as int + 256 * (mid as int), mid as int + 256 * (hi as int);
    Quotient(x, 256, w', lo);
    Quotient(w', 256, hi, mid);
    Quotient(x, 0x1_0000, hi, w);
  }

  lemma EncodeLong(src: Bytes)
    requires src != [] && Read(src).Some? && src[0] % 4 == 3
    ensures var (t, n) := Read(src).value; Encode(t) == src[..n]
  {
    LongBytes(src[0], src[1], src[2]);
  }

  // ----- The machine -----------------------------------------------------------------

  // The loop: tokens are read until the source ends or the output is full; both ends
  // of the source and of the destination are checked before each token.
  function Machine(src: Bytes, out: Bytes, before: Bytes): (r: Option<Bytes>)
    requires |out| <= |before|
    ensures r.Some? ==> out <= r.value && |r.value| <= |before|
    decreases |src|
  {
    if src == [] then Some(out)
    else
      var r := Read(src);
      if r == None || !r.value.0.Fits(|out|, |before|) then None
      else
        var out' := Append(out, r.value.0, before);
        if |out'| < |before| then Machine(src[r.value.1..], out', before) else Some(out')
  }

  // The whole destination: what was unpacked, then zeros.
  function Padded(out: Bytes, size: nat): Bytes
    requires |out| <= size
  {
    out + seq(size - |out|, _ => 0)
  }

  // ----- Main results ------------------------------------------------------------------

  // `src` is the packed form of `ts`, then bytes that do not matter because the output
  // is full, and unpacking it takes the output from `out` to `r`.
  ghost predicate Packs(src: Bytes, ts: seq<Token>, rest: Bytes, out: Bytes, before: Bytes,
      r: Bytes) {
    && AllInRange(ts) && src == EncodeAll(ts) + rest
    && |out| <= |before| && AllFit(ts, |out|, |before|)
    && r == Expand(ts, out, before)
    && (rest == [] || (ts != [] && |r| == |before|))
  }

  // Tokens after the output is full add nothing.
  lemma {:induction false} FullExpand(ts: seq<Token>, out: Bytes, before: Bytes)
    requires |out| == |before| && AllFit(ts, |out|, |before|)
    ensures Expand(ts, out, before) == out
  {
    if ts != [] {
      assert Append(out, ts[0], before) == out;
      FullExpand(ts[1..], out, before);
    }
  }

  lemma PacksFirst(src: Bytes, ts: seq<Token>, rest: Bytes, out: Bytes, before: Bytes, r: Bytes)
    requires Packs(src, ts, rest, out, before, r) && ts != []
    ensures ts[0].InRange() && ts[0].Fits(|out|, |before|)
    ensures |Encode(ts[0])| <= |src| && src == Encode(ts[0]) + src[|Encode(ts[0])|..]
    ensures |Append(out, ts[0], before)| < |before| ==>
      Packs(src[|Encode(ts[0])|..], ts[1..], rest, Append(out, ts[0], before), before, r)
    ensures |Append(out, ts[0], before)| == |before| ==> r == Append(out, ts[0], before)
  {
    hide *;
    PacksIs(src, ts, rest, out, before, r);
    FirstToken(ts, out, before);
    SourceTail(src, Encode(ts[0]), EncodeAll(ts[1..]), rest);
    var out' := Append(out, ts[0], before);
    if |out'| == |before| {
      FullExpand(ts[1..], out', before);
    } else {
      PacksTail(ts[1..], rest, out', before);
    }
  }

  lemma PacksIs(src: Bytes, ts: seq<Token>, rest: Bytes, out: Bytes, before: Bytes, r: Bytes)
    requires Packs(src, ts, rest, out, before, r)
    ensures AllInRange(ts) && src == EncodeAll(ts) + rest
    ensures |out| <= |before| && AllFit(ts, |out|, |before|) && r == Expand(ts, out, before)
    ensures rest != [] ==> |r| == |before|
  {
    hide AllInRange, EncodeAll, AllFit, Expand;
  }

  lemma FirstToken(ts: seq<Token>, out: Bytes, before: Bytes)
    requires ts != [] && AllInRange(ts) && AllFit(ts, |out|, |before|)
    ensures ts[0].InRange() && ts[0].Fits(|out|, |before|) && AllInRange(ts[1..])
    ensures EncodeAll(ts) == Encode(ts[0]) + EncodeAll(ts[1..])
    ensures AllFit(ts[1..], |Append(out, ts[0], before)|, |before|)
    ensures Expand(ts, out, before) == Expand(ts[1..], Append(out, ts[0], before), before)
    ensures |Append(out, ts[0], before)| <= |before|
  {
    hide Encode, Append;
  }

  lemma SourceTail(src: Bytes, e: Bytes, a: Bytes, rest: Bytes)
    requires src == (e + a) + rest
    ensures |e| <= |src| && src == e + src[|e|..] && src[|e|..] == a + rest
  {}

  lemma PacksTail(ts: seq<Token>, rest: Bytes, out: Bytes, before: Bytes)
    requires AllInRange(ts) && |out| < |before| && AllFit(ts, |out|, |before|)
    requires rest != [] ==> |Expand(ts, out, before)| == |before|
    ensures Packs(EncodeAll(ts) + rest, ts, rest, out, before, Expand(ts, out, before))
  {
    hide AllInRange, EncodeAll, AllFit;
    assert ts == [] ==> Expand(ts, out, before) == out;
  }

  lemma PacksMore(src: Bytes, t: Token, n: nat, ts: seq<Token>, rest: Bytes, out: Bytes,
      before: Bytes, r: Bytes)
    requires n <= |src| && t.InRange() && Encode(t) == src[..n]
    requires |out| <= |before| && t.Fits(|out|, |before|)
    requires Packs(src[n..], ts, rest, Append(out, t, before), before, r)
    ensures Packs(src, [t] + ts, rest, out, before, r)
  {
    hide Encode, Append;
    var ts' := [t] + ts;
    assert ts'[0] == t && ts'[1..] == ts;
    assert src == src[..n] + (EncodeAll(ts) + rest);
  }

  lemma PacksLast(src: Bytes, t: Token, n: nat, out: Bytes, before: Bytes)
    requires n <= |src| && t.InRange() && Encode(t) == src[..n]
    requires |out| <= |before| && t.Fits(|out|, |before|) && |Append(out, t, before)| == |before|
    ensures Packs(src, [t], src[n..], out, before, Append(out, t, before))
  {
    hide Encode, Append;
    var none: seq<Token> := [];
    assert [t][0] == t && [t][1..] == none;
    assert AllInRange(none) && EncodeAll(none) == [];
    assert AllInRange([t]) && EncodeAll([t]) == Encode(t);
    var out' := Append(out, t, before);
    assert AllFit(none, |out'|, |before|) && Expand(none, out', before) == out';
    assert Expand([t], out, before) == out';
    assert src == src[..n] + src[n..];
  }

  lemma MachineStep(src: Bytes, t: Token, n: nat, tail: Bytes, out: Bytes, before: Bytes)
    requires |out| <= |before| && n <= |src| && src[n..] == tail
    requires src != [] && Read(src) == Some((t, n)) && t.Fits(|out|, |before|)
    ensures var out' := Append(out, t, before);
      Machine(src, out, before) == if |out'| < |before| then Machine(tail, out', before) else Some(out')
  {
    hide Read, Append;
  }

  // Every list of tokens that fits is unpacked to its expansion.
  lemma {:induction false} Unpacks(src: Bytes, ts: seq<Token>, rest: Bytes, out: Bytes,
      before: Bytes, r: Bytes)
    requires Packs(src, ts, rest, out, before, r)
    ensures |out| <= |before| && Machine(src, out, before) == Some(r)
    decreases |ts|
  {
    if ts != [] {
      PacksFirst(src, ts, rest, out, before, r);
      var t, n := ts[0], |Encode(ts[0])|;
      ReadEncode(t, src[n..]);
      MachineStep(src, t, n, src[n..], out, before);
      hide *;
      if |Append(out, t, before)| < |before| {
        Unpacks(src[n..], ts[1..], rest, Append(out, t, before), before, r);
      }
    }
  }

  // Conversely, whatever the machine accepts is the packed form of tokens that fit.
  lemma {:induction false} Unpacked(src: Bytes, out: Bytes, before: Bytes)
      returns (ts: seq<Token>, rest: Bytes)
    requires |out| <= |before| && Machine(src, out, before).Some?
    ensures Packs(src, ts, rest, out, before, Machine(src, out, before).value)
    decreases |src|
  {
    if src == [] {
      ts, rest := [], [];
    } else {
      var (t, n) := Read(src).value;
      EncodeRead(src);
      MachineStep(src, t, n, src[n..], out, before);
      hide *;
      if |Append(out, t, before)| < |before| {
        ts, rest := Unpacked(src[n..], Append(out, t, before), before);
        PacksMore(src, t, n, ts, rest, out, before, Machine(src, out, before).value);
        ts := [t] + ts;
      } else {
        PacksLast(src, t, n, out, before);
        ts, rest := [t], src[n..];
      }
    }
  }

  predicate NoZeroOffset(ts: seq<Token>) {
    forall t :: t in ts && t.Copied() > 0 ==> t.Offset() > 0
  }

  // Unless a copy has offset zero, the old contents of the page do not matter.
  lemma {:induction false} OldContents(ts: seq<Token>, out: Bytes, before: Bytes, before': Bytes)
    requires |out| <= |before| == |before'| && AllFit(ts, |out|, |before|) && NoZeroOffset(ts)
    ensures Expand(ts, out, before) == Expand(ts, out, before')
  {
    if ts != [] {
      assert ts[0] in ts;
      assert Append(out, ts[0], before) == Append(out, ts[0], before');
      OldContents(ts[1..], Append(out, ts[0], before), before, before');
    }
  }

  // ----- Copies -------------------------------------------------------------------------

  lemma Period(k: nat, off: nat)
    requires 0 < off <= k
    ensures (k - off) % off == k % off
  {
    Quotient(k, off, (k - off) / off + 1, (k - off) % off);
  }

  // A copy that runs into its own output repeats it.
  lemma RepeatAt(out: Bytes, off: nat, n: nat, before: Bytes, k: nat)
    requires off <= |out| && |out| + n <= |before| && k < n
    ensures Repeat(out, off, n, before)[k] ==
      if off == 0 then before[|out| + k]
      else if k < off then out[|out| - off + k] else Repeat(out, off, n, before)[k - off]
  {
    if 0 < off {
      if k < off {
        Quotient(k, off, 0, k);
      } else {
        Period(k, off);
      }
    }
  }

  // Decompression succeeds on exactly the packed forms of tokens that fit, and the
  // page then holds their expansion and zeros.
  lemma DecompressesExactly(src: Bytes, before: Bytes, r: Bytes)
    ensures Machine(src, [], before) == Some(r) <==> exists ts, rest :: Packs(src, ts, rest, [], before, r)
  {
    if Machine(src, [], before) == Some(r) {
      var ts, rest := Unpacked(src, [], before);
    }
    forall ts, rest | Packs(src, ts, rest, [], before, r) ensures Machine(src, [], before) == Some(r) {
      Unpacks(src, ts, rest, [], before, r);
    }
  }

  // With a zero-offset copy they always do.
  lemma {:induction false} OldContentsShow(ts: seq<Token>, out: Bytes, before: Bytes)
      returns (before': Bytes)
    requires |out| <= |before| && AllFit(ts, |out|, |before|) && !NoZeroOffset(ts)
    ensures |before'| == |before| && Expand(ts, out, before') != Expand(ts, out, before)
  {
    hide *;
    FirstZero(ts);
    var t := ts[0];
    var j := |out| + |t.Lead()|;
    if t.Copied() > 0 && t.Offset() == 0 {
      ShownAt(ts, out, before, j);
      before' := before[j := 255 - before[j]];
      ShownAt(ts, out, before', j);
    } else {
      ExpandFirst(ts, out, before);
      before' := OldContentsShow(ts[1..], Append(out, t, before), before);
      ExpandFirst(ts, out, before');
      SameAppend(t, out, before, before');
    }
  }

  lemma FirstZero(ts: seq<Token>)
    requires !NoZeroOffset(ts)
    ensures ts != []
    ensures !(ts[0].Copied() > 0 && ts[0].Offset() == 0) ==> !NoZeroOffset(ts[1..])
  {}

  lemma ExpandFirst(ts: seq<Token>, out: Bytes, before: Bytes)
    requires ts != [] && |out| <= |before| && AllFit(ts, |out|, |before|)
    ensures ts[0].Fits(|out|, |before|)
    ensures var next := Append(out, ts[0], before);
      |next| <= |before| && AllFit(ts[1..], |next|, |before|) &&
      Expand(ts, out, before) == Expand(ts[1..], next, before)
  {
    hide Append;
  }

  lemma SameAppend(t: Token, out: Bytes, before: Bytes, before': Bytes)
    requires |before| == |before'| && t.Fits(|out|, |before|) && !(t.Copied() > 0 && t.Offset() == 0)
    ensures Append(out, t, before) == Append(out, t, before')
  {}

  lemma ShownAt(ts: seq<Token>, out: Bytes, before: Bytes, j: nat)
    requires ts != [] && AllFit(ts, |out|, |before|)
    requires j == |out| + |ts[0].Lead()| && ts[0].Copied() > 0 && ts[0].Offset() == 0
    ensures j < |before| && j < |Expand(ts, out, before)| && Expand(ts, out, before)[j] == before[j]
  {
    var next := Append(out, ts[0], before);
    assert j < |next| && next[j] == before[j];
    hide Append;
    assert next <= Expand(ts, out, before);
  }

  // A page written by a packer is unpacked to what its tokens mean.
  lemma RoundTrip(ts: seq<Token>, before: Bytes)
    requires AllInRange(ts) && AllFit(ts, 0, |before|)
    ensures Machine(EncodeAll(ts), [], before) == Some(Expand(ts, [], before))
  {
    assert EncodeAll(ts) == EncodeAll(ts) + [];
    Unpacks(EncodeAll(ts), ts, [], [], before, Expand(ts, [], before));
  }

  // The result is independent of what the destination held before if and only if no
  // copy token has offset zero.
  lemma IndependentIffNoZeroOffset(ts: seq<Token>, size: nat)
    requires AllFit(ts, 0, size)
    ensures NoZeroOffset(ts) <==>
      forall b, b' :: |b| == |b'| == size ==> Expand(ts, [], b) == Expand(ts, [], b')
  {
    if NoZeroOffset(ts) {
      forall b: Bytes, b': Bytes | |b| == |b'| == size ensures Expand(ts, [], b) == Expand(ts, [], b') {
        OldContents(ts, [], b, b');
      }
    } else {
      var b: Bytes := seq(size, _ => 0);
      var b' := OldContentsShow(ts, [], b);
    }
  }
}
