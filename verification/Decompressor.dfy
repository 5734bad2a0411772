/**
  The decompressor of packed pages as the loader has it (lx_loader.c's decompressExePack2):
  it copies bytes inside the page, and is proved against the machine of module ExePack2.
 */
module Decompressor {
  import opened MachineTypes
  import opened Options
  import opened ExePack2
  import opened PackedPages

  // linearmove: the byte-by-byte copy that may run into its own output.
  method LinearMove(dst: array<uint8>, to: nat, from: nat, len: nat)
    requires from <= to && to + len <= dst.Length
    modifies dst
    ensures dst[..] == old(dst[..to]) + Repeat(old(dst[..to]), to - from, len, old(dst[..])) + old(dst[to + len..])
  {
    ghost var before := dst[..];
    ghost var off, copy := to - from, Repeat(dst[..to], to - from, len, dst[..]);
    hide *;
    var k := 0;
    MovedFirst(before, to, copy);
    while k < len
      invariant 0 <= k <= len
      invariant Moved(dst[..], before, to, copy, k)
    {
      MovedNext(dst[..], before, to, off, len, copy, k);
      dst[to + k] := dst[from + k];
      k := k + 1;
    }
    MovedLast(dst[..], before, to, copy);
  }

  // The first `k` bytes of the copy are there, and everything else is still `before`.
  ghost predicate Moved(s: Bytes, before: Bytes, to: nat, copy: Bytes, k: nat) {
    && |s| == |before| && to + |copy| <= |s| && k <= |copy|
    && (forall i :: 0 <= i < to || to + k <= i < |s| ==> s[i] == before[i])
    && (forall j :: 0 <= j < k ==> s[to + j] == copy[j])
  }

  lemma MovedNext(s: Bytes, before: Bytes, to: nat, off: nat, len: nat, copy: Bytes, k: nat)
    requires Moved(s, before, to, copy, k) && k < len && off <= to
    requires to + len <= |before| && copy == Repeat(before[..to], off, len, before) && |copy| == len
    ensures Moved(s[to + k := s[to - off + k]], before, to, copy, k + 1)
  {
    hide Repeat;
    RepeatAt(before[..to], off, len, before, k);
    if 0 < off <= k {
      assert s[to + (k - off)] == copy[k - off];
    }
  }

  lemma MovedFirst(before: Bytes, to: nat, copy: Bytes)
    requires to + |copy| <= |before|
    ensures Moved(before, before, to, copy, 0)
  {}

  lemma MovedLast(s: Bytes, before: Bytes, to: nat, copy: Bytes)
    requires Moved(s, before, to, copy, |copy|)
    ensures s == before[..to] + copy + before[to + |copy|..]
  {
    Assembled(s, before, to, copy);
  }

  lemma Assembled(s: Bytes, before: Bytes, to: nat, piece: Bytes)
    requires |s| == |before| && to + |piece| <= |s|
    requires forall i :: 0 <= i < to || to + |piece| <= i < |s| ==> s[i] == before[i]
    requires forall j :: 0 <= j < |piece| ==> s[to + j] == piece[j]
    ensures s == before[..to] + piece + before[to + |piece|..]
  {}

  // memcpy from the source, or memset.
  method Write(dst: array<uint8>, to: nat, bytes: Bytes)
    requires to + |bytes| <= dst.Length
    modifies dst
    ensures dst[..] == old(dst[..to]) + bytes + old(dst[to + |bytes|..])
  {
    ghost var before := dst[..];
    for k := 0 to |bytes|
      invariant forall i :: 0 <= i < to || to + k <= i < dst.Length ==> dst[i] == before[i]
      invariant forall j :: 0 <= j < k ==> dst[to + j] == bytes[j]
    {
      dst[to + k] := bytes[k];
    }
  }

  // The destination after `out` has been produced over its old contents.
  ghost function Overlaid(out: Bytes, before: Bytes): (r: Bytes)
    requires |out| <= |before|
    ensures |r| == |before|
  {
    out + before[|out|..]
  }

  lemma OverMore(out: Bytes, x: Bytes, before: Bytes)
    requires |out| + |x| <= |before|
    ensures Overlaid(out, before)[..|out|] == out
    ensures out + x + Overlaid(out, before)[|out| + |x|..] == Overlaid(out + x, before)
  {}

  lemma SameRepeat(out: Bytes, off: nat, n: nat, before: Bytes)
    requires off <= |out| && |out| + n <= |before|
    ensures Repeat(out, off, n, Overlaid(out, before)) == Repeat(out, off, n, before)
  {}

  // The action of one token: its literal bytes, then its copy.
  method Put(dst: array<uint8>, d: nat, lead: Bytes, off: nat, n: nat, ghost t: Token, ghost out: Bytes,
      ghost before: Bytes)
      returns (d': nat)
    requires t.Lead() == lead && t.Offset() == off && t.Copied() == n
    requires |before| == dst.Length && d == |out| && t.Fits(d, dst.Length)
    requires dst[..] == Overlaid(out, before)
    modifies dst
    ensures d' == |Append(out, t, before)| <= dst.Length
    ensures dst[..] == Overlaid(Append(out, t, before), before)
  {
    hide *;
    ghost var copy := AppendIs(t, out, before);
    OverMore(out, lead, before);
    Write(dst, d, lead);
    d' := Copy(dst, d + |lead|, off, n, out + lead, copy, before);
  }

  method Copy(dst: array<uint8>, o: nat, off: nat, n: nat, ghost mid: Bytes, ghost copy: Bytes,
      ghost before: Bytes)
      returns (d': nat)
    requires |before| == dst.Length && o == |mid| && off <= |mid| && |mid| + n <= |before|
    requires copy == Repeat(mid, off, n, before) && |copy| == n && dst[..] == Overlaid(mid, before)
    modifies dst
    ensures d' == |mid + copy| && dst[..] == Overlaid(mid + copy, before)
  {
    hide *;
    OverMore(mid, copy, before);
    SameRepeat(mid, off, n, before);
    LinearMove(dst, o, o - off, n);
    d' := o + n;
  }

  lemma AppendIs(t: Token, out: Bytes, before: Bytes) returns (copy: Bytes)
    requires t.Fits(|out|, |before|)
    ensures var mid := out + t.Lead();
      t.Offset() <= |mid| && |mid| + t.Copied() <= |before| && copy == Repeat(mid, t.Offset(), t.Copied(), before) &&
      |copy| == t.Copied() && Append(out, t, before) == mid + copy
  {
    copy := Repeat(out + t.Lead(), t.Offset(), t.Copied(), before);
    hide Repeat;
  }

  // What one turn of the loop does with the bytes at the read position.
  ghost predicate Turn(front: Bytes, out: Bytes, before: Bytes, ok: bool, d': nat, used: nat,
      after: Bytes)
    requires front != [] && |out| <= |before|
  {
    var r := Read(front);
    if r.Some? && r.value.0.Fits(|out|, |before|) then
      ok && used == r.value.1
      && d' == |Append(out, r.value.0, before)| && after == Overlaid(Append(out, r.value.0, before), before)
    else !ok
  }

  method NextZero(dst: array<uint8>, d: nat, src: Bytes, s: nat, ghost out: Bytes, ghost before: Bytes)
      returns (ok: bool, d': nat, s': nat)
    requires s < |src| && |before| == dst.Length && d == |out| <= dst.Length
    requires dst[..] == Overlaid(out, before) && src[s] % 4 == 0
    modifies dst
    ensures s' >= s && Turn(src[s..], out, before, ok, d', s' - s, dst[..])
  {
    hide *;
    if src[s] == 0 {
      ok, d', s' := NextFill(dst, d, src, s, out, before);
    } else {
      ok, d', s' := NextLiteral(dst, d, src, s, out, before);
    }
  }

  method NextFill(dst: array<uint8>, d: nat, src: Bytes, s: nat, ghost out: Bytes, ghost before: Bytes)
      returns (ok: bool, d': nat, s': nat)
    requires s < |src| && |before| == dst.Length && d == |out| <= dst.Length
    requires dst[..] == Overlaid(out, before) && src[s] == 0
    modifies dst
    ensures s' >= s && Turn(src[s..], out, before, ok, d', s' - s, dst[..])
  {
    ok, d', s' := false, d, s;
    ghost var front := src[s..];
    hide Overlaid;
    if s + 2 > |src| {
      return;
    }
    if src[s + 1] == 0 {
      assert Append(out, Skip, before) == out;
      return true, d, s + 2;
    }
    if s + 3 > |src| || d + src[s + 1] as nat > dst.Length {
      return;
    }
    ghost var t := Fill(src[s + 1], src[s + 2]);
    assert Read(front) == Some((t, 3));
    hide Append;
    d' := Put(dst, d, seq(src[s + 1] as nat, _ => src[s + 2]), 0, 0, t, out, before);
    return true, d', s + 3;
  }

  method NextLiteral(dst: array<uint8>, d: nat, src: Bytes, s: nat, ghost out: Bytes, ghost before: Bytes)
      returns (ok: bool, d': nat, s': nat)
    requires s < |src| && |before| == dst.Length && d == |out| <= dst.Length
    requires dst[..] == Overlaid(out, before) && src[s] % 4 == 0 && src[s] != 0
    modifies dst
    ensures s' >= s && Turn(src[s..], out, before, ok, d', s' - s, dst[..])
  {
    var n := src[s] / 4;
    ok, d', s' := false, d, s;
    ghost var front := src[s..];
    hide Overlaid, Append;
    if s + n + 1 > |src| || d + n > dst.Length {
      return;
    }
    var bytes := src[s + 1..s + 1 + n];
    assert front[1..n + 1] == bytes;
    assert Read(front) == Some((Literal(bytes), n + 1));
    d' := Put(dst, d, bytes, 0, 0, Literal(bytes), out, before);
    return true, d', s + n + 1;
  }

  lemma TurnStops(front: Bytes, out: Bytes, before: Bytes, d: nat, after: Bytes)
    requires front != [] && |out| <= |before|
    ensures Read(front) == None || !Read(front).value.0.Fits(|out|, |before|) ==>
      forall used: nat :: Turn(front, out, before, false, d, used, after)
  {}

  lemma TurnGoes(front: Bytes, out: Bytes, before: Bytes, t: Token, used: nat, d': nat, after: Bytes)
    requires front != [] && |out| <= |before| && Read(front) == Some((t, used)) && t.Fits(|out|, |before|)
    requires d' == |Append(out, t, before)| <= |before| && after == Overlaid(Append(out, t, before), before)
    ensures Turn(front, out, before, true, d', used, after)
  {
    hide Read, Append, Overlaid;
  }

  method NextShort(dst: array<uint8>, d: nat, src: Bytes, s: nat, ghost out: Bytes, ghost before: Bytes)
      returns (ok: bool, d': nat, s': nat)
    requires s < |src| && |before| == dst.Length && d == |out| <= dst.Length
    requires dst[..] == Overlaid(out, before) && src[s] % 4 == 1
    modifies dst
    ensures s' >= s && Turn(src[s..], out, before, ok, d', s' - s, dst[..])
  {
    hide *;
    ok, d', s' := false, d, s;
    ghost var front := src[s..];
    FrontShort(src, s);
    TurnStops(front, out, before, d, dst[..]);
    if s + 2 > |src| {
      return;
    }
    var off := Word(src, s) / 128;
    var count := src[s] / 16 % 8 + 3;
    var n := src[s] / 4 % 4;
    if !(s + 2 + n <= |src| && d + n + count <= dst.Length && d + n >= off) {
      return;
    }
    var bytes := src[s + 2..s + 2 + n];
    ghost var t := Short(bytes, off, count);
    d' := Put(dst, d, bytes, off, count, t, out, before);
    TurnGoes(front, out, before, t, 2 + n, d', dst[..]);
    return true, d', s + 2 + n;
  }

  // A token of each of the three forms at `s`, and whether it fits.
  lemma FrontShort(src: Bytes, s: nat)
    requires s < |src| && src[s] % 4 == 1
    ensures src[s] / 4 % 4 >= 0 && src[s] / 16 % 8 >= 0 && (s + 2 <= |src| ==> Word(src, s) / 128 >= 0)
    ensures var n := src[s] / 4 % 4; s + 2 + n > |src| ==> Read(src[s..]) == None
    ensures var n := src[s] / 4 % 4;
      s + 2 + n <= |src| ==>
        var t := Short(src[s + 2..s + 2 + n], Word(src, s) / 128, src[s] / 16 % 8 + 3);
        Read(src[s..]) == Some((t, 2 + n)) && IsToken(t, src[s + 2..s + 2 + n], Word(src, s) / 128, src[s] / 16 % 8 + 3)
  {
    var front, n := src[s..], src[s] / 4 % 4;
    if s + 2 + n <= |src| {
      assert front[2..2 + n] == src[s + 2..s + 2 + n] && Word(front, 0) == Word(src, s);
    }
  }

  ghost predicate IsToken(t: Token, lead: Bytes, off: nat, n: nat) {
    && t.Lead() == lead && t.Offset() == off && t.Copied() == n
    && forall d: nat, size: nat {:trigger t.Fits(d, size)} ::
      t.Fits(d, size) <==> off <= d + |lead| && d + |lead| + n <= size
  }

  method NextNear(dst: array<uint8>, d: nat, src: Bytes, s: nat, ghost out: Bytes, ghost before: Bytes)
      returns (ok: bool, d': nat, s': nat)
    requires s < |src| && |before| == dst.Length && d == |out| <= dst.Length
    requires dst[..] == Overlaid(out, before) && src[s] % 4 == 2
    modifies dst
    ensures s' >= s && Turn(src[s..], out, before, ok, d', s' - s, dst[..])
  {
    hide *;
    ok, d', s' := false, d, s;
    ghost var front := src[s..];
    FrontNear(src, s);
    TurnStops(front, out, before, d, dst[..]);
    if s + 2 > |src| {
      return;
    }
    var off := Word(src, s) / 16;
    var count := src[s] / 4 % 4 + 3;
    if !(d + count <= dst.Length && d >= off) {
      return;
    }
    ghost var t := Near(off, count);
    d' := Put(dst, d, [], off, count, t, out, before);
    TurnGoes(front, out, before, t, 2, d', dst[..]);
    return true, d', s + 2;
  }

  lemma FrontNear(src: Bytes, s: nat)
    requires s < |src| && src[s] % 4 == 2
    ensures s + 2 > |src| ==> Read(src[s..]) == None
    ensures s + 2 <= |src| ==>
      var t := Near(Word(src, s) / 16, src[s] / 4 % 4 + 3);
      Read(src[s..]) == Some((t, 2)) && IsToken(t, [], Word(src, s) / 16, src[s] / 4 % 4 + 3)
  {
    if s + 2 <= |src| {
      assert Word(src[s..], 0) == Word(src, s);
    }
  }

  method NextLong(dst: array<uint8>, d: nat, src: Bytes, s: nat, ghost out: Bytes, ghost before: Bytes)
      returns (ok: bool, d': nat, s': nat)
    requires s < |src| && |before| == dst.Length && d == |out| <= dst.Length
    requires dst[..] == Overlaid(out, before) && src[s] % 4 == 3
    modifies dst
    ensures s' >= s && Turn(src[s..], out, before, ok, d', s' - s, dst[..])
  {
    hide *;
    ok, d', s' := false, d, s;
    ghost var front := src[s..];
    FrontLong(src, s);
    TurnStops(front, out, before, d, dst[..]);
    if s + 3 > |src| {
      return;
    }
    var count := Word(src, s) / 64 % 64;
    var n := src[s] / 4 % 16;
    var off := Word(src, s + 1) / 16;
    if !(s + 3 + n <= |src| && d + n + count <= dst.Length && d + n >= off) {
      return;
    }
    var bytes := src[s + 3..s + 3 + n];
    ghost var t := Long(bytes, off, count);
    d' := Put(dst, d, bytes, off, count, t, out, before);
    TurnGoes(front, out, before, t, 3 + n, d', dst[..]);
    return true, d', s + 3 + n;
  }

  lemma FrontLong(src: Bytes, s: nat)
    requires s < |src| && src[s] % 4 == 3
    ensures var n := src[s] / 4 % 16; s + 3 + n > |src| ==> Read(src[s..]) == None
    ensures var n := src[s] / 4 % 16;
      s + 3 + n <= |src| ==>
        var t := Long(src[s + 3..s + 3 + n], Word(src, s + 1) / 16, Word(src, s) / 64 % 64);
        Read(src[s..]) == Some((t, 3 + n)) &&
        IsToken(t, src[s + 3..s + 3 + n], Word(src, s + 1) / 16, Word(src, s) / 64 % 64)
  {
    var front, n := src[s..], src[s] / 4 % 16;
    if s + 3 + n <= |src| {
      assert front[3..3 + n] == src[s + 3..s + 3 + n];
      assert Word(front, 0) == Word(src, s) && Word(front, 1) == Word(src, s + 1);
    }
  }

  // One turn of the loop: the switch on the two low bits.
  method Next(dst: array<uint8>, d: nat, src: Bytes, s: nat, ghost out: Bytes, ghost before: Bytes)
      returns (ok: bool, d': nat, s': nat)
    requires s < |src| && |before| == dst.Length && d == |out| <= dst.Length
    requires dst[..] == Overlaid(out, before)
    modifies dst
    ensures s' >= s && Turn(src[s..], out, before, ok, d', s' - s, dst[..])
  {
    hide *;
    match src[s] % 4 {
      case 0 => ok, d', s' := NextZero(dst, d, src, s, out, before);
      case 1 => ok, d', s' := NextShort(dst, d, src, s, out, before);
      case 2 => ok, d', s' := NextNear(dst, d, src, s, out, before);
      case _ => ok, d', s' := NextLong(dst, d, src, s, out, before);
    }
  }

  lemma TurnStep(src: Bytes, s: nat, out: Bytes, before: Bytes, ok: bool, d': nat, used: nat,
      after: Bytes)
      returns (out': Bytes)
    requires s < |src| && |out| <= |before| && Turn(src[s..], out, before, ok, d', used, after)
    ensures !ok ==> Machine(src[s..], out, before) == None
    ensures ok ==> 0 < used && s + used <= |src| && |out'| <= |before| && d' == |out'|
    ensures ok ==> |out'| <= |before| && after == Overlaid(out', before)
    ensures ok && |out'| < |before| ==> Machine(src[s..], out, before) == Machine(src[s + used..], out', before)
    ensures ok && |out'| >= |before| ==> Machine(src[s..], out, before) == Some(out')
  {
    hide Read, Append, Overlaid;
    out' := out;
    if ok {
      var (t, n) := Read(src[s..]).value;
      out' := Append(out, t, before);
      assert src[s..][n..] == src[s + n..];
      MachineStep(src[s..], t, n, src[s + n..], out, before);
      hide Machine;
    }
  }

  lemma Pads(out: Bytes, before: Bytes, zeros: Bytes)
    requires |out| + |zeros| == |before| && forall i :: 0 <= i < |zeros| ==> zeros[i] == 0
    ensures Overlaid(out, before)[..|out|] == out
    ensures out + zeros + Overlaid(out, before)[|before|..] == Padded(out, |before|)
  {}

  // The do-while loop.
  method Loop(dst: array<uint8>, src: Bytes, ghost before: Bytes)
      returns (ok: bool, d: nat, ghost out: Bytes)
    requires dst[..] == before
    modifies dst
    ensures |before| == dst.Length
    ensures !ok ==> Machine(src, [], before) == None
    ensures ok ==> d == |out| <= dst.Length && dst[..] == Overlaid(out, before) && Machine(src, [], before) == Some(out)
  {
    hide *;
    OverNothing(before);
    assert src[0..] == src;
    ghost var result := Machine(src, [], before);
    var s := 0;
    ok, d, out := true, 0, [];
    while true
      invariant s <= |src| && d == |out| <= dst.Length == |before|
      invariant dst[..] == Overlaid(out, before)
      invariant result == Machine(src[s..], out, before)
      decreases |src| - s
    {
      if s + 1 > |src| {
        MachineEnd(src, s, out, before);
        return true, d, out;
      }
      var s', d';
      ok, d', s' := Next(dst, d, src, s, out, before);
      ghost var out' := TurnStep(src, s, out, before, ok, d', s' - s, dst[..]);
      if !ok {
        return;
      }
      s, d, out := s', d', out';
      if d >= dst.Length {
        return;
      }
    }
  }

  // decompressExePack2
  method Decompress(dst: array<uint8>, src: Bytes) returns (ok: bool)
    modifies dst
    ensures ok <==> Machine(src, [], old(dst[..])).Some?
    ensures ok ==> dst[..] == Padded(Machine(src, [], old(dst[..])).value, dst.Length)
    ensures ok ==> forall i :: |Machine(src, [], old(dst[..])).value| <= i < dst.Length ==> dst[i] == 0
    ensures forall p {:trigger Runs(p)} :: |p| == dst.Length && src == Runs(p) ==> ok && dst[..] == p
    ensures forall p {:trigger Blocks(p)} :: |p| == dst.Length && src == Blocks(p) ==> ok && dst[..] == p
  {
    hide *;
    ghost var before := dst[..];
    var d;
    ghost var out;
    ok, d, out := Loop(dst, src, before);
    if ok {
      Pad(dst, d, out, before);
    }
    PagesUnpacked(src, before);
    PaddedIs(if ok then out else [], before);
  }

  lemma PagesUnpacked(src: Bytes, before: Bytes)
    ensures forall p {:trigger Runs(p)} :: |p| == |before| && src == Runs(p) ==> Machine(src, [], before) == Some(p)
    ensures forall p {:trigger Blocks(p)} :: |p| == |before| && src == Blocks(p) ==> Machine(src, [], before) == Some(p)
  {
    hide *;
    forall p | |p| == |before| && src == Runs(p) ensures Machine(src, [], before) == Some(p) {
      RunsUnpacked(p, [], before);
      assert [] + p == p;
    }
    forall p | |p| == |before| && src == Blocks(p) ensures Machine(src, [], before) == Some(p) {
      BlocksUnpacked(p, [], before);
      assert [] + p == p;
    }
  }

  lemma PaddedIs(out: Bytes, before: Bytes)
    requires |out| <= |before|
    ensures |out| == |before| ==> Padded(out, |before|) == out
    ensures forall i :: |out| <= i < |before| ==> Padded(out, |before|)[i] == 0
  {}

  // memset of the rest of the page.
  method Pad(dst: array<uint8>, d: nat, ghost out: Bytes, ghost before: Bytes)
    requires d == |out| <= dst.Length == |before| && dst[..] == Overlaid(out, before)
    modifies dst
    ensures dst[..] == Padded(out, dst.Length)
  {
    hide *;
    var zeros: Bytes := seq(dst.Length - d, _ => 0);
    Pads(out, before, zeros);
    Write(dst, d, zeros);
  }

  lemma OverNothing(before: Bytes)
    ensures Overlaid([], before) == before
  {}

  lemma MachineEnd(src: Bytes, s: nat, out: Bytes, before: Bytes)
    requires s == |src| && |out| <= |before|
    ensures Machine(src[s..], out, before) == Some(out)
  {}
}
