/**
  What the packed form means byte by byte: what each form of token adds to a page, and pages
  packed without copies.
 */
module PackedPages {
  import opened MachineTypes
  import opened Options
  import opened ExePack2

  // ----- The five forms ----------------------------------------------------------------

  // The machine goes on with `out`, or is done.
  function Next(out: Bytes, rest: Bytes, before: Bytes): Option<Bytes> {
    if |out| > |before| then None else if |out| < |before| then Machine(rest, out, before) else Some(out)
  }

  // `r` is `mid` and `n` bytes more, each the one `off` bytes before it; with a distance of 0
  // it is what the page held there.
  ghost predicate Copied(mid: Bytes, r: Bytes, off: nat, n: nat, before: Bytes) {
    && |r| == |mid| + n && mid <= r
    && forall k :: |mid| <= k < |r| ==>
      if off == 0 then k < |before| && r[k] == before[k] else off <= k && r[k] == r[k - off]
  }

  lemma TokenNext(t: Token, rest: Bytes, out: Bytes, before: Bytes)
    requires t.InRange() && |out| <= |before|
    ensures !t.Fits(|out|, |before|) ==> Machine(Encode(t) + rest, out, before) == None
    ensures t.Fits(|out|, |before|) ==>
      Machine(Encode(t) + rest, out, before) == Next(Append(out, t, before), rest, before)
  {
    var src := Encode(t) + rest;
    ReadEncode(t, rest);
    assert src[|Encode(t)|..] == rest;
    hide Encode, Read, Append;
    if t.Fits(|out|, |before|) {
      MachineStep(src, t, |Encode(t)|, rest, out, before);
    }
  }

  lemma NoCopy(out: Bytes, t: Token, before: Bytes)
    requires t.Fits(|out|, |before|) && t.Copied() == 0
    ensures Append(out, t, before) == out + t.Lead()
  {}

  lemma SkipForm(rest: Bytes, out: Bytes, before: Bytes)
    requires |out| <= |before|
    ensures Machine([0, 0] + rest, out, before) == Next(out, rest, before)
  {
    TokenNext(Skip, rest, out, before);
    NoCopy(out, Skip, before);
    assert out + [] == out;
  }

  lemma FillForm(n: uint8, v: uint8, rest: Bytes, out: Bytes, before: Bytes)
    requires |out| <= |before| && n > 0
    ensures Machine([0, n, v] + rest, out, before) == Next(out + seq(n, _ => v), rest, before)
  {
    TokenNext(Fill(n, v), rest, out, before);
    if |out| + n <= |before| {
      NoCopy(out, Fill(n, v), before);
    }
  }

  lemma LiteralForm(b: Bytes, rest: Bytes, out: Bytes, before: Bytes)
    requires |out| <= |before| && 0 < |b| < 64
    ensures Machine([4 * |b|] + b + rest, out, before) == Next(out + b, rest, before)
  {
    TokenNext(Literal(b), rest, out, before);
    if |out| + |b| <= |before| {
      NoCopy(out, Literal(b), before);
    }
  }

  // Literal bytes and a copy, which fails if it reaches in front of the page or behind it.
  lemma CopyForm(t: Token, rest: Bytes, out: Bytes, before: Bytes) returns (r: Bytes)
    requires t.InRange() && |out| <= |before|
    ensures var mid, m := out + t.Lead(), Machine(Encode(t) + rest, out, before);
      if t.Offset() > |mid| || |mid| + t.Copied() > |before| then m == None
      else Copied(mid, r, t.Offset(), t.Copied(), before) && m == Next(r, rest, before)
  {
    TokenNext(t, rest, out, before);
    r := out;
    if t.Fits(|out|, |before|) {
      r := Append(out, t, before);
      AppendCopied(out, t, before);
    }
  }

  lemma AppendCopied(out: Bytes, t: Token, before: Bytes)
    requires t.Fits(|out|, |before|)
    ensures Copied(out + t.Lead(), Append(out, t, before), t.Offset(), t.Copied(), before)
  {
    var mid, r, off, n := out + t.Lead(), Append(out, t, before), t.Offset(), t.Copied();
    forall k | |mid| <= k < |r| ensures if off == 0 then r[k] == before[k] else r[k] == r[k - off] {
      RepeatAt(mid, off, n, before, k - |mid|);
    }
  }

  lemma ShortForm(b: Bytes, off: nat, n: nat, rest: Bytes, out: Bytes, before: Bytes) returns (r: Bytes)
    requires |out| <= |before| && |b| < 4 && off < 512 && 3 <= n < 11
    ensures var src, mid := [1 + 4 * |b| + 16 * (n - 3) + 128 * (off % 2), off / 2] + b + rest, out + b;
      if off > |mid| || |mid| + n > |before| then Machine(src, out, before) == None
      else Copied(mid, r, off, n, before) && Machine(src, out, before) == Next(r, rest, before)
  {
    ShortBytes(b, off, n);
    hide *;
    r := CopyForm(Short(b, off, n), rest, out, before);
  }

  lemma ShortBytes(b: Bytes, off: nat, n: nat)
    requires |b| < 4 && off < 512 && 3 <= n < 11
    ensures var t := Short(b, off, n);
      t.InRange() && Encode(t) == [1 + 4 * |b| + 16 * (n - 3) + 128 * (off % 2), off / 2] + b &&
      t.Lead() == b && t.Offset() == off && t.Copied() == n
  {
    Quotient(1 + 4 * |b| + 16 * (n - 3) + 128 * off, 256, off / 2, 1 + 4 * |b| + 16 * (n - 3) + 128 * (off % 2));
  }

  lemma NearForm(off: nat, n: nat, rest: Bytes, out: Bytes, before: Bytes) returns (r: Bytes)
    requires |out| <= |before| && off < 4096 && 3 <= n < 7
    ensures var src := [2 + 4 * (n - 3) + 16 * (off % 16), off / 16] + rest;
      if off > |out| || |out| + n > |before| then Machine(src, out, before) == None
      else Copied(out, r, off, n, before) && Machine(src, out, before) == Next(r, rest, before)
  {
    NearBytes(off, n);
    assert out + [] == out;
    hide *;
    r := CopyForm(Near(off, n), rest, out, before);
  }

  lemma NearBytes(off: nat, n: nat)
    requires off < 4096 && 3 <= n < 7
    ensures var t := Near(off, n);
      t.InRange() && Encode(t) == [2 + 4 * (n - 3) + 16 * (off % 16), off / 16] &&
      t.Lead() == [] && t.Offset() == off && t.Copied() == n
  {
    Quotient(2 + 4 * (n - 3) + 16 * off, 256, off / 16, 2 + 4 * (n - 3) + 16 * (off % 16));
  }

  lemma LongForm(b: Bytes, off: nat, n: nat, rest: Bytes, out: Bytes, before: Bytes) returns (r: Bytes)
    requires |out| <= |before| && |b| < 16 && off < 4096 && n < 64
    ensures var src := [3 + 4 * |b| + 64 * (n % 4), n / 4 + 16 * (off % 16), off / 16] + b + rest;
      var mid := out + b;
      if off > |mid| || |mid| + n > |before| then Machine(src, out, before) == None
      else Copied(mid, r, off, n, before) && Machine(src, out, before) == Next(r, rest, before)
  {
    LongBytes(b, off, n);
    hide *;
    r := CopyForm(Long(b, off, n), rest, out, before);
  }

  lemma LongBytes(b: Bytes, off: nat, n: nat)
    requires |b| < 16 && off < 4096 && n < 64
    ensures var t := Long(b, off, n);
      t.InRange() && Encode(t) == [3 + 4 * |b| + 64 * (n % 4), n / 4 + 16 * (off % 16), off / 16] + b &&
      t.Lead() == b && t.Offset() == off && t.Copied() == n
  {
    var x := 3 + 4 * |b| + 64 * n + 4096 * off;
    var low := 3 + 4 * |b| + 64 * (n % 4);
    Quotient(x, 256, n / 4 + 16 * off, low);
    Quotient(n / 4 + 16 * off, 256, off / 16, n / 4 + 16 * (off % 16));
    Quotient(x, 0x1_0000, off / 16, low + 256 * (n / 4 + 16 * (off % 16)));
  }

  // ----- Pages without copies ---------------------------------------------------------------

  // How many bytes at the front are equal, up to 255.
  function Run(p: Bytes, n: nat): (r: nat)
    requires n < |p| && n < 255
    ensures n < r <= |p| && r < 256
    decreases |p| - n
  {
    if n + 1 < |p| && n + 1 < 255 && p[n + 1] == p[0] then Run(p, n + 1) else n + 1
  }

  lemma {:induction false} RunIs(p: Bytes, n: nat)
    requires n < |p| && n < 255 && forall i :: 0 <= i <= n ==> p[i] == p[0]
    ensures forall i :: 0 <= i < Run(p, n) ==> p[i] == p[0]
    decreases |p| - n
  {
    if n + 1 < |p| && n + 1 < 255 && p[n + 1] == p[0] {
      RunIs(p, n + 1);
    }
  }

  // A page packed as runs of equal bytes, and one packed as blocks of up to 63 bytes.
  function Runs(p: Bytes): Bytes {
    if p == [] then [] else [0, Run(p, 0), p[0]] + Runs(p[Run(p, 0)..])
  }

  function Blocks(p: Bytes): Bytes {
    if p == [] then []
    else
      var n := if |p| < 63 then |p| else 63;
      [4 * n] + p[..n] + Blocks(p[n..])
  }

  // Either is unpacked to the page.
  lemma {:induction false} RunsUnpacked(p: Bytes, out: Bytes, before: Bytes)
    requires |out| + |p| <= |before|
    ensures Machine(Runs(p), out, before) == Some(out + p)
    decreases |p|
  {
    if p == [] {
      assert out + p == out;
    } else {
      var n := Run(p, 0);
      RunIs(p, 0);
      FillForm(n, p[0], Runs(p[n..]), out, before);
      assert seq(n, _ => p[0]) == p[..n];
      Rest(out, p, n);
      hide Machine, Run;
      RunsUnpacked(p[n..], out + p[..n], before);
    }
  }

  lemma Rest(out: Bytes, p: Bytes, n: nat)
    requires n <= |p|
    ensures (out + p[..n]) + p[n..] == out + p
  {}

  lemma {:induction false} BlocksUnpacked(p: Bytes, out: Bytes, before: Bytes)
    requires |out| + |p| <= |before|
    ensures Machine(Blocks(p), out, before) == Some(out + p)
    decreases |p|
  {
    if p == [] {
      assert out + p == out;
    } else {
      var n := if |p| < 63 then |p| else 63;
      LiteralForm(p[..n], Blocks(p[n..]), out, before);
      Rest(out, p, n);
      hide Machine;
      BlocksUnpacked(p[n..], out + p[..n], before);
    }
  }
}
