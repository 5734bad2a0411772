/**
  Bytes written over memory at given places: what a list of such patches leaves.
 */
module Patches {
  import opened MachineTypes

  datatype Patch = Patch(at: nat, bytes: seq<uint8>)

  function Over(mem: seq<uint8>, p: Patch): (r: seq<uint8>)
    ensures |r| == |mem|
  {
    if p.at + |p.bytes| <= |mem| then mem[..p.at] + p.bytes + mem[p.at + |p.bytes|..] else mem
  }

  ghost function Write(mem: seq<uint8>, ps: seq<Patch>): (r: seq<uint8>)
    ensures |r| == |mem|
    decreases |ps|
  {
    if ps == [] then mem else Over(Write(mem, ps[..|ps| - 1]), ps[|ps| - 1])
  }

  // A patch owns at least the two bytes of its link.
  function Span(p: Patch): nat {
    if |p.bytes| < 2 then 2 else |p.bytes|
  }

  predicate Clear(p: Patch, q: Patch) {
    p.at + Span(p) <= q.at || q.at + Span(q) <= p.at
  }

  ghost predicate Apart(ps: seq<Patch>) {
    forall i, j :: 0 <= i < j < |ps| ==> Clear(ps[i], ps[j])
  }

  ghost predicate Fits(ps: seq<Patch>, n: nat) {
    forall i :: 0 <= i < |ps| ==> ps[i].at + Span(ps[i]) <= n
  }

  predicate Hits(p: Patch, x: nat) {
    p.at <= x < p.at + |p.bytes|
  }

  ghost predicate Missed(ps: seq<Patch>, x: nat) {
    forall i :: 0 <= i < |ps| ==> !Hits(ps[i], x)
  }

  // Writing patches that are apart: each place ends up with its own bytes, and every byte
  // outside them is the old one.
  lemma {:induction false} WriteMissed(mem: seq<uint8>, ps: seq<Patch>, x: nat)
    requires x < |mem| && Missed(ps, x)
    ensures Write(mem, ps)[x] == mem[x]
    decreases |ps|
  {
    if ps != [] {
      assert !Hits(ps[|ps| - 1], x);
      WriteMissed(mem, ps[..|ps| - 1], x);
    }
  }

  lemma {:induction false} WriteHit(mem: seq<uint8>, ps: seq<Patch>, i: nat, x: nat)
    requires Apart(ps) && Fits(ps, |mem|) && i < |ps| && Hits(ps[i], x)
    ensures x < |mem| && Write(mem, ps)[x] == ps[i].bytes[x - ps[i].at]
    decreases |ps|
  {
    hide *;
    var n := |ps| - 1;
    ApartLast(ps, |mem|, i, x);
    WriteLast(mem, ps);
    if i < n {
      WriteHit(mem, ps[..n], i, x);
      OverMissed(Write(mem, ps[..n]), ps[n], x);
    } else {
      OverHit(Write(mem, ps[..n]), ps[n], x);
    }
  }

  lemma OverHas(mem: seq<uint8>, p: Patch)
    requires p.at + |p.bytes| <= |mem|
    ensures Has(Over(mem, p), p.at, p.bytes)
  {}

  // Each of the patches is there in the end.
  lemma Written(mem: seq<uint8>, ps: seq<Patch>, i: nat)
    requires Apart(ps) && Fits(ps, |mem|) && i < |ps|
    ensures Has(Write(mem, ps), ps[i].at, ps[i].bytes)
  {
    var p := ps[i];
    forall x | p.at <= x < p.at + |p.bytes| ensures Write(mem, ps)[x] == p.bytes[x - p.at] {
      assert Hits(p, x);
      WriteHit(mem, ps, i, x);
    }
    assert p.at + Span(p) <= |mem|;
  }

  lemma WriteLast(mem: seq<uint8>, ps: seq<Patch>)
    requires ps != []
    ensures Write(mem, ps) == Over(Write(mem, ps[..|ps| - 1]), ps[|ps| - 1])
  {}

  lemma ApartLast(ps: seq<Patch>, size: nat, i: nat, x: nat)
    requires Apart(ps) && Fits(ps, size) && i < |ps| && Hits(ps[i], x)
    ensures var n := |ps| - 1;
      Apart(ps[..n]) && Fits(ps[..n], size) && (i < n ==> !Hits(ps[n], x)) && ps[n].at + |ps[n].bytes| <= size
    ensures x < size
  {
    assert i < |ps| - 1 ==> Clear(ps[i], ps[|ps| - 1]);
  }

  lemma OverMissed(mem: seq<uint8>, p: Patch, x: nat)
    requires x < |mem| && !Hits(p, x)
    ensures Over(mem, p)[x] == mem[x]
  {}

  lemma OverHit(mem: seq<uint8>, p: Patch, x: nat)
    requires x < |mem| && Hits(p, x) && p.at + |p.bytes| <= |mem|
    ensures Over(mem, p)[x] == p.bytes[x - p.at]
  {}

  lemma {:induction false} WriteMore(mem: seq<uint8>, ps: seq<Patch>, p: Patch)
    ensures Write(mem, ps + [p]) == Over(Write(mem, ps), p)
  {
    assert (ps + [p])[..|ps|] == ps;
  }

  // The order in which they are written does not matter.
  lemma WriteSame(mem: seq<uint8>, ps: seq<Patch>, qs: seq<Patch>)
    requires Apart(ps) && Apart(qs) && Fits(ps, |mem|) && Fits(qs, |mem|)
    requires forall p :: p in ps <==> p in qs
    ensures Write(mem, ps) == Write(mem, qs)
  {
    forall x | 0 <= x < |mem| ensures Write(mem, ps)[x] == Write(mem, qs)[x] {
      WriteSameAt(mem, ps, qs, x);
    }
  }

  lemma WriteSameAt(mem: seq<uint8>, ps: seq<Patch>, qs: seq<Patch>, x: nat)
    requires Apart(ps) && Apart(qs) && Fits(ps, |mem|) && Fits(qs, |mem|)
    requires (forall p :: p in ps <==> p in qs) && x < |mem|
    ensures Write(mem, ps)[x] == Write(mem, qs)[x]
  {
    hide Write, Apart, Fits, Hits;
    if Missed(ps, x) {
      assert forall i :: 0 <= i < |qs| ==> qs[i] in ps;
      WriteMissed(mem, ps, x);
      WriteMissed(mem, qs, x);
    } else {
      var i :| 0 <= i < |ps| && Hits(ps[i], x);
      assert ps[i] in qs;
      var j :| 0 <= j < |qs| && qs[j] == ps[i];
      WriteHit(mem, ps, i, x);
      WriteHit(mem, qs, j, x);
    }
  }

  // Patches that are clear of `p` leave its bytes alone.
  lemma Untouched(mem: seq<uint8>, ps: seq<Patch>, p: Patch, x: nat)
    requires forall i :: 0 <= i < |ps| ==> Clear(ps[i], p)
    requires p.at <= x < p.at + Span(p) && x < |mem|
    ensures Write(mem, ps)[x] == mem[x]
  {
    assert Missed(ps, x);
    WriteMissed(mem, ps, x);
  }

  ghost predicate ClearOf(ps: seq<Patch>, qs: seq<Patch>) {
    forall i, j :: 0 <= i < |ps| && 0 <= j < |qs| ==> Clear(ps[i], qs[j])
  }

  lemma ApartSplit(ps: seq<Patch>, qs: seq<Patch>, n: nat)
    requires Apart(ps + qs) && Fits(ps + qs, n)
    ensures Apart(ps) && Apart(qs) && ClearOf(ps, qs) && Fits(ps, n) && Fits(qs, n)
  {
    var all := ps + qs;
    assert forall i :: 0 <= i < |ps| ==> all[i] == ps[i];
    assert forall j :: 0 <= j < |qs| ==> all[|ps| + j] == qs[j];
  }

  lemma {:induction false} WriteAll(mem: seq<uint8>, ps: seq<Patch>, qs: seq<Patch>)
    ensures Write(mem, ps + qs) == Write(Write(mem, ps), qs)
    decreases |qs|
  {
    if qs == [] {
      assert ps + qs == ps;
    } else {
      var n := |qs| - 1;
      assert ps + qs == (ps + qs[..n]) + [qs[n]];
      WriteMore(mem, ps + qs[..n], qs[n]);
      WriteAll(mem, ps, qs[..n]);
    }
  }
}
