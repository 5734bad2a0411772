/**
  The numbers and bytes of a 32-bit machine, the low byte first.
 */
module MachineTypes {

  const TWO16 := 0x1_0000
  const TWO32 := 0x1_0000_0000

  type uint8 = x: int | 0 <= x < 0x100
  type uint16 = x: int | 0 <= x < TWO16
  type uint32 = x: int | 0 <= x < TWO32
  type Bytes = seq<uint8>

  function Word(mem: Bytes, at: nat): uint16
    requires at + 2 <= |mem|
  {
    mem[at] as int + 0x100 * (mem[at + 1] as int)
  }

  function DWord(mem: Bytes, at: nat): uint32
    requires at + 4 <= |mem|
  {
    Word(mem, at) + 0x1_0000 * Word(mem, at + 2)
  }

  function Low(w: int): uint8 {
    w % 0x100
  }

  function High(w: int): uint8 {
    w / 0x100 % 0x100
  }

  // The bytes of a word of two or of four bytes; what does not fit is dropped.
  function Two(w: int): Bytes {
    [Low(w), High(w)]
  }

  function Four(v: int): Bytes {
    Two(v) + Two(v / 0x1_0000)
  }

  lemma FourIs(v: uint32)
    ensures var b := Four(v); v == b[0] as int + 0x100 * b[1] as int + 0x1_0000 * b[2] as int + 0x100_0000 * b[3] as int
    ensures v < TWO16 ==> var b := Two(v); v == b[0] as int + 0x100 * b[1] as int
  {
    LowHigh(v / TWO16);
    LowHigh(v);
    assert v / 0x100 / 0x100 == v / TWO16;
  }

  lemma LowHigh(v: nat)
    ensures v == v % 0x100 + 0x100 * (v / 0x100) && v / 0x100 == v / 0x100 % 0x100 + 0x100 * (v / 0x100 / 0x100)
  {}

  // The bytes are there in memory.
  ghost predicate Has(mem: seq<uint8>, at: nat, bytes: seq<uint8>) {
    at + |bytes| <= |mem| && mem[at..at + |bytes|] == bytes
  }

  lemma HasBytes(mem: seq<uint8>, at: nat, bytes: seq<uint8>)
    requires Has(mem, at, bytes)
    ensures at + |bytes| <= |mem| && forall k :: 0 <= k < |bytes| ==> mem[at + k] == bytes[k]
  {
    var here := mem[at..at + |bytes|];
    assert forall k :: 0 <= k < |bytes| ==> here[k] == mem[at + k];
  }

  lemma HasSplit(t: Bytes, at: nat, a: Bytes, b: Bytes)
    requires Has(t, at, a + b)
    ensures Has(t, at, a) && Has(t, at + |a|, b)
  {
    var s := t[at..at + |a + b|];
    assert s[..|a|] == a && s[|a|..] == b;
    assert t[at..at + |a|] == s[..|a|];
    assert t[at + |a|..at + |a| + |b|] == s[|a|..];
  }
}
