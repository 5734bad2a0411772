/**
  C strings in a character buffer, and the string functions the path code uses.
  `Text(a, s)` says that `a` starts with `s` and a terminator; while a component
  is being looked at, `s` may itself hold a terminator.
 */
module CText {

  const NUL := '\0'

  ghost predicate Text(a: seq<char>, s: string) {
    |s| < |a| && a[..|s|] == s && a[|s|] == NUL
  }

  ghost predicate Clean(s: string) {
    NUL !in s
  }

  lemma TextAt(a: seq<char>, s: string, i: nat)
    requires Text(a, s) && i <= |s|
    ensures i < |a| && a[i] == if i == |s| then NUL else s[i]
    ensures i == |s| ==> a[i] == NUL
    ensures Clean(s) ==> (a[i] == NUL <==> i == |s|)
  {
    if i < |s| {
      assert a[i] == a[..|s|][i];
    }
  }

  lemma CleanFrom(s: string, from: nat)
    requires from <= |s| && Clean(s[from..])
    ensures forall i :: from <= i < |s| ==> s[i] != NUL
  {
    forall i | from <= i < |s| ensures s[i] != NUL {
      assert s[from..][i - from] in s[from..];
    }
  }

  // strlen(buf + from)
  method StrLen(buf: array<char>, from: nat, ghost s: string) returns (n: nat)
    requires Text(buf[..], s) && from <= |s| && Clean(s[from..])
    ensures n == |s| - from
  {
    n := 0;
    TextAt(buf[..], s, from);
    while buf[from + n] != NUL
      invariant from + n <= |s| < buf.Length
      decreases |s| - n
    {
      TextAt(buf[..], s, from + n);
      n := n + 1;
    }
    CleanFrom(s, from);
    TextAt(buf[..], s, from + n);
  }

  // memmove(buf + to, buf + from, n), towards the start of the buffer
  method MoveDown(buf: array<char>, to: nat, from: nat, n: nat)
    requires to <= from && from + n <= buf.Length
    modifies buf
    ensures buf[..] == old(buf[..to]) + old(buf[from..from + n]) + old(buf[to + n..])
  {
    ghost var before, piece := buf[..], buf[from..from + n];
    for k := 0 to n
      invariant forall i :: 0 <= i < to || to + k <= i < buf.Length ==> buf[i] == before[i]
      invariant forall j :: 0 <= j < k ==> buf[to + j] == piece[j]
    {
      assert buf[from + k] == piece[k];
      buf[to + k] := buf[from + k];
    }
  }

  // memmove(buf + to, buf + from, strlen(buf + from) + 1)
  method Cut(buf: array<char>, to: nat, from: nat, ghost s: string)
    requires Text(buf[..], s) && to <= from <= |s| && Clean(s[from..])
    modifies buf
    ensures Text(buf[..], s[..to] + s[from..])
  {
    var n := StrLen(buf, from, s);
    CutText(buf[..], s, to, from);
    MoveDown(buf, to, from, n + 1);
  }

  lemma CutText(a: seq<char>, s: string, to: nat, from: nat)
    requires Text(a, s) && to <= from <= |s|
    ensures var n := |s| - from;
      from + n + 1 <= |a| && Text(a[..to] + a[from..from + n + 1] + a[to + n + 1..], s[..to] + s[from..])
  {
    var n := |s| - from;
    assert a[from..from + n + 1] == s[from..] + [NUL];
    assert a[..to] == s[..to];
  }

  // Storing one character.
  method Store(buf: array<char>, i: nat, c: char, ghost s: string)
    requires Text(buf[..], s) && i < |s|
    modifies buf
    ensures Text(buf[..], s[i := c])
  {
    buf[i] := c;
  }

  // Ending the string early.
  method Truncate(buf: array<char>, i: nat, ghost s: string)
    requires Text(buf[..], s) && i <= |s|
    modifies buf
    ensures Text(buf[..], s[..i])
  {
    buf[i] := NUL;
  }

  // strchr(buf + from, c): the index, or -1
  method StrChr(buf: array<char>, from: nat, c: char, ghost s: string) returns (i: int)
    requires Text(buf[..], s) && from <= |s| && Clean(s) && c != NUL
    ensures i == -1 ==> c !in s[from..]
    ensures i != -1 ==> from <= i < |s| && s[i] == c && c !in s[from..i]
  {
    i := from;
    TextAt(buf[..], s, i);
    while buf[i] != NUL
      invariant from <= i <= |s| < buf.Length && c !in s[from..i]
      decreases |s| - i
    {
      TextAt(buf[..], s, i);
      if buf[i] == c {
        return;
      }
      assert s[from..i + 1] == s[from..i] + [s[i]];
      i := i + 1;
    }
    TextAt(buf[..], s, i);
    i := -1;
  }

  // strstr(buf + from, two of c): the index, or -1
  method StrTwice(buf: array<char>, from: nat, c: char, ghost s: string) returns (i: int)
    requires Text(buf[..], s) && from <= |s| && Clean(s) && c != NUL
    ensures i == -1 ==> forall j :: from <= j < |s| - 1 ==> !(s[j] == c && s[j + 1] == c)
    ensures i != -1 ==> from <= i < |s| - 1 && s[i] == c && s[i + 1] == c
                        && forall j :: from <= j < i ==> !(s[j] == c && s[j + 1] == c)
  {
    i := from;
    TextAt(buf[..], s, i);
    while buf[i] != NUL
      invariant from <= i <= |s| < buf.Length
      invariant forall j :: from <= j < i && j + 1 < |s| ==> !(s[j] == c && s[j + 1] == c)
      decreases |s| - i
    {
      TextAt(buf[..], s, i);
      TextAt(buf[..], s, i + 1);
      if buf[i] == c && buf[i + 1] == c {
        return;
      }
      i := i + 1;
    }
    TextAt(buf[..], s, i);
    i := -1;
  }

  // strcmp(buf + from, lit) == 0, for the string that ends at `end`
  method Equals(buf: array<char>, from: nat, lit: string, ghost s: string, ghost end: nat) returns (eq: bool)
    requires Text(buf[..], s) && from <= end <= |s|
    requires Clean(s[from..end]) && (end < |s| ==> s[end] == NUL) && Clean(lit)
    ensures eq <==> s[from..end] == lit
  {
    var i := 0;
    ghost var t := s[from..end];
    TextAt(buf[..], s, end);
    while i < |lit|
      invariant i <= |lit| && i <= |t| && t[..i] == lit[..i]
    {
      TextAt(buf[..], s, from + i);
      assert i < |t| ==> t[i] in t && t[i] == s[from + i];
      assert lit[i] in lit;
      if buf[from + i] != lit[i] {
        assert i < |t| ==> t[i] != lit[i];
        return false;
      }
      i := i + 1;
    }
    TextAt(buf[..], s, from + i);
    assert i < |t| ==> t[i] in t && t[i] == s[from + i];
    assert t[..i] == lit;
    return buf[from + i] == NUL;
  }
}
