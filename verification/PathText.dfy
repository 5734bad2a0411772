/**
  OS/2 path text: components between backslashes, and the normal form that a
  stack of components gives.
 */
module PathText {

  const SLASH := '\\'

  // The components of a path; a path without backslashes is one component.
  function Split(s: string): (cs: seq<string>)
    ensures cs != []
  {
    SplitAt(s, 0)
  }

  // `s` split, where the first `n` characters are known to hold no backslash.
  function SplitAt(s: string, n: nat): (cs: seq<string>)
    ensures cs != []
    decreases |s|, |s| - n
  {
    if n >= |s| then [s]
    else if s[n] == SLASH then [s[..n]] + SplitAt(s[n + 1..], 0)
    else SplitAt(s, n + 1)
  }

  function Join(cs: seq<string>): string {
    if cs == [] then ""
    else if |cs| == 1 then cs[0]
    else Join(cs[..|cs| - 1]) + [SLASH] + cs[|cs| - 1]
  }

  predicate Normal(c: string) {
    c != "" && c != "." && c != ".." && SLASH !in c
  }

  predicate AllNormal(cs: seq<string>) {
    forall c :: c in cs ==> Normal(c)
  }

  // One component applied to a directory: empty and "." stay, ".." goes up (and stays at
  // the root), anything else goes down.
  function Enter(dir: seq<string>, c: string): seq<string> {
    if c == "" || c == "." then dir
    else if c == ".." then (if dir == [] then [] else dir[..|dir| - 1])
    else dir + [c]
  }

  function Walk(dir: seq<string>, cs: seq<string>): seq<string>
    decreases |cs|
  {
    if cs == [] then dir else Walk(Enter(dir, cs[0]), cs[1..])
  }

  // ----- Splitting ------------------------------------------------------------

  lemma {:induction false} SplitNone(s: string, n: nat)
    requires SLASH !in s && n <= |s|
    ensures SplitAt(s, n) == [s]
    decreases |s| - n
  {
    if n < |s| {
      assert s[n] in s;
      SplitNone(s, n + 1);
    }
  }

  lemma {:induction false} SplitFirst(s: string, n: nat, p: nat)
    requires n <= p < |s| && s[p] == SLASH && SLASH !in s[..p]
    ensures SplitAt(s, n) == [s[..p]] + Split(s[p + 1..])
    decreases p - n
  {
    if n < p {
      assert s[..p][n] == s[n];
      SplitFirst(s, n + 1, p);
    }
  }

  lemma {:induction false} SplitAppend(a: string, b: string)
    ensures Split(a + [SLASH] + b) == Split(a) + Split(b)
    decreases |a|
  {
    var s := a + [SLASH] + b;
    if SLASH in a {
      var p := FirstSlash(a);
      SplitFirst(a, 0, p);
      assert s[..p] == a[..p];
      SplitFirst(s, 0, p);
      assert s[p + 1..] == a[p + 1..] + [SLASH] + b;
      SplitAppend(a[p + 1..], b);
      assert Split(s) == [a[..p]] + (Split(a[p + 1..]) + Split(b));
    } else {
      assert s[..|a|] == a && s[|a| + 1..] == b;
      SplitNone(a, 0);
      SplitFirst(s, 0, |a|);
    }
  }

  lemma {:induction false} FirstSlash(s: string) returns (p: nat)
    requires SLASH in s
    ensures p < |s| && s[p] == SLASH && SLASH !in s[..p]
  {
    if s[0] == SLASH {
      p := 0;
    } else {
      p := FirstSlash(s[1..]);
      p := p + 1;
      assert s[..p] == [s[0]] + s[1..][..p - 1];
    }
  }

  lemma {:induction false} SplitJoin(cs: seq<string>)
    requires cs != [] && forall c :: c in cs ==> SLASH !in c
    ensures Split(Join(cs)) == cs
  {
    var n := |cs| - 1;
    if n == 0 {
      SplitNone(cs[0], 0);
    } else {
      SplitJoin(cs[..n]);
      SplitAppend(Join(cs[..n]), cs[n]);
      SplitNone(cs[n], 0);
      assert cs == cs[..n] + [cs[n]];
    }
  }

  // ----- Walking ----------------------------------------------------------------

  // ".." undoes going down, and leaves the root where it is.
  lemma GoesUp(dir: seq<string>, c: string, cs: seq<string>)
    requires Normal(c)
    ensures Walk(dir, [c, ".."] + cs) == Walk(dir, cs) && Walk([], [".."] + cs) == Walk([], cs)
    ensures Walk(dir, [".", ""] + cs) == Walk(dir, cs) && Walk(dir, [c]) == dir + [c]
  {
    assert ([c, ".."] + cs)[1..] == [".."] + cs && ([".", ""] + cs)[1..] == [""] + cs;
    assert ([".."] + cs)[1..] == cs && ([""] + cs)[1..] == cs;
    assert (dir + [c])[..|dir|] == dir;
  }

  lemma {:induction false} WalkAppend(dir: seq<string>, a: seq<string>, b: seq<string>)
    ensures Walk(dir, a + b) == Walk(Walk(dir, a), b)
    decreases |a|
  {
    if a == [] {
      assert a + b == b;
    } else {
      assert (a + b)[1..] == a[1..] + b;
      WalkAppend(Enter(dir, a[0]), a[1..], b);
    }
  }

  lemma {:induction false} WalkNormal(dir: seq<string>, cs: seq<string>)
    requires AllNormal(dir) && forall c :: c in cs ==> SLASH !in c
    ensures AllNormal(Walk(dir, cs))
    decreases |cs|
  {
    if cs != [] {
      WalkNormal(Enter(dir, cs[0]), cs[1..]);
    }
  }

  // A normal directory walks to itself.
  lemma {:induction false} WalkSelf(dir: seq<string>, cs: seq<string>)
    requires AllNormal(cs)
    ensures Walk(dir, cs) == dir + cs
    decreases |cs|
  {
    if cs == [] {
      assert dir + cs == dir;
    } else {
      assert cs[0] in cs;
      assert dir + cs == (dir + [cs[0]]) + cs[1..];
      WalkSelf(dir + [cs[0]], cs[1..]);
    }
  }

  // A doubled backslash means no more than a single one.
  lemma Doubled(dir: seq<string>, a: string, b: string)
    ensures Walk(dir, Split(a + [SLASH] + ([SLASH] + b))) == Walk(dir, Split(a + [SLASH] + b))
  {
    SplitAppend(a, [SLASH] + b);
    SplitAppend(a, b);
    Leading(Walk(dir, Split(a)), b);
    WalkAppend(dir, Split(a), Split([SLASH] + b));
    WalkAppend(dir, Split(a), Split(b));
  }

  lemma Leading(dir: seq<string>, b: string)
    ensures Walk(dir, Split([SLASH] + b)) == Walk(dir, Split(b))
  {
    SplitAppend("", b);
    assert "" + [SLASH] + b == [SLASH] + b;
    SplitNone("", 0);
    WalkAppend(dir, [""], Split(b));
    assert Walk(dir, [""]) == Walk(Enter(dir, ""), []);
  }

  lemma {:induction false} SplitPieces(s: string, n: nat)
    requires SLASH !in s[..if n <= |s| then n else |s|]
    ensures forall c :: c in SplitAt(s, n) ==> SLASH !in c
    decreases |s|, |s| - n
  {
    if n < |s| {
      if s[n] == SLASH {
        SplitPieces(s[n + 1..], 0);
      } else {
        assert s[..n + 1] == s[..n] + [s[n]];
        SplitPieces(s, n + 1);
      }
    }
  }
}
