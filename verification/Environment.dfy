/**
  The environment of a process: lib2ine.c prints it into a block of terminated strings,
  native/doscalls.c looks variables up in that block, and splits a block when a program
  starts another one.
 */
module Environment {
  import opened CText
  import opened CommandMemory
  import opened Options

  predicate StartsWith(s: string, prefix: string) {
    |prefix| <= |s| && s[..|prefix|] == prefix
  }

  const PATH := "PATH="
  const MARK := "IS_2INE="

  // ----- A block as a list -------------------------------------------------------------

  ghost predicate AllClean(ss: seq<string>) {
    forall i :: 0 <= i < |ss| ==> Clean(ss[i])
  }

  // The text up to the terminator, and what comes after it.
  ghost function Front(t: string): string {
    if t == "" || t[0] == NUL then "" else [t[0]] + Front(t[1..])
  }

  ghost function Rest(t: string): string {
    if t == "" then "" else if t[0] == NUL then t[1..] else Rest(t[1..])
  }

  lemma {:induction false} RestShorter(t: string)
    requires t != ""
    ensures |Rest(t)| < |t|
  {
    if t[0] != NUL && t[1..] != "" {
      RestShorter(t[1..]);
    }
  }

  // The strings of a block; an empty one ends it.
  ghost function Entries(t: string): seq<string>
    decreases |t|
  {
    if t == "" || t[0] == NUL then []
    else
      RestShorter(t);
      [Front(t)] + Entries(Rest(t))
  }

  // The strings one after the other, and an empty one.
  ghost function Printed(ss: seq<string>): string {
    if ss == [] then [NUL] else ss[0] + [NUL] + Printed(ss[1..])
  }

  // Those in front of the first empty one.
  ghost function Kept(ss: seq<string>): seq<string> {
    if ss == [] || ss[0] == "" then [] else [ss[0]] + Kept(ss[1..])
  }

  lemma {:induction false} FrontRest(s: string, rest: string)
    requires Clean(s)
    ensures Front(s + [NUL] + rest) == s && Rest(s + [NUL] + rest) == rest
  {
    if s == "" {
      assert s + [NUL] + rest == [NUL] + rest;
    } else {
      assert (s + [NUL] + rest)[1..] == s[1..] + [NUL] + rest;
      FrontRest(s[1..], rest);
      assert s == [s[0]] + s[1..];
    }
  }

  // A printed block reads back as the list, up to its first empty string.
  lemma {:induction false} EntriesPrinted(ss: seq<string>, tail: string)
    requires AllClean(ss)
    ensures Entries(Printed(ss) + tail) == Kept(ss)
  {
    if ss != [] {
      assert Printed(ss) + tail == ss[0] + [NUL] + (Printed(ss[1..]) + tail);
      FrontRest(ss[0], Printed(ss[1..]) + tail);
      if ss[0] != "" {
        assert (Printed(ss) + tail)[0] == ss[0][0];
        EntriesPrinted(ss[1..], tail);
      }
    }
  }

  // So an environment survives if and only if it has no empty string.
  lemma {:induction false} KeptIff(ss: seq<string>)
    ensures |Kept(ss)| <= |ss|
    ensures Kept(ss) == ss <==> forall i :: 0 <= i < |ss| ==> ss[i] != ""
  {
    if ss != [] && ss[0] != "" {
      KeptIff(ss[1..]);
      assert Kept(ss)[1..] == Kept(ss[1..]);
      assert ss == [ss[0]] + ss[1..];
      assert forall i :: 0 < i < |ss| ==> ss[i] == ss[1..][i - 1];
    }
  }

  lemma EnvironmentRoundTripIff(ss: seq<string>, tail: string)
    requires AllClean(ss)
    ensures Entries(Printed(ss) + tail) == ss <==> forall i :: 0 <= i < |ss| ==> ss[i] != ""
  {
    EntriesPrinted(ss, tail);
    KeptIff(ss);
  }

  // ----- From one process to the next -------------------------------------------------------

  // What a program is given of the host's environment: its own search path unless the
  // program was started by another one, and without the mark of such a start.
  ghost function Given(host: seq<string>, path: string, subprocess: bool): seq<string> {
    if host == [] then [] else GivenFor(host[0], path, subprocess) + Given(host[1..], path, subprocess)
  }

  ghost function GivenFor(s: string, path: string, subprocess: bool): seq<string> {
    if StartsWith(s, PATH) then [if subprocess then s else path] else if StartsWith(s, MARK) then [] else [s]
  }

  // What a program gives to one that it starts.
  ghost function Passed(ss: seq<string>, exe: string): seq<string> {
    if ss == [] then [] else ss + [MARK + exe]
  }

  // The strings in question by their letters.
  lemma GivenIs(s: string, path: string, subprocess: bool)
    ensures |s| >= 5 && s[..5] == "PATH=" ==> Given([s], path, subprocess) == [if subprocess then s else path]
    ensures |s| >= 8 && s[..8] == "IS_2INE=" ==> Given([s], path, subprocess) == []
    ensures !(|s| >= 5 && s[..5] == "PATH=") && !(|s| >= 8 && s[..8] == "IS_2INE=") ==>
      Given([s], path, subprocess) == [s]
  {
    assert |s| >= 8 && s[..8] == "IS_2INE=" ==> s[0] == 'I';
    assert |s| >= 5 && s[..5] == "PATH=" ==> s[0] == 'P';
    assert Given([s], path, subprocess) == GivenFor(s, path, subprocess) + Given([s][1..], path, subprocess);
  }

  lemma PassedIs(ss: seq<string>, exe: string)
    requires ss != []
    ensures Passed(ss, exe) == ss + ["IS_2INE=" + exe]
  {}

  ghost function Marks(ss: seq<string>): nat {
    if ss == [] then 0 else (if StartsWith(ss[0], MARK) then 1 else 0) + Marks(ss[1..])
  }

  lemma {:induction false} MarksConcat(a: seq<string>, b: seq<string>)
    ensures Marks(a + b) == Marks(a) + Marks(b)
  {
    if a == [] {
      assert a + b == b;
    } else {
      assert (a + b)[1..] == a[1..] + b;
      MarksConcat(a[1..], b);
    }
  }

  lemma {:induction false} GivenUnmarked(host: seq<string>, path: string, subprocess: bool)
    requires !StartsWith(path, MARK)
    ensures Marks(Given(host, path, subprocess)) == 0
  {
    if host != [] {
      GivenUnmarked(host[1..], path, subprocess);
      MarksConcat(GivenFor(host[0], path, subprocess), Given(host[1..], path, subprocess));
      if StartsWith(host[0], PATH) {
        assert host[0][0] == 'P';
      }
    }
  }

  lemma {:induction false} KeptUnmarked(ss: seq<string>)
    requires Marks(ss) == 0
    ensures Marks(Kept(ss)) == 0
  {
    if ss != [] && ss[0] != "" {
      KeptUnmarked(ss[1..]);
      assert Kept(ss)[1..] == Kept(ss[1..]);
    }
  }

  // However many programs started one another, the next one finds exactly one mark, its
  // own; except when the environment is empty, and then it finds none.
  lemma OneMark(host: seq<string>, path: string, subprocess: bool, exe: string)
    requires !StartsWith(path, MARK)
    ensures var ss := Kept(Given(host, path, subprocess)); Marks(Passed(ss, exe)) == if ss == [] then 0 else 1
  {
    var ss := Kept(Given(host, path, subprocess));
    GivenUnmarked(host, path, subprocess);
    KeptUnmarked(Given(host, path, subprocess));
    MarksConcat(ss, [MARK + exe]);
    assert [MARK + exe][1..] == [];
    assert (MARK + exe)[..|MARK|] == MARK;
  }

  // ----- Printing ------------------------------------------------------------------------------

  lemma PrintedConcat(a: seq<string>, s: string, b: seq<string>)
    ensures Printed([s] + b) == s + [NUL] + Printed(b)
    ensures [] + b == b
  {
    assert ([s] + b)[1..] == b;
  }

  // ----- Reading a block ------------------------------------------------------------------------

  // Every string of the block, the empty one at its end included, is terminated.
  ghost predicate Ended(t: string)
    decreases |t|
  {
    t != "" && (t[0] == NUL || (RestShorter(t); Ended(Rest(t))))
  }

  // The string at `at`, and where the next one starts.
  method ReadString(t: string, at: nat) returns (s: string, next: nat)
    requires at < |t| && Ended(t[at..]) && t[at] != NUL
    ensures s == Front(t[at..]) && at < next < |t| && t[next..] == Rest(t[at..]) && Ended(t[next..])
    ensures Entries(t[at..]) == [s] + Entries(t[next..])
  {
    hide *;
    next := at;
    EndedStep(t[at..]);
    assert t[at..][0] == t[at];
    assert t[at..at] == "" && "" + Front(t[at..]) == Front(t[at..]);
    while next < |t| && t[next] != NUL
      invariant at <= next <= |t| && Rest(t[next..]) == Rest(t[at..])
      invariant t[at..next] + Front(t[next..]) == Front(t[at..])
    {
      StringAt(t, at, next);
      next := next + 1;
    }
    StringAt(t, at, next);
    s := t[at..next];
    next := next + 1;
  }

  lemma StringAt(t: string, at: nat, to: nat)
    requires at <= to <= |t|
    ensures to < |t| && t[to] != NUL ==> Rest(t[to..]) == Rest(t[to + 1..])
    ensures to < |t| && t[to] != NUL ==> t[at..to] + Front(t[to..]) == t[at..to + 1] + Front(t[to + 1..])
    ensures to < |t| && t[to] == NUL ==> Rest(t[to..]) == t[to + 1..] && t[at..to] + Front(t[to..]) == t[at..to]
    ensures to == |t| ==> Rest(t[to..]) == ""
  {
    if to < |t| {
      assert t[to..][1..] == t[to + 1..] && t[to..][0] == t[to];
      assert t[at..to + 1] == t[at..to] + [t[to]];
    }
  }

  lemma EndedStep(t: string)
    requires Ended(t)
    ensures t != "" && (t[0] != NUL ==> Rest(t) != "" && Ended(Rest(t)) && Entries(t) == [Front(t)] + Entries(Rest(t)))
    ensures t[0] == NUL ==> Entries(t) == []
  {
    hide Front;
  }

  // A variable is its name, an equals sign and its value.
  predicate Names(e: string, name: string) {
    |name| < |e| && e[..|name|] == name && e[|name|] == '='
  }

  ghost function Value(ss: seq<string>, name: string): Option<string> {
    if ss == [] then None else if Names(ss[0], name) then Some(ss[0][|name| + 1..]) else Value(ss[1..], name)
  }

  lemma NamesIs(s: string, name: string)
    ensures Names(s, name) <==> |s| > |name| && s[..|name| + 1] == name + "="
  {
    if |s| > |name| {
      assert s[..|name| + 1] == s[..|name|] + [s[|name|]];
    }
  }

  // The first string that begins with the name and an equals sign counts.
  lemma {:induction false} ValueIs(before: seq<string>, name: string, value: string, after: seq<string>)
    requires forall s :: s in before ==> !(|s| > |name| && s[..|name| + 1] == name + "=")
    ensures Value(before + [name + "=" + value] + after, name) == Some(value)
    decreases |before|
  {
    var e := name + "=" + value;
    var ss := before + [e] + after;
    if before == [] {
      assert ss[0] == e && e[..|name|] == name && e[|name| + 1..] == value;
    } else {
      var s := before[0];
      assert s in before;
      NamesIs(s, name);
      assert ss[1..] == before[1..] + [e] + after && ss[0] == s;
      ValueIs(before[1..], name, value, after);
    }
  }

  // DosScanEnv: the place in the block of the variable's value.
  method ScanEnv(t: string, name: string) returns (r: Option<nat>)
    requires Ended(t) && Clean(name)
    ensures r == None <==> Value(Entries(t), name) == None
    ensures r.Some? ==> r.value <= |t| && Value(Entries(t), name) == Some(Front(t[r.value..]))
  {
    var at := 0;
    assert t[0..] == t;
    while t[at] != NUL
      invariant at < |t| && Ended(t[at..]) && Value(Entries(t[at..]), name) == Value(Entries(t), name)
      decreases |t| - at
    {
      var s, next := ReadString(t, at);
      assert Entries(t[at..])[1..] == Entries(t[next..]);
      if Names(s, name) {
        Inside(t[at..], |name| + 1);
        assert t[at..][|name| + 1..] == t[at + |name| + 1..];
        return Some(at + |name| + 1);
      }
      at := next;
    }
    r := None;
  }

  // The end of a string in the block is a string there, too.
  lemma {:induction false} Inside(t: string, k: nat)
    requires k <= |Front(t)|
    ensures k <= |t| && Front(t[k..]) == Front(t)[k..]
  {
    if k == 0 {
      assert t[0..] == t;
    } else {
      Inside(t[1..], k - 1);
      assert t[1..][k - 1..] == t[k..];
    }
  }

  // ----- Splitting a block ------------------------------------------------------------------------

  // calcEnvp: the strings of the block and the mark of the program that is started, in one
  // block of memory sized in a first pass.
  method CalcEnvp(t: string, exe: string, room: bool) returns (b: CommandMemory.Block?)
    requires Ended(t)
    ensures b == null <==> !room
    ensures b != null ==> fresh(b) && b.Has(Passed(Entries(t), exe)) && b.idx < b.slots.Length && b.slots[b.idx] == -1
  {
    b := null;
    if !room {
      return;
    }
    if t[0] == NUL {
      b := new CommandMemory.Block(1, 0);
      b.slots[0] := -1;
      return;
    }
    var n, len := Measure(t);
    b := new CommandMemory.Block(n + 2, len + |exe| + 16);
    CopyStrings(b, t, n, len);
    Last(Entries(t), exe);
    b.Push(MARK + exe, Entries(t));
    b.chars[b.dst] := NUL;
    b.slots[b.idx] := -1;
  }

  lemma Last(ss: seq<string>, exe: string)
    requires ss != []
    ensures Passed(ss, exe) == ss + [MARK + exe] && |Flat(ss + [MARK + exe])| == |Flat(ss)| + |exe| + 9
  {
    FlatMore(ss, MARK + exe);
  }

  // The first pass: how many strings, and how many characters with their terminators.
  method Measure(t: string) returns (n: nat, len: nat)
    requires Ended(t)
    ensures n == |Entries(t)| && len == |Flat(Entries(t))|
  {
    n, len := 0, 0;
    var at := 0;
    assert t[0..] == t;
    while t[at] != NUL
      invariant at < |t| && Ended(t[at..])
      invariant n + |Entries(t[at..])| == |Entries(t)| && len + |Flat(Entries(t[at..]))| == |Flat(Entries(t))|
      decreases |t| - at
    {
      var s, next := ReadString(t, at);
      FlatCons(s, Entries(t[next..]));
      n, len, at := n + 1, len + |s| + 1, next;
    }
    assert Entries(t[at..]) == [];
  }

  // The second pass.
  method CopyStrings(b: CommandMemory.Block, t: string, n: nat, len: nat)
    requires Ended(t) && b.Has([]) && n == |Entries(t)| && len == |Flat(Entries(t))|
    requires b.slots.Length >= n && b.chars.Length >= len
    modifies b, b.slots, b.chars
    ensures b.Has(Entries(t))
  {
    ghost var done: seq<string> := [];
    var at := 0;
    assert t[0..] == t && done + Entries(t) == Entries(t);
    Sizes(done, "", Entries(t));
    hide *;
    while t[at] != NUL
      invariant at < |t| && Ended(t[at..]) && b.Has(done) && done + Entries(t[at..]) == Entries(t)
      invariant |Flat(done)| + |Flat(Entries(t[at..]))| == len && |done| + |Entries(t[at..])| == n
      decreases |t| - at
    {
      var s, next := ReadString(t, at);
      Sizes(done, s, Entries(t[next..]));
      Sized(b, done);
      b.Push(s, done);
      at, done := next, done + [s];
    }
    EndedStep(t[at..]);
    assert t[at..][0] == t[at] && done + [] == done;
  }

  lemma Sizes(done: seq<string>, s: string, rest: seq<string>)
    ensures |Flat(done + [s])| == |Flat(done)| + |s| + 1 && |Flat([s] + rest)| == |s| + 1 + |Flat(rest)|
    ensures (done + [s]) + rest == done + ([s] + rest) && |Flat([])| == 0
  {
    FlatCons(s, rest);
    FlatMore(done, s);
  }

  lemma Sized(b: CommandMemory.Block, ts: seq<string>)
    requires b.Has(ts)
    ensures b.idx == |ts| && b.dst == |Flat(ts)|
  {}
}
