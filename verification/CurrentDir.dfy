/**
  The current directories of the drives (native/doscalls.c).  `Strip` is the code
  that normalises a path in place; `PathText.Walk` says what it is to compute.
 */
module CurrentDir {
  import opened PathText
  import opened CText

  ghost predicate EndsSlash(s: string) {
    s != "" && s[|s| - 1] == SLASH
  }

  // What is left of a path: the components a walk from the root ends with, and a
  // backslash after them if the path had one.
  ghost function Stripped(s: string): string {
    var dir := Walk([], Split(s));
    Join(dir) + if dir != [] && EndsSlash(s) then [SLASH] else ""
  }

  // The components of a directory, each with a backslash after it.
  ghost function Prefix(dir: seq<string>): string {
    if dir == [] then "" else Prefix(dir[..|dir| - 1]) + dir[|dir| - 1] + [SLASH]
  }

  lemma {:induction false} PrefixJoin(dir: seq<string>)
    requires dir != []
    ensures Prefix(dir) == Join(dir) + [SLASH]
  {
    var n := |dir| - 1;
    if n > 0 {
      PrefixJoin(dir[..n]);
    } else {
      assert Prefix(dir[..0]) == "";
    }
  }

  // No empty component except possibly the last one.
  ghost predicate Single(s: string) {
    (s != "" ==> s[0] != SLASH) && NoDouble(s)
  }

  // ----- Doubled and leading backslashes ------------------------------------------

  method Collapse(buf: array<char>, ghost s0: string) returns (ghost s: string)
    requires Text(buf[..], s0) && Clean(s0)
    modifies buf
    ensures Text(buf[..], s) && Clean(s)
    ensures NoDouble(s)
    ensures Walk([], Split(s)) == Walk([], Split(s0)) && EndsSlash(s) == EndsSlash(s0)
  {
    s := s0;
    var ptr := StrTwice(buf, 0, SLASH, s);
    while ptr != -1
      invariant Text(buf[..], s) && Clean(s)
      invariant Walk([], Split(s)) == Walk([], Split(s0)) && EndsSlash(s) == EndsSlash(s0)
      invariant ptr == -1 ==> forall i {:trigger s[i]} :: 0 <= i < |s| - 1 ==> !(s[i] == SLASH && s[i + 1] == SLASH)
      invariant ptr != -1 ==> 0 <= ptr < |s| - 1 && s[ptr] == SLASH && s[ptr + 1] == SLASH
      invariant ptr != -1 ==> forall i {:trigger s[i]} :: 0 <= i < ptr ==> !(s[i] == SLASH && s[i + 1] == SLASH)
      decreases |s|
    {
      CollapseOne(s, ptr);
      ghost var t := s[..ptr] + s[ptr + 1..];
      Cut(buf, ptr, ptr + 1, s);
      assert forall i {:trigger t[i]} :: 0 <= i < ptr ==> t[i] == s[i] && t[i + 1] == s[i + 1];
      s := t;
      var from := ptr;
      ptr := StrTwice(buf, from, SLASH, s);
    }
  }

  lemma CollapseOne(s: string, p: nat)
    requires p < |s| - 1 && s[p] == SLASH && s[p + 1] == SLASH && Clean(s)
    ensures var t := s[..p] + s[p + 1..];
      Walk([], Split(t)) == Walk([], Split(s)) && EndsSlash(t) == EndsSlash(s) && Clean(t)
    ensures Clean(s[p + 1..])
  {
    var a, b := s[..p], s[p + 2..];
    Doubled([], a, b);
    assert s == a + [SLASH] + ([SLASH] + b);
    assert s[..p] + s[p + 1..] == a + [SLASH] + b;
  }

  ghost predicate NoDouble(s: string) {
    forall i {:trigger s[i]} :: 0 <= i < |s| - 1 ==> !(s[i] == SLASH && s[i + 1] == SLASH)
  }

  lemma TrimOne(s: string)
    requires s != "" && s[0] == SLASH && NoDouble(s) && Clean(s)
    ensures Single(s[1..]) && Clean(s[1..]) && Stripped(s[1..]) == Stripped(s)
  {
    var t := s[1..];
    TrimStripped(s, t);
    assert forall i {:trigger t[i]} :: 0 <= i < |t| ==> t[i] == s[i + 1];
  }

  lemma TrimStripped(s: string, t: string)
    requires s == [SLASH] + t
    ensures Stripped(t) == Stripped(s)
  {
    Leading([], t);
    if t == "" {
      SplitNone("", 0);
      assert Walk([], [""]) == Walk(Enter([], ""), []);
    } else {
      assert t[|t| - 1] == s[|s| - 1];
    }
  }

  method TrimStart(buf: array<char>, ghost s0: string) returns (ghost s: string)
    requires Text(buf[..], s0) && Clean(s0) && NoDouble(s0)
    modifies buf
    ensures Text(buf[..], s) && Clean(s) && Single(s)
    ensures Stripped(s) == Stripped(s0)
  {
    hide Stripped;
    s := s0;
    TextAt(buf[..], s, 0);
    if buf[0] == SLASH {
      TrimOne(s0);
      s := s0[1..];
      assert s0[..0] + s0[1..] == s;
      Cut(buf, 0, 1, s0);
    }
  }

  // ----- Components -----------------------------------------------------------------

  // The loop's state: the components in `dir` are done, `rest` is to be looked at, and
  // what is left to compute is unchanged.
  ghost predicate Scanning(s: string, dir: seq<string>, rest: string, goal: string) {
    && s == Prefix(dir) + rest && Clean(s) && Single(rest) && AllNormal(dir)
    && goal == Finish(dir, rest)
  }

  ghost function Finish(dir: seq<string>, rest: string): string {
    var done := Walk(dir, Split(rest));
    Join(done) + if done != [] && (if rest == "" then dir != [] else EndsSlash(rest)) then [SLASH] else ""
  }

  // Looking back from the start of a component for the backslash before the previous one.
  method ScanBack(buf: array<char>, element: nat, ghost s: string, ghost q: nat, ghost last: string) returns (prev: nat)
    requires Text(buf[..], s) && Before(s, element, q, last)
    ensures prev == if q == 0 then 0 else q - 1
  {
    prev := element - 2;
    assert forall i :: q <= i < q + |last| ==> s[i] == last[i - q] && last[i - q] in last;
    TextAt(buf[..], s, prev);
    while prev != 0 && buf[prev] != SLASH
      invariant (if q == 0 then 0 else q - 1) <= prev <= element - 2
      decreases prev
    {
      TextAt(buf[..], s, prev);
      prev := prev - 1;
      TextAt(buf[..], s, prev);
    }
    TextAt(buf[..], s, prev);
  }

  lemma StoreCut(s: string, ptr: nat, to: nat, from: nat)
    requires to <= ptr < from <= |s|
    ensures s[ptr := NUL][..to] + s[ptr := NUL][from..] == s[..to] + s[from..]
  {}

  lemma FinishStep(dir: seq<string>, comp: string, tail: string)
    requires SLASH !in comp
    ensures Finish(Enter(dir, comp), tail) == Finish(dir, comp + [SLASH] + tail)
  {
    var rest := comp + [SLASH] + tail;
    SplitAppend(comp, tail);
    SplitNone(comp, 0);
    assert ([comp] + Split(tail))[1..] == Split(tail);
    assert Walk(dir, Split(rest)) == Walk(Enter(dir, comp), Split(tail));
    if tail == "" {
      SplitNone("", 0);
      assert Walk(Enter(dir, comp), [""]) == Walk(Enter(Enter(dir, comp), ""), []);
    }
  }

  lemma SingleTail(rest: string, p: nat)
    requires Single(rest) && p < |rest| && rest[p] == SLASH
    ensures p > 0 && Single(rest[p + 1..])
  {
    var tail := rest[p + 1..];
    assert forall i {:trigger tail[i]} :: 0 <= i < |tail| ==> tail[i] == rest[i + p + 1];
    assert p + 1 < |rest| ==> rest[p + 1] != SLASH;
  }

  // The first component of `rest` and what follows it.
  lemma FirstComponent(s: string, dir: seq<string>, rest: string, goal: string, ptr: nat, comp: string, tail: string)
    requires Scanning(s, dir, rest, goal)
    requires |Prefix(dir)| <= ptr < |s| && s[ptr] == SLASH && SLASH !in s[|Prefix(dir)|..ptr]
    requires comp == s[|Prefix(dir)|..ptr] && tail == s[ptr + 1..]
    ensures comp != "" && SLASH !in comp && Clean(comp) && Clean(tail) && Single(tail)
    ensures rest == comp + [SLASH] + tail
    ensures Finish(Enter(dir, comp), tail) == goal
  {
    hide Finish, AllNormal, Single, Prefix;
    var p := ptr - |Prefix(dir)|;
    assert rest == s[|Prefix(dir)|..];
    assert rest[..p] == comp && rest[p] == SLASH && rest[p + 1..] == tail;
    assert rest == comp + [SLASH] + tail;
    SingleTail(rest, p);
    FinishStep(dir, comp, tail);
  }

  // "." is dropped.
  lemma AfterDot(s: string, dir: seq<string>, rest: string, goal: string, ptr: nat, tail: string)
    requires Scanning(s, dir, rest, goal) && |Prefix(dir)| <= ptr < |s| && tail == s[ptr + 1..]
    requires Single(tail) && Finish(Enter(dir, "."), tail) == goal
    ensures Scanning(s[..|Prefix(dir)|] + s[ptr + 1..], dir, tail, goal)
  {
    hide Finish, Single;
  }

  lemma LastOf(dir: seq<string>, rest: string)
    requires dir != [] && AllNormal(dir)
    ensures var up, last, q := dir[..|dir| - 1], dir[|dir| - 1], |Prefix(dir[..|dir| - 1])|;
      var s := Prefix(dir) + rest;
      q + |last| + 1 == |Prefix(dir)| && s[q..q + |last|] == last && s[..q] == Prefix(up)
      && (q > 0 ==> q >= 2 && s[q - 1] == SLASH)
    ensures dir[|dir| - 1] != "" && SLASH !in dir[|dir| - 1]
  {
    var up, last := dir[..|dir| - 1], dir[|dir| - 1];
    assert last in dir;
    if up != [] {
      assert up[|up| - 1] == dir[|dir| - 2] && dir[|dir| - 2] in dir;
    }
  }

  // ".." takes the component before it along.
  lemma AfterDots(s: string, dir: seq<string>, rest: string, goal: string, ptr: nat, tail: string)
    requires Scanning(s, dir, rest, goal) && |Prefix(dir)| <= ptr < |s| && tail == s[ptr + 1..]
    requires Single(tail) && Finish(Enter(dir, ".."), tail) == goal
    ensures dir == [] ==> Scanning(s[..0] + s[ptr + 1..], dir, tail, goal)
    ensures dir != [] ==> |Prefix(dir[..|dir| - 1])| <= ptr
    ensures dir != [] ==> Scanning(s[..|Prefix(dir[..|dir| - 1])|] + s[ptr + 1..], dir[..|dir| - 1], tail, goal)
  {
    hide Finish, Single;
    if dir != [] {
      LastOf(dir, rest);
      assert AllNormal(dir[..|dir| - 1]);
    }
  }

  // Any other component stays.
  lemma AfterName(s: string, dir: seq<string>, rest: string, goal: string, ptr: nat, comp: string, tail: string)
    requires Scanning(s, dir, rest, goal) && rest == comp + [SLASH] + tail && ptr == |Prefix(dir)| + |comp|
    requires comp != "" && comp != "." && comp != ".." && SLASH !in comp
    requires Single(tail) && Finish(Enter(dir, comp), tail) == goal
    ensures Scanning(s, dir + [comp], tail, goal) && ptr + 1 == |Prefix(dir + [comp])|
  {
    hide Finish, Single;
    assert (dir + [comp])[..|dir|] == dir;
    assert Prefix(dir + [comp]) == Prefix(dir) + comp + [SLASH];
  }

  // A ".." component that ends at `ptr`, where the terminator has been stored: cut it out
  // together with the component before it, `last` at `q`.
  method Up(buf: array<char>, element: nat, ptr: nat, ghost s: string, ghost q: nat, ghost last: string)
      returns (prev: nat)
    requires Text(buf[..], s) && q <= element <= ptr < |s| && Clean(s[ptr + 1..])
    requires element == 0 || Before(s, element, q, last)
    modifies buf
    ensures prev == q && Text(buf[..], s[..q] + s[ptr + 1..])
  {
    prev := 0;
    if element != 0 {
      prev := ParentStart(buf, element, s, q, last);
    }
    Cut(buf, prev, ptr + 1, s);
  }

  // `last` is the component of `s` in front of `element`, and it starts at `q`.
  ghost predicate Before(s: string, element: nat, q: nat, last: string) {
    && element <= |s| && element == q + |last| + 1
    && last != "" && SLASH !in last && s[q..q + |last|] == last
    && (q > 0 ==> q >= 2 && s[q - 1] == SLASH)
  }

  method ParentStart(buf: array<char>, element: nat, ghost s: string, ghost q: nat, ghost last: string)
      returns (prev: nat)
    requires Text(buf[..], s) && Before(s, element, q, last)
    ensures prev == q
  {
    prev := ScanBack(buf, element, s, q, last);
    if prev != 0 {
      prev := prev + 1;
    }
  }

  lemma UpResult(s: string, dir: seq<string>, rest: string, goal: string, ptr: nat, tail: string)
    requires Scanning(s, dir, rest, goal) && |Prefix(dir)| <= ptr < |s| && tail == s[ptr + 1..]
    requires Single(tail) && Finish(Enter(dir, ".."), tail) == goal
    ensures s[ptr := NUL][ptr + 1..] == tail && |Prefix(Parent(dir))| <= ptr
    ensures Scanning(s[ptr := NUL][..|Prefix(Parent(dir))|] + s[ptr := NUL][ptr + 1..], Parent(dir), tail, goal)
  {
    AfterDots(s, dir, rest, goal, ptr, tail);
    StoreCut(s, ptr, |Prefix(Parent(dir))|, ptr + 1);
  }

  ghost function Parent(dir: seq<string>): seq<string> {
    if dir == [] then [] else dir[..|dir| - 1]
  }

  ghost function Last(dir: seq<string>): string {
    if dir == [] then "" else dir[|dir| - 1]
  }

  lemma UpStart(s: string, dir: seq<string>, rest: string, goal: string, ptr: nat)
    requires Scanning(s, dir, rest, goal) && |Prefix(dir)| <= ptr < |s|
    ensures |Prefix(Parent(dir))| <= |Prefix(dir)|
    ensures |Prefix(dir)| == 0 || Before(s[ptr := NUL], |Prefix(dir)|, |Prefix(Parent(dir))|, Last(dir))
  {
    if dir != [] {
      LastOf(dir, rest);
      var last, q := Last(dir), |Prefix(Parent(dir))|;
      assert s[ptr := NUL][q..q + |last|] == s[q..q + |last|];
    }
  }

  // A "." component, with the terminator stored behind it.
  method Dot(buf: array<char>, element: nat, ptr: nat, ghost s: string, ghost dir: seq<string>,
      ghost rest: string, ghost goal: string, ghost tail: string)
      returns (ghost s': string)
    requires ptr < |s| && Text(buf[..], s[ptr := NUL]) && Scanning(s, dir, rest, goal)
    requires element == |Prefix(dir)| <= ptr && tail == s[ptr := NUL][ptr + 1..] == s[ptr + 1..]
    requires Single(tail) && Clean(tail) && Finish(Enter(dir, "."), tail) == goal
    modifies buf
    ensures Text(buf[..], s') && Scanning(s', dir, tail, goal)
  {
    hide *;
    ghost var s1 := s[ptr := NUL];
    DotResult(s, dir, rest, goal, ptr, tail);
    Cut(buf, element, ptr + 1, s1);
    s' := s1[..element] + s1[ptr + 1..];
  }

  // A ".." component.
  method Dots(buf: array<char>, element: nat, ptr: nat, ghost s: string, ghost dir: seq<string>,
      ghost rest: string, ghost goal: string, ghost tail: string)
      returns (element': nat, ghost s': string)
    requires ptr < |s| && Text(buf[..], s[ptr := NUL]) && Scanning(s, dir, rest, goal)
    requires element == |Prefix(dir)| <= ptr && tail == s[ptr := NUL][ptr + 1..] == s[ptr + 1..]
    requires Single(tail) && Clean(tail) && Finish(Enter(dir, ".."), tail) == goal
    modifies buf
    ensures Text(buf[..], s') && Scanning(s', Parent(dir), tail, goal) && element' == |Prefix(Parent(dir))|
  {
    hide *;
    ghost var s1 := s[ptr := NUL];
    UpStart(s, dir, rest, goal, ptr);
    UpResult(s, dir, rest, goal, ptr, tail);
    element' := Up(buf, element, ptr, s1, |Prefix(Parent(dir))|, Last(dir));
    s' := s1[..element'] + s1[ptr + 1..];
  }

  // One turn of the loop, with a backslash found at `ptr`.
  method Element(buf: array<char>, element: nat, ptr: nat, ghost s: string, ghost dir: seq<string>,
      ghost rest: string, ghost goal: string)
      returns (element': nat, ghost s': string, ghost dir': seq<string>, ghost rest': string)
    requires Text(buf[..], s) && Scanning(s, dir, rest, goal) && element == |Prefix(dir)|
    requires element <= ptr < |s| && s[ptr] == SLASH && SLASH !in s[element..ptr]
    modifies buf
    ensures Text(buf[..], s') && Scanning(s', dir', rest', goal) && element' == |Prefix(dir')|
    ensures |rest'| < |rest|
  {
    assert Clean(".") && Clean("..");
    hide *;
    ghost var comp, tail := s[element..ptr], s[ptr + 1..];
    FirstComponent(s, dir, rest, goal, ptr, comp, tail);
    ghost var s1 := s[ptr := NUL];
    Stored(s, element, ptr);
    Store(buf, ptr, NUL, s);
    rest' := tail;
    var dot := Equals(buf, element, ".", s1, ptr);
    if dot {
      element', dir' := element, dir;
      s' := Dot(buf, element, ptr, s, dir, rest, goal, tail);
      return;
    }
    var dots := Equals(buf, element, "..", s1, ptr);
    if dots {
      dir' := Parent(dir);
      element', s' := Dots(buf, element, ptr, s, dir, rest, goal, tail);
      return;
    }
    Store(buf, ptr, SLASH, s1);
    AfterName(s, dir, rest, goal, ptr, comp, tail);
    element', s', dir' := ptr + 1, s, dir + [comp];
  }

  lemma Stored(s: string, element: nat, ptr: nat)
    requires element <= ptr < |s|
    ensures var s1 := s[ptr := NUL];
      s1[element..ptr] == s[element..ptr] && s1[ptr + 1..] == s[ptr + 1..] && s1[ptr := s[ptr]] == s
  {}

  lemma DotResult(s: string, dir: seq<string>, rest: string, goal: string, ptr: nat, tail: string)
    requires Scanning(s, dir, rest, goal) && |Prefix(dir)| <= ptr < |s| && tail == s[ptr + 1..]
    requires Single(tail) && Finish(Enter(dir, "."), tail) == goal
    ensures Scanning(s[ptr := NUL][..|Prefix(dir)|] + s[ptr := NUL][ptr + 1..], dir, tail, goal)
  {
    AfterDot(s, dir, rest, goal, ptr, tail);
    StoreCut(s, ptr, |Prefix(dir)|, ptr + 1);
  }

  // ----- The last component -----------------------------------------------------------

  lemma FinishLast(dir: seq<string>, rest: string)
    requires SLASH !in rest
    ensures Finish(dir, rest) == Join(Enter(dir, rest)) + if rest == "" && dir != [] then [SLASH] else ""
  {
    SplitNone(rest, 0);
    assert Walk(dir, [rest]) == Walk(Enter(dir, rest), []);
    if rest != "" {
      assert rest[|rest| - 1] in rest;
    }
  }

  // A directory's text is its prefix without the last backslash.
  lemma JoinIsCut(dir: seq<string>)
    ensures dir == [] <==> |Prefix(dir)| == 0
    ensures Join(dir) == Prefix(dir)[..if dir == [] then 0 else |Prefix(dir)| - 1]
  {
    if dir != [] {
      PrefixJoin(dir);
    }
  }

  lemma JoinLast(dir: seq<string>, c: string)
    ensures Join(dir + [c]) == Prefix(dir) + c
  {
    assert (dir + [c])[..|dir|] == dir;
    if dir != [] {
      PrefixJoin(dir);
    }
  }

  lemma ParentPrefix(dir: seq<string>)
    ensures Prefix(Parent(dir)) <= Prefix(dir)
  {}

  lemma CutInside(p: string, q: string, rest: string, n: nat)
    requires p <= q && n <= |p|
    ensures (q + rest)[..n] == p[..n]
  {}

  // What is left to do once no backslash follows.
  lemma LastComponent(s: string, dir: seq<string>, rest: string, goal: string)
    requires Scanning(s, dir, rest, goal) && SLASH !in rest
    ensures |Prefix(dir)| <= |s| && s[|Prefix(dir)|..] == rest
    ensures rest == "." ==> goal == s[..if dir == [] then 0 else |Prefix(dir)| - 1]
    ensures rest == ".." ==> |Prefix(Parent(dir))| <= |s|
    ensures rest == ".." ==> goal == s[..if Parent(dir) == [] then 0 else |Prefix(Parent(dir))| - 1]
    ensures rest != "." && rest != ".." ==> goal == s
    ensures Clean(goal)
  {
    FinishLast(dir, rest);
    var up := Parent(dir);
    ParentPrefix(dir);
    JoinIsCut(dir);
    JoinIsCut(up);
    hide Finish, Single, AllNormal, Prefix, Join;
    if rest == "." {
      CutInside(Prefix(dir), Prefix(dir), rest, if dir == [] then 0 else |Prefix(dir)| - 1);
    } else if rest == ".." {
      CutInside(Prefix(up), Prefix(dir), rest, if up == [] then 0 else |Prefix(up)| - 1);
    } else if rest == "" {
      LastEmpty(dir);
    } else {
      JoinLast(dir, rest);
    }
  }

  lemma LastEmpty(dir: seq<string>)
    ensures Join(dir) + (if dir != [] then [SLASH] else "") == Prefix(dir) + ""
  {
    if dir != [] {
      PrefixJoin(dir);
    }
  }

  method LastElement(buf: array<char>, element: nat, ghost s: string, ghost dir: seq<string>, ghost rest: string,
      ghost goal: string)
    requires Text(buf[..], s) && Scanning(s, dir, rest, goal) && element == |Prefix(dir)|
    requires SLASH !in rest
    modifies buf
    ensures Text(buf[..], goal) && Clean(goal)
  {
    assert Clean(".") && Clean("..");
    hide *;
    LastComponent(s, dir, rest, goal);
    LastStart(s, dir, rest, goal);
    var dot := Equals(buf, element, ".", s, |s|);
    if dot {
      var end := element;
      if end != 0 {
        end := end - 1;
      }
      Truncate(buf, end, s);
      return;
    }
    var dots := Equals(buf, element, "..", s, |s|);
    if dots {
      LastDots(buf, element, s, dir, rest, goal);
    }
  }

  method LastDots(buf: array<char>, element: nat, ghost s: string, ghost dir: seq<string>, ghost rest: string,
      ghost goal: string)
    requires Text(buf[..], s) && Scanning(s, dir, rest, goal) && element == |Prefix(dir)| && rest == ".."
    modifies buf
    ensures Text(buf[..], goal)
  {
    assert SLASH !in "..";
    hide *;
    LastComponent(s, dir, rest, goal);
    LastStart(s, dir, rest, goal);
    var end := 0;
    if element != 0 {
      end := ScanBack(buf, element, s, |Prefix(Parent(dir))|, Last(dir));
    }
    Truncate(buf, end, s);
  }

  lemma LastStart(s: string, dir: seq<string>, rest: string, goal: string)
    requires Scanning(s, dir, rest, goal)
    ensures |Prefix(dir)| <= |s| && Clean(s[|Prefix(dir)|..]) && s[|Prefix(dir)|..|s|] == s[|Prefix(dir)|..]
    ensures |Prefix(dir)| == 0 <==> dir == []
    ensures |Prefix(Parent(dir))| == 0 <==> Parent(dir) == []
    ensures |Prefix(dir)| == 0 || Before(s, |Prefix(dir)|, |Prefix(Parent(dir))|, Last(dir))
  {
    if dir != [] {
      LastOf(dir, rest);
    }
  }

  // The whole in-place normaliser: double backslashes, a leading backslash, then
  // component by component.
  method Strip(buf: array<char>, ghost s0: string)
    requires Text(buf[..], s0) && Clean(s0)
    modifies buf
    ensures Text(buf[..], Stripped(s0)) && Clean(Stripped(s0))
  {
    ghost var s := Collapse(buf, s0);
    s := TrimStart(buf, s);
    ghost var goal, dir, rest := Stripped(s0), [], s;
    assert Scanning(s, dir, rest, goal);
    hide *;
    var element := 0;
    var ptr := StrChr(buf, 0, SLASH, s);
    while ptr != -1
      invariant Text(buf[..], s) && Scanning(s, dir, rest, goal) && element == |Prefix(dir)| <= |s|
      invariant ptr != -1 ==> element <= ptr < |s| && s[ptr] == SLASH && SLASH !in s[element..ptr]
      invariant ptr == -1 ==> SLASH !in s[element..]
      decreases |rest|
    {
      element, s, dir, rest := Element(buf, element, ptr, s, dir, rest, goal);
      ScanningFacts(s, dir, rest, goal);
      ptr := StrChr(buf, element, SLASH, s);
    }
    ScanningFacts(s, dir, rest, goal);
    LastElement(buf, element, s, dir, rest, goal);
  }

  lemma ScanningFacts(s: string, dir: seq<string>, rest: string, goal: string)
    requires Scanning(s, dir, rest, goal)
    ensures |Prefix(dir)| <= |s| && Clean(s) && s[|Prefix(dir)|..] == rest
  {}

  // ----- What a stored directory looks like --------------------------------------------

  ghost predicate Canonical(s: string) {
    exists cs :: AllNormal(cs) && s == Join(cs)
  }

  ghost function Components(s: string): seq<string> {
    Walk([], Split(s))
  }

  lemma JoinEnd(cs: seq<string>)
    requires AllNormal(cs)
    ensures !EndsSlash(Join(cs))
    ensures cs != [] ==> Join(cs) != ""
  {
    if cs != [] {
      var c := cs[|cs| - 1];
      assert c in cs;
      assert c[|c| - 1] in c;
      var j := Join(cs);
      assert j[|j| - 1] == c[|c| - 1];
    }
  }

  lemma CanonicalComponents(s: string)
    requires Canonical(s)
    ensures AllNormal(Components(s)) && s == Join(Components(s))
    ensures s == "" <==> Components(s) == []
  {
    var cs :| AllNormal(cs) && s == Join(cs);
    JoinEnd(cs);
    if cs == [] {
      SplitNone("", 0);
      assert Walk([], [""]) == Walk(Enter([], ""), []);
    } else {
      SplitJoin(cs);
      WalkSelf([], cs);
      assert [] + cs == cs;
    }
  }

  lemma ComponentsNormal(s: string)
    ensures AllNormal(Components(s))
  {
    SplitPieces(s, 0);
    WalkNormal([], Split(s));
  }

  // Exactly a path that ends in a backslash and leads somewhere is left uncanonical.
  lemma StrippedCanonical(s: string)
    ensures Canonical(Stripped(s)) <==> !(EndsSlash(s) && Components(s) != [])
  {
    ComponentsNormal(s);
    if EndsSlash(s) && Components(s) != [] {
      if Canonical(Stripped(s)) {
        var cs :| AllNormal(cs) && Stripped(s) == Join(cs);
        JoinEnd(cs);
        assert false;
      }
    } else {
      assert Stripped(s) == Join(Components(s));
    }
  }

  // ----- DosSetCurrentDir ------------------------------------------------------------------

  const NO_ERROR := 0
  const ERROR_PATH_NOT_FOUND := 3
  const ERROR_NOT_ENOUGH_MEMORY := 8
  const DRIVES := 26

  function Upper(c: char): char {
    if 'a' <= c <= 'z' then (c as int - 32) as char else c
  }

  predicate HasDrive(name: string) {
    |name| >= 2 && 'A' <= Upper(name[0]) <= 'Z' && name[1] == ':'
  }

  // The name without its drive prefix.
  function Bare(name: string): string {
    if HasDrive(name) then name[2..] else name
  }

  // The path that is normalised: absolute names ignore the old directory.
  function Combined(dir: string, bare: string): string {
    if bare != "" && bare[0] == SLASH then bare
    else dir + (if dir != "" then [SLASH] else "") + bare
  }

  predicate Acceptable(name: string) {
    name == [SLASH] || name == "" || name[|name| - 1] != SLASH
  }

  ghost predicate Absolute(bare: string) {
    bare != "" && bare[0] == SLASH
  }

  // The stored directory is canonical whatever the old one was, exactly unless the name was a
  // bare drive and the old directory led somewhere.
  lemma ChdirCanonical(name: string, dir: string)
    requires name != "" && Acceptable(name)
    ensures Canonical(Stripped(Combined(dir, Bare(name)))) <==> (Bare(name) != "" || Components(dir) == [])
  {
    StrippedCanonical(Combined(dir, Bare(name)));
    CombinedEnd(name, dir);
    ChdirWalks(name, dir);
    if Bare(name) == "" {
      SplitNone("", 0);
      assert Walk(Components(dir), [""]) == Walk(Enter(Components(dir), ""), []);
    } else if Bare(name) == [SLASH] {
      SplitNone("", 0);
      Leading([], "");
      assert [SLASH] + "" == [SLASH];
      assert Walk([], [""]) == Walk(Enter([], ""), []);
    }
    hide Stripped, Canonical, Combined, Split;
  }

  // The path that is normalised ends in a backslash for a bare drive and for the root only.
  lemma CombinedEnd(name: string, dir: string)
    requires name != "" && Acceptable(name)
    ensures EndsSlash(Combined(dir, Bare(name))) <==> if Bare(name) == "" then dir != "" else Bare(name) == [SLASH]
    ensures Components("") == []
  {
    var bare := Bare(name);
    var path := Combined(dir, bare);
    SplitNone("", 0);
    assert Walk([], [""]) == Walk(Enter([], ""), []);
    if bare != "" {
      assert bare[|bare| - 1] == name[|name| - 1];
      assert path[|path| - 1] == bare[|bare| - 1];
    }
  }

  // A relative name is walked from the old directory, an absolute one from the root.
  lemma ChdirWalks(name: string, dir: string)
    ensures var bare := Bare(name);
      Components(Combined(dir, bare)) == Walk(if Absolute(bare) then [] else Components(dir), Split(bare))
  {
    var bare := Bare(name);
    if !Absolute(bare) {
      if dir == "" {
        SplitNone("", 0);
        assert Walk([], [""]) == Walk(Enter([], ""), []);
        assert Combined(dir, bare) == bare;
      } else {
        SplitAppend(dir, bare);
        WalkAppend([], Split(dir), Split(bare));
      }
    }
  }

  // ----- Any number of changes ---------------------------------------------------------------

  lemma StrippedComponents(s: string)
    ensures Components(Stripped(s)) == Components(s)
  {
    var cs := Components(s);
    ComponentsNormal(s);
    assert Stripped(s) == Join(cs) + if cs != [] && EndsSlash(s) then [SLASH] else "";
    WalkEmpty(cs);
    WalkEmpty([]);
    assert Join(cs) + "" == Join(cs);
    if cs != [] {
      hide Stripped, EndsSlash, Walk;
      SplitJoin(cs);
      WalkSelf([], cs);
      assert [] + cs == cs;
      SplitAppend(Join(cs), "");
      assert Join(cs) + [SLASH] + "" == Join(cs) + [SLASH];
      WalkAppend([], cs, Split(""));
    }
  }

  lemma WalkEmpty(dir: seq<string>)
    ensures Walk(dir, Split("")) == dir
  {
    SplitNone("", 0);
    assert Walk(dir, [""]) == Walk(Enter(dir, ""), []);
  }

  ghost predicate AllAcceptable(names: seq<string>) {
    forall name :: name in names ==> name != "" && Acceptable(name)
  }

  // The directory of a drive after changes to it.
  ghost function Chdirs(dir: string, names: seq<string>): string {
    if names == [] then dir
    else
      var n := |names| - 1;
      Stripped(Combined(Chdirs(dir, names[..n]), Bare(names[n])))
  }

  // Where they lead.
  ghost function Place(dir: seq<string>, names: seq<string>): seq<string> {
    if names == [] then dir
    else
      var n := |names| - 1;
      var bare := Bare(names[n]);
      Walk(if Absolute(bare) then [] else Place(dir, names[..n]), Split(bare))
  }

  // After any changes from any directory, the stored one is where they lead, with a backslash
  // behind it exactly if the last one was a bare drive and that is not the root.
  lemma {:induction false} ChdirsAre(dir: string, names: seq<string>)
    requires AllAcceptable(names)
    ensures Components(Chdirs(dir, names)) == Place(Components(dir), names)
    ensures names != [] ==>
      Chdirs(dir, names) == Join(Place(Components(dir), names)) +
        if Bare(names[|names| - 1]) == "" && Place(Components(dir), names) != [] then [SLASH] else ""
  {
    if names != [] {
      var n := |names| - 1;
      var name := names[n];
      var before := Chdirs(dir, names[..n]);
      assert name in names && AllAcceptable(names[..n]);
      ChdirsAre(dir, names[..n]);
      assert Chdirs(dir, names) == Stripped(Combined(before, Bare(name)));
      assert Place(Components(dir), names) ==
        Walk(if Absolute(Bare(name)) then [] else Components(before), Split(Bare(name)));
      hide AllAcceptable, Chdirs, Place;
      StrippedComponents(Combined(before, Bare(name)));
      ChdirWalks(name, before);
      CombinedEnd(name, before);
      OneChange(name, before);
    }
  }

  lemma OneChange(name: string, dir: string)
    requires name != "" && Acceptable(name)
    ensures var cs := Components(Combined(dir, Bare(name)));
      Stripped(Combined(dir, Bare(name))) == Join(cs) + if Bare(name) == "" && cs != [] then [SLASH] else ""
  {
    var cs := Components(Combined(dir, Bare(name)));
    CombinedEnd(name, dir);
    if Bare(name) == "" {
      assert dir == "" ==> Combined(dir, "") == "";
    } else if Bare(name) == [SLASH] {
      SplitNone("", 0);
      Leading([], "");
      assert [SLASH] + "" == [SLASH];
      assert Walk([], [""]) == Walk(Enter([], ""), []);
      assert cs == [];
    }
    hide Split, Bare, Combined;
  }

  ghost predicate EachCanonical(dirs: seq<string>) {
    forall d :: d in dirs ==> Canonical(d)
  }

  lemma EachCanonicalAfter(name: string, dirs: seq<string>, i: nat, dir: string)
    requires i < |dirs| && name != "" && Acceptable(name)
    requires dir == Stripped(Combined(dirs[i], Bare(name)))
    ensures Canonical(dir) <==> (Bare(name) != "" || Components(dirs[i]) == [])
    ensures EachCanonical(dirs) ==>
      (EachCanonical(dirs[i := dir]) <==> (Bare(name) != "" || dirs[i] == ""))
  {
    ChdirCanonical(name, dirs[i]);
    if EachCanonical(dirs) {
      assert dirs[i] in dirs;
      CanonicalComponents(dirs[i]);
      hide Stripped, Canonical, Combined, Bare;
      var dirs' := dirs[i := dir];
      assert dirs'[i] == dir;
      assert forall d :: d in dirs' ==> d == dir || d in dirs;
    }
  }

  lemma BareClean(name: string)
    requires Clean(name)
    ensures Clean(Bare(name))
  {}

  class Drives {
    var current: seq<string>  // the current directory of each drive
    var disk: nat             // the current drive, 1 for A:

    ghost predicate Valid()
      reads this
    {
      && |current| == DRIVES && 1 <= disk <= DRIVES
      && forall d :: d in current ==> Clean(d)
    }

    ghost predicate AllCanonical()
      reads this
    {
      EachCanonical(current)
    }

    // The drive a name is about.
    function DriveOf(name: string): int
      reads this
    {
      if HasDrive(name) then Upper(name[0]) as int - 'A' as int else disk - 1
    }

    // A letter of either case, and the current drive if there is none.
    lemma DriveNamed(k: nat, rest: string)
      requires Valid() && k < 26
      ensures DriveOf(['A' + k as char, ':'] + rest) == k == DriveOf(['a' + k as char, ':'] + rest)
      ensures Bare(['A' + k as char, ':'] + rest) == rest == Bare(['a' + k as char, ':'] + rest)
      ensures (rest == "" || rest[0] != ':') ==>
        DriveOf([SLASH] + rest) == disk - 1 && Bare([SLASH] + rest) == [SLASH] + rest
    {}

    // `failure` is what looking up the directory on the host reports, 0 for success; `room`
    // says whether malloc succeeds.
    method SetCurrentDir(name: string, failure: nat, room: bool) returns (err: nat)
      requires Valid() && Clean(name)
      modifies `current
      ensures Valid()
      ensures err != NO_ERROR || name == "" ==> current == old(current)
      ensures err ==
        if name == "" then 0
        else if name != [SLASH] && name[|name| - 1] == SLASH then 3
        else if failure != 0 then failure
        else if !room then 8
        else 0
      ensures err == NO_ERROR && name != "" ==>
        var d := DriveOf(name);
        current == old(current)[d := Stripped(Combined(old(current)[d], Bare(name)))]
      ensures err == NO_ERROR && name != "" ==>
        (Canonical(current[DriveOf(name)]) <==>
          (Bare(name) != "" || Components(old(current)[DriveOf(name)]) == []))
      ensures err == NO_ERROR && name != "" && old(AllCanonical()) ==>
        (AllCanonical() <==> (Bare(name) != "" || old(current)[DriveOf(name)] == ""))
    {
      if name == "" {
        return NO_ERROR;
      }
      if name != [SLASH] && name[|name| - 1] == SLASH {
        return ERROR_PATH_NOT_FOUND;
      }
      if failure != NO_ERROR {
        return failure;
      }
      err := Remember(name, room);
    }

    // The part after a successful lookup.
    method Remember(name: string, room: bool) returns (err: nat)
      requires Valid() && Clean(name) && name != "" && Acceptable(name)
      modifies `current
      ensures Valid()
      ensures err == if room then NO_ERROR else ERROR_NOT_ENOUGH_MEMORY
      ensures err != NO_ERROR ==> current == old(current)
      ensures err == NO_ERROR ==>
        var d := DriveOf(name);
        current == old(current)[d := Stripped(Combined(old(current)[d], Bare(name)))]
      ensures err == NO_ERROR ==>
        (Canonical(current[DriveOf(name)]) <==>
          (Bare(name) != "" || Components(old(current)[DriveOf(name)]) == []))
      ensures err == NO_ERROR && old(AllCanonical()) ==>
        (AllCanonical() <==> (Bare(name) != "" || old(current)[DriveOf(name)] == ""))
    {
      var driveidx := DriveOf(name);
      var bare := Bare(name);
      var oldpath := if bare != "" && bare[0] == SLASH then "" else current[driveidx];
      BareClean(name);
      assert Clean(current[driveidx]) by { assert current[driveidx] in current; }
      hide EachCanonical, Stripped, Bare;
      if !room {
        return ERROR_NOT_ENOUGH_MEMORY;
      }
      var newpath := Normalised(oldpath, bare);
      assert "" + "" + bare == bare;
      EachCanonicalAfter(name, current, driveidx, newpath);
      current := current[driveidx := newpath];
      err := NO_ERROR;
    }
  }

  // The buffer: filled by snprintf, normalised in place, and read out again.
  method Normalised(oldpath: string, bare: string) returns (newpath: string)
    requires Clean(oldpath) && Clean(bare)
    ensures newpath == Stripped(oldpath + (if oldpath != "" then [SLASH] else "") + bare)
    ensures Clean(newpath)
  {
    var path := oldpath + (if oldpath != "" then [SLASH] else "") + bare;
    var buf := new char[|oldpath| + |bare| + 2];
    for i := 0 to |path|
      invariant buf[..i] == path[..i]
    {
      buf[i] := path[i];
    }
    buf[|path|] := NUL;
    Strip(buf, path);
    var n := StrLen(buf, 0, Stripped(path));
    newpath := buf[..n];
  }
}
