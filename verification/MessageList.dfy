/**
  The message queue of native/pmwin.c as a list of messages: what a filter lets through,
  and what a run of posts and gets does to the list.
 */
module MessageList {

  datatype Msg = Msg(hwnd: nat, msg: nat, data: nat)
  datatype Filter = Filter(hwnd: nat, first: nat, last: nat)

  // skipMessage
  predicate Skip(m: Msg, f: Filter) {
    if f.hwnd != 0 && m.hwnd != f.hwnd then true
    else if f.first != 0 || f.last != 0 then
      if f.first > f.last then f.last <= m.msg <= f.first else m.msg < f.first || m.msg > f.last
    else false
  }

  // What a filter lets through: messages of its window, if it names one, and of its range, if
  // it has one.  A range whose ends are the wrong way round stands for everything outside.
  lemma RangePasses(m: Msg, f: Filter)
    ensures !Skip(m, Filter(0, 0, 0))
    ensures f.hwnd != 0 ==> (Skip(m, f) <==> m.hwnd != f.hwnd || Skip(m, Filter(0, f.first, f.last)))
    ensures f.hwnd == 0 && f.last > 0 && f.first <= f.last ==> (!Skip(m, f) <==> f.first <= m.msg <= f.last)
    ensures f.hwnd == 0 && f.first > f.last ==> (!Skip(m, f) <==> !(f.last <= m.msg <= f.first))
  {}

  predicate Filtering(f: Filter) {
    f.hwnd != 0 || f.first != 0 || f.last != 0
  }

  // ----- The queue as a list of messages ----------------------------------------------

  // The first message that the filter lets through, |q| if there is none.
  ghost function Index(q: seq<Msg>, f: Filter): nat {
    if q == [] || !Skip(q[0], f) then 0 else 1 + Index(q[1..], f)
  }

  lemma {:induction false} IndexIs(q: seq<Msg>, f: Filter)
    ensures Index(q, f) <= |q|
    ensures forall i :: 0 <= i < Index(q, f) ==> Skip(q[i], f)
    ensures Index(q, f) < |q| ==> !Skip(q[Index(q, f)], f)
  {
    if q != [] && Skip(q[0], f) {
      IndexIs(q[1..], f);
      assert forall i :: 0 < i < |q| ==> q[i] == q[1..][i - 1];
    }
  }

  ghost predicate AllSkipped(q: seq<Msg>, k: nat, f: Filter) {
    k <= |q| && forall i :: 0 <= i < k ==> Skip(q[i], f)
  }

  lemma SkippedMore(q: seq<Msg>, k: nat, f: Filter)
    ensures AllSkipped(q, 0, f)
    ensures AllSkipped(q, k, f) && k < |q| && Skip(q[k], f) ==> AllSkipped(q, k + 1, f)
  {}

  lemma IndexUnique(q: seq<Msg>, f: Filter, k: nat)
    requires AllSkipped(q, k, f) && (k < |q| ==> !Skip(q[k], f))
    ensures k == Index(q, f)
  {
    IndexIs(q, f);
  }

  ghost function Less<T>(s: seq<T>, k: nat): seq<T> {
    if k < |s| then s[..k] + s[k + 1..] else s
  }

  datatype Op = Post(m: Msg) | Get(f: Filter)

  ghost function Play(q: seq<Msg>, op: Op): seq<Msg> {
    match op
    case Post(m) => q + [m]
    case Get(f) => Less(q, Index(q, f))
  }

  ghost function Out(q: seq<Msg>, op: Op): seq<Msg> {
    if op.Get? && Index(q, op.f) < |q| then [q[Index(q, op.f)]] else []
  }

  ghost function Given(op: Op): seq<Msg> {
    if op.Post? then [op.m] else []
  }

  ghost function PlayAll(q: seq<Msg>, ops: seq<Op>): seq<Msg>
    decreases |ops|
  {
    if ops == [] then q else PlayAll(Play(q, ops[0]), ops[1..])
  }

  ghost function OutAll(q: seq<Msg>, ops: seq<Op>): seq<Msg>
    decreases |ops|
  {
    if ops == [] then [] else Out(q, ops[0]) + OutAll(Play(q, ops[0]), ops[1..])
  }

  ghost function Posted(ops: seq<Op>): seq<Msg> {
    if ops == [] then [] else Given(ops[0]) + Posted(ops[1..])
  }

  lemma Unfold(q: seq<Msg>, ops: seq<Op>)
    requires ops != []
    ensures OutAll(q, ops) == Out(q, ops[0]) + OutAll(Play(q, ops[0]), ops[1..])
    ensures PlayAll(q, ops) == PlayAll(Play(q, ops[0]), ops[1..])
    ensures Posted(ops) == Given(ops[0]) + Posted(ops[1..])
  {
    hide Out, Play, Given;
  }

  // Over any run of posts and unfiltered gets, messages come out in the order of posting.
  lemma {:induction false} Fifo(q: seq<Msg>, ops: seq<Op>)
    requires forall op :: op in ops && op.Get? ==> !Filtering(op.f)
    ensures OutAll(q, ops) + PlayAll(q, ops) == q + Posted(ops)
    decreases |ops|
  {
    if ops != [] {
      assert ops[0] in ops;
      hide *;
      OneFifo(q, ops[0]);
      Fifo(Play(q, ops[0]), ops[1..]);
      Unfold(q, ops);
      Regroup(Out(q, ops[0]), OutAll(Play(q, ops[0]), ops[1..]), PlayAll(q, ops), Play(q, ops[0]),
        Posted(ops[1..]), q, Given(ops[0]));
    }
  }

  lemma Regroup<T>(a: seq<T>, b: seq<T>, c: seq<T>, q1: seq<T>, rest: seq<T>, q: seq<T>, g: seq<T>)
    requires b + c == q1 + rest && a + q1 == q + g
    ensures (a + b) + c == q + (g + rest)
  {
    calc {
      (a + b) + c;
      a + (b + c);
      a + (q1 + rest);
      (a + q1) + rest;
      (q + g) + rest;
      q + (g + rest);
    }
  }

  lemma OneFifo(q: seq<Msg>, op: Op)
    requires op.Get? ==> !Filtering(op.f)
    ensures Out(q, op) + Play(q, op) == q + Given(op)
  {
    if op.Get? && q != [] {
      assert Index(q, op.f) == 0;
      assert Less(q, 0) == q[1..];
    }
  }

  // With filters too, nothing is lost and nothing is delivered twice.
  lemma {:induction false} Conserved(q: seq<Msg>, ops: seq<Op>)
    ensures multiset(OutAll(q, ops) + PlayAll(q, ops)) == multiset(q + Posted(ops))
    decreases |ops|
  {
    if ops != [] {
      hide *;
      OneConserved(q, ops[0]);
      Conserved(Play(q, ops[0]), ops[1..]);
      Unfold(q, ops);
      Recount(Out(q, ops[0]), OutAll(Play(q, ops[0]), ops[1..]), PlayAll(q, ops), Play(q, ops[0]),
        Posted(ops[1..]), q, Given(ops[0]));
    }
  }

  lemma Recount<T>(a: seq<T>, b: seq<T>, c: seq<T>, q1: seq<T>, rest: seq<T>, q: seq<T>, g: seq<T>)
    requires multiset(b + c) == multiset(q1 + rest) && multiset(a + q1) == multiset(q + g)
    ensures multiset((a + b) + c) == multiset(q + (g + rest))
  {
    assert multiset((a + b) + c) == multiset(a) + multiset(b + c);
    assert multiset(q + (g + rest)) == multiset(q + g) + multiset(rest);
  }

  lemma OneConserved(q: seq<Msg>, op: Op)
    ensures multiset(Out(q, op) + Play(q, op)) == multiset(q + Given(op))
  {
    if op.Get? && Index(q, op.f) < |q| {
      var k := Index(q, op.f);
      assert q == q[..k] + [q[k]] + q[k + 1..];
    }
  }

  lemma Unfiltered(f: Filter, m: Msg)
    requires !Filtering(f)
    ensures !Skip(m, f)
  {}

  // The message the filter lets through first is not the last of several.
  ghost predicate Mends(q: seq<Msg>, f: Filter) {
    Index(q, f) == 0 || Index(q, f) != |q| - 1
  }

  lemma MendsIs(q: seq<Msg>, f: Filter)
    ensures Mends(q, f) <==> Index(q, f) == 0 || Index(q, f) != |q| - 1
  {}

  // ----- Runs of the queue ------------------------------------------------------------------

  // No filtered get of the run takes the last of several messages.
  ghost predicate AllMend(q: seq<Msg>, ops: seq<Op>)
    decreases |ops|
  {
    ops == [] || ((ops[0].Get? ==> Mends(q, ops[0].f)) && AllMend(Play(q, ops[0]), ops[1..]))
  }

  lemma {:induction false} UnfilteredMends(q: seq<Msg>, ops: seq<Op>)
    requires forall op :: op in ops && op.Get? ==> !Filtering(op.f)
    ensures AllMend(q, ops)
    decreases |ops|
  {
    if ops != [] {
      assert ops[0] in ops;
      UnfilteredMends(Play(q, ops[0]), ops[1..]);
    }
  }

  // The run with its posts taken out.
  ghost function Mute(ops: seq<Op>): seq<Op> {
    if ops == [] then [] else (if ops[0].Post? then [] else [ops[0]]) + Mute(ops[1..])
  }

  // What a queue takes part in whose tail is not mended: everything up to the first get that
  // takes the last of several messages, and from then on only the gets.
  ghost function Heard(q: seq<Msg>, ops: seq<Op>): seq<Op>
    decreases |ops|
  {
    if ops == [] then []
    else [ops[0]] + if Severs(q, ops[0]) then Mute(ops[1..]) else Heard(Play(q, ops[0]), ops[1..])
  }

  ghost predicate Severs(q: seq<Msg>, op: Op) {
    op.Get? && !Mends(q, op.f)
  }

  // The part of the run after that get.
  ghost function Unheard(q: seq<Msg>, ops: seq<Op>): seq<Op>
    decreases |ops|
  {
    if ops == [] then []
    else if Severs(q, ops[0]) then ops[1..]
    else Unheard(Play(q, ops[0]), ops[1..])
  }

  // A get that would empty a list whose tail is not mended: the source's assertion fails.
  ghost predicate Empties(q: seq<Msg>, op: Op) {
    op.Get? && |q| == 1 && Index(q, op.f) == 0
  }

  ghost predicate Aborts(q: seq<Msg>, ops: seq<Op>)
    decreases |ops|
  {
    ops != [] && (Empties(q, ops[0]) || Aborts(if ops[0].Post? then q else Play(q, ops[0]), ops[1..]))
  }

  ghost predicate AbortsLater(q: seq<Msg>, ops: seq<Op>)
    decreases |ops|
  {
    ops != [] &&
    if Severs(q, ops[0]) then Aborts(Play(q, ops[0]), ops[1..]) else AbortsLater(Play(q, ops[0]), ops[1..])
  }

  lemma {:induction false} HeardAll(q: seq<Msg>, ops: seq<Op>)
    requires AllMend(q, ops)
    ensures Heard(q, ops) == ops && Unheard(q, ops) == [] && !AbortsLater(q, ops)
    decreases |ops|
  {
    if ops != [] {
      HeardAll(Play(q, ops[0]), ops[1..]);
      assert ops == [ops[0]] + ops[1..];
    }
  }

  lemma {:induction false} MutePosts(ops: seq<Op>)
    ensures Posted(Mute(ops)) == []
  {
    if ops != [] {
      MutePosts(ops[1..]);
      if ops[0].Get? {
        assert Mute(ops)[1..] == Mute(ops[1..]);
      } else {
        assert Mute(ops) == Mute(ops[1..]);
      }
    }
  }

  // The messages posted are those the queue takes and those posted after the severing get.
  lemma {:induction false} HeardPosted(q: seq<Msg>, ops: seq<Op>)
    ensures Posted(ops) == Posted(Heard(q, ops)) + Posted(Unheard(q, ops))
    decreases |ops|
  {
    hide *;
    UnfoldHeard(q, ops);
    if ops != [] {
      var rest := if Severs(q, ops[0]) then Mute(ops[1..]) else Heard(Play(q, ops[0]), ops[1..]);
      PostedMore(ops[0], rest);
      PostedMore(ops[0], ops[1..]);
      assert ops == [ops[0]] + ops[1..];
      if Severs(q, ops[0]) {
        MutePosts(ops[1..]);
        assert [] + [] + Posted(ops[1..]) == [] + Posted(ops[1..]);
      } else {
        HeardPosted(Play(q, ops[0]), ops[1..]);
        assert Given(ops[0]) + (Posted(rest) + Posted(Unheard(Play(q, ops[0]), ops[1..]))) ==
          (Given(ops[0]) + Posted(rest)) + Posted(Unheard(Play(q, ops[0]), ops[1..]));
      }
    }
  }

  lemma PostedMore(op: Op, ops: seq<Op>)
    ensures Posted([op] + ops) == Given(op) + Posted(ops)
  {
    assert ([op] + ops)[1..] == ops;
  }

  lemma UnfoldHeard(q: seq<Msg>, ops: seq<Op>)
    ensures ops == [] ==> Posted(ops) == [] && Heard(q, ops) == [] && Unheard(q, ops) == []
    ensures ops != [] ==>
      Heard(q, ops) == [ops[0]] + if Severs(q, ops[0]) then Mute(ops[1..]) else Heard(Play(q, ops[0]), ops[1..])
    ensures ops != [] ==>
      Unheard(q, ops) == if Severs(q, ops[0]) then ops[1..] else Unheard(Play(q, ops[0]), ops[1..])
    ensures ops != [] && Severs(q, ops[0]) ==> Given(ops[0]) == []
  {
    hide Play, Mends;
  }

  // What is delivered, what is still queued and what was posted after the severing get are
  // together what was there and what was posted.
  lemma LostAre(q: seq<Msg>, ops: seq<Op>)
    ensures multiset(OutAll(q, Heard(q, ops)) + PlayAll(q, Heard(q, ops))) + multiset(Posted(Unheard(q, ops))) ==
      multiset(q + Posted(ops))
  {
    Conserved(q, Heard(q, ops));
    HeardPosted(q, ops);
    hide *;
    assert q + Posted(ops) == (q + Posted(Heard(q, ops))) + Posted(Unheard(q, ops));
  }

  // So no message is lost if and only if none is posted after the first get that takes the
  // last of several.
  lemma NoneLostIff(q: seq<Msg>, ops: seq<Op>)
    ensures multiset(OutAll(q, Heard(q, ops)) + PlayAll(q, Heard(q, ops))) == multiset(q + Posted(ops)) <==>
      Posted(Unheard(q, ops)) == []
  {
    LostAre(q, ops);
    hide *;
    var kept, lost := OutAll(q, Heard(q, ops)) + PlayAll(q, Heard(q, ops)), Posted(Unheard(q, ops));
    assert |multiset(kept) + multiset(lost)| == |multiset(kept)| + |lost|;
  }

  // Such a run, on an empty queue: two messages, a get that takes the second, and a third
  // message, which is lost.
  lemma ThirdLost(a: Msg, b: Msg, c: Msg, f: Filter)
    requires Skip(a, f) && !Skip(b, f)
    ensures Posted(Unheard([], [Post(a), Post(b), Get(f), Post(c)])) == [c]
  {
    var ops := [Post(a), Post(b), Get(f), Post(c)];
    assert ops[1..] == [Post(b), Get(f), Post(c)] && ops[1..][1..] == [Get(f), Post(c)];
    assert ops[1..][1..][1..] == [Post(c)] && [Post(c)][1..] == [];
    assert [] + [a] == [a] && [a] + [b] == [a, b] && [a, b][1..] == [b];
    assert Index([b], f) == 0;
    assert Index([a, b], f) == 1;
    assert Severs([a, b], Get(f));
    assert Unheard([a, b], [Get(f), Post(c)]) == [Post(c)];
    assert Unheard([a], [Post(b), Get(f), Post(c)]) == [Post(c)];
    assert Posted([Post(c)]) == [c] + Posted([]);
  }

  // The run without the posts that failed, as far as it went: `oks` says of each call made
  // whether it did not fail.
  ghost function Done(ops: seq<Op>, oks: seq<bool>): seq<Op>
    decreases |ops|
  {
    if ops == [] || oks == [] then [] else (if oks[0] then [ops[0]] else []) + Done(ops[1..], oks[1..])
  }

  lemma DoneMore(ops: seq<Op>, oks: seq<bool>)
    requires ops != []
    ensures Done(ops, [true] + oks) == [ops[0]] + Done(ops[1..], oks)
    ensures Done(ops, [false] + oks) == Done(ops[1..], oks)
    ensures Done(ops[1..], []) == []
    ensures ([ops[0]] + Done(ops[1..], oks))[1..] == Done(ops[1..], oks)
  {
    assert ([true] + oks)[1..] == oks && ([false] + oks)[1..] == oks;
    assert [] + Done(ops[1..], oks) == Done(ops[1..], oks);
  }

  // If no call failed, that is the run itself.
  lemma {:induction false} DoneAll(ops: seq<Op>, oks: seq<bool>)
    requires |oks| == |ops| && forall i :: 0 <= i < |oks| ==> oks[i]
    ensures Done(ops, oks) == ops
  {
    if ops != [] {
      DoneAll(ops[1..], oks[1..]);
      assert ops == [ops[0]] + ops[1..];
    }
  }

  // One step of a run, in all the terms a run is described in.
  lemma UnfoldRun(q: seq<Msg>, ops: seq<Op>)
    requires ops != []
    ensures AllMend(q, ops) <==> !Severs(q, ops[0]) && AllMend(Play(q, ops[0]), ops[1..])
    ensures Heard(q, ops) == [ops[0]] + if Severs(q, ops[0]) then Mute(ops[1..]) else Heard(Play(q, ops[0]), ops[1..])
    ensures AbortsLater(q, ops) <==>
      if Severs(q, ops[0]) then Aborts(Play(q, ops[0]), ops[1..]) else AbortsLater(Play(q, ops[0]), ops[1..])
    ensures Aborts(q, ops) <==> Empties(q, ops[0]) || Aborts(if ops[0].Post? then q else Play(q, ops[0]), ops[1..])
    ensures Mute(ops) == if ops[0].Post? then Mute(ops[1..]) else [ops[0]] + Mute(ops[1..])
  {
    hide Play, Mends, Empties;
    assert [] + Mute(ops[1..]) == Mute(ops[1..]);
  }

  lemma PostStep(q: seq<Msg>, m: Msg)
    ensures Play(q, Post(m)) == q + [m] && Out(q, Post(m)) == []
    ensures !Severs(q, Post(m)) && !Empties(q, Post(m))
  {}

  lemma GetStep(q: seq<Msg>, f: Filter)
    ensures Index(q, f) <= |q|
    ensures Index(q, f) < |q| ==> Play(q, Get(f)) == Less(q, Index(q, f)) && Out(q, Get(f)) == [q[Index(q, f)]]
    ensures Index(q, f) == |q| ==>
      Play(q, Get(f)) == q && Out(q, Get(f)) == [] && !Severs(q, Get(f)) && !Empties(q, Get(f))
    ensures Severs(q, Get(f)) <==> !Mends(q, f)
    ensures Index(q, f) < |q| ==> (Empties(q, Get(f)) <==> |q| == 1)
  {
    IndexIs(q, f);
    hide Index;
  }

  lemma UnfoldMute(q: seq<Msg>, op: Op, rest: seq<Op>)
    ensures OutAll(q, [op] + rest) == Out(q, op) + OutAll(Play(q, op), rest)
    ensures PlayAll(q, [op] + rest) == PlayAll(Play(q, op), rest)
  {
    assert ([op] + rest)[1..] == rest;
    Unfold(q, [op] + rest);
  }

  lemma NoneDone(ops: seq<Op>)
    requires ops == []
    ensures Done(ops, []) == []
  {}

  // A run that ends with its first call.
  lemma EndsHere(q: seq<Msg>, ops: seq<Op>)
    requires ops != [] && Empties(q, ops[0])
    ensures Aborts(q, Done(ops, [true])) && [] <= OutAll(q, Mute(Done(ops, [true])))
  {
    DoneMore(ops, []);
    assert [true] + [] == [true] && [ops[0]] + [] == [ops[0]];
  }

  lemma RunOver(q: seq<Msg>)
    ensures PlayAll(q, []) == q && OutAll(q, []) == [] && Mute([]) == [] && Heard(q, []) == []
    ensures AllMend(q, []) && !Aborts(q, []) && !AbortsLater(q, [])
  {}
}
