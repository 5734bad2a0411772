/**
  When a wait on an event semaphore times out: only if its thread slept until the deadline.
 */
module EventTimeouts {
  import opened EventSem
  import opened EventHistory

  // Whether the call that is at `p` has slept until its deadline, once its thread has moved
  // (or another one, if not `own`); `so` says whether it had before.
  function Slept(p: Pc, own: bool, c: Choice, so: bool): bool {
    p != Idle && (so || (own && p.Asleep? && c == Expire))
  }

  // The same for each call of `t` that has returned, in their order.
  ghost function Sleeps(s: State, moves: seq<Move>, t: Tid, so: bool): seq<bool>
    requires Named(s, moves) && t in s.pc
    decreases |moves|
  {
    if moves == [] then []
    else
      var u, c := moves[0].tid, moves[0].choice;
      var s' := Step(s, u, c);
      var so' := Slept(s.pc[t], u == t, c, so);
      (if Ended(s.pc[t], s'.pc[t]) != [] then [so'] else []) + Sleeps(s', moves[1..], t, so')
  }

  // A call that is past its deadline, and the thread's sleep.
  ghost predicate Honest(p: Pc, open: seq<Choice>, so: bool) {
    && (p.Woken? && p.expired ==> so) && (p.WaitRead? && p.expired ==> so) && (p == WaitLeave(false) ==> so)
    && (p == Leave(Timeout) && open != [] && open[0].Wait? ==> so)
  }

  lemma ActHonest(p: Pc, t: Tid, posted: bool, waiting: int, owner: Owner, c: Choice, open: seq<Choice>, so: bool)
    requires Open(p, open) && Honest(p, open, so)
    ensures var p' := Act(p, t, posted, waiting, owner, c).pc;
      Honest(p', open + Begun(p, p', c), Slept(p, true, c, so)) && (p.Leave? ==> Slept(p, true, c, so) == so)
  {
    if p.Idle? {
      assert open + Begun(p, Start(c), c) == Begun(p, Start(c), c);
    } else {
      assert open + [] == open;
      hide Serves;
    }
  }

  lemma WakeHonest(p: Pc, open: seq<Choice>, so: bool, c: Choice)
    requires Honest(p, open, so)
    ensures Honest(Wake(p), open, so) && (p != Idle ==> Slept(p, false, c, so) == so)
    ensures p == Idle ==> Honest(p, open, Slept(p, false, c, so))
  {}

  // Calls, what they returned, and whether they slept, for a thread that is at `p`.
  ghost predicate Kept(calls: seq<Choice>, given: seq<Answer>, slept: seq<bool>, so: bool, p: Pc) {
    && Matched(calls, given, p) && |slept| == |given| && Honest(p, calls[|given|..], so)
    && forall i :: 0 <= i < |given| && calls[i].Wait? && given[i] == Timeout ==> slept[i]
  }

  lemma KeptMove(calls: seq<Choice>, given: seq<Answer>, slept: seq<bool>, so: bool, p: Pc, p': Pc, c: Choice,
      so': bool)
    requires Kept(calls, given, slept, so, p)
    requires Matched(calls + Begun(p, p', c), given + Ended(p, p'), p')
    requires Ended(p, p') != [] ==> p' == Idle && so' == so
    requires Honest(p', calls[|given|..] + Begun(p, p', c), so')
    ensures Kept(calls + Begun(p, p', c), given + Ended(p, p'), slept + if Ended(p, p') != [] then [so'] else [],
      so', p')
  {
    var calls', given' := calls + Begun(p, p', c), given + Ended(p, p');
    if Ended(p, p') == [] {
      assert given' == given;
      assert calls'[|given|..] == calls[|given|..] + Begun(p, p', c);
      assert slept + [] == slept;
    } else {
      assert calls[|given|..] != [] && calls[|given|..][0] == calls[|given|];
      assert given'[|given|] == p.answer;
    }
    hide Begun, Ended, Matched, Serves;
  }

  lemma StepKept(s: State, u: Tid, c: Choice, t: Tid, calls: seq<Choice>, given: seq<Answer>, slept: seq<bool>,
      so: bool)
    requires u in s.pc && t in s.pc && Kept(calls, given, slept, so, s.pc[t])
    ensures var p, p', so' := s.pc[t], Step(s, u, c).pc[t], Slept(s.pc[t], u == t, c, so);
      Kept(calls + Begun(p, p', c), given + Ended(p, p'), slept + if Ended(p, p') != [] then [so'] else [], so', p')
  {
    var p, p', open := s.pc[t], Step(s, u, c).pc[t], calls[|given|..];
    KeptIs(calls, given, slept, so, p);
    StepMatched(s, u, c, t, calls, given);
    PcAfter(s, u, c, t);
    hide *;
    if u == t {
      ActHonest(p, t, s.posted, s.waiting, s.owner, c, open, so);
      EndsAt(p, p');
      EffectIs(s, t, c);
    } else {
      WakeServes(p, open, c);
      WakeHonest(p, open, so, c);
      Still(p, c);
      assert open + [] == open;
    }
    KeptMove(calls, given, slept, so, p, p', c, Slept(p, u == t, c, so));
  }

  lemma KeptIs(calls: seq<Choice>, given: seq<Answer>, slept: seq<bool>, so: bool, p: Pc)
    requires Kept(calls, given, slept, so, p)
    ensures Matched(calls, given, p) && |given| <= |calls|
    ensures Open(p, calls[|given|..]) && Honest(p, calls[|given|..], so)
  {}

  lemma EndsAt(p: Pc, p': Pc)
    ensures Ended(p, p') != [] ==> p.Leave? && p' == Idle
  {}

  lemma EffectIs(s: State, t: Tid, c: Choice)
    requires t in s.pc
    ensures Effected(s, t, c) == Act(s.pc[t], t, s.posted, s.waiting, s.owner, c)
  {}

  lemma {:induction false} RunKept(s: State, moves: seq<Move>, t: Tid, calls: seq<Choice>, given: seq<Answer>,
      slept: seq<bool>, so: bool) returns (so': bool)
    requires Named(s, moves) && t in s.pc && Kept(calls, given, slept, so, s.pc[t])
    ensures t in Run(s, moves).pc
    ensures Kept(calls + Calls(s, moves, t), given + Returns(s, moves, t), slept + Sleeps(s, moves, t, so), so',
      Run(s, moves).pc[t])
    decreases |moves|
  {
    hide *;
    UnfoldHistory(s, moves, t);
    UnfoldSleeps(s, moves, t, so);
    so' := so;
    if moves == [] {
      assert calls + [] == calls && given + [] == given && slept + [] == slept;
    } else {
      var u, c := moves[0].tid, moves[0].choice;
      var s1 := Step(s, u, c);
      var b, e := Begun(s.pc[t], s1.pc[t], c), Ended(s.pc[t], s1.pc[t]);
      var now := Slept(s.pc[t], u == t, c, so);
      var z := if e != [] then [now] else [];
      StepKept(s, u, c, t, calls, given, slept, so);
      so' := RunKept(s1, moves[1..], t, calls + b, given + e, slept + z, now);
      assert (calls + b) + Calls(s1, moves[1..], t) == calls + (b + Calls(s1, moves[1..], t));
      assert (given + e) + Returns(s1, moves[1..], t) == given + (e + Returns(s1, moves[1..], t));
      assert (slept + z) + Sleeps(s1, moves[1..], t, now) == slept + (z + Sleeps(s1, moves[1..], t, now));
    }
  }

  lemma UnfoldSleeps(s: State, moves: seq<Move>, t: Tid, so: bool)
    requires Named(s, moves) && t in s.pc
    ensures moves == [] ==> Sleeps(s, moves, t, so) == []
    ensures moves != [] ==> moves[0].tid in s.pc
    ensures moves != [] ==>
      var s' := Step(s, moves[0].tid, moves[0].choice);
      var so' := Slept(s.pc[t], moves[0].tid == t, moves[0].choice, so);
      t in s'.pc && Named(s', moves[1..]) &&
      Sleeps(s, moves, t, so) ==
        (if Ended(s.pc[t], s'.pc[t]) != [] then [so'] else []) + Sleeps(s', moves[1..], t, so')
  {
    hide Ended, Slept, Apply;
  }

  // In every interleaving, a wait that has timed out has slept until its deadline.
  lemma TimeoutsSlept(s0: State, moves: seq<Move>, s: State, t: Tid, i: nat)
    requires Reached(s0, moves, s) && t in s0.pc && i < |Returns(s0, moves, t)|
    ensures |Sleeps(s0, moves, t, false)| == |Returns(s0, moves, t)| <= |Calls(s0, moves, t)|
    ensures Calls(s0, moves, t)[i].Wait? && Returns(s0, moves, t)[i] == Timeout ==> Sleeps(s0, moves, t, false)[i]
  {
    ReachedIs(s0, moves, s);
    ReachedInvariant(s0, moves, s);
    assert s0.pc[t] == Idle;
    hide *;
    IdleKept();
    var so := RunKept(s0, moves, t, [], [], [], false);
    assert [] + Calls(s0, moves, t) == Calls(s0, moves, t) && [] + Returns(s0, moves, t) == Returns(s0, moves, t);
    assert [] + Sleeps(s0, moves, t, false) == Sleeps(s0, moves, t, false);
    KeptAt(Calls(s0, moves, t), Returns(s0, moves, t), Sleeps(s0, moves, t, false), so, s.pc[t], i);
  }

  lemma IdleKept()
    ensures Kept([], [], [], false, Idle)
  {}

  lemma KeptAt(calls: seq<Choice>, given: seq<Answer>, slept: seq<bool>, so: bool, p: Pc, i: nat)
    requires Kept(calls, given, slept, so, p) && i < |given|
    ensures |slept| == |given| <= |calls| && (calls[i].Wait? && given[i] == Timeout ==> slept[i])
    ensures Answers(calls[i], given[i])
  {}

  // So if no deadline of a thread passes while it sleeps, its waits all succeed.
  lemma NoTimeouts(s0: State, moves: seq<Move>, s: State, t: Tid, i: nat)
    requires Reached(s0, moves, s) && t in s0.pc && i < |Returns(s0, moves, t)|
    requires forall m :: m in moves && m.tid == t ==> m.choice != Expire
    ensures i < |Calls(s0, moves, t)|
    ensures Calls(s0, moves, t)[i].Wait? ==> Returns(s0, moves, t)[i] == Success
  {
    TimeoutsSlept(s0, moves, s, t, i);
    ReachedIs(s0, moves, s);
    NeverSlept(s0, moves, t);
    MatchedHere(s0, moves, s, t, i);
    hide Sleeps, Calls, Returns, Run, Reached, Step;
    assert Sleeps(s0, moves, t, false)[i] in Sleeps(s0, moves, t, false);
    assert Answers(Calls(s0, moves, t)[i], Returns(s0, moves, t)[i]);
  }

  lemma MatchedHere(s0: State, moves: seq<Move>, s: State, t: Tid, i: nat)
    requires Reached(s0, moves, s) && t in s0.pc && i < |Returns(s0, moves, t)|
    ensures i < |Calls(s0, moves, t)| && Answers(Calls(s0, moves, t)[i], Returns(s0, moves, t)[i])
  {
    Linearizable(s0, moves, s);
    ReachedInvariant(s0, moves, s);
    hide Calls, Returns, Run, Answers, Reached, Replays, Final, AnswersOf, LastOf, Step;
    assert Matched(Calls(s0, moves, t), Returns(s0, moves, t), s.pc[t]);
  }

  lemma {:induction false} NeverSlept(s: State, moves: seq<Move>, t: Tid)
    requires Named(s, moves) && t in s.pc && forall m :: m in moves && m.tid == t ==> m.choice != Expire
    ensures forall b :: b in Sleeps(s, moves, t, false) ==> !b
    decreases |moves|
  {
    UnfoldSleeps(s, moves, t, false);
    if moves != [] {
      var s' := Step(s, moves[0].tid, moves[0].choice);
      assert moves[0] in moves;
      NeverSlept(s', moves[1..], t);
      hide Sleeps, Step, Ended;
    }
  }

  // ----- Closing --------------------------------------------------------------------------

  // If the new semaphore's memory held 0 in `waiting`, closing finds it busy exactly if
  // somebody is in a blocking wait.
  lemma CloseAnswers(s0: State, moves: seq<Move>, s: State, t: Tid, c: Choice)
    requires Reached(s0, moves, s) && s0.waiting == 0 && t in s.pc && s.pc[t] == CloseRead
    ensures Step(s, t, c).pc[t] == Leave(if exists u :: u in s.pc && Waits(s.pc[u]) then Busy else Unused)
  {
    ReachedInvariant(s0, moves, s);
    PcAfter(s, t, c, t);
    hide Reached, Excluded, Knows, Awake, Logged, Invariant, Step;
    if u :| u in s.pc && Waits(s.pc[u]) {
      assert u in Waiters(s.pc);
    } else {
      assert Waiters(s.pc) == {};
    }
  }

  // ----- After the deadline --------------------------------------------------------------

  lemma OneMove(s: State, t: Tid, c: Choice, moves: seq<Move>)
    requires t in s.pc && Named(s, moves)
    ensures var e, all := Effected(s, t, c), [Move(t, c)] + moves;
      !e.wakes ==>
      var s' := State(e.posted, e.waiting, e.owner, s.pc[t := e.pc], s.log + Entries(t, e.answers));
      Named(s, all) && Named(s', moves) && Run(s, all) == Run(s', moves) &&
      Returns(s, all, t) == Ended(s.pc[t], e.pc) + Returns(s', moves, t)
  {
    var all := [Move(t, c)] + moves;
    assert all[1..] == moves;
    hide Act, Ended;
  }

  // `moves` bring the call of `t` to its end, with that answer.
  ghost predicate TimesOut(s: State, moves: seq<Move>, t: Tid, waiting: int) {
    && t in s.pc && Named(s, moves) && Returns(s, moves, t) == [Timeout] && Run(s, moves).pc == s.pc[t := Idle]
    && Run(s, moves).owner == Nobody && !Run(s, moves).posted && Run(s, moves).waiting == waiting
  }

  lemma OneMore(s: State, s': State, t: Tid, c: Choice, moves: seq<Move>, waiting: int)
    requires t in s.pc && TimesOut(s', moves, t, waiting)
    requires var e := Effected(s, t, c);
      !e.wakes && Ended(s.pc[t], e.pc) == [] &&
      s' == State(e.posted, e.waiting, e.owner, s.pc[t := e.pc], s.log + Entries(t, e.answers))
    ensures TimesOut(s, [Move(t, c)] + moves, t, waiting)
  {
    OneMove(s, t, c, moves);
    hide Effected, Returns, Run, Ended;
    assert s'.pc[t := Idle] == s.pc[t := Idle];
  }

  lemma LeaveAnswers(s: State, t: Tid, c: Choice)
    requires t in s.pc && s.pc[t] == Leave(Timeout) && !s.posted
    ensures TimesOut(s, [Move(t, c)], t, s.waiting)
  {
    var s' := State(s.posted, s.waiting, Nobody, s.pc[t := Idle], s.log + Entries(t, []));
    OneMove(s, t, c, []);
    assert Run(s', []) == s' && Returns(s', [], t) == [];
    assert [Move(t, c)] + [] == [Move(t, c)];
    hide Run, Returns;
  }

  lemma CountedAnswers(s: State, t: Tid, c: Choice, d: Choice)
    requires t in s.pc && s.pc[t] == WaitLeave(false) && !s.posted
    ensures TimesOut(s, [Move(t, c), Move(t, d)], t, s.waiting - 1)
  {
    var s' := State(s.posted, s.waiting - 1, s.owner, s.pc[t := Leave(Timeout)], s.log + Entries(t, []));
    LeaveAnswers(s', t, d);
    hide TimesOut;
    OneMore(s, s', t, c, [Move(t, d)], s.waiting - 1);
    assert [Move(t, c)] + [Move(t, d)] == [Move(t, c), Move(t, d)];
  }

  lemma ReadAnswers(s: State, t: Tid, b: Choice, c: Choice, d: Choice)
    requires t in s.pc && s.pc[t] == WaitRead(true, true) && !s.posted
    ensures TimesOut(s, [Move(t, b), Move(t, c), Move(t, d)], t, s.waiting - 1)
  {
    var s' := State(s.posted, s.waiting, s.owner, s.pc[t := WaitLeave(false)], s.log + Entries(t, [Timeout]));
    CountedAnswers(s', t, c, d);
    hide TimesOut;
    OneMore(s, s', t, b, [Move(t, c), Move(t, d)], s.waiting - 1);
    assert [Move(t, b)] + [Move(t, c), Move(t, d)] == [Move(t, b), Move(t, c), Move(t, d)];
  }

  lemma WokenAnswers(s: State, t: Tid, a: Choice, b: Choice, c: Choice, d: Choice)
    requires t in s.pc && s.pc[t] == Woken(true, true) && s.owner == Nobody && !s.posted
    ensures TimesOut(s, [Move(t, a), Move(t, b), Move(t, c), Move(t, d)], t, s.waiting - 1)
  {
    var s' := State(s.posted, s.waiting, Held(t), s.pc[t := WaitRead(true, true)], s.log + Entries(t, []));
    ReadAnswers(s', t, b, c, d);
    hide TimesOut;
    OneMore(s, s', t, a, [Move(t, b), Move(t, c), Move(t, d)], s.waiting - 1);
    assert [Move(t, a)] + [Move(t, b), Move(t, c), Move(t, d)] == [Move(t, a), Move(t, b), Move(t, c), Move(t, d)];
  }

  // A thread that has slept until its deadline, and is not posted to, answers in four moves
  // of its own.
  lemma DeadlineAnswers(s: State, t: Tid, a: Choice, b: Choice, c: Choice, d: Choice)
    requires t in s.pc && s.pc[t] == Asleep(true) && s.owner == Nobody && !s.posted
    ensures TimesOut(s, [Move(t, Expire), Move(t, a), Move(t, b), Move(t, c), Move(t, d)], t, s.waiting - 1)
  {
    var s' := State(s.posted, s.waiting, s.owner, s.pc[t := Woken(true, true)], s.log + Entries(t, []));
    WokenAnswers(s', t, a, b, c, d);
    hide TimesOut;
    var rest := [Move(t, a), Move(t, b), Move(t, c), Move(t, d)];
    OneMore(s, s', t, Expire, rest, s.waiting - 1);
    assert [Move(t, Expire)] + rest == [Move(t, Expire), Move(t, a), Move(t, b), Move(t, c), Move(t, d)];
  }
}
