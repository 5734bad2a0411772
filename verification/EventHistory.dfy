/**
  The calls that threads make on an event semaphore, and what they return: in every
  interleaving, the same as on a semaphore that does each call in one step.
 */
module EventHistory {
  import opened EventSem

  // ----- Calls and returns of one thread ------------------------------------------------

  // The call that begins with a move from `p` to `p'`.
  function Begun(p: Pc, p': Pc, c: Choice): seq<Choice> {
    if p == Idle && p' != Idle then [c] else []
  }

  // What the call returns that ends with that move.
  function Ended(p: Pc, p': Pc): seq<Answer> {
    if p.Leave? && p' == Idle then [p.answer] else []
  }

  // The calls of `t`, in the order in which it makes them.
  ghost function Calls(s: State, moves: seq<Move>, t: Tid): seq<Choice>
    requires Named(s, moves) && t in s.pc
    decreases |moves|
  {
    if moves == [] then []
    else
      var s' := Step(s, moves[0].tid, moves[0].choice);
      Begun(s.pc[t], s'.pc[t], moves[0].choice) + Calls(s', moves[1..], t)
  }

  // What they return.
  ghost function Returns(s: State, moves: seq<Move>, t: Tid): seq<Answer>
    requires Named(s, moves) && t in s.pc
    decreases |moves|
  {
    if moves == [] then []
    else
      var s' := Step(s, moves[0].tid, moves[0].choice);
      Ended(s.pc[t], s'.pc[t]) + Returns(s', moves[1..], t)
  }

  // The answers of `t` in the log.
  ghost function AnswersOf(log: seq<Entry>, t: Tid): seq<Answer> {
    if log == [] then []
    else AnswersOf(log[..|log| - 1], t) + if log[|log| - 1].tid == t then [log[|log| - 1].answer] else []
  }

  // An answer that such a call can give.
  predicate Answers(c: Choice, a: Answer) {
    match c
    case Post => a.Posted? || a.AlreadyPosted?
    case ResetSem => a.Reset? || a.AlreadyReset?
    case Peek => a.Success? || a.Timeout?
    case Wait(timed) => a.Success? || (timed && a.Timeout?)
    case Close => a.Busy? || a.Unused?
    case _ => false
  }

  // A place in the course of such a call.
  predicate Serves(p: Pc, c: Choice) {
    match p
    case Idle => false
    case PostLock => c.Post?
    case PostTest => c.Post?
    case PostSet => c.Post?
    case PostSignal => c.Post?
    case ResetLock => c.ResetSem?
    case ResetRead => c.ResetSem?
    case ResetTest(_) => c.ResetSem?
    case ResetClear(_) => c.ResetSem?
    case PeekLock => c.Peek?
    case PeekRead => c.Peek?
    case WaitLock(timed) => c == Wait(timed)
    case WaitCount(timed) => c == Wait(timed)
    case WaitTest(timed) => c == Wait(timed)
    case WaitSleep(timed) => c == Wait(timed)
    case Asleep(timed) => c == Wait(timed)
    case Woken(timed, expired) => c == Wait(timed) && (expired ==> timed)
    case WaitRead(timed, expired) => c == Wait(timed) && (expired ==> timed)
    case WaitLeave(ok) => c.Wait? && Answers(c, if ok then Success else Timeout)
    case CloseLock => c.Close?
    case CloseRead => c.Close?
    case Leave(a) => Answers(c, a)
  }

  // The call under way, if any.
  ghost predicate Open(p: Pc, open: seq<Choice>) {
    if p == Idle then open == [] else |open| == 1 && Serves(p, open[0])
  }

  // ----- One move ---------------------------------------------------------------------------

  // A thread's own move, whatever the others do.
  lemma ActHistory(p: Pc, t: Tid, posted: bool, waiting: int, owner: Owner, c: Choice)
    ensures var e := Act(p, t, posted, waiting, owner, c); Owes(p) + e.answers == Ended(p, e.pc) + Owes(e.pc)
  {
    hide *;
    if Blocking(p) {
      WaitHistory(p, t, posted, waiting, owner, c);
    } else {
      PassHistory(p, t, posted, waiting, owner, c);
    }
  }

  lemma WaitHistory(p: Pc, t: Tid, posted: bool, waiting: int, owner: Owner, c: Choice)
    requires Blocking(p)
    ensures var e := Act(p, t, posted, waiting, owner, c); Owes(p) + e.answers == Ended(p, e.pc) + Owes(e.pc)
  {}

  lemma PassHistory(p: Pc, t: Tid, posted: bool, waiting: int, owner: Owner, c: Choice)
    requires !Blocking(p)
    ensures var e := Act(p, t, posted, waiting, owner, c); Owes(p) + e.answers == Ended(p, e.pc) + Owes(e.pc)
  {}

  lemma ActServes(p: Pc, t: Tid, posted: bool, waiting: int, owner: Owner, c: Choice, open: seq<Choice>)
    requires Open(p, open)
    ensures var p' := Act(p, t, posted, waiting, owner, c).pc;
      if p.Leave? then p' == Idle else Ended(p, p') == [] && Open(p', open + Begun(p, p', c))
  {
    hide *;
    if p.Idle? {
      IdleServes(p, t, posted, waiting, owner, c, open);
    } else if Blocking(p) {
      WaitServes(p, t, posted, waiting, owner, c, open);
    } else {
      PassServes(p, t, posted, waiting, owner, c, open);
    }
  }

  // In a blocking wait, from its beginning to the wakeup.
  predicate Blocking(p: Pc) {
    p.WaitLock? || p.WaitCount? || p.WaitTest? || p.WaitSleep? || p.Asleep? || p.Woken? || p.WaitRead?
  }

  lemma IdleServes(p: Pc, t: Tid, posted: bool, waiting: int, owner: Owner, c: Choice, open: seq<Choice>)
    requires Open(p, open) && p.Idle?
    ensures var p' := Act(p, t, posted, waiting, owner, c).pc;
      if p.Leave? then p' == Idle else Ended(p, p') == [] && Open(p', open + Begun(p, p', c))
  {}

  lemma WaitServes(p: Pc, t: Tid, posted: bool, waiting: int, owner: Owner, c: Choice, open: seq<Choice>)
    requires Open(p, open) && Blocking(p)
    ensures var p' := Act(p, t, posted, waiting, owner, c).pc;
      if p.Leave? then p' == Idle else Ended(p, p') == [] && Open(p', open + Begun(p, p', c))
  {
    assert open + [] == open;
  }

  lemma PassServes(p: Pc, t: Tid, posted: bool, waiting: int, owner: Owner, c: Choice, open: seq<Choice>)
    requires Open(p, open) && !p.Idle? && !Blocking(p)
    ensures var p' := Act(p, t, posted, waiting, owner, c).pc;
      if p.Leave? then p' == Idle else Ended(p, p') == [] && Open(p', open + Begun(p, p', c))
  {
    assert open + [] == open;
  }

  lemma WakeServes(p: Pc, open: seq<Choice>, c: Choice)
    requires Open(p, open)
    ensures Open(Wake(p), open) && Begun(p, Wake(p), c) == [] && Ended(p, Wake(p)) == [] && Owes(Wake(p)) == Owes(p)
  {}

  lemma {:induction false} AnswersConcat(a: seq<Entry>, b: seq<Entry>, t: Tid)
    ensures AnswersOf(a + b, t) == AnswersOf(a, t) + AnswersOf(b, t)
    decreases |b|
  {
    if b == [] {
      assert a + b == a;
    } else {
      var n := |b| - 1;
      assert (a + b)[..|a + b| - 1] == a + b[..n];
      AnswersConcat(a, b[..n], t);
    }
  }

  lemma {:induction false} AnswersEntries(u: Tid, answers: seq<Answer>, t: Tid)
    ensures AnswersOf(Entries(u, answers), t) == if u == t then answers else []
    decreases |answers|
  {
    if answers != [] {
      var n := |answers| - 1;
      AnswersEntries(u, answers[..n], t);
      assert Entries(u, answers)[..n] == Entries(u, answers[..n]);
      assert answers == answers[..n] + [answers[n]];
    }
  }

  // One move, seen by thread `t`: what is logged for it, what it begins and what it ends.
  lemma StepHistory(s: State, u: Tid, c: Choice, t: Tid)
    requires u in s.pc && t in s.pc
    ensures var s' := Step(s, u, c);
      s.log <= s'.log &&
      AnswersOf(s'.log, t) == AnswersOf(s.log, t) + if u == t then Effected(s, u, c).answers else []
    ensures var p, p' := s.pc[t], Step(s, u, c).pc[t];
      Owes(p) + (if u == t then Effected(s, u, c).answers else []) == Ended(p, p') + Owes(p')
  {
    var e := Effected(s, u, c);
    AnswersConcat(s.log, Entries(u, e.answers), t);
    AnswersEntries(u, e.answers, t);
    PcAfter(s, u, c, t);
    ActHistory(s.pc[u], u, s.posted, s.waiting, s.owner, c);
    WakeHistory(s.pc[t]);
    hide Act, AnswersOf, Owes, Ended, Broadcast, Wake;
    assert Owes(s.pc[t]) + [] == [] + Owes(s.pc[t]);
  }

  lemma WakeHistory(p: Pc)
    ensures Ended(p, p) == Ended(p, Wake(p)) == [] && Owes(Wake(p)) == Owes(p)
  {}

  // Calls and what they have returned so far, for a thread that is at `p`.
  ghost predicate Matched(calls: seq<Choice>, given: seq<Answer>, p: Pc) {
    && |given| <= |calls| && Open(p, calls[|given|..])
    && forall i :: 0 <= i < |given| ==> Answers(calls[i], given[i])
  }

  lemma MatchedMove(calls: seq<Choice>, given: seq<Answer>, p: Pc, p': Pc, c: Choice)
    requires Matched(calls, given, p)
    requires if p.Leave? then p' == Idle else Ended(p, p') == [] && Open(p', calls[|given|..] + Begun(p, p', c))
    ensures Matched(calls + Begun(p, p', c), given + Ended(p, p'), p')
  {
    var calls', given' := calls + Begun(p, p', c), given + Ended(p, p');
    if p.Leave? {
      assert calls' == calls && calls[|given'|..] == [];
    } else {
      assert given' == given && calls'[|given|..] == calls[|given|..] + Begun(p, p', c);
    }
    hide Begun, Ended;
  }

  lemma StepMatched(s: State, u: Tid, c: Choice, t: Tid, calls: seq<Choice>, given: seq<Answer>)
    requires u in s.pc && t in s.pc && Matched(calls, given, s.pc[t])
    ensures var p, p' := s.pc[t], Step(s, u, c).pc[t];
      Matched(calls + Begun(p, p', c), given + Ended(p, p'), p')
  {
    var p, p', open := s.pc[t], Step(s, u, c).pc[t], calls[|given|..];
    PcAfter(s, u, c, t);
    assert Open(p, open);
    if u == t {
      ActServes(p, t, s.posted, s.waiting, s.owner, c, open);
      hide *;
      MatchedMove(calls, given, p, p', c);
    } else {
      WakeServes(p, open, c);
      Still(p, c);
      hide Act, Open, Serves, Ended, Begun, Answers, Owes, Wake;
      assert calls + [] == calls && given + [] == given;
    }
  }

  lemma Still(p: Pc, c: Choice)
    ensures Begun(p, p, c) == [] && Ended(p, p) == []
  {}

  // ----- Every interleaving --------------------------------------------------------------------

  lemma {:induction false} RunHistory(s: State, moves: seq<Move>, t: Tid, calls: seq<Choice>, given: seq<Answer>)
    requires Named(s, moves) && t in s.pc && Matched(calls, given, s.pc[t])
    requires AnswersOf(s.log, t) == given + Owes(s.pc[t])
    ensures var s' := Run(s, moves);
      t in s'.pc && s.log <= s'.log &&
      Matched(calls + Calls(s, moves, t), given + Returns(s, moves, t), s'.pc[t]) &&
      AnswersOf(s'.log, t) == given + Returns(s, moves, t) + Owes(s'.pc[t])
    decreases |moves|
  {
    hide *;
    UnfoldHistory(s, moves, t);
    if moves == [] {
      assert calls + [] == calls && given + [] == given;
    } else {
      var u, c := moves[0].tid, moves[0].choice;
      var s' := Step(s, u, c);
      var b, e := Begun(s.pc[t], s'.pc[t], c), Ended(s.pc[t], s'.pc[t]);
      StepMatched(s, u, c, t, calls, given);
      StepHistory(s, u, c, t);
      Shift(given, Owes(s.pc[t]), if u == t then Effected(s, u, c).answers else [], e, Owes(s'.pc[t]));
      RunHistory(s', moves[1..], t, calls + b, given + e);
      assert (calls + b) + Calls(s', moves[1..], t) == calls + (b + Calls(s', moves[1..], t));
      assert (given + e) + Returns(s', moves[1..], t) == given + (e + Returns(s', moves[1..], t));
    }
  }

  lemma UnfoldHistory(s: State, moves: seq<Move>, t: Tid)
    requires Named(s, moves) && t in s.pc
    ensures moves == [] ==> Run(s, moves) == s && Calls(s, moves, t) == [] && Returns(s, moves, t) == []
    ensures moves != [] ==> moves[0].tid in s.pc
    ensures moves != [] ==>
      var s' := Step(s, moves[0].tid, moves[0].choice);
      t in s'.pc && Named(s', moves[1..]) && Run(s, moves) == Run(s', moves[1..]) &&
      Calls(s, moves, t) == Begun(s.pc[t], s'.pc[t], moves[0].choice) + Calls(s', moves[1..], t) &&
      Returns(s, moves, t) == Ended(s.pc[t], s'.pc[t]) + Returns(s', moves[1..], t)
  {
    hide Begun, Ended, Apply;
  }

  lemma Shift(given: seq<Answer>, owed: seq<Answer>, added: seq<Answer>, e: seq<Answer>, owed': seq<Answer>)
    requires owed + added == e + owed'
    ensures (given + owed) + added == (given + e) + owed'
  {
    assert (given + owed) + added == given + (owed + added);
    assert (given + e) + owed' == given + (e + owed');
  }

  // Linearizable: in every interleaving the log, replayed on an atomic semaphore, is a
  // history of that semaphore and leaves it as it is.  For each thread the log holds the
  // answers its calls have returned, in their order, and the one that a call under way has
  // decided: so every call adds one entry between its beginning and its end, and returns
  // that one.  Each answer is one that the call can give.
  lemma Linearizable(s0: State, moves: seq<Move>, s: State)
    requires Reached(s0, moves, s)
    ensures Replays(s0.posted, s.log) && Final(s0.posted, s.log) == s.posted && s.pc.Keys == s0.pc.Keys
    ensures forall t :: t in s.pc ==> AnswersOf(s.log, t) == Returns(s0, moves, t) + Owes(s.pc[t])
    ensures forall t :: t in s.pc ==> Matched(Calls(s0, moves, t), Returns(s0, moves, t), s.pc[t])
    ensures forall t :: t in s.pc && s.pc[t].Leave? ==> LastOf(s.log, t) == [s.pc[t].answer]
    ensures forall t, c :: t in s.pc && s.pc[t] != Idle && Step(s, t, c).pc[t] == Idle ==> s.pc[t].Leave?
  {
    ReachedIs(s0, moves, s);
    hide *;
    ReachedInvariant(s0, moves, s);
    LoggedIs(s, s0.posted);
    forall t | t in s.pc
      ensures AnswersOf(s.log, t) == Returns(s0, moves, t) + Owes(s.pc[t])
      ensures Matched(Calls(s0, moves, t), Returns(s0, moves, t), s.pc[t])
    {
      InitialHistory(s0, t);
      RunHistory(s0, moves, t, [], []);
      assert [] + Calls(s0, moves, t) == Calls(s0, moves, t) && [] + Returns(s0, moves, t) == Returns(s0, moves, t);
    }
    forall t, c | t in s.pc && s.pc[t] != Idle && Step(s, t, c).pc[t] == Idle ensures s.pc[t].Leave? {
      StepReturns(s, t, c);
    }
  }

  lemma ReachedIs(s0: State, moves: seq<Move>, s: State)
    requires Reached(s0, moves, s)
    ensures Initial(s0) && Named(s0, moves) && s == Run(s0, moves)
  {}

  lemma InitialHistory(s: State, t: Tid)
    requires Initial(s) && t in s.pc
    ensures Matched([], [], s.pc[t]) && AnswersOf(s.log, t) == [] + Owes(s.pc[t])
  {}

  // The order of the log respects real time: what is logged before a moment stays in front
  // of what is logged after it.
  lemma {:induction false} RunLog(s: State, moves: seq<Move>)
    requires Named(s, moves)
    ensures s.log <= Run(s, moves).log
    decreases |moves|
  {
    if moves != [] {
      var u, c := moves[0].tid, moves[0].choice;
      assert u in s.pc;
      StepHistory(s, u, c, u);
      hide Step;
      RunLog(Step(s, u, c), moves[1..]);
    }
  }
}
