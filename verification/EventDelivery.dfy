/**
  What a post of an event semaphore achieves: once the semaphore is posted and nobody
  resets it, every call under way returns, the waits that were asleep among them, after a
  number of steps known beforehand, whatever the scheduler does.
 */
module EventDelivery {
  import opened EventSem

  // The steps a call has still to take at most while the semaphore is posted.
  function Rank(p: Pc): nat {
    match p
    case Idle => 0
    case Leave(_) => 1
    case PostSignal => 2
    case PostSet => 3
    case PostTest => 4
    case PostLock => 5
    case PeekRead => 2
    case PeekLock => 3
    case CloseRead => 2
    case CloseLock => 3
    case WaitLeave(_) => 2
    case WaitRead(_, _) => 3
    case Woken(_, _) => 4
    case Asleep(_) => 5
    case WaitTest(_) => 3
    case WaitCount(_) => 4
    case WaitLock(_) => 5
    case WaitSleep(_) => 6
    case ResetLock => 0
    case ResetRead => 0
    case ResetTest(_) => 0
    case ResetClear(_) => 0
  }

  predicate Resets(p: Pc) {
    p.ResetLock? || p.ResetRead? || p.ResetTest? || p.ResetClear?
  }

  ghost predicate NoResets(s: State) {
    forall t :: t in s.pc ==> !Resets(s.pc[t])
  }

  ghost function Total(pc: map<Tid, Pc>): nat
    decreases |pc|
  {
    if pc == map[] then 0
    else
      var t :| t in pc;
      Smaller(pc, t);
      Rank(pc[t]) + Total(pc - {t})
  }

  lemma Smaller(pc: map<Tid, Pc>, t: Tid)
    requires t in pc
    ensures |pc - {t}| == |pc| - 1
  {
    assert (pc - {t}).Keys == pc.Keys - {t};
    assert |pc| == |pc.Keys| && |pc - {t}| == |(pc - {t}).Keys|;
  }

  // The sum may be taken from any thread.
  lemma {:induction false} TotalFrom(pc: map<Tid, Pc>, t: Tid)
    requires t in pc
    ensures Total(pc) == Rank(pc[t]) + Total(pc - {t})
    decreases |pc|
  {
    var u :| u in pc && Total(pc) == Rank(pc[u]) + Total(pc - {u});
    if u != t {
      Smaller(pc, u);
      Smaller(pc, t);
      TotalFrom(pc - {u}, t);
      TotalFrom(pc - {t}, u);
      assert pc - {u} - {t} == pc - {t} - {u};
    }
  }

  lemma {:induction false} TotalWoken(pc: map<Tid, Pc>)
    ensures Total(Broadcast(pc)) <= Total(pc)
    decreases |pc|
  {
    if pc == map[] {
      assert Broadcast(pc) == map[];
    } else {
      var t :| t in pc;
      Smaller(pc, t);
      TotalWoken(pc - {t});
      TotalFrom(pc, t);
      TotalFrom(Broadcast(pc), t);
      assert Broadcast(pc) - {t} == Broadcast(pc - {t});
    }
  }

  lemma TotalSet(pc: map<Tid, Pc>, t: Tid, p: Pc)
    requires t in pc
    ensures Total(pc[t := p]) + Rank(pc[t]) == Total(pc) + Rank(p)
  {
    TotalFrom(pc, t);
    TotalFrom(pc[t := p], t);
    assert pc[t := p] - {t} == pc - {t};
  }

  lemma ActRanked(p: Pc, t: Tid, waiting: int, owner: Owner, c: Choice)
    requires !p.Idle? && !Resets(p) && Fact(p, true)
    ensures var e := Act(p, t, true, waiting, owner, c);
      e.posted && !Resets(e.pc) && (if e.pc == p then !e.wakes else Rank(e.pc) < Rank(p))
  {}

  lemma NotIdleAct(p: Pc)
    ensures Rank(p) == 0 <==> p.Idle? || Resets(p)
    ensures !Resets(p) ==> !Resets(Wake(p))
  {}

  // A call under way that moves brings the end nearer; the semaphore stays posted.
  lemma StepRanked(s: State, t: Tid, c: Choice)
    requires t in s.pc && Knows(s) && s.posted && NoResets(s) && !s.pc[t].Idle?
    ensures Step(s, t, c).posted && NoResets(Step(s, t, c))
    ensures Step(s, t, c).pc[t] != s.pc[t] ==> Total(Step(s, t, c).pc) < Total(s.pc)
  {
    var e := Effected(s, t, c);
    assert Fact(s.pc[t], s.posted) && !Resets(s.pc[t]);
    ActRanked(s.pc[t], t, s.waiting, s.owner, c);
    var base := if e.wakes then Broadcast(s.pc) else s.pc;
    hide Act, Rank, Fact, Total;
    forall u | u in s.pc ensures !Resets(Step(s, t, c).pc[u]) {
      PcAfter(s, t, c, u);
      NotIdleAct(s.pc[u]);
    }
    TotalWoken(s.pc);
    TotalSet(s.pc, t, e.pc);
    WokenSet(s.pc, t, e.pc);
    TotalWoken(s.pc[t := e.pc]);
  }

  // Waking the others and moving one thread commute, in what they leave of the total.
  lemma WokenSet(pc: map<Tid, Pc>, t: Tid, p: Pc)
    requires t in pc
    ensures Total(Broadcast(pc)[t := p]) <= Total(pc[t := p])
  {
    TotalFrom(Broadcast(pc)[t := p], t);
    TotalFrom(pc[t := p], t);
    TotalWoken(pc - {t});
    assert Broadcast(pc)[t := p] - {t} == Broadcast(pc - {t});
    assert pc[t := p] - {t} == pc - {t};
  }

  // The log has only been added to, and no added answer is a timeout.
  ghost predicate NoTimeout(before: seq<Entry>, after: seq<Entry>) {
    |before| <= |after| && after[..|before|] == before &&
    forall i :: |before| <= i < |after| ==> after[i].answer != Timeout
  }

  lemma NoTimeoutThen(a: seq<Entry>, b: seq<Entry>, c: seq<Entry>)
    requires NoTimeout(a, b) && NoTimeout(b, c)
    ensures NoTimeout(a, c)
  {
    assert c[..|a|] == c[..|b|][..|a|];
    forall i | |a| <= i < |c| ensures c[i].answer != Timeout {
      assert i < |b| ==> c[i] == c[..|b|][i];
    }
  }

  lemma ActInTime(p: Pc, t: Tid, waiting: int, owner: Owner, c: Choice)
    ensures Timeout !in Act(p, t, true, waiting, owner, c).answers
  {}

  lemma StepInTime(s: State, t: Tid, c: Choice)
    requires t in s.pc && s.posted
    ensures NoTimeout(s.log, Step(s, t, c).log)
  {
    ActInTime(s.pc[t], t, s.waiting, s.owner, c);
    hide Act;
  }

  // Every move is a step of a call under way that gets somewhere.
  ghost predicate Effective(s: State, moves: seq<Move>)
    requires Named(s, moves)
    decreases |moves|
  {
    moves == [] ||
      (var t, c := moves[0].tid, moves[0].choice;
       !s.pc[t].Idle? && Step(s, t, c).pc[t] != s.pc[t] && Effective(Step(s, t, c), moves[1..]))
  }

  // After a post that nobody takes back there are at most `Total` such moves.
  lemma {:induction false} Bounded(s: State, moves: seq<Move>, waiting: int, posted: bool)
    requires Invariant(s, waiting, posted) && s.posted && NoResets(s)
    requires Named(s, moves) && Effective(s, moves)
    ensures |moves| + Total(Run(s, moves).pc) <= Total(s.pc)
    ensures Run(s, moves).posted && NoResets(Run(s, moves)) && Run(s, moves).pc.Keys == s.pc.Keys
    ensures NoTimeout(s.log, Run(s, moves).log)
    decreases |moves|
  {
    if moves != [] {
      var t, c := moves[0].tid, moves[0].choice;
      assert moves[0] in moves;
      StepRanked(s, t, c);
      StepInvariant(s, t, c, waiting, posted);
      StepInTime(s, t, c);
      hide Invariant, Step, NoResets, Total, NoTimeout;
      Bounded(Step(s, t, c), moves[1..], waiting, posted);
      NoTimeoutThen(s.log, Step(s, t, c).log, Run(s, moves).log);
    }
  }

  // No call that is under way and awake can move.
  ghost predicate Stuck(s: State) {
    forall t, c :: t in s.pc && !s.pc[t].Idle? && !s.pc[t].Asleep? ==> Step(s, t, c).pc[t] == s.pc[t]
  }

  // Delivery: from any reachable state in which the semaphore is posted and nobody is
  // resetting it, the calls under way can make only so many moves, no wait that they decide
  // times out, and when those awake can make no more all of them have returned.
  lemma Delivered(s0: State, before: seq<Move>, s: State, moves: seq<Move>)
    requires Reached(s0, before, s) && s.posted && NoResets(s)
    requires Named(s, moves) && Effective(s, moves)
    ensures |moves| <= Total(s.pc)
    ensures NoTimeout(s.log, Run(s, moves).log)
    ensures Stuck(Run(s, moves)) ==> forall t :: t in s.pc ==> t in Run(s, moves).pc && Run(s, moves).pc[t].Idle?
  {
    ReachedInvariant(s0, before, s);
    Bounded(s, moves, s0.waiting, s0.posted);
    RunInvariant(s, moves, s0.waiting, s0.posted);
    hide Reached, Effective, Total, Run;
    var s' := Run(s, moves);
    if Stuck(s') {
      forall t | t in s'.pc ensures s'.pc[t].Idle? {
        StuckIdle(s', t, s0.waiting, s0.posted);
      }
    }
  }

  lemma StuckIdle(s: State, t: Tid, waiting: int, posted: bool)
    requires Invariant(s, waiting, posted) && s.posted && Stuck(s) && t in s.pc
    ensures s.pc[t].Idle?
  {
    hide Knows, Counted, Logged, Step, Act;
    if s.owner.Held? {
      Moving(s, s.owner.tid);
    } else if !s.pc[t].Idle? && !s.pc[t].Asleep? {
      Moving(s, t);
    }
  }

  lemma Moving(s: State, u: Tid)
    requires Excluded(s) && u in s.pc && !s.pc[u].Idle? && !s.pc[u].Asleep?
    requires s.owner == Held(u) || s.owner == Nobody
    ensures !Stuck(s)
  {
    PcAfter(s, u, Post, u);
    hide Act, Step;
    if Inside(s.pc[u]) {
      ActInside(s.pc[u], u, s.posted, s.waiting, Post);
    } else {
      ActFree(s.pc[u], u, s.posted, s.waiting, Post);
    }
    assert Step(s, u, Post).pc[u] != s.pc[u];
  }
}
