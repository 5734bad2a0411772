/**
  The event semaphore of native/doscalls.c: posts, resets and waits of any number of
  threads, interleaved step by step.  A step is one statement inside a critical section,
  one operation on the mutex, or one event of the condition variable.
 */
module EventSem {

  type Tid = nat

  datatype Owner = Nobody | Held(tid: Tid)

  datatype Answer =
    | Posted | AlreadyPosted
    | Reset(count: bool) | AlreadyReset(count: bool)
    | Success | Timeout
    | Busy | Unused

  // Where a thread is.  `timed` is a wait with a deadline, `expired` one whose deadline
  // passed while it slept.
  datatype Pc =
    | Idle
    | PostLock | PostTest | PostSet | PostSignal
    | ResetLock | ResetRead | ResetTest(count: bool) | ResetClear(count: bool)
    | PeekLock | PeekRead
    | WaitLock(timed: bool) | WaitCount(timed: bool) | WaitTest(timed: bool) | WaitSleep(timed: bool)
    | Asleep(timed: bool) | Woken(timed: bool, expired: bool) | WaitRead(timed: bool, expired: bool)
    | WaitLeave(ok: bool)
    | CloseLock | CloseRead
    | Leave(answer: Answer)

  datatype Entry = Entry(tid: Tid, answer: Answer)

  // `log` records each answer at the step that decides it.
  datatype State = State(posted: bool, waiting: int, owner: Owner, pc: map<Tid, Pc>, log: seq<Entry>)

  // What a thread may choose where the program leaves it open: the call to make, or how
  // its sleep ends other than by a signal.
  datatype Choice = Post | ResetSem | Peek | Wait(timed: bool) | Close | Spurious | Expire

  // ----- Steps ------------------------------------------------------------------------

  // What one step of a thread does: where it goes, the shared state it leaves, whether it
  // wakes the sleepers, and the answer it decides, if any.
  datatype Effect = Effect(pc: Pc, posted: bool, waiting: int, owner: Owner, wakes: bool, answers: seq<Answer>)

  function Start(c: Choice): Pc {
    match c
    case Post => PostLock
    case ResetSem => ResetLock
    case Peek => PeekLock
    case Wait(timed) => WaitLock(timed)
    case Close => CloseLock
    case _ => Idle
  }

  // One step of thread `t` at `p`; a thread that cannot move stays where it is.
  function Act(p: Pc, t: Tid, posted: bool, waiting: int, owner: Owner, c: Choice): Effect {
    var stay := Effect(p, posted, waiting, owner, false, []);
    match p
    case Idle => stay.(pc := Start(c))

    case PostLock => Lock(stay, t, PostTest)
    case PostTest => if posted then Answered(stay, AlreadyPosted) else stay.(pc := PostSet)
    case PostSet => stay.(pc := PostSignal, posted := true, answers := [Posted])
    case PostSignal => stay.(pc := Leave(Posted), wakes := true)

    case ResetLock => Lock(stay, t, ResetRead)
    case ResetRead => stay.(pc := ResetTest(posted))
    case ResetTest(count) => if !posted then Answered(stay, AlreadyReset(count)) else stay.(pc := ResetClear(count))
    case ResetClear(count) => Answered(stay, Reset(count)).(posted := false)

    case PeekLock => Lock(stay, t, PeekRead)
    case PeekRead => Answered(stay, if posted then Success else Timeout)

    case WaitLock(timed) => Lock(stay, t, WaitCount(timed))
    case WaitCount(timed) => stay.(pc := WaitTest(timed), waiting := waiting + 1)
    case WaitTest(timed) =>
      if posted then stay.(pc := WaitLeave(true), answers := [Success]) else stay.(pc := WaitSleep(timed))
    case WaitSleep(timed) => stay.(pc := Asleep(timed), owner := Nobody)
    case Asleep(timed) =>
      if c == Spurious then stay.(pc := Woken(timed, false))
      else if c == Expire && timed then stay.(pc := Woken(timed, true))
      else stay
    case Woken(timed, expired) => Lock(stay, t, WaitRead(timed, expired))
    case WaitRead(timed, expired) =>
      if posted then stay.(pc := WaitLeave(true), answers := [Success])
      else if expired then stay.(pc := WaitLeave(false), answers := [Timeout])
      else stay.(pc := WaitTest(timed))
    case WaitLeave(ok) => stay.(pc := Leave(if ok then Success else Timeout), waiting := waiting - 1)

    case CloseLock => Lock(stay, t, CloseRead)
    case CloseRead => Answered(stay, if waiting > 0 then Busy else Unused)

    case Leave(_) => stay.(pc := Idle, owner := Nobody)
  }

  function Lock(stay: Effect, t: Tid, inside: Pc): Effect {
    if stay.owner == Nobody then stay.(pc := inside, owner := Held(t)) else stay
  }

  function Answered(stay: Effect, a: Answer): Effect {
    stay.(pc := Leave(a), answers := [a])
  }

  function Wake(p: Pc): Pc {
    if p.Asleep? then Woken(p.timed, false) else p
  }

  function Broadcast(pc: map<Tid, Pc>): map<Tid, Pc> {
    map t | t in pc :: Wake(pc[t])
  }

  function Entries(t: Tid, answers: seq<Answer>): seq<Entry> {
    seq(|answers|, i requires 0 <= i < |answers| => Entry(t, answers[i]))
  }

  function Apply(s: State, t: Tid, e: Effect): State {
    State(e.posted, e.waiting, e.owner, (if e.wakes then Broadcast(s.pc) else s.pc)[t := e.pc],
      s.log + Entries(t, e.answers))
  }

  function Effected(s: State, t: Tid, c: Choice): Effect
    requires t in s.pc
  {
    Act(s.pc[t], t, s.posted, s.waiting, s.owner, c)
  }

  function Step(s: State, t: Tid, c: Choice): (s': State)
    requires t in s.pc
    ensures s'.pc.Keys == s.pc.Keys
  {
    Apply(s, t, Effected(s, t, c))
  }

  datatype Move = Move(tid: Tid, choice: Choice)

  ghost predicate Named(s: State, moves: seq<Move>) {
    forall m :: m in moves ==> m.tid in s.pc
  }

  // Any interleaving: any threads taking any steps in any order.
  ghost function Run(s: State, moves: seq<Move>): State
    requires Named(s, moves)
    decreases |moves|
  {
    if moves == [] then s else Run(Step(s, moves[0].tid, moves[0].choice), moves[1..])
  }

  // A semaphore just made: nobody has called it, and `waiting` is whatever memory held.
  ghost predicate Initial(s: State) {
    s.owner == Nobody && s.log == [] && forall t :: t in s.pc ==> s.pc[t] == Idle
  }

  // ----- The mutex ----------------------------------------------------------------------

  predicate Inside(p: Pc) {
    !(p.Idle? || p.PostLock? || p.ResetLock? || p.PeekLock? || p.WaitLock? || p.CloseLock? || p.Asleep? || p.Woken?)
  }

  // Exactly the owner of the mutex is inside a critical section.
  ghost predicate Excluded(s: State) {
    (forall t :: t in s.pc ==> (Inside(s.pc[t]) <==> s.owner == Held(t))) && (s.owner.Held? ==> s.owner.tid in s.pc)
  }

  lemma ActOutside(p: Pc, t: Tid, posted: bool, waiting: int, owner: Owner, c: Choice)
    requires !Inside(p)
    ensures var e := Act(p, t, posted, waiting, owner, c);
      e.posted == posted && e.waiting == waiting && !e.wakes && e.answers == [] &&
      (e.owner == owner || (owner == Nobody && e.owner == Held(t)))
    ensures var e := Act(p, t, posted, waiting, owner, c); Inside(e.pc) <==> owner == Nobody && e.owner == Held(t)
  {}

  lemma ActInside(p: Pc, t: Tid, posted: bool, waiting: int, c: Choice)
    requires Inside(p)
    ensures var e := Act(p, t, posted, waiting, Held(t), c);
      (Inside(e.pc) <==> e.owner == Held(t)) && (!Inside(e.pc) ==> e.owner == Nobody) && e.pc != p
  {}

  lemma PcAfter(s: State, t: Tid, c: Choice, u: Tid)
    requires t in s.pc && u in s.pc
    ensures Step(s, t, c).pc[u] ==
      if u == t then Effected(s, t, c).pc else if Effected(s, t, c).wakes then Wake(s.pc[u]) else s.pc[u]
  {
    hide Effected;
  }

  // A thread outside leaves the others and everything shared alone, except a free mutex.
  lemma StepShared(s: State, t: Tid, c: Choice)
    requires t in s.pc && Excluded(s)
    ensures s.owner != Held(t) ==>
      Step(s, t, c).posted == s.posted && Step(s, t, c).waiting == s.waiting && Step(s, t, c).log == s.log
    ensures s.owner != Held(t) ==> !Effected(s, t, c).wakes && (s.owner.Held? ==> Step(s, t, c).owner == s.owner)
  {
    if s.owner != Held(t) {
      ActOutside(s.pc[t], t, s.posted, s.waiting, s.owner, c);
      hide Act;
      assert s.log + [] == s.log;
    }
  }

  lemma StepExcluded(s: State, t: Tid, c: Choice)
    requires t in s.pc && Excluded(s)
    ensures Excluded(Step(s, t, c))
  {
    if Inside(s.pc[t]) {
      ActInside(s.pc[t], t, s.posted, s.waiting, c);
    } else {
      ActOutside(s.pc[t], t, s.posted, s.waiting, s.owner, c);
    }
    forall u | u in s.pc ensures Inside(Step(s, t, c).pc[u]) <==> Step(s, t, c).owner == Held(u) {
      PcAfter(s, t, c, u);
      hide Act;
    }
    hide Act;
  }

  // ----- What a thread inside knows -------------------------------------------------------

  predicate Fact(p: Pc, posted: bool) {
    match p
    case PostSet => !posted
    case PostSignal => posted
    case ResetTest(count) => count == posted
    case ResetClear(count) => posted && count
    case WaitSleep(_) => !posted
    case WaitLeave(ok) => ok == posted
    case _ => true
  }

  ghost predicate Knows(s: State) {
    forall t :: t in s.pc ==> Fact(s.pc[t], s.posted)
  }

  lemma ActFact(p: Pc, t: Tid, posted: bool, waiting: int, owner: Owner, c: Choice)
    requires Fact(p, posted)
    ensures var e := Act(p, t, posted, waiting, owner, c); Fact(e.pc, e.posted)
  {}

  lemma OutsideFact(p: Pc, posted: bool)
    requires !Inside(p)
    ensures Fact(p, posted) && Fact(Wake(p), posted) && !Inside(Wake(p))
  {}

  lemma StepKnows(s: State, t: Tid, c: Choice)
    requires t in s.pc && Excluded(s) && Knows(s)
    ensures Knows(Step(s, t, c))
  {
    ActFact(s.pc[t], t, s.posted, s.waiting, s.owner, c);
    StepShared(s, t, c);
    forall u | u in s.pc ensures Fact(Step(s, t, c).pc[u], Step(s, t, c).posted) {
      PcAfter(s, t, c, u);
      if u != t && !Inside(s.pc[u]) {
        OutsideFact(s.pc[u], Step(s, t, c).posted);
      }
      hide Act, Fact, Inside;
    }
    hide Act, Fact, Inside, Effected;
  }

  // ----- No lost wakeup --------------------------------------------------------------------

  // While the semaphore is posted nobody sleeps, except between the store and the
  // broadcast of the thread that posts it.
  ghost predicate Awake(s: State) {
    forall t :: t in s.pc && s.pc[t].Asleep? && s.posted ==>
      s.owner.Held? && s.owner.tid in s.pc && s.pc[s.owner.tid] == PostSignal
  }

  lemma ActAwake(p: Pc, t: Tid, posted: bool, waiting: int, owner: Owner, c: Choice)
    requires Fact(p, posted)
    ensures var e := Act(p, t, posted, waiting, owner, c); e.posted && !posted ==>
      e.pc == PostSignal && e.owner == owner
    ensures var e := Act(p, t, posted, waiting, owner, c); e.pc.Asleep? ==> !e.posted || p.Asleep?
    ensures p == PostSignal <==> Act(p, t, posted, waiting, owner, c).wakes
    ensures p.Asleep? ==> Act(p, t, posted, waiting, owner, c).owner == owner
  {}

  lemma StepAwake(s: State, t: Tid, c: Choice)
    requires t in s.pc && Excluded(s) && Knows(s) && Awake(s)
    ensures Awake(Step(s, t, c))
  {
    var s' := Step(s, t, c);
    assert Fact(s.pc[t], s.posted);
    ActAwake(s.pc[t], t, s.posted, s.waiting, s.owner, c);
    StepShared(s, t, c);
    assert !s.posted && s'.posted ==> s.owner == Held(t);
    forall u | u in s.pc && s'.pc[u].Asleep? && s'.posted
      ensures s'.owner.Held? && s'.owner.tid in s'.pc && s'.pc[s'.owner.tid] == PostSignal
    {
      PcAfter(s, t, c, u);
      hide Act, Fact, Inside;
      assert Awakes(s, u);
      PcAfter(s, t, c, if s.owner.Held? then s.owner.tid else t);
    }
    hide Act, Fact, Inside, Effected;
  }

  ghost predicate Awakes(s: State, u: Tid) {
    u in s.pc && s.pc[u].Asleep? && s.posted ==>
      s.owner.Held? && s.owner.tid in s.pc && s.pc[s.owner.tid] == PostSignal
  }

  // ----- The count of waiters ------------------------------------------------------------

  // In a blocking wait: from the increment to the decrement.
  predicate Waits(p: Pc) {
    p.WaitTest? || p.WaitSleep? || p.Asleep? || p.Woken? || p.WaitRead? || p.WaitLeave?
  }

  ghost function Waiters(pc: map<Tid, Pc>): set<Tid> {
    set t | t in pc && Waits(pc[t])
  }

  // `start` is what the field held when the semaphore was made.
  ghost predicate Counted(s: State, start: int) {
    s.waiting == start + |Waiters(s.pc)|
  }

  function One(b: bool): int {
    if b then 1 else 0
  }

  lemma ActCounted(p: Pc, t: Tid, posted: bool, waiting: int, owner: Owner, c: Choice)
    ensures var e := Act(p, t, posted, waiting, owner, c); e.waiting - waiting == One(Waits(e.pc)) - One(Waits(p))
  {}

  lemma WakeWaits(pc: map<Tid, Pc>)
    ensures Waiters(Broadcast(pc)) == Waiters(pc)
  {
    forall t | t in pc ensures Waits(Wake(pc[t])) <==> Waits(pc[t]) {
    }
  }

  lemma SetWaits(pc: map<Tid, Pc>, t: Tid, p: Pc)
    requires t in pc
    ensures |Waiters(pc[t := p])| == |Waiters(pc)| - One(Waits(pc[t])) + One(Waits(p))
  {
    var rest := Waiters(pc) - {t};
    hide Waits;
    assert Waiters(pc[t := p]) - {t} == rest;
    hide Waiters;
    WaitersHas(pc, t);
    WaitersHas(pc[t := p], t);
  }

  lemma WaitersHas(pc: map<Tid, Pc>, t: Tid)
    requires t in pc
    ensures |Waiters(pc)| == |Waiters(pc) - {t}| + One(Waits(pc[t]))
  {
    hide Waits;
    if Waits(pc[t]) {
      assert Waiters(pc) == (Waiters(pc) - {t}) + {t};
    } else {
      assert Waiters(pc) == Waiters(pc) - {t};
    }
  }

  lemma StepCounted(s: State, t: Tid, c: Choice, start: int)
    requires t in s.pc && Counted(s, start)
    ensures Counted(Step(s, t, c), start)
  {
    var e := Effected(s, t, c);
    ActCounted(s.pc[t], t, s.posted, s.waiting, s.owner, c);
    WakeWaits(s.pc);
    var base := if e.wakes then Broadcast(s.pc) else s.pc;
    assert Waits(base[t]) == Waits(s.pc[t]);
    hide Act, Waits, Waiters, Broadcast;
    SetWaits(base, t, e.pc);
  }

  // ----- The answers are those of an atomic semaphore ----------------------------------------

  // What an atomic event semaphore may answer, and its state afterwards.
  predicate Allowed(a: Answer, posted: bool) {
    match a
    case Posted => !posted
    case AlreadyPosted => posted
    case Reset(count) => posted && count
    case AlreadyReset(count) => !posted && !count
    case Success => posted
    case Timeout => !posted
    case Busy => true
    case Unused => true
  }

  function Becomes(a: Answer, posted: bool): bool {
    if a.Posted? then true else if a.Reset? then false else posted
  }

  // The log, replayed on an atomic semaphore: what it ends with, and whether that
  // semaphore could have given these answers.
  ghost function Final(start: bool, log: seq<Entry>): bool {
    if log == [] then start else Becomes(log[|log| - 1].answer, Final(start, log[..|log| - 1]))
  }

  ghost predicate Replays(start: bool, log: seq<Entry>) {
    log == [] || (Replays(start, log[..|log| - 1]) && Allowed(log[|log| - 1].answer, Final(start, log[..|log| - 1])))
  }

  ghost function LastOf(log: seq<Entry>, t: Tid): seq<Answer> {
    if log == [] then []
    else if log[|log| - 1].tid == t then [log[|log| - 1].answer]
    else LastOf(log[..|log| - 1], t)
  }

  // The answer that a call has decided and not yet returned.
  function Owes(p: Pc): seq<Answer> {
    match p
    case PostSignal => [Posted]
    case WaitLeave(ok) => [if ok then Success else Timeout]
    case Leave(a) => [a]
    case _ => []
  }

  ghost predicate Logged(s: State, start: bool) {
    Replays(start, s.log) && Final(start, s.log) == s.posted &&
    forall t :: t in s.pc && Owes(s.pc[t]) != [] ==> LastOf(s.log, t) == Owes(s.pc[t])
  }

  // A call decides its answer once, in a step that the atomic semaphore allows.
  lemma ActLogged(p: Pc, t: Tid, posted: bool, waiting: int, owner: Owner, c: Choice)
    requires Fact(p, posted)
    ensures var e := Act(p, t, posted, waiting, owner, c);
      if e.answers == [] then e.posted == posted && (Owes(e.pc) == [] || Owes(e.pc) == Owes(p))
      else
        Owes(p) == [] && |e.answers| == 1 && Owes(e.pc) == e.answers && Allowed(e.answers[0], posted) &&
        e.posted == Becomes(e.answers[0], posted)
  {}

  // And it does not return before that.
  lemma ActReturns(p: Pc, t: Tid, posted: bool, waiting: int, owner: Owner, c: Choice)
    requires p != Idle && Act(p, t, posted, waiting, owner, c).pc == Idle
    ensures p.Leave? && Owes(p) == [p.answer]
  {}

  lemma LogMore(start: bool, log: seq<Entry>, t: Tid, a: Answer, posted: bool, u: Tid)
    requires Replays(start, log) && Final(start, log) == posted && Allowed(a, posted)
    ensures Replays(start, log + [Entry(t, a)]) && Final(start, log + [Entry(t, a)]) == Becomes(a, posted)
    ensures LastOf(log + [Entry(t, a)], u) == if u == t then [a] else LastOf(log, u)
  {
    assert (log + [Entry(t, a)])[..|log|] == log;
  }

  lemma StepLogged(s: State, t: Tid, c: Choice, start: bool)
    requires t in s.pc && Knows(s) && Logged(s, start)
    ensures Logged(Step(s, t, c), start)
  {
    var e := Effected(s, t, c);
    var s' := Step(s, t, c);
    assert Fact(s.pc[t], s.posted);
    ActLogged(s.pc[t], t, s.posted, s.waiting, s.owner, c);
    if e.answers == [] {
      assert s'.log == s.log;
    } else {
      assert Entries(t, e.answers) == [Entry(t, e.answers[0])];
      LogMore(start, s.log, t, e.answers[0], s.posted, t);
    }
    hide Act, Fact, Allowed, Replays, Final, LastOf, Owes;
    forall u | u in s.pc && Owes(s'.pc[u]) != [] ensures LastOf(s'.log, u) == Owes(s'.pc[u]) {
      PcAfter(s, t, c, u);
      WakeOwes(s.pc[u]);
      if e.answers != [] {
        LogMore(start, s.log, t, e.answers[0], s.posted, u);
      }
    }
  }

  lemma WakeOwes(p: Pc)
    ensures Owes(Wake(p)) == Owes(p)
  {}

  // ----- Every interleaving -------------------------------------------------------------------

  // `waiting` and `posted` are what the fields held at the start.
  ghost predicate Invariant(s: State, waiting: int, posted: bool) {
    Excluded(s) && Knows(s) && Awake(s) && Counted(s, waiting) && Logged(s, posted)
  }

  lemma InitialInvariant(s: State)
    requires Initial(s)
    ensures Invariant(s, s.waiting, s.posted)
  {
    assert Waiters(s.pc) == {};
  }

  lemma StepInvariant(s: State, t: Tid, c: Choice, waiting: int, posted: bool)
    requires Invariant(s, waiting, posted) && t in s.pc
    ensures Invariant(Step(s, t, c), waiting, posted)
  {
    hide Excluded, Knows, Awake, Counted, Logged, Step;
    StepExcluded(s, t, c);
    StepKnows(s, t, c);
    StepAwake(s, t, c);
    StepCounted(s, t, c, waiting);
    StepLogged(s, t, c, posted);
  }

  lemma {:induction false} RunInvariant(s: State, moves: seq<Move>, waiting: int, posted: bool)
    requires Invariant(s, waiting, posted) && Named(s, moves)
    ensures Invariant(Run(s, moves), waiting, posted) && Run(s, moves).pc.Keys == s.pc.Keys
    decreases |moves|
  {
    if moves != [] {
      assert moves[0].tid in s.pc;
      StepInvariant(s, moves[0].tid, moves[0].choice, waiting, posted);
      hide Invariant, Step;
      RunInvariant(Step(s, moves[0].tid, moves[0].choice), moves[1..], waiting, posted);
    }
  }

  // `s` is where some interleaving has led.
  ghost predicate Reached(s0: State, moves: seq<Move>, s: State) {
    Initial(s0) && Named(s0, moves) && s == Run(s0, moves)
  }

  lemma ReachedInvariant(s0: State, moves: seq<Move>, s: State)
    requires Reached(s0, moves, s)
    ensures Invariant(s, s0.waiting, s0.posted) && s.pc.Keys == s0.pc.Keys
    ensures Excluded(s) && Knows(s) && Awake(s) && Counted(s, s0.waiting) && Logged(s, s0.posted)
  {
    InitialInvariant(s0);
    hide Excluded, Knows, Awake, Counted, Logged, Run, Initial;
    RunInvariant(s0, moves, s0.waiting, s0.posted);
  }

  // No lost wakeup: whatever has happened, nobody sleeps on a posted semaphore while the
  // mutex is free, nor when every call that is under way sleeps.
  lemma NoLostWakeup(s0: State, moves: seq<Move>, s: State, t: Tid)
    requires Reached(s0, moves, s) && t in s.pc && s.posted
    requires s.owner == Nobody || forall u :: u in s.pc ==> s.pc[u].Idle? || s.pc[u].Asleep?
    ensures !s.pc[t].Asleep?
  {
    ReachedInvariant(s0, moves, s);
    hide Reached, Knows, Counted, Logged, Invariant;
  }

  // The mutex never gets stuck: if a call is under way and not asleep, some such call can
  // take a step, whatever the scheduler chooses.
  lemma Progress(s0: State, moves: seq<Move>, s: State, t: Tid)
    requires Reached(s0, moves, s) && t in s.pc && !s.pc[t].Idle? && !s.pc[t].Asleep?
    ensures exists u :: Moves(s, u)
  {
    ReachedInvariant(s0, moves, s);
    hide Reached, Knows, Awake, Counted, Logged, Invariant, Step, Act;
    var u := if s.owner.Held? then s.owner.tid else t;
    forall c ensures Step(s, u, c).pc[u] != s.pc[u] {
      PcAfter(s, u, c, u);
      if Inside(s.pc[u]) {
        ActInside(s.pc[u], u, s.posted, s.waiting, c);
      } else {
        ActFree(s.pc[u], u, s.posted, s.waiting, c);
      }
    }
    assert Moves(s, u);
  }

  lemma ActFree(p: Pc, t: Tid, posted: bool, waiting: int, c: Choice)
    requires !Inside(p) && !p.Idle? && !p.Asleep?
    ensures Act(p, t, posted, waiting, Nobody, c).pc != p
  {}

  ghost predicate Moves(s: State, u: Tid) {
    u in s.pc && !s.pc[u].Idle? && !s.pc[u].Asleep? && forall c :: Step(s, u, c).pc[u] != s.pc[u]
  }

  // A wait that is about to return success holds the mutex and the semaphore is posted.
  lemma SuccessMeansPosted(s0: State, moves: seq<Move>, s: State, t: Tid, c: Choice)
    requires Reached(s0, moves, s) && t in s.pc
    requires s.pc[t] != Leave(Success) && Step(s, t, c).pc[t] == Leave(Success)
    ensures s.posted && s.owner == Held(t)
  {
    ReachedInvariant(s0, moves, s);
    assert Fact(s.pc[t], s.posted);
    PcAfter(s, t, c, t);
    hide Act, Reached, Awake, Counted, Logged, Invariant, Step, Fact;
    ActSuccess(s.pc[t], t, s.posted, s.waiting, s.owner, c);
  }

  lemma ActSuccess(p: Pc, t: Tid, posted: bool, waiting: int, owner: Owner, c: Choice)
    requires Fact(p, posted) && p != Leave(Success) && Act(p, t, posted, waiting, owner, c).pc == Leave(Success)
    ensures posted && Inside(p)
  {}

  // A call ends only where it returns an answer.
  lemma StepReturns(s: State, t: Tid, c: Choice)
    requires t in s.pc && s.pc[t] != Idle && Step(s, t, c).pc[t] == Idle
    ensures s.pc[t].Leave?
  {
    ActReturns(s.pc[t], t, s.posted, s.waiting, s.owner, c);
    hide Act, Broadcast;
  }

  lemma LoggedIs(s: State, start: bool)
    requires Logged(s, start)
    ensures Replays(start, s.log) && Final(start, s.log) == s.posted
    ensures forall t :: t in s.pc && s.pc[t].Leave? ==> LastOf(s.log, t) == [s.pc[t].answer]
  {
    hide Replays, Final, LastOf;
    assert forall t :: t in s.pc && s.pc[t].Leave? ==> Owes(s.pc[t]) == [s.pc[t].answer];
  }

  // ----- Closing ---------------------------------------------------------------------------

  // The test of DosCloseEventSem tells whether anybody waits.
  ghost predicate CloseTells(s: State) {
    s.waiting > 0 <==> Waiters(s.pc) != {}
  }

  // It does in every interleaving exactly when the memory of the new semaphore happened to
  // hold 0 in `waiting`, which creation does not set.
  lemma CloseTellsIff(s0: State)
    requires Initial(s0) && s0.pc != map[]
    ensures s0.waiting == 0 <==> forall moves :: Named(s0, moves) ==> CloseTells(Run(s0, moves))
  {
    if s0.waiting == 0 {
      forall moves | Named(s0, moves) ensures CloseTells(Run(s0, moves)) {
        InitialInvariant(s0);
        RunInvariant(s0, moves, 0, s0.posted);
      }
    } else if s0.waiting > 0 {
      assert Waiters(s0.pc) == {};
      assert Named(s0, []) && Run(s0, []) == s0;
    } else {
      var t :| t in s0.pc;
      EarlyWaiter(s0, t);
    }
  }

  lemma EarlyWaiter(s0: State, t: Tid)
    requires Initial(s0) && t in s0.pc && s0.waiting < 0
    ensures var moves := [Move(t, Wait(false)), Move(t, Spurious), Move(t, Spurious)];
      Named(s0, moves) && !CloseTells(Run(s0, moves))
  {
    var s1 := Step(s0, t, Wait(false));
    var s2 := Step(s1, t, Spurious);
    var s3 := Step(s2, t, Spurious);
    var moves := [Move(t, Wait(false)), Move(t, Spurious), Move(t, Spurious)];
    assert s1.pc[t] == WaitLock(false) && s2.pc[t] == WaitCount(false) && s3.pc[t] == WaitTest(false);
    assert t in Waiters(s3.pc);
    assert moves[1..][1..] == [Move(t, Spurious)] && moves[1..][1..][1..] == [];
    hide Act, Waiters;
    assert Run(s2, moves[1..][1..]) == s3;
    assert Run(s1, moves[1..]) == s3;
  }
}
