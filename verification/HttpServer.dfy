/**
 The lifecycle of the HTTP server: phase, child counter, waiter lists, sessions and concurrent
 closers, all on one executor.  A turn is the code an actor runs between two suspension points.
 */
module Lifecycle {
  datatype Phase = Created | Listening | Closing | Closed

  /** Where a `close_impl` coroutine is suspended; a woken one has its timer cancelled but has not resumed. */
  datatype Closer = InDrain | DrainWoken | InClose | CloseWoken | Returned

  /**
   The shared state and its actors.  `acceptLoop` says that the accept coroutine exists, `running` is the
   flag the code keeps about it, `sessions` are the live session coroutines, and `finalized` counts the
   turns that took Closing to Closed.
   */
  datatype State = State(
    phase: Phase, childCount: nat, running: bool, acceptorOpen: bool,
    drainWaiters: seq<nat>, closeWaiters: seq<nat>,
    acceptLoop: bool, sessions: set<nat>, closers: map<nat, Closer>, finalized: nat)

  const Fresh := State(Created, 0, false, false, [], [], false, {}, map[], 0)

  // ---------------------------------------------------------------- the member functions

  /** Cancelling a timer resumes the closer that sleeps on it. */
  function Wake(closers: map<nat, Closer>, timers: seq<nat>): map<nat, Closer> {
    map c | c in closers ::
      if c !in timers then closers[c]
      else if closers[c] == InDrain then DrainWoken
      else if closers[c] == InClose then CloseWoken
      else closers[c]
  }

  function WakeDrainWaiters(s: State): State {
    s.(drainWaiters := [], closers := Wake(s.closers, s.drainWaiters))
  }

  function WakeCloseWaiters(s: State): State {
    s.(closeWaiters := [], closers := Wake(s.closers, s.closeWaiters))
  }

  function TryFinalizeClose(s: State): State {
    if s.phase != Closing || s.childCount != 0 then s
    else WakeCloseWaiters(WakeDrainWaiters(
      s.(acceptorOpen := false, phase := Closed, finalized := s.finalized + 1)))
  }

  function ChildDec(s: State): State {
    if s.childCount == 0 then s
    else
      var t := s.(childCount := s.childCount - 1);
      if t.childCount == 0 then TryFinalizeClose(WakeDrainWaiters(t)) else t
  }

  /** Stop requests and cancellation only make the actors end sooner; the acceptor is closed at once. */
  function RequestShutdown(s: State): State {
    s.(acceptorOpen := false)
  }

  function BeginClose(s: State): State {
    match s.phase
    case Closed => s
    case Created => WakeCloseWaiters(s.(phase := Closed))
    case Listening => TryFinalizeClose(RequestShutdown(s.(phase := Closing)))
    case Closing => TryFinalizeClose(RequestShutdown(s))
  }

  // ---------------------------------------------------------------- turns

  /** `co_spawn` starts the coroutine, or throws a `std::exception`, or throws something else. */
  datatype Spawn = Spawned | ThrewStd | ThrewOther

  function WithLoop(s: State, live: bool): State {
    s.(acceptLoop := live)
  }

  /** The commit tail of `async_listen`; any other phase is an error without effect. */
  function Listen(s: State, spawn: Spawn): State {
    if s.phase != Created then s
    else
      var t := s.(acceptorOpen := true, phase := Listening, running := true, childCount := s.childCount + 1);
      match spawn
      case Spawned => WithLoop(t, true)
      case ThrewStd => ChildDec(t.(running := false, acceptorOpen := false, phase := Created))
      case ThrewOther => BeginClose(t)
  }

  /** The accept loop ends, for whatever reason: its guard object never leaves Listening without a loop. */
  function AcceptEnd(s: State): State {
    var t := WithLoop(s, false).(running := false);
    ChildDec(if t.phase == Listening then BeginClose(t) else t)
  }

  /** `async_accept` delivers a socket. */
  function Accepted(s: State, id: nat, spawn: Spawn): State {
    if s.phase != Listening then AcceptEnd(s)
    else
      var t := s.(childCount := s.childCount + 1);
      match spawn
      case Spawned => t.(sessions := s.sessions + {id})
      case ThrewStd => ChildDec(t)
      case ThrewOther => AcceptEnd(BeginClose(t))
  }

  function SessionEnd(s: State, id: nat): State {
    ChildDec(s.(sessions := s.sessions - {id}))
  }

  function Goto(s: State, c: nat, at: Closer): State {
    s.(closers := s.closers[c := at])
  }

  function SleepInDrain(s: State, c: nat): State {
    Goto(s, c, InDrain).(drainWaiters := s.drainWaiters + [c])
  }

  /** `wait_close_complete` up to its next suspension. */
  function AwaitClosed(s: State, c: nat): State {
    if s.phase == Closed then Goto(s, c, Returned)
    else Goto(s, c, InClose).(closeWaiters := s.closeWaiters + [c])
  }

  /** `wait_children_drained`, and what follows it in `close_impl`, up to the next suspension. */
  function AwaitDrained(s: State, c: nat): State {
    if 0 < s.childCount then SleepInDrain(s, c) else AwaitClosed(TryFinalizeClose(s), c)
  }

  /** `close_impl` from its start. */
  function Close(s: State, c: nat): State {
    if s.phase == Closed then Goto(s, c, Returned)
    else
      var t := BeginClose(s);
      if t.phase == Closed then Goto(t, c, Returned) else AwaitDrained(t, c)
  }

  function Resume(s: State, c: nat): State
    requires c in s.closers
  {
    if s.closers[c] == DrainWoken then AwaitDrained(s, c) else AwaitClosed(s, c)
  }

  datatype Event =
    | EListen(spawn: Spawn)
    | EAccepted(id: nat, spawn: Spawn)
    | EAcceptEnd
    | ESessionEnd(id: nat)
    | EClose(c: nat)
    | EResume(c: nat)
    | EDispose

  predicate Enabled(s: State, e: Event) {
    match e
    case EListen(_) => true
    case EAccepted(id, _) => s.acceptLoop && id !in s.sessions
    case EAcceptEnd => s.acceptLoop
    case ESessionEnd(id) => id in s.sessions
    case EClose(c) => c !in s.closers
    case EResume(c) => c in s.closers && s.closers[c] in {DrainWoken, CloseWoken}
    case EDispose => true
  }

  function Apply(s: State, e: Event): State
    requires Enabled(s, e)
  {
    match e
    case EListen(spawn) => Listen(s, spawn)
    case EAccepted(id, spawn) => Accepted(s, id, spawn)
    case EAcceptEnd => AcceptEnd(s)
    case ESessionEnd(id) => SessionEnd(s, id)
    case EClose(c) => Close(s, c)
    case EResume(c) => Resume(s, c)
    case EDispose => BeginClose(s)
  }

  // ---------------------------------------------------------------- what every turn keeps

  function Children(s: State): nat {
    (if s.acceptLoop then 1 else 0) + |s.sessions|
  }

  predicate CountOk(s: State) {
    && s.childCount == Children(s)
    && s.running == s.acceptLoop
    && (s.phase == Listening ==> s.acceptLoop)
    && s.acceptorOpen == (s.phase == Listening)
    && (s.phase in {Created, Closed} ==> s.childCount == 0)
    && (s.phase == Closing ==> 0 < s.childCount)
    && s.finalized <= 1 && (s.finalized == 1 ==> s.phase == Closed)
  }

  /** A closer sleeps only on a timer in the drain list of a Closing server, and returns only at Closed. */
  ghost predicate ClosersOk(s: State) {
    && s.closeWaiters == []
    && (s.drainWaiters != [] ==> s.phase == Closing)
    && (forall c :: c in s.drainWaiters <==> c in s.closers && s.closers[c] == InDrain)
    && (forall c :: c in s.closers ==> s.closers[c] in {InDrain, DrainWoken, Returned})
    && (forall c :: c in s.closers && s.closers[c] != InDrain ==> s.phase == Closed)
  }

  ghost predicate Inv(s: State) {
    CountOk(s) && ClosersOk(s)
  }

  /** The spawn primitives throw nothing but `std::exception`. */
  predicate SpawnsCleanly(s: State, e: Event) {
    match e
    case EListen(spawn) => s.phase == Created ==> !spawn.ThrewOther?
    case EAccepted(_, spawn) => s.phase == Listening ==> !spawn.ThrewOther?
    case _ => true
  }

  /** The last child of a Closing server finalizes it and wakes every closer. */
  lemma FinalizeKeepsInv(s: State)
    requires ClosersOk(s) && s.phase == Closing && s.childCount == 0 && !s.acceptLoop && s.sessions == {}
    requires !s.running && !s.acceptorOpen && s.finalized == 0
    ensures Inv(TryFinalizeClose(s)) && Inv(TryFinalizeClose(WakeDrainWaiters(s)))
  {
  }

  lemma ChildDecKeepsInv(s: State)
    requires ClosersOk(s) && s.phase in {Created, Listening, Closing} && s.childCount == Children(s) + 1
    requires s.running == s.acceptLoop && s.acceptorOpen == (s.phase == Listening) && s.finalized == 0
    requires s.phase == Listening ==> s.acceptLoop
    requires s.phase == Created ==> s.childCount == 1
    ensures Inv(ChildDec(s))
  {
    if s.childCount == 1 && s.phase == Closing {
      FinalizeKeepsInv(s.(childCount := 0));
    }
  }

  lemma ListenKeepsInv(s: State, spawn: Spawn)
    requires Inv(s) && (s.phase == Created ==> !spawn.ThrewOther?)
    ensures Inv(Listen(s, spawn))
  {
    if s.phase == Created && spawn.ThrewStd? {
      ChildDecKeepsInv(s.(childCount := 1));
    }
  }

  lemma AcceptedKeepsInv(s: State, id: nat, spawn: Spawn)
    requires Inv(s) && s.acceptLoop && id !in s.sessions && (s.phase == Listening ==> !spawn.ThrewOther?)
    ensures Inv(Accepted(s, id, spawn))
  {
    if s.phase != Listening {
      AcceptEndKeepsInv(s);
    } else if spawn.ThrewStd? {
      ChildDecKeepsInv(s.(childCount := s.childCount + 1));
    }
  }

  lemma SessionEndKeepsInv(s: State, id: nat)
    requires Inv(s) && id in s.sessions
    ensures Inv(SessionEnd(s, id))
  {
    ChildDecKeepsInv(s.(sessions := s.sessions - {id}));
  }

  lemma BeginCloseKeepsInv(s: State)
    requires Inv(s)
    ensures Inv(BeginClose(s)) && BeginClose(s).phase in {Closing, Closed}
    ensures BeginClose(s).closers == s.closers
  {
    assert Wake(s.closers, []) == s.closers;
  }

  lemma CloseKeepsInv(s: State, c: nat)
    requires Inv(s) && c !in s.closers
    ensures Inv(Close(s, c))
  {
    hide BeginClose;
    BeginCloseKeepsInv(s);
  }

  lemma CloseEnds(s: State, c: nat)
    requires Inv(s) && c !in s.closers
    ensures
      var t := Close(s, c);
      && t.phase in {Closing, Closed} && c in t.closers
      && t.closers[c] == (if t.phase == Closed then Returned else InDrain)
      && (t.closers[c] == InDrain ==> c in t.drainWaiters && t.childCount > 0)
  {
  }

  lemma ResumeReturns(s: State, c: nat)
    requires Inv(s) && Enabled(s, EResume(c))
    ensures Resume(s, c).phase == Closed && Resume(s, c).closers == s.closers[c := Returned]
  {
  }

  lemma ResumeKeepsInv(s: State, c: nat)
    requires Inv(s) && Enabled(s, EResume(c))
    ensures Inv(Resume(s, c)) && Resume(s, c).closers[c] == Returned
    ensures Resume(s, c).phase == Closed == s.phase
  {
  }

  /** Every clean turn keeps the invariant. */
  lemma StepKeepsInv(s: State, e: Event)
    requires Inv(s) && Enabled(s, e) && SpawnsCleanly(s, e)
    ensures Inv(Apply(s, e))
  {
    hide Listen, Accepted, AcceptEnd, SessionEnd, Close, Resume, BeginClose, Inv;
    match e
    case EListen(spawn) => ListenKeepsInv(s, spawn);
    case EAccepted(id, spawn) => AcceptedKeepsInv(s, id, spawn);
    case EAcceptEnd => AcceptEndKeepsInv(s);
    case ESessionEnd(id) => SessionEndKeepsInv(s, id);
    case EClose(c) => CloseKeepsInv(s, c);
    case EResume(c) => ResumeKeepsInv(s, c);
    case EDispose => BeginCloseKeepsInv(s);
  }

  lemma AcceptEndKeepsInv(s: State)
    requires Inv(s) && s.acceptLoop
    ensures Inv(AcceptEnd(s))
  {
    var t := WithLoop(s, false).(running := false);
    ChildDecKeepsInv(if t.phase == Listening then BeginClose(t) else t);
  }

  ghost predicate IsRun(s: State, es: seq<Event>, t: State)
    decreases |es|
  {
    if es == [] then s == t
    else Enabled(s, es[0]) && SpawnsCleanly(s, es[0]) && IsRun(Apply(s, es[0]), es[1..], t)
  }

  lemma {:induction false} RunKeepsInv(s: State, es: seq<Event>, t: State)
    requires Inv(s) && IsRun(s, es, t)
    ensures Inv(t)
    decreases |es|
  {
    hide Inv, Apply;
    if es != [] {
      StepKeepsInv(s, es[0]);
      RunKeepsInv(Apply(s, es[0]), es[1..], t);
    }
  }

  /** The lifecycle invariant in every state a server can reach. */
  lemma RunsAreSound(s: State, es: seq<Event>, t: State)
    requires s == Fresh && IsRun(s, es, t)
    ensures t.childCount == (if t.acceptLoop then 1 else 0) + |t.sessions|
    ensures t.phase == Listening ==> t.acceptLoop && t.acceptorOpen
    ensures t.phase == Closing ==> 0 < t.childCount
    ensures t.phase in {Created, Closed} ==> t.childCount == 0
    ensures t.finalized <= 1
    ensures t.drainWaiters != [] ==> 0 < t.childCount
    ensures t.closeWaiters != [] ==> t.phase != Closed
    ensures forall c :: c in t.closers && t.closers[c] == Returned ==> t.phase == Closed
    ensures forall c :: c in t.closers && t.closers[c] == InDrain ==> c in t.drainWaiters
  {
    RunKeepsInv(s, es, t);
  }

  /** The second wait of `close_impl` is never reached: nobody ever sleeps for the Closed phase itself. */
  lemma NobodyAwaitsClosed(s: State, es: seq<Event>, t: State)
    requires s == Fresh && IsRun(s, es, t)
    ensures t.closeWaiters == []
    ensures forall c :: c in t.closers ==> !t.closers[c].InClose? && !t.closers[c].CloseWoken?
  {
    RunKeepsInv(s, es, t);
  }

  function Rank(p: Phase): nat {
    match p
    case Created => 0
    case Listening => 1
    case Closing => 2
    case Closed => 3
  }

  /** Phases only advance, Closed is absorbing, and Closing and Closed admit no new child. */
  lemma PhasesAdvance(s: State, e: Event)
    requires Inv(s) && Enabled(s, e) && SpawnsCleanly(s, e)
    ensures var t := Apply(s, e);
      && Rank(s.phase) <= Rank(t.phase)
      && (s.phase in {Closing, Closed} ==>
            t.childCount <= s.childCount && t.sessions <= s.sessions && (t.acceptLoop ==> s.acceptLoop))
      && (s.phase == Closed ==> t.finalized == s.finalized && t.childCount == 0)
      && (t.finalized == s.finalized || (s.finalized == 0 && t.finalized == 1 && t.phase == Closed))
  {
    StepKeepsInv(s, e);
  }

  // ---------------------------------------------------------------- what each turn does to the children

  /**
   A socket becomes a session exactly when it is accepted while Listening and its spawn starts, a session
   goes only by ending, and the accept loop starts with a listen that spawns it and goes with its end.
   */
  lemma ChildrenFollowTurns(s: State, e: Event)
    requires Inv(s) && Enabled(s, e) && SpawnsCleanly(s, e)
    ensures
      var t := Apply(s, e);
      t.sessions ==
        match e
        case EAccepted(id, Spawned) => if s.phase == Listening then s.sessions + {id} else s.sessions
        case ESessionEnd(id) => s.sessions - {id}
        case _ => s.sessions
    ensures
      var t := Apply(s, e);
      t.acceptLoop ==
        match e
        case EListen(Spawned) => s.phase == Created || s.acceptLoop
        case EAccepted(_, _) => s.phase == Listening
        case EAcceptEnd => false
        case _ => s.acceptLoop
  {
    hide Wake;
  }

  /** A turn leaves Created, Listening and Closing only for these reasons. */
  lemma PhaseFollowsTurns(s: State, e: Event)
    requires Inv(s) && Enabled(s, e) && SpawnsCleanly(s, e)
    ensures
      var t := Apply(s, e);
      t.phase ==
        match s.phase
        case Created => if e == EListen(Spawned) then Listening else if e.EClose? || e.EDispose? then Closed else Created
        case Listening =>
          if e.EClose? || e.EDispose? then Closing
          else if e.EAcceptEnd? then if s.sessions == {} then Closed else Closing
          else Listening
        case Closing =>
          if s.childCount == 1 && (e.EAcceptEnd? || e.EAccepted? || e.ESessionEnd?) then Closed else Closing
        case Closed => Closed
  {
    hide Wake;
  }

  /** A spawn that throws a `std::exception` undoes its turn. */
  lemma ThrownSpawnUndoes(s: State, e: Event)
    requires Inv(s) && Enabled(s, e)
    requires (e == EListen(ThrewStd) && s.phase == Created) || (e.EAccepted? && e.spawn.ThrewStd? && s.phase == Listening)
    ensures Apply(s, e) == s
  {
    assert Wake(s.closers, []) == s.closers;
  }

  lemma ListenByFields(s: State, spawn: Spawn)
    requires Inv(s)
    ensures
      var t := Listen(s, spawn);
      && (s.phase == Created && spawn.Spawned? ==>
            t.phase == Listening && t.acceptorOpen && t.acceptLoop && t.childCount == 1 && t.sessions == s.sessions == {})
      && (s.phase != Created || spawn.ThrewStd? ==> t == s)
  {
    if s.phase == Created && spawn.ThrewStd? {
      ThrownSpawnUndoes(s, EListen(spawn));
    }
  }

  lemma AcceptedByFields(s: State, id: nat, spawn: Spawn)
    requires Inv(s) && s.acceptLoop && id !in s.sessions
    ensures
      var t := Accepted(s, id, spawn);
      && (s.phase == Listening && spawn.Spawned? ==>
            && t.sessions == s.sessions + {id} && t.childCount == s.childCount + 1
            && t.phase == Listening && t.acceptLoop && t.closers == s.closers)
      && (s.phase == Listening && spawn.ThrewStd? ==> t == s)
      && (s.phase != Listening ==> t.sessions == s.sessions && !t.acceptLoop && t.childCount == s.childCount - 1)
  {
    if s.phase == Listening && spawn.ThrewStd? {
      ThrownSpawnUndoes(s, EAccepted(id, spawn));
    } else if s.phase != Listening {
      ChildDecShape(WithLoop(s, false).(running := false));
    }
  }

  // ---------------------------------------------------------------- closing comes to an end

  /** A child ends or a woken closer resumes. */
  predicate Winding(e: Event) {
    e.EAcceptEnd? || e.ESessionEnd? || e.EResume?
  }

  function Pending(s: State): set<nat> {
    Unreturned(s.closers)
  }

  function Unreturned(closers: map<nat, Closer>): set<nat> {
    set c | c in closers && closers[c] != Returned
  }

  lemma WakeReturnsNobody(closers: map<nat, Closer>, timers: seq<nat>)
    ensures Wake(closers, timers).Keys == closers.Keys
    ensures Unreturned(Wake(closers, timers)) == Unreturned(closers)
  {
  }

  /** A child less, and nobody's wait forgotten: the closers are the same and as many are pending. */
  lemma ChildDecShape(s: State)
    requires 0 < s.childCount
    ensures var t := ChildDec(s);
      t.childCount == s.childCount - 1 && t.closers.Keys == s.closers.Keys && Pending(t) == Pending(s)
  {
    hide Wake, Unreturned;
    var t := WakeDrainWaiters(s.(childCount := s.childCount - 1));
    WakeReturnsNobody(s.closers, s.drainWaiters);
    WakeReturnsNobody(t.closers, t.drainWaiters);
    var u := WakeDrainWaiters(t);
    WakeReturnsNobody(u.closers, u.closeWaiters);
  }

  lemma BeginCloseShape(s: State)
    requires s.phase == Listening && 0 < s.childCount
    ensures BeginClose(s).childCount == s.childCount && BeginClose(s).closers == s.closers
  {
  }

  /** Each such turn takes away a child or a waiting closer. */
  lemma WindingUsesUp(s: State, e: Event)
    requires Inv(s) && Enabled(s, e) && Winding(e)
    ensures var t := Apply(s, e);
      t.childCount + |Pending(t)| < s.childCount + |Pending(s)| && t.closers.Keys == s.closers.Keys
  {
    hide ChildDec, BeginClose, ClosersOk;
    match e
    case EResume(c) =>
      hide Resume;
      ResumeStep(s, c);
    case ESessionEnd(id) =>
      ChildDecShape(s.(sessions := s.sessions - {id}));
    case EAcceptEnd =>
      var t := WithLoop(s, false).(running := false);
      if s.phase == Listening {
        BeginCloseShape(t);
        ChildDecShape(BeginClose(t));
      } else {
        ChildDecShape(t);
      }
  }

  lemma ResumeStep(s: State, c: nat)
    requires Inv(s) && Enabled(s, EResume(c))
    ensures var t := Resume(s, c);
      t.childCount == s.childCount && Pending(t) == Pending(s) - {c} && c in Pending(s)
      && t.closers.Keys == s.closers.Keys
  {
  }

  /** Turns that bring a closing server nearer to its end: there, a delivered socket also ends the accept loop. */
  predicate Ends(e: Event) {
    Winding(e) || e.EAccepted?
  }

  function Count(e: Event, of: Event -> bool): nat {
    if of(e) then 1 else 0
  }

  function Counted(es: seq<Event>, of: Event -> bool): nat {
    if es == [] then 0 else Count(es[0], of) + Counted(es[1..], of)
  }

  predicate Closes(e: Event) {
    e.EClose?
  }

  /** A call of close leaves at most itself to wait for. */
  lemma CloseAddsOne(s: State, c: nat)
    requires Inv(s) && s.phase in {Closing, Closed} && c !in s.closers
    ensures var t := Close(s, c);
      && t.childCount == s.childCount && t.closers.Keys == s.closers.Keys + {c}
      && Pending(t) == (if s.phase == Closed then Pending(s) else Pending(s) + {c})
  {
  }

  /** While a server closes or is closed, listening again and disposing of it change nothing. */
  lemma IdleTurn(s: State, e: Event)
    requires Inv(s) && s.phase in {Closing, Closed} && (e.EListen? || e.EDispose?)
    ensures Apply(s, e) == s
  {
  }

  /** What is left to wait for goes down with every turn that ends something and up only with a new closer. */
  lemma ClosingStep(s: State, e: Event)
    requires Inv(s) && Enabled(s, e) && SpawnsCleanly(s, e) && s.phase in {Closing, Closed}
    ensures var t := Apply(s, e);
      && t.phase in {Closing, Closed} && s.closers.Keys <= t.closers.Keys
      && Count(e, Ends) + t.childCount + |Pending(t)| <= s.childCount + |Pending(s)| + Count(e, Closes)
  {
    PhasesAdvance(s, e);
    hide Inv, AcceptEnd, SessionEnd, Close, Resume, Listen, BeginClose, Pending;
    match e
    case EAccepted(id, spawn) =>
      assert Apply(s, e) == Apply(s, EAcceptEnd);
      WindingUsesUp(s, EAcceptEnd);
    case EClose(c) =>
      CloseAddsOne(s, c);
    case EListen(_) => IdleTurn(s, e);
    case EDispose => IdleTurn(s, e);
    case _ => WindingUsesUp(s, e);
  }

  lemma {:induction false} ClosingEnds(s: State, es: seq<Event>, t: State)
    requires Inv(s) && s.phase in {Closing, Closed} && IsRun(s, es, t)
    ensures Inv(t) && t.phase in {Closing, Closed} && s.closers.Keys <= t.closers.Keys
    ensures Counted(es, Ends) + t.childCount + |Pending(t)| <= s.childCount + |Pending(s)| + Counted(es, Closes)
    decreases |es|
  {
    hide Inv, Apply, Ends, Closes, Enabled, SpawnsCleanly;
    if es != [] {
      StepKeepsInv(s, es[0]);
      ClosingStep(s, es[0]);
      ClosingEnds(Apply(s, es[0]), es[1..], t);
    }
  }

  /** Somebody has called close only where the server closes or is closed. */
  lemma ClosersMeanClosing(s: State)
    requires Inv(s) && s.closers != map[]
    ensures s.phase in {Closing, Closed}
  {
    var c :| c in s.closers;
    assert s.closers[c] == InDrain ==> c in s.drainWaiters;
  }

  lemma FreshInv()
    ensures Inv(Fresh)
  {
  }

  /** Where no child can end and no woken closer is left, the close has run to its end. */
  lemma NothingLeftToWind(t: State)
    requires Inv(t) && t.phase in {Closing, Closed} && forall e :: Winding(e) ==> !Enabled(t, e)
    ensures t.phase == Closed && t.finalized <= 1
    ensures forall c :: c in t.closers ==> t.closers[c] == Returned
  {
    assert Winding(EAcceptEnd);
    assert t.sessions == {} by {
      forall id | id in t.sessions ensures false {
        assert Winding(ESessionEnd(id));
      }
    }
    forall c | c in t.closers ensures t.closers[c] == Returned {
      assert Winding(EResume(c));
    }
  }

  /**
   Every closer returns.  From any state in which somebody closes or the server has begun to, through any
   turns whatever, only so many can end something: one for each child and each closer left, and one more
   for each further call of close.  Once no child can end and no woken closer is left to resume, the
   server is Closed and every call of close has returned.
   */
  lemma EveryCloserReturns(i: State, es: seq<Event>, s: State, more: seq<Event>, t: State)
    requires i == Fresh && IsRun(i, es, s) && (s.closers != map[] || s.phase in {Closing, Closed})
    requires IsRun(s, more, t)
    ensures Counted(more, Ends) <= s.childCount + |Pending(s)| + Counted(more, Closes)
    ensures s.closers.Keys <= t.closers.Keys
    ensures (forall e :: Winding(e) ==> !Enabled(t, e)) ==>
              t.phase == Closed && t.finalized <= 1 && forall c :: c in t.closers ==> t.closers[c] == Returned
  {
    hide Inv, IsRun, Winding, Enabled, Counted;
    FreshInv();
    RunKeepsInv(i, es, s);
    if s.closers != map[] {
      ClosersMeanClosing(s);
    }
    ClosingEnds(s, more, t);
    if forall e :: Winding(e) ==> !Enabled(t, e) {
      NothingLeftToWind(t);
    }
  }

  // ---------------------------------------------------------------- spawning throws something else

  /** A Closing server that counts more children than it has, with every closer asleep. */
  ghost predicate Stranded(s: State) {
    && s.phase == Closing && Children(s) < s.childCount
    && forall c :: c in s.closers ==> s.closers[c] == InDrain
  }

  /** Exactly the turns in which a spawn throws something other than a `std::exception` break the invariant. */
  lemma InvHoldsExactlyAfterCleanSpawns(s: State, e: Event)
    requires Inv(s) && Enabled(s, e)
    ensures Inv(Apply(s, e)) <==> SpawnsCleanly(s, e)
    ensures !SpawnsCleanly(s, e) ==> Stranded(Apply(s, e))
  {
    if SpawnsCleanly(s, e) {
      StepKeepsInv(s, e);
    }
  }

  /** For example: the accept loop's spawn throws an int, and then somebody closes. */
  lemma StrandedListener(c: nat)
    ensures
      var s := Apply(Fresh, EListen(ThrewOther));
      Enabled(s, EClose(c)) && Stranded(s) && Stranded(Apply(s, EClose(c)))
      && Apply(s, EClose(c)).closers == map[c := InDrain]
  {
  }

  lemma StrandedStep(s: State, e: Event)
    requires Stranded(s) && Enabled(s, e)
    ensures Stranded(Apply(s, e)) && s.closers.Keys <= Apply(s, e).closers.Keys
  {
  }

  /** A run in which spawns may throw anything. */
  ghost predicate IsAnyRun(s: State, es: seq<Event>, t: State)
    decreases |es|
  {
    if es == [] then s == t else Enabled(s, es[0]) && IsAnyRun(Apply(s, es[0]), es[1..], t)
  }

  /** Such a server never gets out of Closing, whatever happens next, and no call of close ever returns. */
  lemma {:induction false} StrandedForGood(s: State, es: seq<Event>, t: State)
    requires Stranded(s) && IsAnyRun(s, es, t)
    ensures t.phase == Closing && t.finalized == s.finalized
    ensures forall c :: c in s.closers ==> c in t.closers
    ensures forall c :: c in t.closers ==> t.closers[c] == InDrain
    decreases |es|
  {
    if es != [] {
      hide Apply, Enabled;
      StrandedStep(s, es[0]);
      StrandedFinalizesNothing(s, es[0]);
      StrandedForGood(Apply(s, es[0]), es[1..], t);
    }
  }

  lemma StrandedFinalizesNothing(s: State, e: Event)
    requires Stranded(s) && Enabled(s, e)
    ensures Apply(s, e).finalized == s.finalized
  {
  }
}

/** The same operations on the mutable state of the server. */
module HttpServer {
  import opened Lifecycle

  class ServerState {
    var phase: Phase
    var childCount: nat
    var running: bool
    var acceptorOpen: bool
    var drainWaiters: seq<nat>
    var closeWaiters: seq<nat>
    var acceptLoop: bool
    var sessions: set<nat>
    var closers: map<nat, Closer>
    ghost var finalized: nat

    /** What holds between turns. */
    ghost predicate Valid()
      reads this
    {
      Inv(View())
    }

    constructor ()
      ensures View() == Fresh && Valid()
    {
      phase, childCount, running, acceptorOpen := Created, 0, false, false;
      drainWaiters, closeWaiters, acceptLoop, sessions, closers := [], [], false, {}, map[];
      finalized := 0;
    }

    ghost function View(): State
      reads this
    {
      State(phase, childCount, running, acceptorOpen, drainWaiters, closeWaiters, acceptLoop, sessions, closers, finalized)
    }

    method CancelTimers(timers: seq<nat>)
      modifies this`closers
      ensures closers == Wake(old(closers), timers)
    {
      for i := 0 to |timers|
        invariant closers == Wake(old(closers), timers[..i])
      {
        var c := timers[i];
        if c in closers {
          if closers[c] == InDrain {
            closers := closers[c := DrainWoken];
          } else if closers[c] == InClose {
            closers := closers[c := CloseWoken];
          }
        }
        assert timers[..i + 1] == timers[..i] + [c];
      }
      assert timers[..|timers|] == timers;
    }

    method WakeDrainWaiters()
      modifies this`drainWaiters, this`closers
      ensures View() == Lifecycle.WakeDrainWaiters(old(View()))
    {
      var waiters := drainWaiters;
      drainWaiters := [];
      CancelTimers(waiters);
    }

    method WakeCloseWaiters()
      modifies this`closeWaiters, this`closers
      ensures View() == Lifecycle.WakeCloseWaiters(old(View()))
    {
      var waiters := closeWaiters;
      closeWaiters := [];
      CancelTimers(waiters);
    }

    method TryFinalizeClose()
      modifies this
      ensures View() == Lifecycle.TryFinalizeClose(old(View()))
    {
      if phase != Closing || childCount != 0 {
        return;
      }
      acceptorOpen := false;
      phase := Closed;
      finalized := finalized + 1;
      WakeDrainWaiters();
      WakeCloseWaiters();
    }

    method ChildDec()
      modifies this
      ensures View() == Lifecycle.ChildDec(old(View()))
    {
      if childCount == 0 {
        return;
      }
      childCount := childCount - 1;
      if childCount == 0 {
        WakeDrainWaiters();
        TryFinalizeClose();
      }
    }

    method BeginClose()
      modifies this
      ensures View() == Lifecycle.BeginClose(old(View()))
    {
      if phase == Closed {
        return;
      }
      if phase == Created {
        phase := Closed;
        WakeCloseWaiters();
        return;
      }
      if phase == Listening {
        phase := Closing;
        acceptorOpen := false;
        TryFinalizeClose();
        return;
      }
      acceptorOpen := false;
      TryFinalizeClose();
    }

    /** The accept loop's guard object: never leave Listening without an accept loop. */
    method LeaveAcceptLoop()
      modifies this
      ensures View() == Lifecycle.AcceptEnd(old(View()))
    {
      running, acceptLoop := false, false;
      if phase == Listening {
        BeginClose();
      }
      ChildDec();
    }

    // ---- turns: each keeps the invariant, unless a spawn throws something other than a `std::exception`

    method AsyncListen(spawn: Spawn) returns (listening: bool)
      requires Valid()
      modifies this
      ensures View() == Lifecycle.Listen(old(View()), spawn)
      ensures SpawnsCleanly(old(View()), EListen(spawn)) ==> Valid()
      ensures listening <==> old(phase) == Created && spawn.Spawned?
      ensures listening ==>
        phase == Listening && acceptorOpen && acceptLoop && childCount == 1 && sessions == old(sessions) == {}
      ensures !spawn.ThrewOther? && !listening ==> View() == old(View())
    {
      ListenByFields(View(), spawn);
      InvHoldsExactlyAfterCleanSpawns(View(), EListen(spawn));
      hide Inv;
      listening := false;
      if phase != Created {
        return;
      }
      acceptorOpen, phase, running := true, Listening, true;
      childCount := childCount + 1;
      match spawn
      case Spawned =>
        acceptLoop, listening := true, true;
      case ThrewStd =>
        running, acceptorOpen, phase := false, false, Created;
        ChildDec();
      case ThrewOther =>
        BeginClose();
    }

    method AcceptEnd()
      requires Valid() && acceptLoop
      modifies this
      ensures Valid() && View() == Lifecycle.AcceptEnd(old(View()))
      ensures !acceptLoop && sessions == old(sessions) && childCount == |sessions|
      ensures phase == if sessions == {} then Closed else Closing
    {
      StepKeepsInv(View(), EAcceptEnd);
      ChildrenFollowTurns(View(), EAcceptEnd);
      PhaseFollowsTurns(View(), EAcceptEnd);
      LeaveAcceptLoop();
    }

    method Accepted(id: nat, spawn: Spawn)
      requires Valid() && acceptLoop && id !in sessions
      modifies this
      ensures View() == Lifecycle.Accepted(old(View()), id, spawn)
      ensures SpawnsCleanly(old(View()), EAccepted(id, spawn)) ==> Valid()
      ensures old(phase) == Listening && spawn.Spawned? ==>
        && sessions == old(sessions) + {id} && childCount == old(childCount) + 1
        && phase == Listening && acceptLoop && closers == old(closers)
      ensures old(phase) == Listening && spawn.ThrewStd? ==> View() == old(View())
      ensures old(phase) != Listening ==> sessions == old(sessions) && !acceptLoop && childCount == old(childCount) - 1
    {
      AcceptedByFields(View(), id, spawn);
      InvHoldsExactlyAfterCleanSpawns(View(), EAccepted(id, spawn));
      hide Inv;
      if phase != Listening {
        LeaveAcceptLoop();
        return;
      }
      childCount := childCount + 1;
      match spawn
      case Spawned => sessions := sessions + {id};
      case ThrewStd => ChildDec();
      case ThrewOther =>
        BeginClose();
        LeaveAcceptLoop();
    }

    method SessionEnd(id: nat)
      requires Valid() && id in sessions
      modifies this
      ensures Valid() && View() == Lifecycle.SessionEnd(old(View()), id)
      ensures sessions == old(sessions) - {id} && acceptLoop == old(acceptLoop) && childCount == old(childCount) - 1
      ensures phase == if old(phase) == Closing && old(childCount) == 1 then Closed else old(phase)
    {
      StepKeepsInv(View(), ESessionEnd(id));
      ChildrenFollowTurns(View(), ESessionEnd(id));
      PhaseFollowsTurns(View(), ESessionEnd(id));
      ChildDecShape(View().(sessions := sessions - {id}));
      hide Inv;
      sessions := sessions - {id};
      ChildDec();
    }

    /** From the head of `wait_close_complete`. */
    method AwaitClosed(c: nat)
      modifies this`closers, this`closeWaiters
      ensures View() == Lifecycle.AwaitClosed(old(View()), c)
    {
      if phase != Closed {
        closeWaiters := closeWaiters + [c];
        closers := closers[c := InClose];
      } else {
        closers := closers[c := Returned];
      }
    }

    /** From the head of `wait_children_drained`. */
    method AwaitDrained(c: nat)
      modifies this
      ensures View() == Lifecycle.AwaitDrained(old(View()), c)
    {
      if childCount > 0 {
        drainWaiters := drainWaiters + [c];
        closers := closers[c := InDrain];
        return;
      }
      TryFinalizeClose();
      AwaitClosed(c);
    }

    /** `close_impl` from the wait it sleeps in. */
    method WaitOver(c: nat)
      requires c in closers
      modifies this
      ensures View() == Lifecycle.Resume(old(View()), c)
    {
      if closers[c] == DrainWoken {
        AwaitDrained(c);
      } else {
        AwaitClosed(c);
      }
    }

    /** A close either returns at Closed or sleeps until the children are drained, which are then not none. */
    method CloseImpl(c: nat)
      requires Valid() && c !in closers
      modifies this
      ensures Valid() && View() == Lifecycle.Close(old(View()), c)
      ensures phase in {Closing, Closed} && c in closers
      ensures closers[c] == (if phase == Closed then Returned else InDrain)
      ensures closers[c] == InDrain ==> c in drainWaiters && childCount > 0
      ensures sessions == old(sessions) && acceptLoop == old(acceptLoop) && childCount == old(childCount)
      ensures phase == if old(childCount) == 0 then Closed else Closing
    {
      StepKeepsInv(View(), EClose(c));
      ChildrenFollowTurns(View(), EClose(c));
      PhaseFollowsTurns(View(), EClose(c));
      CloseEnds(View(), c);
      hide Inv;
      if phase == Closed {
        closers := closers[c := Returned];
        return;
      }
      BeginClose();
      if phase == Closed {
        closers := closers[c := Returned];
      } else {
        AwaitDrained(c);
      }
    }

    /** A woken closer finds the server Closed and returns. */
    method Resume(c: nat)
      requires Valid() && c in closers && closers[c] in {DrainWoken, CloseWoken}
      modifies this
      ensures Valid() && View() == Lifecycle.Resume(old(View()), c)
      ensures phase == Closed && closers == old(closers)[c := Returned]
    {
      ResumeKeepsInv(View(), c);
      ResumeReturns(View(), c);
      WaitOver(c);
    }

    method Dispose()
      requires Valid()
      modifies this
      ensures Valid() && View() == Lifecycle.BeginClose(old(View()))
      ensures sessions == old(sessions) && acceptLoop == old(acceptLoop)
      ensures phase == if old(childCount) == 0 then Closed else Closing
    {
      ChildrenFollowTurns(View(), EDispose);
      PhaseFollowsTurns(View(), EDispose);
      BeginCloseKeepsInv(View());
      hide Inv;
      BeginClose();
    }
  }
}
