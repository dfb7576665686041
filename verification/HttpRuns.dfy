/**
 All interleavings of requests on one pooled HTTP client.  A request is a coroutine: each event
 below is the code between two suspension points, or one destructor of its leases, which run in
 reverse order of construction.  Cancellation, timeouts and I/O failures are events like any other.
 */
module HttpRuns {
  import opened Wrappers
  import opened HttpPool

  /** Where a request stands, by the leases it holds. */
  datatype Phase =
    | Admitted                          // origin lease
    | AwaitOrigin(granted: bool)        // origin lease, and the origin permit once granted
    | AwaitGlobal(granted: bool)        // origin permit too, and the global permit once granted
    | Connecting                        // both permits and an empty connection lease
    | Exchanging(conn: Connection)      // both permits and a connection
    | DropGlobal                        // unwinding: connection lease gone
    | DropOrigin                        // unwinding: global permit gone
    | DropPool                          // unwinding: origin permit gone

  datatype Request = Request(origin: OriginKey, phase: Phase)

  datatype System = System(
    options: Options, store: Store, globalGate: Gate, requests: map<nat, Request>, nextConn: nat)

  datatype Event =
    | Admit(r: nat, origin: OriginKey)
    | AskOrigin(r: nat)
    | Abandon(r: nat)                   // stopped or late before the origin gate
    | CancelOrigin(r: nat)              // cancelled in the origin queue
    | AskGlobal(r: nat)
    | AbandonOrigin(r: nat)             // stopped or late between the gates
    | CancelGlobal(r: nat)              // cancelled in the global queue
    | Lease(r: nat, now: int)           // take_idle
    | Connected(r: nat)
    | ConnectFailed(r: nat)
    | Finish(r: nat, keepAlive: bool, now: int, vk: OriginKey, vi: nat)  // exchange over, release
    | ReleaseGlobal(r: nat)
    | ReleaseOrigin(r: nat)
    | Leave(r: nat)

  predicate HoldsOrigin(p: Phase) {
    match p
    case AwaitOrigin(granted) => granted
    case AwaitGlobal(_) => true
    case Connecting => true
    case Exchanging(_) => true
    case DropGlobal => true
    case DropOrigin => true
    case _ => false
  }

  predicate HoldsGlobal(p: Phase) {
    match p
    case AwaitGlobal(granted) => granted
    case Connecting => true
    case Exchanging(_) => true
    case DropGlobal => true
    case _ => false
  }

  /** Past `take_idle` with the connection lease alive. */
  predicate HoldsLease(p: Phase) {
    p.Connecting? || p.Exchanging?
  }

  // ---------------------------------------------------------------- invariant

  ghost function Users(q: map<nat, Request>, k: OriginKey): set<nat> {
    set r | r in q && q[r].origin == k
  }

  ghost function OriginHolders(q: map<nat, Request>, k: OriginKey): set<nat> {
    set r | r in q && q[r].origin == k && HoldsOrigin(q[r].phase)
  }

  ghost function OriginQueue(q: map<nat, Request>, k: OriginKey): set<nat> {
    set r | r in q && q[r].origin == k && q[r].phase == AwaitOrigin(false)
  }

  ghost function GlobalHolders(q: map<nat, Request>): set<nat> {
    set r | r in q && HoldsGlobal(q[r].phase)
  }

  ghost function GlobalQueue(q: map<nat, Request>): set<nat> {
    set r | r in q && q[r].phase == AwaitGlobal(false)
  }

  ghost function Leased(q: map<nat, Request>, k: OriginKey): set<nat> {
    set r | r in q && q[r].origin == k && HoldsLease(q[r].phase)
  }

  /** A gate counts its holders, queues exactly its waiters, and makes nobody wait for a free slot. */
  ghost predicate GateOk(g: Gate, capacity: nat, holders: set<nat>, queue: set<nat>) {
    && g.buffered == |holders| <= capacity
    && NoDup(g.waiting)
    && (forall r :: r in g.waiting <==> r in queue)
    && (g.waiting != [] ==> g.buffered == capacity)
  }

  /** `users` counts the live origin leases, and a leased pool is in the map. */
  ghost predicate LeasesOk(s: System) {
    && (forall r :: r in s.requests ==> s.requests[r].origin in s.store.pools)
    && (forall k :: k in s.store.pools ==> s.store.pools[k].users == |Users(s.requests, k)|)
  }

  ghost predicate OriginGatesOk(s: System) {
    forall k :: k in s.store.pools ==>
      GateOk(s.store.pools[k].gate, s.options.perOrigin, OriginHolders(s.requests, k), OriginQueue(s.requests, k))
  }

  ghost predicate GlobalGateOk(s: System) {
    GateOk(s.globalGate, s.options.maxActive, GlobalHolders(s.requests), GlobalQueue(s.requests))
  }

  /** Idle connections and live connection leases together never exceed the reserved capacity. */
  ghost predicate ReserveOk(s: System) {
    forall k :: k in s.store.pools ==>
      |s.store.pools[k].idle| + |Leased(s.requests, k)| <= s.options.perOrigin
  }

  ghost predicate IdleAt(s: System, k: OriginKey, c: Connection) {
    k in s.store.pools && c in s.store.pools[k].idle
  }

  ghost predicate LeasedBy(s: System, r: nat, c: Connection) {
    r in s.requests && s.requests[r].phase == Exchanging(c)
  }

  /** Every physical connection is in one place only, and at its own origin. */
  ghost predicate ConnectionsOk(s: System) {
    && (forall k, c :: IdleAt(s, k, c) ==> c.home == k && c.id < s.nextConn)
    && (forall r, c :: LeasedBy(s, r, c) ==> c.home == s.requests[r].origin && c.id < s.nextConn)
    && (forall k :: k in s.store.pools ==> Distinct(s.store.pools[k].idle))
    && (forall k, c, k', c' :: IdleAt(s, k, c) && IdleAt(s, k', c') && k != k' ==> c.id != c'.id)
    && (forall k, c, r, c' :: IdleAt(s, k, c) && LeasedBy(s, r, c') ==> c.id != c'.id)
    && (forall r, c, r', c' :: LeasedBy(s, r, c) && LeasedBy(s, r', c') && r != r' ==> c.id != c'.id)
  }

  ghost predicate Inv(s: System) {
    && Positive(s.options)
    && Sound(s.options, s.store)
    && LeasesOk(s)
    && OriginGatesOk(s)
    && GlobalGateOk(s)
    && ReserveOk(s)
    && ConnectionsOk(s)
  }

  // ---------------------------------------------------------------- transitions

  ghost predicate Enabled(s: System, e: Event) {
    match e
    case Admit(r, _) => r !in s.requests
    case AskOrigin(r) => At(s, r, Admitted)
    case Abandon(r) => At(s, r, Admitted)
    case CancelOrigin(r) => At(s, r, AwaitOrigin(false))
    case AskGlobal(r) => At(s, r, AwaitOrigin(true))
    case AbandonOrigin(r) => At(s, r, AwaitOrigin(true))
    case CancelGlobal(r) => At(s, r, AwaitGlobal(false))
    case Lease(r, _) => At(s, r, AwaitGlobal(true))
    case Connected(r) => At(s, r, Connecting)
    case ConnectFailed(r) => At(s, r, Connecting)
    case Finish(r, keepAlive, now, vk, vi) =>
      && r in s.requests && s.requests[r].phase.Exchanging? && now < DEADLINE_MAX
      && (keepAlive ==> exists m :: MadeRoom(s.options, s.store, now, vk, vi, m))
    case ReleaseGlobal(r) => At(s, r, DropGlobal)
    case ReleaseOrigin(r) => At(s, r, DropOrigin)
    case Leave(r) => At(s, r, DropPool)
  }

  ghost predicate At(s: System, r: nat, p: Phase) {
    r in s.requests && s.requests[r].phase == p
  }

  /** Whoever heads the queue of `g` is a live request in phase `p`. */
  ghost predicate Head(s: System, g: Gate, p: Phase) {
    g.waiting != [] ==> At(s, g.waiting[0], p)
  }

  function SetPhase(q: map<nat, Request>, r: nat, p: Phase): map<nat, Request>
    requires r in q
  {
    q[r := q[r].(phase := p)]
  }

  function WithGate(s: Store, k: OriginKey, g: Gate): Store
    requires k in s.pools
  {
    s.(pools := s.pools[k := s.pools[k].(gate := g)])
  }

  /** Whoever heads the queue is handed the permit. */
  function Grant(q: map<nat, Request>, waiting: seq<nat>, p: Phase): map<nat, Request>
    requires waiting != [] ==> waiting[0] in q
  {
    if waiting == [] then q else SetPhase(q, waiting[0], p)
  }

  function AdmitStep(s: System, r: nat, k: OriginKey): System {
    s.(store := AcquirePool(s.store, k), requests := s.requests[r := Request(k, Admitted)])
  }

  /** Between gates and while unwinding: only the phase of `r` changes. */
  function MoveStep(s: System, r: nat, p: Phase): System
    requires r in s.requests
  {
    s.(requests := SetPhase(s.requests, r, p))
  }

  function AskOriginStep(s: System, r: nat): System
    requires r in s.requests && s.requests[r].origin in s.store.pools
  {
    var k := s.requests[r].origin;
    var g := s.store.pools[k].gate;
    s.(store := WithGate(s.store, k, Send(g, s.options.perOrigin, r)),
       requests := SetPhase(s.requests, r, AwaitOrigin(g.buffered < s.options.perOrigin)))
  }

  function CancelOriginStep(s: System, r: nat): System
    requires r in s.requests && s.requests[r].origin in s.store.pools
  {
    var k := s.requests[r].origin;
    s.(store := WithGate(s.store, k, CancelSend(s.store.pools[k].gate, r)),
       requests := SetPhase(s.requests, r, DropPool))
  }

  function AskGlobalStep(s: System, r: nat): System
    requires r in s.requests
  {
    s.(globalGate := Send(s.globalGate, s.options.maxActive, r),
       requests := SetPhase(s.requests, r, AwaitGlobal(s.globalGate.buffered < s.options.maxActive)))
  }

  function CancelGlobalStep(s: System, r: nat): System
    requires r in s.requests
  {
    s.(globalGate := CancelSend(s.globalGate, r), requests := SetPhase(s.requests, r, DropOrigin))
  }

  function LeaseStep(s: System, r: nat, now: int): System
    requires r in s.requests && s.requests[r].origin in s.store.pools
    requires |s.store.pools[s.requests[r].origin].idle| <= s.store.idleCount
  {
    var (t, c) := TakeIdle(s.options, s.store, s.requests[r].origin, now);
    s.(store := t, requests := SetPhase(s.requests, r, if c.Some? then Exchanging(c.value) else Connecting))
  }

  function ConnectedStep(s: System, r: nat): System
    requires r in s.requests
  {
    s.(requests := SetPhase(s.requests, r, Exchanging(Connection(s.nextConn, s.requests[r].origin, 0, false))),
       nextConn := s.nextConn + 1)
  }

  /** The store goes to `t`: what `release` leaves behind. */
  function FinishStep(s: System, r: nat, t: Store): System
    requires r in s.requests
  {
    s.(store := t, requests := SetPhase(s.requests, r, DropGlobal))
  }

  function ReleaseGlobalStep(s: System, r: nat): System
    requires r in s.requests && 0 < s.globalGate.buffered
    requires s.globalGate.waiting != [] ==> s.globalGate.waiting[0] in s.requests
  {
    s.(globalGate := Receive(s.globalGate),
       requests := Grant(SetPhase(s.requests, r, DropOrigin), s.globalGate.waiting, AwaitGlobal(true)))
  }

  function ReleaseOriginStep(s: System, r: nat): System
    requires r in s.requests && s.requests[r].origin in s.store.pools
    requires var g := s.store.pools[s.requests[r].origin].gate;
      0 < g.buffered && (g.waiting != [] ==> g.waiting[0] in s.requests)
  {
    var k := s.requests[r].origin;
    var g := s.store.pools[k].gate;
    s.(store := WithGate(s.store, k, Receive(g)),
       requests := Grant(SetPhase(s.requests, r, DropPool), g.waiting, AwaitOrigin(true)))
  }

  function LeaveStep(s: System, r: nat): System
    requires r in s.requests && s.requests[r].origin in s.store.pools
    requires 0 < s.store.pools[s.requests[r].origin].users
  {
    s.(store := ReleasePool(s.store, s.requests[r].origin), requests := s.requests - {r})
  }

  /** What makes the next operation of `r` well defined: its pool is there and no counter is at zero. */
  ghost predicate Standable(s: System, r: nat)
    requires r in s.requests
  {
    var k := s.requests[r].origin;
    && k in s.store.pools && 0 < s.store.pools[k].users
    && |s.store.pools[k].idle| <= s.store.idleCount
    && (HoldsOrigin(s.requests[r].phase) ==> 0 < s.store.pools[k].gate.buffered)
    && (HoldsGlobal(s.requests[r].phase) ==> 0 < s.globalGate.buffered)
    && Head(s, s.store.pools[k].gate, AwaitOrigin(false))
    && Head(s, s.globalGate, AwaitGlobal(false))
  }

  lemma PoolStands(s: System, r: nat)
    requires LeasesOk(s) && s.store.idleCount == TotalIdle(s.store.pools) && r in s.requests
    ensures var k := s.requests[r].origin;
      k in s.store.pools && 0 < s.store.pools[k].users && |s.store.pools[k].idle| <= s.store.idleCount
  {
    assert r in Users(s.requests, s.requests[r].origin);
    TotalIdleAt(s.store.pools, s.requests[r].origin);
  }

  lemma OriginGateStands(s: System, r: nat)
    requires r in s.requests && s.requests[r].origin in s.store.pools
    requires var k := s.requests[r].origin;
      GateOk(s.store.pools[k].gate, s.options.perOrigin, OriginHolders(s.requests, k), OriginQueue(s.requests, k))
    ensures var k := s.requests[r].origin;
      && (HoldsOrigin(s.requests[r].phase) ==> 0 < s.store.pools[k].gate.buffered)
      && Head(s, s.store.pools[k].gate, AwaitOrigin(false))
  {
    var g := s.store.pools[s.requests[r].origin].gate;
    assert HoldsOrigin(s.requests[r].phase) ==> r in OriginHolders(s.requests, s.requests[r].origin);
    assert g.waiting != [] ==> g.waiting[0] in g.waiting;
  }

  lemma GlobalGateStands(s: System, r: nat)
    requires r in s.requests && GlobalGateOk(s)
    ensures HoldsGlobal(s.requests[r].phase) ==> 0 < s.globalGate.buffered
    ensures Head(s, s.globalGate, AwaitGlobal(false))
  {
    assert HoldsGlobal(s.requests[r].phase) ==> r in GlobalHolders(s.requests);
    assert s.globalGate.waiting != [] ==> s.globalGate.waiting[0] in s.globalGate.waiting;
  }

  lemma Standing(s: System, r: nat)
    requires Inv(s) && r in s.requests
    ensures Standable(s, r)
  {
    PoolStands(s, r);
    OriginGateStands(s, r);
    GlobalGateStands(s, r);
  }

  /** A releasing request still leases its pool, so making room leaves that pool in the map. */
  lemma RoomKeepsPool(s: System, r: nat, now: int, vk: OriginKey, vi: nat, m: Store)
    requires Inv(s) && r in s.requests && MadeRoom(s.options, s.store, now, vk, vi, m)
    ensures s.requests[r].origin in m.pools
    ensures Shrunk(s.store, m) && m.idleCount < s.options.maxIdle && Sound(s.options, m)
  {
    Standing(s, r);
    MadeRoomShrinks(s.options, s.store, now, vk, vi, m);
    ShrunkIsSound(s.options, s.store, m);
  }

  /** Every pool the event touches exists, and no counter it decrements is at zero. */
  ghost predicate WellDefined(s: System, e: Event) {
    && Enabled(s, e)
    && (!e.Admit? ==> Standable(s, e.r))
    && (e.Finish? && e.keepAlive ==>
          exists m :: MadeRoom(s.options, s.store, e.now, e.vk, e.vi, m) && s.requests[e.r].origin in m.pools)
  }

  lemma EnabledIsWellDefined(s: System, e: Event)
    requires Inv(s) && Enabled(s, e)
    ensures WellDefined(s, e)
  {
    hide LeasesOk, OriginGatesOk, GlobalGateOk, ReserveOk, ConnectionsOk, Sound;
    if !e.Admit? {
      Standing(s, e.r);
    }
    if e.Finish? && e.keepAlive {
      var m :| MadeRoom(s.options, s.store, e.now, e.vk, e.vi, m);
      RoomKeepsPool(s, e.r, e.now, e.vk, e.vi, m);
    }
  }

  /** The store after `release` of the connection `r` leases. */
  ghost function Returned(s: System, e: Event): (t: Store)
    requires WellDefined(s, e) && e.Finish?
    ensures Released(s.options, s.store, s.requests[e.r].origin,
                     s.requests[e.r].phase.conn.(reusable := e.keepAlive), e.now, t)
  {
    if !e.keepAlive then s.store
    else
      var m :| MadeRoom(s.options, s.store, e.now, e.vk, e.vi, m) && s.requests[e.r].origin in m.pools;
      Push(m, s.requests[e.r].origin, s.requests[e.r].phase.conn.(reusable := true), e.now)
  }

  ghost function Apply(s: System, e: Event): System
    requires WellDefined(s, e)
  {
    match e
    case Admit(r, k) => AdmitStep(s, r, k)
    case AskOrigin(r) => AskOriginStep(s, r)
    case Abandon(r) => MoveStep(s, r, DropPool)
    case CancelOrigin(r) => CancelOriginStep(s, r)
    case AskGlobal(r) => AskGlobalStep(s, r)
    case AbandonOrigin(r) => MoveStep(s, r, DropOrigin)
    case CancelGlobal(r) => CancelGlobalStep(s, r)
    case Lease(r, now) => LeaseStep(s, r, now)
    case Connected(r) => ConnectedStep(s, r)
    case ConnectFailed(r) => MoveStep(s, r, DropGlobal)
    case Finish(r, _, _, _, _) => FinishStep(s, r, Returned(s, e))
    case ReleaseGlobal(r) => ReleaseGlobalStep(s, r)
    case ReleaseOrigin(r) => ReleaseOriginStep(s, r)
    case Leave(r) => LeaveStep(s, r)
  }

  // ---------------------------------------------------------------- one step keeps the invariant

  lemma {:induction false} SubsetCard<T>(a: set<T>, b: set<T>)
    requires a <= b
    ensures |a| <= |b|
    decreases |a|
  {
    if a != {} {
      var x :| x in a;
      SubsetCard(a - {x}, b - {x});
    }
  }

  function Put(x: nat, here: bool, s: set<nat>): set<nat> {
    if here then s + {x} else s - {x}
  }

  /** The counting sets of origin `j` after request `r` of origin `k` moves to phase `p`. */
  lemma Moved(q: map<nat, Request>, r: nat, k: OriginKey, p: Phase, j: OriginKey)
    requires r in q ==> q[r].origin == k
    ensures var q' := q[r := Request(k, p)];
      && Users(q', j) == (if j == k then Users(q, j) + {r} else Users(q, j))
      && OriginHolders(q', j) == Put(r, j == k && HoldsOrigin(p), OriginHolders(q, j))
      && OriginQueue(q', j) == Put(r, j == k && p == AwaitOrigin(false), OriginQueue(q, j))
      && Leased(q', j) == Put(r, j == k && HoldsLease(p), Leased(q, j))
    ensures j != k ==> r !in OriginHolders(q, j) && r !in OriginQueue(q, j) && r !in Leased(q, j)
  {
  }

  lemma MovedGlobal(q: map<nat, Request>, r: nat, k: OriginKey, p: Phase)
    ensures var q' := q[r := Request(k, p)];
      && GlobalHolders(q') == Put(r, HoldsGlobal(p), GlobalHolders(q))
      && GlobalQueue(q') == Put(r, p == AwaitGlobal(false), GlobalQueue(q))
  {
  }

  lemma SendOk(g: Gate, capacity: nat, holders: set<nat>, queue: set<nat>, r: nat)
    requires GateOk(g, capacity, holders, queue) && r !in holders && r !in queue
    ensures g.buffered < capacity ==> GateOk(Send(g, capacity, r), capacity, holders + {r}, queue)
    ensures capacity <= g.buffered ==> GateOk(Send(g, capacity, r), capacity, holders, queue + {r})
  {
  }

  lemma CancelOk(g: Gate, capacity: nat, holders: set<nat>, queue: set<nat>, r: nat)
    requires GateOk(g, capacity, holders, queue)
    ensures GateOk(CancelSend(g, r), capacity, holders, queue - {r})
  {
    WithoutProperties(g.waiting, r);
  }

  /** A freed slot goes to the head of the queue, and to nobody if the queue is empty. */
  lemma ReceiveOk(g: Gate, capacity: nat, holders: set<nat>, queue: set<nat>, r: nat)
    requires GateOk(g, capacity, holders, queue) && r in holders && holders !! queue
    ensures 0 < g.buffered
    ensures g.waiting == [] ==> GateOk(Receive(g), capacity, holders - {r}, queue)
    ensures g.waiting != [] ==>
      GateOk(Receive(g), capacity, holders - {r} + {g.waiting[0]}, queue - {g.waiting[0]})
  {
    if g.waiting != [] {
      var w := g.waiting[0];
      assert w in queue;
      assert g.waiting == [w] + g.waiting[1..];
      assert forall x :: x in g.waiting <==> x == w || x in g.waiting[1..];
      assert w !in g.waiting[1..];
    }
  }

  /** Changing a gate or a user count leaves the idle books alone. */
  lemma SameIdleSound(o: Options, s: Store, k: OriginKey, p: Pool)
    requires Sound(o, s) && k in s.pools && p.idle == s.pools[k].idle && !Dead(p)
    ensures Sound(o, s.(pools := s.pools[k := p]))
  {
    TotalIdleUpdate(s.pools, k, p);
  }

  // Each lemma below carries one part of the invariant across a step, from the little it depends on.

  /** No pool with a live lease is gone, and no user count has changed. */
  lemma KeepLeases(s: System, t: System)
    requires LeasesOk(s)
    requires forall k :: k in t.store.pools ==> k in s.store.pools && t.store.pools[k].users == s.store.pools[k].users
    requires forall k :: k in s.store.pools && k !in t.store.pools ==> s.store.pools[k].users == 0
    requires t.requests.Keys == s.requests.Keys
    requires forall r :: r in s.requests ==> t.requests[r].origin == s.requests[r].origin
    ensures LeasesOk(t)
  {
    forall r | r in t.requests ensures t.requests[r].origin in t.store.pools {
      assert r in Users(s.requests, s.requests[r].origin);
    }
    forall k | k in t.store.pools ensures t.store.pools[k].users == |Users(t.requests, k)| {
      assert Users(t.requests, k) == Users(s.requests, k);
    }
  }

  /** Request `r` moves to phase `p` and the gate of its origin becomes `g`; no other origin notices. */
  lemma OriginGateMove(s: System, t: System, r: nat, p: Phase, g: Gate)
    requires OriginGatesOk(s) && t.options == s.options && r in s.requests
    requires t.requests == s.requests[r := s.requests[r].(phase := p)]
    requires t.store.pools.Keys == s.store.pools.Keys
    requires forall j :: j in s.store.pools ==>
      t.store.pools[j].gate == if j == s.requests[r].origin then g else s.store.pools[j].gate
    requires var k := s.requests[r].origin;
      GateOk(g, s.options.perOrigin, Put(r, HoldsOrigin(p), OriginHolders(s.requests, k)),
             Put(r, p == AwaitOrigin(false), OriginQueue(s.requests, k)))
    ensures OriginGatesOk(t)
  {
    var k := s.requests[r].origin;
    forall j | j in t.store.pools
      ensures GateOk(t.store.pools[j].gate, t.options.perOrigin, OriginHolders(t.requests, j), OriginQueue(t.requests, j))
    {
      Moved(s.requests, r, k, p, j);
      if j != k {
        assert OriginHolders(t.requests, j) == OriginHolders(s.requests, j);
        assert OriginQueue(t.requests, j) == OriginQueue(s.requests, j);
      }
    }
  }

  lemma GlobalGateMove(s: System, t: System, r: nat, p: Phase)
    requires t.options == s.options && r in s.requests
    requires t.requests == s.requests[r := s.requests[r].(phase := p)]
    requires GateOk(t.globalGate, s.options.maxActive, Put(r, HoldsGlobal(p), GlobalHolders(s.requests)),
                    Put(r, p == AwaitGlobal(false), GlobalQueue(s.requests)))
    ensures GlobalGateOk(t)
  {
    MovedGlobal(s.requests, r, s.requests[r].origin, p);
  }

  /** A move that neither takes nor gives up an origin permit nor joins or leaves a queue. */
  lemma OriginGatesUntouched(s: System, t: System, r: nat, p: Phase)
    requires OriginGatesOk(s) && t.options == s.options && r in s.requests
    requires t.requests == s.requests[r := s.requests[r].(phase := p)]
    requires HoldsOrigin(p) == HoldsOrigin(s.requests[r].phase)
    requires p != AwaitOrigin(false) && s.requests[r].phase != AwaitOrigin(false)
    requires t.store.pools.Keys <= s.store.pools.Keys
    requires forall j :: j in t.store.pools ==> t.store.pools[j].gate == s.store.pools[j].gate
    ensures OriginGatesOk(t)
  {
    forall j | j in t.store.pools
      ensures GateOk(t.store.pools[j].gate, t.options.perOrigin, OriginHolders(t.requests, j), OriginQueue(t.requests, j))
    {
      assert OriginHolders(t.requests, j) == OriginHolders(s.requests, j);
      assert OriginQueue(t.requests, j) == OriginQueue(s.requests, j);
    }
  }

  lemma GlobalGateUntouched(s: System, t: System, r: nat, p: Phase)
    requires GlobalGateOk(s) && t.options == s.options && t.globalGate == s.globalGate && r in s.requests
    requires t.requests == s.requests[r := s.requests[r].(phase := p)]
    requires HoldsGlobal(p) == HoldsGlobal(s.requests[r].phase)
    requires p != AwaitGlobal(false) && s.requests[r].phase != AwaitGlobal(false)
    ensures GlobalGateOk(t)
  {
    assert GlobalHolders(t.requests) == GlobalHolders(s.requests);
    assert GlobalQueue(t.requests) == GlobalQueue(s.requests);
  }

  lemma KeepReserve(s: System, t: System)
    requires ReserveOk(s) && t.options == s.options
    requires forall k :: k in t.store.pools && k in s.store.pools ==>
      |t.store.pools[k].idle| <= |s.store.pools[k].idle| && Leased(t.requests, k) <= Leased(s.requests, k)
    requires forall k :: k in t.store.pools && k !in s.store.pools ==>
      t.store.pools[k].idle == [] && Leased(t.requests, k) == {}
    ensures ReserveOk(t)
  {
    forall k | k in t.store.pools
      ensures |t.store.pools[k].idle| + |Leased(t.requests, k)| <= t.options.perOrigin
    {
      if k in s.store.pools {
        SubsetCard(Leased(t.requests, k), Leased(s.requests, k));
      }
    }
  }

  /** Connections only disappear. */
  lemma KeepConnections(s: System, t: System)
    requires ConnectionsOk(s) && s.nextConn <= t.nextConn
    requires forall k, c :: IdleAt(t, k, c) ==> IdleAt(s, k, c)
    requires forall k :: k in t.store.pools ==>
      t.store.pools[k].idle == [] || (k in s.store.pools && Thinned(s.store.pools[k].idle, t.store.pools[k].idle))
    requires forall r, c :: LeasedBy(t, r, c) ==> LeasedBy(s, r, c) && t.requests[r].origin == s.requests[r].origin
    ensures ConnectionsOk(t)
  {
    forall k | k in t.store.pools ensures Distinct(t.store.pools[k].idle) { }
    forall k, c, r, c' | IdleAt(t, k, c) && LeasedBy(t, r, c') ensures c.id != c'.id {
      assert IdleAt(s, k, c) && LeasedBy(s, r, c');
    }
  }

  /** The idle lists are the same lists. */
  ghost predicate SameIdle(s: System, t: System) {
    && t.store.pools.Keys == s.store.pools.Keys
    && forall k :: k in s.store.pools ==>
         t.store.pools[k].idle == s.store.pools[k].idle && t.store.pools[k].users == s.store.pools[k].users
  }

  /** A move that hands out no connection lease keeps the books of the pools. */
  ghost predicate NoNewLease(s: System, t: System) {
    && t.options == s.options && t.nextConn == s.nextConn
    && t.requests.Keys == s.requests.Keys
    && forall x :: x in s.requests ==>
         && t.requests[x].origin == s.requests[x].origin
         && (HoldsLease(t.requests[x].phase) ==> t.requests[x].phase == s.requests[x].phase)
  }

  lemma MoveLeases(s: System, t: System)
    requires LeasesOk(s) && SameIdle(s, t) && NoNewLease(s, t)
    ensures LeasesOk(t)
  {
    KeepLeases(s, t);
  }

  lemma MoveReserve(s: System, t: System)
    requires ReserveOk(s) && SameIdle(s, t) && NoNewLease(s, t)
    ensures ReserveOk(t)
  {
    forall k | k in t.store.pools ensures Leased(t.requests, k) <= Leased(s.requests, k) { }
    KeepReserve(s, t);
  }

  lemma MoveConnections(s: System, t: System)
    requires ConnectionsOk(s) && SameIdle(s, t) && NoNewLease(s, t)
    ensures ConnectionsOk(t)
  {
    forall k | k in t.store.pools ensures Thinned(s.store.pools[k].idle, t.store.pools[k].idle) { }
    KeepConnections(s, t);
  }

  // One lemma per kind of step.

  lemma AskOriginGate(s: System, r: nat)
    requires OriginGatesOk(s) && At(s, r, Admitted) && s.requests[r].origin in s.store.pools
    ensures OriginGatesOk(AskOriginStep(s, r))
  {
    var t, k := AskOriginStep(s, r), s.requests[r].origin;
    var g, H, Q := s.store.pools[k].gate, OriginHolders(s.requests, k), OriginQueue(s.requests, k);
    SendOk(g, s.options.perOrigin, H, Q, r);
    assert H - {r} == H && Q - {r} == Q;
    OriginGateMove(s, t, r, t.requests[r].phase, Send(g, s.options.perOrigin, r));
  }

  lemma StepAskOrigin(s: System, r: nat)
    requires Inv(s) && At(s, r, Admitted)
    ensures s.requests[r].origin in s.store.pools
    ensures Inv(AskOriginStep(s, r))
  {
    hide LeasesOk, OriginGatesOk, GlobalGateOk, ReserveOk, ConnectionsOk, Sound;
    Standing(s, r);
    var t, k := AskOriginStep(s, r), s.requests[r].origin;
    SameIdleSound(s.options, s.store, k, t.store.pools[k]);
    AskOriginGate(s, r);
    GlobalGateUntouched(s, t, r, t.requests[r].phase);
    MoveLeases(s, t);
    MoveReserve(s, t);
    MoveConnections(s, t);
  }

  lemma AdmitLeases(s: System, r: nat, k: OriginKey)
    requires LeasesOk(s) && r !in s.requests
    ensures LeasesOk(AdmitStep(s, r, k))
  {
    var t := AdmitStep(s, r, k);
    if k !in s.store.pools {
      assert Users(s.requests, k) == {};
    }
    forall j | j in t.store.pools ensures t.store.pools[j].users == |Users(t.requests, j)| {
      Moved(s.requests, r, k, Admitted, j);
    }
  }

  lemma AdmitGates(s: System, r: nat, k: OriginKey)
    requires LeasesOk(s) && OriginGatesOk(s) && r !in s.requests
    ensures OriginGatesOk(AdmitStep(s, r, k))
  {
    var t := AdmitStep(s, r, k);
    forall j | j in t.store.pools
      ensures GateOk(t.store.pools[j].gate, t.options.perOrigin, OriginHolders(t.requests, j), OriginQueue(t.requests, j))
    {
      assert OriginHolders(t.requests, j) == OriginHolders(s.requests, j);
      assert OriginQueue(t.requests, j) == OriginQueue(s.requests, j);
      if j !in s.store.pools {
        assert OriginHolders(s.requests, j) == {} && OriginQueue(s.requests, j) == {};
      }
    }
  }

  lemma AdmitReserve(s: System, r: nat, k: OriginKey)
    requires LeasesOk(s) && ReserveOk(s) && r !in s.requests
    ensures ReserveOk(AdmitStep(s, r, k))
  {
    var t := AdmitStep(s, r, k);
    forall j | j in t.store.pools ensures Leased(t.requests, j) == Leased(s.requests, j) { }
    assert k !in s.store.pools ==> Leased(s.requests, k) == {};
    KeepReserve(s, t);
  }

  lemma AdmitConnections(s: System, r: nat, k: OriginKey)
    requires ConnectionsOk(s) && r !in s.requests
    ensures ConnectionsOk(AdmitStep(s, r, k))
  {
    var t := AdmitStep(s, r, k);
    forall j | j in s.store.pools ensures Thinned(s.store.pools[j].idle, t.store.pools[j].idle) { }
    KeepConnections(s, t);
  }

  lemma AdmitSound(o: Options, s: Store, k: OriginKey)
    requires Sound(o, s)
    ensures Sound(o, AcquirePool(s, k))
  {
    var p := if k in s.pools then s.pools[k] else EmptyPool;
    TotalIdleUpdate(s.pools, k, p.(users := p.users + 1));
    if k !in s.pools {
      assert s.pools - {k} == s.pools;
    }
  }

  lemma AdmitGlobal(s: System, r: nat, k: OriginKey)
    requires GlobalGateOk(s) && r !in s.requests
    ensures GlobalGateOk(AdmitStep(s, r, k))
  {
    var t := AdmitStep(s, r, k);
    assert GlobalHolders(t.requests) == GlobalHolders(s.requests);
    assert GlobalQueue(t.requests) == GlobalQueue(s.requests);
  }

  lemma StepAdmit(s: System, r: nat, k: OriginKey)
    requires Inv(s) && r !in s.requests
    ensures Inv(AdmitStep(s, r, k))
  {
    hide LeasesOk, OriginGatesOk, GlobalGateOk, ReserveOk, ConnectionsOk, Sound;
    AdmitSound(s.options, s.store, k);
    AdmitLeases(s, r, k);
    AdmitGates(s, r, k);
    AdmitGlobal(s, r, k);
    AdmitReserve(s, r, k);
    AdmitConnections(s, r, k);
  }

  /** Moves that touch no gate: abandoning between operations, and a failed connect. */
  lemma StepMove(s: System, r: nat, p: Phase)
    requires Inv(s) && r in s.requests && p in {DropPool, DropOrigin, DropGlobal}
    requires !s.requests[r].phase.AwaitGlobal? && s.requests[r].phase != AwaitOrigin(false)
    requires HoldsOrigin(p) == HoldsOrigin(s.requests[r].phase) && HoldsGlobal(p) == HoldsGlobal(s.requests[r].phase)
    ensures Inv(MoveStep(s, r, p))
  {
    hide LeasesOk, OriginGatesOk, GlobalGateOk, ReserveOk, ConnectionsOk, Sound;
    var t := MoveStep(s, r, p);
    OriginGatesUntouched(s, t, r, p);
    GlobalGateUntouched(s, t, r, p);
    MoveLeases(s, t);
    MoveReserve(s, t);
    MoveConnections(s, t);
  }

  lemma CancelOriginGate(s: System, r: nat)
    requires OriginGatesOk(s) && At(s, r, AwaitOrigin(false)) && s.requests[r].origin in s.store.pools
    ensures OriginGatesOk(CancelOriginStep(s, r))
  {
    var t, k := CancelOriginStep(s, r), s.requests[r].origin;
    var g, H, Q := s.store.pools[k].gate, OriginHolders(s.requests, k), OriginQueue(s.requests, k);
    CancelOk(g, s.options.perOrigin, H, Q, r);
    assert H - {r} == H;
    OriginGateMove(s, t, r, DropPool, CancelSend(g, r));
  }

  lemma StepCancelOrigin(s: System, r: nat)
    requires Inv(s) && At(s, r, AwaitOrigin(false))
    ensures s.requests[r].origin in s.store.pools
    ensures Inv(CancelOriginStep(s, r))
  {
    hide LeasesOk, OriginGatesOk, GlobalGateOk, ReserveOk, ConnectionsOk, Sound;
    Standing(s, r);
    var t, k := CancelOriginStep(s, r), s.requests[r].origin;
    SameIdleSound(s.options, s.store, k, t.store.pools[k]);
    CancelOriginGate(s, r);
    GlobalGateUntouched(s, t, r, DropPool);
    MoveLeases(s, t);
    MoveReserve(s, t);
    MoveConnections(s, t);
  }

  lemma AskGlobalGate(s: System, r: nat)
    requires GlobalGateOk(s) && At(s, r, AwaitOrigin(true))
    ensures GlobalGateOk(AskGlobalStep(s, r))
  {
    var t, H, Q := AskGlobalStep(s, r), GlobalHolders(s.requests), GlobalQueue(s.requests);
    SendOk(s.globalGate, s.options.maxActive, H, Q, r);
    assert H - {r} == H && Q - {r} == Q;
    GlobalGateMove(s, t, r, t.requests[r].phase);
  }

  lemma StepAskGlobal(s: System, r: nat)
    requires Inv(s) && At(s, r, AwaitOrigin(true))
    ensures Inv(AskGlobalStep(s, r))
  {
    hide LeasesOk, OriginGatesOk, GlobalGateOk, ReserveOk, ConnectionsOk, Sound;
    var t := AskGlobalStep(s, r);
    AskGlobalGate(s, r);
    OriginGatesUntouched(s, t, r, t.requests[r].phase);
    MoveLeases(s, t);
    MoveReserve(s, t);
    MoveConnections(s, t);
  }

  lemma CancelGlobalGate(s: System, r: nat)
    requires GlobalGateOk(s) && At(s, r, AwaitGlobal(false))
    ensures GlobalGateOk(CancelGlobalStep(s, r))
  {
    var t, H := CancelGlobalStep(s, r), GlobalHolders(s.requests);
    CancelOk(s.globalGate, s.options.maxActive, H, GlobalQueue(s.requests), r);
    assert H - {r} == H;
    GlobalGateMove(s, t, r, DropOrigin);
  }

  lemma StepCancelGlobal(s: System, r: nat)
    requires Inv(s) && At(s, r, AwaitGlobal(false))
    ensures Inv(CancelGlobalStep(s, r))
  {
    hide LeasesOk, OriginGatesOk, GlobalGateOk, ReserveOk, ConnectionsOk, Sound;
    var t := CancelGlobalStep(s, r);
    CancelGlobalGate(s, r);
    OriginGatesUntouched(s, t, r, DropOrigin);
    MoveLeases(s, t);
    MoveReserve(s, t);
    MoveConnections(s, t);
  }

  /** Who holds the global permits and who waits for one after `r` gave its own back. */
  lemma GlobalHandOver(s: System, r: nat)
    requires At(s, r, DropGlobal) && 0 < s.globalGate.buffered && Head(s, s.globalGate, AwaitGlobal(false))
    ensures var q, g, H, Q := ReleaseGlobalStep(s, r).requests, s.globalGate, GlobalHolders(s.requests), GlobalQueue(s.requests);
      && r in H && H !! Q
      && GlobalHolders(q) == (if g.waiting == [] then H - {r} else H - {r} + {g.waiting[0]})
      && GlobalQueue(q) == (if g.waiting == [] then Q else Q - {g.waiting[0]})
  {
  }

  lemma ReleaseGlobalGate(s: System, r: nat)
    requires GlobalGateOk(s) && At(s, r, DropGlobal)
    requires 0 < s.globalGate.buffered && Head(s, s.globalGate, AwaitGlobal(false))
    ensures GlobalGateOk(ReleaseGlobalStep(s, r))
  {
    hide GateOk, GlobalHolders, GlobalQueue;
    GlobalHandOver(s, r);
    ReceiveOk(s.globalGate, s.options.maxActive, GlobalHolders(s.requests), GlobalQueue(s.requests), r);
  }

  lemma StepReleaseGlobal(s: System, r: nat)
    requires Inv(s) && At(s, r, DropGlobal)
    requires 0 < s.globalGate.buffered && Head(s, s.globalGate, AwaitGlobal(false))
    ensures Inv(ReleaseGlobalStep(s, r))
  {
    hide LeasesOk, OriginGatesOk, GlobalGateOk, ReserveOk, ConnectionsOk, Sound;
    var t, u := ReleaseGlobalStep(s, r), MoveStep(s, r, DropOrigin);
    ReleaseGlobalGate(s, r);
    OriginGatesUntouched(s, u, r, DropOrigin);
    if s.globalGate.waiting == [] {
      KeepOriginGates(u, t);
    } else {
      OriginGatesUntouched(u, t, s.globalGate.waiting[0], AwaitGlobal(true));
    }
    MoveLeases(s, t);
    MoveReserve(s, t);
    MoveConnections(s, t);
  }

  lemma KeepOriginGates(s: System, t: System)
    requires OriginGatesOk(s) && t.options == s.options && t.requests == s.requests && t.store == s.store
    ensures OriginGatesOk(t)
  {
  }

  /** The permit of `r` goes to `w`, the head of the queue of `k`. */
  lemma HandOver(q: map<nat, Request>, r: nat, w: nat, k: OriginKey, j: OriginKey)
    requires r in q && q[r] == Request(k, DropOrigin) && w in q && q[w] == Request(k, AwaitOrigin(false))
    ensures var q' := SetPhase(SetPhase(q, r, DropPool), w, AwaitOrigin(true));
      && OriginHolders(q', j) == (if j == k then OriginHolders(q, j) - {r} + {w} else OriginHolders(q, j))
      && OriginQueue(q', j) == (if j == k then OriginQueue(q, j) - {w} else OriginQueue(q, j))
  {
  }

  lemma ReleaseOriginGate(s: System, r: nat)
    requires OriginGatesOk(s) && At(s, r, DropOrigin) && s.requests[r].origin in s.store.pools
    requires var g := s.store.pools[s.requests[r].origin].gate;
      0 < g.buffered && Head(s, g, AwaitOrigin(false))
    ensures OriginGatesOk(ReleaseOriginStep(s, r))
  {
    var t, k := ReleaseOriginStep(s, r), s.requests[r].origin;
    var g, H, Q := s.store.pools[k].gate, OriginHolders(s.requests, k), OriginQueue(s.requests, k);
    ReceiveOk(g, s.options.perOrigin, H, Q, r);
    if g.waiting == [] {
      assert Q - {r} == Q;
      OriginGateMove(s, t, r, DropPool, Receive(g));
    } else {
      var w := g.waiting[0];
      assert w in g.waiting && w in Q;
      forall j | j in t.store.pools
        ensures GateOk(t.store.pools[j].gate, t.options.perOrigin, OriginHolders(t.requests, j), OriginQueue(t.requests, j))
      {
        HandOver(s.requests, r, w, k, j);
      }
    }
  }

  lemma StepReleaseOrigin(s: System, r: nat)
    requires Inv(s) && At(s, r, DropOrigin)
    ensures s.requests[r].origin in s.store.pools && Standable(s, r)
    ensures Inv(ReleaseOriginStep(s, r))
  {
    hide LeasesOk, OriginGatesOk, GlobalGateOk, ReserveOk, ConnectionsOk, Sound;
    Standing(s, r);
    var t, u, k := ReleaseOriginStep(s, r), MoveStep(s, r, DropPool), s.requests[r].origin;
    SameIdleSound(s.options, s.store, k, t.store.pools[k]);
    ReleaseOriginGate(s, r);
    GlobalGateUntouched(s, u, r, DropPool);
    var waiting := s.store.pools[k].gate.waiting;
    if waiting == [] {
      GlobalGateUntouched(s, t, r, DropPool);
    } else {
      GlobalGateUntouched(u, t, waiting[0], AwaitOrigin(true));
    }
    MoveLeases(s, t);
    MoveReserve(s, t);
    MoveConnections(s, t);
  }

  // ---- take_idle

  /** At its own origin the request takes one idle connection over, or finds none and is one of the permit holders. */
  lemma LeaseReserveHere(s: System, r: nat, now: int)
    requires ReserveOk(s) && At(s, r, AwaitGlobal(true)) && Standable(s, r)
    requires var k := s.requests[r].origin; |OriginHolders(s.requests, k)| <= s.options.perOrigin
    ensures
      var t, k := LeaseStep(s, r, now), s.requests[r].origin;
      k in t.store.pools && |t.store.pools[k].idle| + |Leased(t.requests, k)| <= s.options.perOrigin
  {
    var t, k := LeaseStep(s, r, now), s.requests[r].origin;
    hide OriginHolders, Leased;
    PoppedShape(s.options, s.store.pools[k].idle, now);
    OneLeaseMore(s.requests, r, t.requests[r].phase);
    if t.store.pools[k].idle == [] {
      SubsetCard(Leased(t.requests, k), OriginHolders(s.requests, k));
    }
  }

  lemma OneLeaseMore(q: map<nat, Request>, r: nat, p: Phase)
    requires r in q && q[r].phase == AwaitGlobal(true) && HoldsLease(p)
    ensures
      var t, k := SetPhase(q, r, p), q[r].origin;
      Leased(t, k) <= OriginHolders(q, k) && |Leased(t, k)| == |Leased(q, k)| + 1
  {
    var t, k := SetPhase(q, r, p), q[r].origin;
    assert Leased(t, k) == Leased(q, k) + {r};
  }

  lemma LeaseReserveElsewhere(s: System, r: nat, now: int, j: OriginKey)
    requires ReserveOk(s) && At(s, r, AwaitGlobal(true)) && Standable(s, r) && j != s.requests[r].origin
    ensures
      var t := LeaseStep(s, r, now);
      j in t.store.pools ==> |t.store.pools[j].idle| + |Leased(t.requests, j)| <= s.options.perOrigin
  {
    hide Popped;
    var t := LeaseStep(s, r, now);
    assert Leased(t.requests, j) == Leased(s.requests, j);
  }

  lemma LeaseReserve(s: System, r: nat, now: int)
    requires ReserveOk(s) && At(s, r, AwaitGlobal(true)) && Standable(s, r)
    requires var k := s.requests[r].origin; |OriginHolders(s.requests, k)| <= s.options.perOrigin
    ensures ReserveOk(LeaseStep(s, r, now))
  {
    LeaseReserveHere(s, r, now);
    var t, k := LeaseStep(s, r, now), s.requests[r].origin;
    hide LeaseStep, Leased, OriginHolders;
    forall j | j in t.store.pools && j != k
      ensures |t.store.pools[j].idle| + |Leased(t.requests, j)| <= t.options.perOrigin
    {
      LeaseReserveElsewhere(s, r, now, j);
      LeaseKeepsOptions(s, r, now);
    }
    LeaseKeepsOptions(s, r, now);
  }

  lemma LeaseKeepsOptions(s: System, r: nat, now: int)
    requires At(s, r, AwaitGlobal(true)) && Standable(s, r)
    ensures LeaseStep(s, r, now).options == s.options
  {
  }

  lemma LeaseConnections(s: System, r: nat, now: int)
    requires ConnectionsOk(s) && At(s, r, AwaitGlobal(true)) && Standable(s, r)
    ensures ConnectionsOk(LeaseStep(s, r, now))
  {
    var t, k := LeaseStep(s, r, now), s.requests[r].origin;
    var idle := s.store.pools[k].idle;
    PoppedShape(s.options, idle, now);
    var n := |t.store.pools[k].idle|;
    if t.requests[r].phase.Exchanging? {
      var c := t.requests[r].phase.conn;
      assert IdleAt(s, k, idle[n]) && c.id == idle[n].id;
      forall j, d | IdleAt(t, j, d) ensures IdleAt(s, j, d) && d.id != c.id {
        if j == k {
          var i :| 0 <= i < n && idle[i] == d;
          assert Distinct(idle) && idle[i].id != idle[n].id;
        } else {
          assert IdleAt(s, j, d);
        }
      }
      forall x, d | LeasedBy(t, x, d) && x != r ensures LeasedBy(s, x, d) && d.id != c.id {
        assert LeasedBy(s, x, d) && IdleAt(s, k, idle[n]);
      }
      forall x, d, y, d' | LeasedBy(t, x, d) && LeasedBy(t, y, d') && x != y ensures d.id != d'.id { }
    } else {
      forall x, d | LeasedBy(t, x, d) ensures LeasedBy(s, x, d) { }
      forall j | j in t.store.pools ensures t.store.pools[j].idle == [] || Thinned(s.store.pools[j].idle, t.store.pools[j].idle) { }
      KeepConnections(s, t);
    }
  }

  lemma LeaseOrigin(s: System, r: nat)
    requires OriginGatesOk(s) && r in s.requests && s.requests[r].origin in s.store.pools
    ensures |OriginHolders(s.requests, s.requests[r].origin)| <= s.options.perOrigin
  {
  }

  lemma StepLease(s: System, r: nat, now: int)
    requires Inv(s) && At(s, r, AwaitGlobal(true)) && Standable(s, r)
    ensures Inv(LeaseStep(s, r, now))
  {
    hide LeasesOk, OriginGatesOk, GlobalGateOk, ReserveOk, ConnectionsOk, Sound;
    var t, k := LeaseStep(s, r, now), s.requests[r].origin;
    PoppedShape(s.options, s.store.pools[k].idle, now);
    CutIsSound(s.options, s.store, k, |t.store.pools[k].idle|);
    LeaseOrigin(s, r);
    LeaseReserve(s, r, now);
    LeaseConnections(s, r, now);
    KeepLeases(s, t);
    OriginGatesUntouched(s, t, r, t.requests[r].phase);
    GlobalGateUntouched(s, t, r, t.requests[r].phase);
  }

  // ---- connect

  lemma ConnectedReserve(s: System, r: nat)
    requires ReserveOk(s) && At(s, r, Connecting)
    ensures ReserveOk(ConnectedStep(s, r))
  {
    var t := ConnectedStep(s, r);
    forall k | k in t.store.pools ensures Leased(t.requests, k) == Leased(s.requests, k) { }
  }

  lemma ConnectedConnections(s: System, r: nat)
    requires ConnectionsOk(s) && At(s, r, Connecting)
    ensures ConnectionsOk(ConnectedStep(s, r))
  {
    var t := ConnectedStep(s, r);
    forall x, d | LeasedBy(t, x, d) && x != r ensures LeasedBy(s, x, d) { }
    forall j, d | IdleAt(t, j, d) ensures IdleAt(s, j, d) { }
    forall x, d, y, d' | LeasedBy(t, x, d) && LeasedBy(t, y, d') && x != y ensures d.id != d'.id { }
  }

  lemma StepConnected(s: System, r: nat)
    requires Inv(s) && At(s, r, Connecting)
    ensures Inv(ConnectedStep(s, r))
  {
    hide LeasesOk, OriginGatesOk, GlobalGateOk, ReserveOk, ConnectionsOk, Sound;
    var t := ConnectedStep(s, r);
    ConnectedReserve(s, r);
    ConnectedConnections(s, r);
    KeepLeases(s, t);
    OriginGatesUntouched(s, t, r, t.requests[r].phase);
    GlobalGateUntouched(s, t, r, t.requests[r].phase);
  }

  // ---- release

  /** `m` is the store after making room, `t` the system after the push. */
  ghost predicate PushedInto(s: System, r: nat, c: Connection, m: Store, t: System) {
    && r in s.requests && s.requests[r].phase.Exchanging?
    && c.id == s.requests[r].phase.conn.id && c.home == s.requests[r].phase.conn.home
    && Shrunk(s.store, m) && s.requests[r].origin in m.pools
    && var k := s.requests[r].origin;
      && t.store.pools == m.pools[k := m.pools[k].(idle := m.pools[k].idle + [c])]
      && t.requests == SetPhase(s.requests, r, DropGlobal)
      && t.options == s.options && t.nextConn == s.nextConn && t.globalGate == s.globalGate
  }

  lemma FinishReserve(s: System, r: nat, c: Connection, m: Store, t: System)
    requires ReserveOk(s) && PushedInto(s, r, c, m, t)
    ensures ReserveOk(t)
  {
    var k := s.requests[r].origin;
    forall j | j in t.store.pools
      ensures |t.store.pools[j].idle| + |Leased(t.requests, j)| <= t.options.perOrigin
    {
      Moved(s.requests, r, k, DropGlobal, j);
      assert Thinned(s.store.pools[j].idle, m.pools[j].idle);
      if j == k {
        assert r in Leased(s.requests, k);
      } else {
        assert Leased(t.requests, j) == Leased(s.requests, j);
      }
    }
  }

  lemma PushedIdle(s: System, r: nat, c: Connection, m: Store, t: System, j: OriginKey, d: Connection)
    requires ConnectionsOk(s) && PushedInto(s, r, c, m, t) && IdleAt(t, j, d)
    ensures (j == s.requests[r].origin && d == c) || (IdleAt(s, j, d) && d.id != c.id)
  {
    assert LeasedBy(s, r, s.requests[r].phase.conn);
    assert Thinned(s.store.pools[j].idle, m.pools[j].idle);
  }

  lemma PushedLeased(s: System, r: nat, c: Connection, m: Store, t: System, x: nat, d: Connection)
    requires ConnectionsOk(s) && PushedInto(s, r, c, m, t) && LeasedBy(t, x, d)
    ensures x != r && LeasedBy(s, x, d) && d.id != c.id && t.requests[x].origin == s.requests[x].origin
  {
    assert LeasedBy(s, r, s.requests[r].phase.conn) && LeasedBy(s, x, d);
  }

  lemma PushedDistinct(s: System, r: nat, c: Connection, m: Store, t: System, j: OriginKey)
    requires ConnectionsOk(s) && PushedInto(s, r, c, m, t) && j in t.store.pools
    ensures Distinct(t.store.pools[j].idle)
  {
    assert Thinned(s.store.pools[j].idle, m.pools[j].idle);
    forall d | d in m.pools[j].idle ensures d.id != c.id {
      assert IdleAt(s, j, d) && LeasedBy(s, r, s.requests[r].phase.conn);
    }
  }

  /** One connection `c` is new to the idle list of `k`, where its identity was unknown. */
  lemma OneMoreIdle(s: System, t: System, k: OriginKey, c: Connection)
    requires ConnectionsOk(s) && t.nextConn == s.nextConn && c.home == k && c.id < s.nextConn
    requires forall j, d :: IdleAt(t, j, d) ==> (j == k && d == c) || (IdleAt(s, j, d) && d.id != c.id)
    requires forall x, d :: LeasedBy(t, x, d) ==>
      LeasedBy(s, x, d) && d.id != c.id && t.requests[x].origin == s.requests[x].origin
    requires forall j :: j in t.store.pools ==> Distinct(t.store.pools[j].idle)
    ensures ConnectionsOk(t)
  {
  }

  lemma FinishConnections(s: System, r: nat, c: Connection, m: Store, t: System)
    requires ConnectionsOk(s) && PushedInto(s, r, c, m, t)
    ensures ConnectionsOk(t)
  {
    var k := s.requests[r].origin;
    assert c.home == k && c.id < s.nextConn by {
      assert LeasedBy(s, r, s.requests[r].phase.conn);
    }
    hide ConnectionsOk, PushedInto, Distinct;
    forall j, d | IdleAt(t, j, d) ensures (j == k && d == c) || (IdleAt(s, j, d) && d.id != c.id) {
      PushedIdle(s, r, c, m, t, j, d);
    }
    forall x, d | LeasedBy(t, x, d)
      ensures LeasedBy(s, x, d) && d.id != c.id && t.requests[x].origin == s.requests[x].origin
    {
      PushedLeased(s, r, c, m, t, x, d);
    }
    forall j | j in t.store.pools ensures Distinct(t.store.pools[j].idle) {
      PushedDistinct(s, r, c, m, t, j);
    }
    assert t.nextConn == s.nextConn by { PushedSame(s, r, c, m, t); }
    OneMoreIdle(s, t, k, c);
  }

  lemma PushedSame(s: System, r: nat, c: Connection, m: Store, t: System)
    requires PushedInto(s, r, c, m, t)
    ensures t.nextConn == s.nextConn
  {
  }

  lemma FinishLeases(s: System, r: nat, c: Connection, m: Store, t: System)
    requires LeasesOk(s) && PushedInto(s, r, c, m, t)
    ensures LeasesOk(t)
  {
    KeepLeases(s, t);
  }

  lemma FinishOriginGates(s: System, r: nat, c: Connection, m: Store, t: System)
    requires OriginGatesOk(s) && PushedInto(s, r, c, m, t)
    ensures OriginGatesOk(t)
  {
    OriginGatesUntouched(s, t, r, DropGlobal);
  }

  lemma FinishGlobalGate(s: System, r: nat, c: Connection, m: Store, t: System)
    requires GlobalGateOk(s) && PushedInto(s, r, c, m, t)
    ensures GlobalGateOk(t)
  {
    GlobalGateUntouched(s, t, r, DropGlobal);
  }

  /** Dropping a connection that may not be reused is a plain move; any other goes back to its pool. */
  lemma StepFinish(s: System, e: Event)
    requires Inv(s) && WellDefined(s, e) && e.Finish?
    ensures Inv(Apply(s, e))
  {
    hide LeasesOk, OriginGatesOk, GlobalGateOk, ReserveOk, ConnectionsOk, Sound;
    var t, k := FinishStep(s, e.r, Returned(s, e)), s.requests[e.r].origin;
    var c := s.requests[e.r].phase.conn.(reusable := e.keepAlive);
    if e.keepAlive {
      var vk, vi: nat, m :| MadeRoom(s.options, s.store, e.now, vk, vi, m) && k in m.pools
                       && Returned(s, e) == Push(m, k, c, e.now);
      RoomKeepsPool(s, e.r, e.now, vk, vi, m);
      PushIsSound(s.options, m, k, c, e.now);
      FinishReserve(s, e.r, c.(idleSince := e.now), m, t);
      FinishConnections(s, e.r, c.(idleSince := e.now), m, t);
      FinishLeases(s, e.r, c.(idleSince := e.now), m, t);
      FinishOriginGates(s, e.r, c.(idleSince := e.now), m, t);
      FinishGlobalGate(s, e.r, c.(idleSince := e.now), m, t);
    } else {
      StepMove(s, e.r, DropGlobal);
    }
  }

  // ---- leave

  lemma LeaveSound(o: Options, s: Store, k: OriginKey)
    requires Sound(o, s) && k in s.pools && 0 < s.pools[k].users
    ensures Sound(o, ReleasePool(s, k))
  {
    var p := s.pools[k].(users := s.pools[k].users - 1);
    TotalIdleUpdate(s.pools, k, p);
    TotalIdleAt(s.pools, k);
  }

  lemma LeaveLeases(s: System, r: nat)
    requires LeasesOk(s) && At(s, r, DropPool) && Standable(s, r)
    ensures LeasesOk(LeaveStep(s, r))
  {
    var t, k := LeaveStep(s, r), s.requests[r].origin;
    forall j | j in t.store.pools ensures t.store.pools[j].users == |Users(t.requests, j)| {
      assert Users(t.requests, j) == Users(s.requests, j) - {r};
      assert r in Users(s.requests, j) <==> j == k;
    }
    forall x | x in t.requests ensures t.requests[x].origin in t.store.pools {
      if t.requests[x].origin == k {
        assert {x, r} <= Users(s.requests, k);
        SubsetCard({x, r}, Users(s.requests, k));
      }
    }
  }

  lemma LeaveGates(s: System, r: nat)
    requires OriginGatesOk(s) && At(s, r, DropPool) && Standable(s, r)
    ensures OriginGatesOk(LeaveStep(s, r))
  {
    var t := LeaveStep(s, r);
    forall j | j in t.store.pools
      ensures GateOk(t.store.pools[j].gate, t.options.perOrigin, OriginHolders(t.requests, j), OriginQueue(t.requests, j))
    {
      assert OriginHolders(t.requests, j) == OriginHolders(s.requests, j);
      assert OriginQueue(t.requests, j) == OriginQueue(s.requests, j);
    }
  }

  lemma LeaveGlobal(s: System, r: nat)
    requires GlobalGateOk(s) && At(s, r, DropPool) && Standable(s, r)
    ensures GlobalGateOk(LeaveStep(s, r))
  {
    var t := LeaveStep(s, r);
    assert GlobalHolders(t.requests) == GlobalHolders(s.requests);
    assert GlobalQueue(t.requests) == GlobalQueue(s.requests);
  }

  lemma LeaveReserve(s: System, r: nat)
    requires ReserveOk(s) && At(s, r, DropPool) && Standable(s, r)
    ensures ReserveOk(LeaveStep(s, r))
  {
    var t := LeaveStep(s, r);
    forall j | j in t.store.pools ensures Leased(t.requests, j) <= Leased(s.requests, j) { }
    KeepReserve(s, t);
  }

  lemma LeaveConnections(s: System, r: nat)
    requires ConnectionsOk(s) && At(s, r, DropPool) && Standable(s, r)
    ensures ConnectionsOk(LeaveStep(s, r))
  {
    var t := LeaveStep(s, r);
    forall j | j in t.store.pools ensures Thinned(s.store.pools[j].idle, t.store.pools[j].idle) { }
    KeepConnections(s, t);
  }

  lemma StepLeave(s: System, r: nat)
    requires Inv(s) && At(s, r, DropPool) && Standable(s, r)
    ensures Inv(LeaveStep(s, r))
  {
    hide LeasesOk, OriginGatesOk, GlobalGateOk, ReserveOk, ConnectionsOk, Sound;
    LeaveSound(s.options, s.store, s.requests[r].origin);
    LeaveLeases(s, r);
    LeaveGates(s, r);
    LeaveGlobal(s, r);
    LeaveReserve(s, r);
    LeaveConnections(s, r);
  }

  /** Every event keeps the invariant. */
  lemma StepKeepsInv(s: System, e: Event)
    requires Inv(s) && Enabled(s, e)
    ensures WellDefined(s, e) && Inv(Apply(s, e))
  {
    hide Inv, LeasesOk, OriginGatesOk, GlobalGateOk, ReserveOk, ConnectionsOk, Sound;
    EnabledIsWellDefined(s, e);
    match e
    case Admit(r, k) => StepAdmit(s, r, k);
    case AskOrigin(r) => StepAskOrigin(s, r);
    case Abandon(r) => StepMove(s, r, DropPool);
    case CancelOrigin(r) => StepCancelOrigin(s, r);
    case AskGlobal(r) => StepAskGlobal(s, r);
    case AbandonOrigin(r) => StepMove(s, r, DropOrigin);
    case CancelGlobal(r) => StepCancelGlobal(s, r);
    case Lease(r, now) => StepLease(s, r, now);
    case Connected(r) => StepConnected(s, r);
    case ConnectFailed(r) => StepMove(s, r, DropGlobal);
    case Finish(r, _, _, _, _) => StepFinish(s, e);
    case ReleaseGlobal(r) => StepReleaseGlobal(s, r);
    case ReleaseOrigin(r) => StepReleaseOrigin(s, r);
    case Leave(r) => StepLeave(s, r);
  }

  // ---------------------------------------------------------------- all runs

  ghost predicate Initial(s: System) {
    Positive(s.options) && s == System(s.options, Store(map[], 0), EmptyGate, map[], 0)
  }

  /** `es` leads from `s` to `t`. */
  ghost predicate IsRun(s: System, es: seq<Event>, t: System)
    decreases |es|
  {
    if es == [] then s == t
    else WellDefined(s, es[0]) && IsRun(Apply(s, es[0]), es[1..], t)
  }

  lemma InitialInv(s: System)
    requires Initial(s)
    ensures Inv(s)
  {
    assert GlobalHolders(s.requests) == {} && GlobalQueue(s.requests) == {};
  }

  lemma {:induction false} RunKeepsInv(s: System, es: seq<Event>, t: System)
    requires Inv(s) && IsRun(s, es, t)
    ensures Inv(t)
    decreases |es|
  {
    hide Inv;
    if es != [] {
      StepKeepsInv(s, es[0]);
      RunKeepsInv(Apply(s, es[0]), es[1..], t);
    }
  }

  /** No event of any run decrements a counter at zero or touches a pool that is gone. */
  lemma RunsNeverUnderflow(s: System, es: seq<Event>, t: System, e: Event)
    requires Initial(s) && IsRun(s, es, t) && Enabled(t, e)
    ensures WellDefined(t, e)
  {
    hide Inv, IsRun;
    InitialInv(s);
    RunKeepsInv(s, es, t);
    EnabledIsWellDefined(t, e);
  }

  /** The limits and the accounting, in every reachable state. */
  lemma RunsAreBounded(s: System, es: seq<Event>, t: System)
    requires Initial(s) && IsRun(s, es, t)
    ensures forall k :: k in t.store.pools ==>
      && |t.store.pools[k].idle| + |Leased(t.requests, k)| <= t.options.perOrigin
      && |OriginHolders(t.requests, k)| == t.store.pools[k].gate.buffered <= t.options.perOrigin
      && t.store.pools[k].users == |Users(t.requests, k)|
      && (0 < t.store.pools[k].users || t.store.pools[k].idle != [])
    ensures |GlobalHolders(t.requests)| == t.globalGate.buffered <= t.options.maxActive
    ensures t.store.idleCount == TotalIdle(t.store.pools) <= t.options.maxIdle
  {
    hide IsRun;
    InitialInv(s);
    RunKeepsInv(s, es, t);
  }

  /** A connection is in one idle list or one lease, and stays with the origin it was opened to. */
  lemma RunsKeepConnectionsApart(s: System, es: seq<Event>, t: System)
    requires Initial(s) && IsRun(s, es, t)
    ensures forall k, c :: IdleAt(t, k, c) ==> c.home == k
    ensures forall r, c :: LeasedBy(t, r, c) ==> c.home == t.requests[r].origin
    ensures forall k, i, j :: k in t.store.pools && 0 <= i < j < |t.store.pools[k].idle| ==>
              t.store.pools[k].idle[i].id != t.store.pools[k].idle[j].id
    ensures forall k, c, k', c' :: IdleAt(t, k, c) && IdleAt(t, k', c') && c.id == c'.id ==> k == k'
    ensures forall k, c, r, c' :: IdleAt(t, k, c) && LeasedBy(t, r, c') ==> c.id != c'.id
    ensures forall r, c, r', c' :: LeasedBy(t, r, c) && LeasedBy(t, r', c') && c.id == c'.id ==> r == r'
  {
    hide IsRun, Sound, LeasesOk, OriginGatesOk, GlobalGateOk, ReserveOk;
    InitialInv(s);
    RunKeepsInv(s, es, t);
  }

  /** The `push_back` inside `release` never outgrows the one `reserve(capacity)`. */
  lemma PushFitsReserve(s: System, es: seq<Event>, t: System, e: Event, m: Store)
    requires Initial(s) && IsRun(s, es, t) && Enabled(t, e) && e.Finish?
    requires MadeRoom(t.options, t.store, e.now, e.vk, e.vi, m)
    ensures var k := t.requests[e.r].origin;
      k in m.pools && |m.pools[k].idle| + 1 <= t.options.perOrigin && m.idleCount + 1 <= t.options.maxIdle
  {
    hide IsRun, Sound, LeasesOk, OriginGatesOk, GlobalGateOk, ConnectionsOk;
    InitialInv(s);
    RunKeepsInv(s, es, t);
    RoomKeepsPool(t, e.r, e.now, e.vk, e.vi, m);
    var k := t.requests[e.r].origin;
    assert e.r in Leased(t.requests, k);
    assert Thinned(t.store.pools[k].idle, m.pools[k].idle);
  }

  /** Release, pruning and eviction by one request never erase the pool another one leases. */
  lemma LeasedPoolsSurvive(s: System, es: seq<Event>, t: System, e: Event, r: nat)
    requires Initial(s) && IsRun(s, es, t) && Enabled(t, e)
    requires r in t.requests && (e.Leave? ==> e.r != r)
    ensures WellDefined(t, e)
    ensures var u := Apply(t, e);
      r in u.requests && u.requests[r].origin == t.requests[r].origin && u.requests[r].origin in u.store.pools
  {
    hide IsRun, Sound, OriginGatesOk, GlobalGateOk, ReserveOk, ConnectionsOk;
    InitialInv(s);
    RunKeepsInv(s, es, t);
    StepKeepsInv(t, e);
    RequestsStay(t, e, r);
  }

  lemma RequestsStay(s: System, e: Event, r: nat)
    requires WellDefined(s, e) && r in s.requests && (e.Leave? ==> e.r != r)
    ensures r in Apply(s, e).requests && Apply(s, e).requests[r].origin == s.requests[r].origin
  {
  }

  /** On every way out permits go back: with no request left no gate holds or queues anything. */
  lemma QuietGatesAreEmpty(s: System, es: seq<Event>, t: System)
    requires Initial(s) && IsRun(s, es, t) && t.requests == map[]
    ensures t.globalGate == EmptyGate
    ensures forall k :: k in t.store.pools ==>
      t.store.pools[k].gate == EmptyGate && t.store.pools[k].users == 0 && t.store.pools[k].idle != []
  {
    hide IsRun;
    InitialInv(s);
    RunKeepsInv(s, es, t);
    WaitersAreQueued(t.globalGate, t.options.maxActive, GlobalHolders(t.requests), GlobalQueue(t.requests));
    forall k | k in t.store.pools
      ensures t.store.pools[k].gate == EmptyGate && t.store.pools[k].users == 0 && t.store.pools[k].idle != []
    {
      WaitersAreQueued(t.store.pools[k].gate, t.options.perOrigin, OriginHolders(t.requests, k), OriginQueue(t.requests, k));
      assert Users(t.requests, k) == {};
    }
  }

  lemma WaitersAreQueued(g: Gate, capacity: nat, holders: set<nat>, queue: set<nat>)
    requires GateOk(g, capacity, holders, queue)
    ensures g.waiting != [] ==> queue != {}
  {
    if g.waiting != [] {
      assert g.waiting[0] in queue;
    }
  }

  // ---------------------------------------------------------------- eviction and loss

  /**
   The only ways an idle connection ceases to be idle: `take_idle` hands it out or finds it past the
   timeout, or a release at the global limit prunes it as past the timeout or, if no idle connection is,
   evicts it as the oldest of all.
   */
  ghost predicate MayVanish(s: System, e: Event, k: OriginKey, c: Connection)
    requires WellDefined(s, e)
  {
    match e
    case Lease(r, now) =>
      && s.requests[r].origin == k
      && (now - c.idleSince > s.options.idleTimeout
          || Apply(s, e).requests[r].phase == Exchanging(c.(reusable := false)))
    case Finish(r, keepAlive, now, vk, vi) =>
      && keepAlive && s.options.maxIdle <= s.store.idleCount
      && (now - c.idleSince > s.options.idleTimeout
          || forall j, d :: IdleAt(s, j, d) ==> now - d.idleSince <= s.options.idleTimeout && c.idleSince <= d.idleSince)
    case _ => false
  }

  lemma IdleConnectionsAreKept(s: System, e: Event, k: OriginKey, c: Connection)
    requires Inv(s) && WellDefined(s, e) && IdleAt(s, k, c)
    ensures IdleAt(Apply(s, e), k, c) || MayVanish(s, e, k, c)
  {
    hide LeasesOk, OriginGatesOk, GlobalGateOk, ReserveOk, ConnectionsOk, Sound;
    match e {
      case Lease(r, now) => LeaseKeeps(s, e, k, c);
      case Finish(r, keepAlive, now, vk, vi) =>
        if keepAlive {
          FinishKeeps(s, e, k, c);
        }
      case _ =>
    }
  }

  /** The only way a connection becomes idle: an exchange gave its own back for reuse, just now, to its own origin. */
  lemma IdleConnectionsAreReturned(s: System, e: Event, k: OriginKey, c: Connection)
    requires Inv(s) && WellDefined(s, e) && IdleAt(Apply(s, e), k, c) && !IdleAt(s, k, c)
    ensures e.Finish? && e.keepAlive && k == s.requests[e.r].origin
    ensures c == s.requests[e.r].phase.conn.(reusable := true, idleSince := e.now)
  {
    hide LeasesOk, OriginGatesOk, GlobalGateOk, ReserveOk, ConnectionsOk, Apply, IdleAt, Sound;
    if e.Finish? && e.keepAlive {
      OnlyOwnIsPushed(s, e, k, c);
    } else {
      NothingPushed(s, e, k, c);
    }
  }

  lemma OnlyOwnIsPushed(s: System, e: Event, k: OriginKey, c: Connection)
    requires Positive(s.options) && Sound(s.options, s.store)
    requires WellDefined(s, e) && e.Finish? && e.keepAlive && IdleAt(Apply(s, e), k, c) && !IdleAt(s, k, c)
    ensures k == s.requests[e.r].origin && c == s.requests[e.r].phase.conn.(reusable := true, idleSince := e.now)
  {
    var home, conn := s.requests[e.r].origin, s.requests[e.r].phase.conn.(reusable := true);
    var vk, vi: nat, m :| MadeRoom(s.options, s.store, e.now, vk, vi, m) && home in m.pools
      && Returned(s, e) == Push(m, home, conn, e.now);
    MadeRoomShrinks(s.options, s.store, e.now, vk, vi, m);
    hide MadeRoom, Sound;
    assert k in m.pools && c in m.pools[k].idle ==> IdleAt(s, k, c);
  }

  lemma NothingPushed(s: System, e: Event, k: OriginKey, c: Connection)
    requires WellDefined(s, e) && !(e.Finish? && e.keepAlive) && IdleAt(Apply(s, e), k, c)
    ensures IdleAt(s, k, c)
  {
    if e.Lease? && k == s.requests[e.r].origin {
      TakeIdleByAge(s.options, s.store, k, e.now);
    }
  }

  /**
   Taking a lease reuses a connection exactly when one of the origin is idle within the timeout: one that
   was idle there, with none within the timeout behind it.
   */
  lemma LeaseReusesExactlyTheFresh(s: System, r: nat, now: int)
    requires Inv(s) && Enabled(s, Lease(r, now))
    ensures WellDefined(s, Lease(r, now)) && r in Apply(s, Lease(r, now)).requests
    ensures
      var idle, p := s.store.pools[s.requests[r].origin].idle, Apply(s, Lease(r, now)).requests[r].phase;
      && (p.Exchanging? <==> exists c :: c in idle && now - c.idleSince <= s.options.idleTimeout)
      && (!p.Exchanging? ==> p == Connecting)
      && (p.Exchanging? ==>
            exists n: nat ::
              && n < |idle| && p.conn == idle[n].(reusable := false)
              && now - idle[n].idleSince <= s.options.idleTimeout
              && forall j :: n < j < |idle| ==> now - idle[j].idleSince > s.options.idleTimeout)
  {
    hide Inv, HttpPool.TakeIdle;
    EnabledIsWellDefined(s, Lease(r, now));
    var k := s.requests[r].origin;
    var idle := s.store.pools[k].idle;
    TakeIdleByAge(s.options, s.store, k, now);
    var (t, c) := HttpPool.TakeIdle(s.options, s.store, k, now);
    if c.Some? {
      var n := |t.pools[k].idle|;
      assert idle[n] in idle && c.value == idle[n].(reusable := false);
    }
  }

  lemma LeaseKeeps(s: System, e: Event, k: OriginKey, c: Connection)
    requires WellDefined(s, e) && IdleAt(s, k, c) && e.Lease?
    ensures IdleAt(Apply(s, e), k, c) || MayVanish(s, e, k, c)
  {
    var idle, t := s.store.pools[k].idle, LeaseStep(s, e.r, e.now);
    if s.requests[e.r].origin == k {
      PoppedShape(s.options, idle, e.now);
      var n := |t.store.pools[k].idle|;
      var i :| 0 <= i < |idle| && idle[i] == c;
      if i < n {
        assert t.store.pools[k].idle[i] == c;
      }
    }
  }

  lemma FinishKeeps(s: System, e: Event, k: OriginKey, c: Connection)
    requires Sound(s.options, s.store) && Positive(s.options)
    requires WellDefined(s, e) && IdleAt(s, k, c) && e.Finish? && e.keepAlive
    ensures IdleAt(Apply(s, e), k, c) || MayVanish(s, e, k, c)
  {
    var o, t, home := s.options, Returned(s, e), s.requests[e.r].origin;
    var vk, vi: nat, m :| MadeRoom(o, s.store, e.now, vk, vi, m) && home in m.pools
      && t == Push(m, home, s.requests[e.r].phase.conn.(reusable := true), e.now);
    RoomKeeps(o, s.store, e.now, vk, vi, m, k, c);
    hide MadeRoom, Sound;
    if k in m.pools && c in m.pools[k].idle {
      assert c in t.pools[k].idle;
    } else {
      forall j, d | IdleAt(s, j, d) && e.now - c.idleSince <= o.idleTimeout
        ensures e.now - d.idleSince <= o.idleTimeout && c.idleSince <= d.idleSince
      {
        assert d in s.store.pools[j].idle;
      }
    }
  }

  /** Making room costs a connection within the timeout its place only if no other is past it and none is older. */
  lemma RoomKeeps(o: Options, s: Store, now: int, vk: OriginKey, vi: nat, m: Store, k: OriginKey, c: Connection)
    requires Sound(o, s) && Positive(o)
    requires MadeRoom(o, s, now, vk, vi, m) && k in s.pools && c in s.pools[k].idle
    ensures (k in m.pools && c in m.pools[k].idle)
         || (o.maxIdle <= s.idleCount
             && (now - c.idleSince > o.idleTimeout
                 || forall j, d :: j in s.pools && d in s.pools[j].idle ==>
                      now - d.idleSince <= o.idleTimeout && c.idleSince <= d.idleSince))
  {
    hide TotalIdle, PrunedPools, Prune, Oldest, EvictAt, Shrunk;
    var p := Prune(o, s, now);
    if o.maxIdle <= s.idleCount && !Expired(o, now, c) {
      PruneShrinks(o, s, now);
      RoomByAge(o, s, now, vk, vi, m);
      if o.maxIdle <= p.idleCount && !(k in m.pools && c in m.pools[k].idle) {
        EvictKeeps(p, vk, vi, k, c);
        assert NoneExpired(o, s.pools, now);
        forall j, d | j in s.pools && d in s.pools[j].idle ensures c.idleSince <= d.idleSince {
          assert !Expired(o, now, d);
          NoneOlder(p.pools, vk, vi, j, d);
        }
      }
    }
  }

  lemma EvictKeeps(s: Store, vk: OriginKey, vi: nat, k: OriginKey, c: Connection)
    requires Oldest(s.pools, vk, vi) && 0 < s.idleCount
    requires k in s.pools && c in s.pools[k].idle
    ensures vk in s.pools && vi < |s.pools[vk].idle|
    ensures var t := EvictAt(s, vk, vi); (k in t.pools && c in t.pools[k].idle) || c == s.pools[vk].idle[vi]
  {
    RemovedAt(s.pools[vk].idle, vi);
  }

  lemma NoneOlder(pools: map<OriginKey, Pool>, vk: OriginKey, vi: nat, j: OriginKey, d: Connection)
    requires Oldest(pools, vk, vi) && j in pools && d in pools[j].idle
    ensures vk in pools && vi < |pools[vk].idle| && pools[vk].idle[vi].idleSince <= d.idleSince
  {
    var n :| 0 <= n < |pools[j].idle| && pools[j].idle[n] == d;
  }

  lemma RemovedAt(idle: seq<Connection>, i: nat)
    requires i < |idle|
    ensures forall c :: c in idle && c != idle[i] ==> c in idle[..i] + idle[i + 1..]
  {
    assert idle == idle[..i] + [idle[i]] + idle[i + 1..];
  }

  // ---------------------------------------------------------------- progress

  predicate Queued(p: Phase) {
    p == AwaitOrigin(false) || p == AwaitGlobal(false)
  }

  /** Events nobody has to cancel, time out or fail for. */
  predicate Voluntary(e: Event) {
    match e
    case Admit(_, _) => false
    case Abandon(_) => false
    case CancelOrigin(_) => false
    case AbandonOrigin(_) => false
    case CancelGlobal(_) => false
    case ConnectFailed(_) => false
    case _ => true
  }

  /** A request queued at a gate waits for one that holds a permit and is not queued itself. */
  lemma SomebodyRuns(s: System, r: nat) returns (x: nat)
    requires Inv(s) && r in s.requests
    ensures x in s.requests && !Queued(s.requests[x].phase)
    ensures Queued(s.requests[r].phase) ==> HoldsOrigin(s.requests[x].phase)
    ensures s.requests[r].phase == AwaitGlobal(false) ==> HoldsGlobal(s.requests[x].phase)
  {
    x := r;
    if s.requests[x].phase == AwaitOrigin(false) {
      var k := s.requests[x].origin;
      assert x in OriginQueue(s.requests, k);
      FullGateHasHolder(s.store.pools[k].gate, s.options.perOrigin, OriginHolders(s.requests, k), OriginQueue(s.requests, k));
      x :| x in OriginHolders(s.requests, k);
    }
    if s.requests[x].phase == AwaitGlobal(false) {
      assert x in GlobalQueue(s.requests);
      FullGateHasHolder(s.globalGate, s.options.maxActive, GlobalHolders(s.requests), GlobalQueue(s.requests));
      x :| x in GlobalHolders(s.requests);
    }
  }

  lemma FullGateHasHolder(g: Gate, capacity: nat, holders: set<nat>, queue: set<nat>)
    requires GateOk(g, capacity, holders, queue) && queue != {} && 0 < capacity
    ensures exists x :: x in holders
  {
    var r :| r in queue;
    assert r in g.waiting;
    assert holders != {};
  }

  /** The next voluntary event of a request that is not queued. */
  function NextEvent(p: Phase, r: nat, k: OriginKey): (e: Event)
    requires !Queued(p)
    ensures e.r == r && Voluntary(e)
  {
    match p
    case Admitted => AskOrigin(r)
    case AwaitOrigin(_) => AskGlobal(r)
    case AwaitGlobal(_) => Lease(r, 0)
    case Connecting => Connected(r)
    case Exchanging(_) => Finish(r, false, 0, k, 0)
    case DropGlobal => ReleaseGlobal(r)
    case DropOrigin => ReleaseOrigin(r)
    case DropPool => Leave(r)
  }

  /** No deadlock: while a request is left, one of them can go on of its own accord. */
  lemma NoDeadlock(s: System, es: seq<Event>, t: System)
    requires Initial(s) && IsRun(s, es, t) && t.requests != map[]
    ensures exists e :: Voluntary(e) && Enabled(t, e)
  {
    hide IsRun, LeasesOk, OriginGatesOk, GlobalGateOk, ReserveOk, ConnectionsOk, Sound;
    InitialInv(s);
    RunKeepsInv(s, es, t);
    var r :| r in t.requests;
    var x := SomebodyRuns(t, r);
    var e := NextEvent(t.requests[x].phase, x, t.requests[x].origin);
    assert Voluntary(e) && Enabled(t, e);
  }

  /**
   An exchange that ends with its connection reusable can always put it back, in every reachable state:
   the eviction that may take finds a connection, and the reusable one is then idle at its own origin.
   */
  lemma KeepAliveCanFinish(s: System, es: seq<Event>, t: System, r: nat, now: int)
    requires Initial(s) && IsRun(s, es, t)
    requires r in t.requests && t.requests[r].phase.Exchanging? && now < DEADLINE_MAX
    ensures exists vk, vi :: Enabled(t, Finish(r, true, now, vk, vi))
    ensures forall vk, vi :: Enabled(t, Finish(r, true, now, vk, vi)) ==>
              && WellDefined(t, Finish(r, true, now, vk, vi))
              && IdleAt(Apply(t, Finish(r, true, now, vk, vi)), t.requests[r].origin,
                        t.requests[r].phase.conn.(reusable := true, idleSince := now))
  {
    hide IsRun, LeasesOk, OriginGatesOk, GlobalGateOk, ReserveOk, ConnectionsOk, Sound, MadeRoom;
    InitialInv(s);
    RunKeepsInv(s, es, t);
    RoomCanBeMade(t.options, t.store, now);
    var vk, vi, m :| MadeRoom(t.options, t.store, now, vk, vi, m);
    assert Enabled(t, Finish(r, true, now, vk, vi));
    forall vk, vi | Enabled(t, Finish(r, true, now, vk, vi))
      ensures WellDefined(t, Finish(r, true, now, vk, vi))
      ensures IdleAt(Apply(t, Finish(r, true, now, vk, vi)), t.requests[r].origin,
                     t.requests[r].phase.conn.(reusable := true, idleSince := now))
    {
      EnabledIsWellDefined(t, Finish(r, true, now, vk, vi));
      FinishPools(t, Finish(r, true, now, vk, vi));
    }
  }

  lemma FinishPools(s: System, e: Event)
    requires WellDefined(s, e) && e.Finish? && e.keepAlive
    ensures IdleAt(Apply(s, e), s.requests[e.r].origin, s.requests[e.r].phase.conn.(reusable := true, idleSince := e.now))
  {
    hide MadeRoom;
    var k, c := s.requests[e.r].origin, s.requests[e.r].phase.conn.(reusable := true);
    var vk, vi, m :| MadeRoom(s.options, s.store, e.now, vk, vi, m) && k in m.pools
      && Returned(s, e) == Push(m, k, c, e.now);
    var idle := Push(m, k, c, e.now).pools[k].idle;
    assert idle[|idle| - 1] == c.(idleSince := e.now);
  }

  /** How many events a request still has ahead of it at most. */
  function Ahead(p: Phase): nat {
    match p
    case Admitted => 10
    case AwaitOrigin(granted) => if granted then 8 else 9
    case AwaitGlobal(granted) => if granted then 6 else 7
    case Connecting => 5
    case Exchanging(_) => 4
    case DropGlobal => 3
    case DropOrigin => 2
    case DropPool => 1
  }

  ghost function Work(q: map<nat, Request>): nat {
    if q == map[] then 0
    else
      var r :| r in q;
      Ahead(q[r].phase) + Work(q - {r})
  }

  lemma {:induction false} WorkAt(q: map<nat, Request>, r: nat)
    requires r in q
    ensures Work(q) == Ahead(q[r].phase) + Work(q - {r})
    decreases |q|
  {
    var x :| x in q && Work(q) == Ahead(q[x].phase) + Work(q - {x});
    if x != r {
      WorkAt(q - {x}, r);
      WorkAt(q - {r}, x);
      assert q - {x} - {r} == q - {r} - {x};
    }
  }

  lemma WorkMoves(q: map<nat, Request>, r: nat, p: Phase)
    requires r in q
    ensures Work(SetPhase(q, r, p)) == Work(q) - Ahead(q[r].phase) + Ahead(p)
  {
    WorkAt(q, r);
    WorkAt(SetPhase(q, r, p), r);
    assert SetPhase(q, r, p) - {r} == q - {r};
  }

  lemma GrantUsesWork(s: System, q: map<nat, Request>, g: Gate, origin: bool)
    requires Head(s, g, if origin then AwaitOrigin(false) else AwaitGlobal(false))
    requires forall x :: x in s.requests && Queued(s.requests[x].phase) ==> x in q && q[x] == s.requests[x]
    requires g.waiting != [] ==> g.waiting[0] in q
    ensures Work(Grant(q, g.waiting, if origin then AwaitOrigin(true) else AwaitGlobal(true))) <= Work(q)
  {
    if g.waiting != [] {
      WorkMoves(q, g.waiting[0], if origin then AwaitOrigin(true) else AwaitGlobal(true));
    }
  }

  lemma LeavingUsesWork(s: System, e: Event)
    requires WellDefined(s, e) && e.Leave?
    ensures Work(Apply(s, e).requests) < Work(s.requests)
  {
    WorkAt(s.requests, e.r);
  }

  lemma ReturningUsesWork(s: System, e: Event)
    requires WellDefined(s, e) && (e.ReleaseGlobal? || e.ReleaseOrigin?)
    ensures Work(Apply(s, e).requests) < Work(s.requests)
  {
    var q := s.requests;
    if e.ReleaseGlobal? {
      WorkMoves(q, e.r, DropOrigin);
      GrantUsesWork(s, SetPhase(q, e.r, DropOrigin), s.globalGate, false);
    } else {
      WorkMoves(q, e.r, DropPool);
      GrantUsesWork(s, SetPhase(q, e.r, DropPool), s.store.pools[q[e.r].origin].gate, true);
    }
  }

  /** Any other event moves its own request on, and no other. */
  lemma EventsMoveOn(s: System, e: Event)
    requires WellDefined(s, e) && !e.Admit? && !e.Leave? && !e.ReleaseGlobal? && !e.ReleaseOrigin?
    ensures
      && e.r in s.requests && e.r in Apply(s, e).requests
      && var p := Apply(s, e).requests[e.r].phase;
         Apply(s, e).requests == SetPhase(s.requests, e.r, p) && Ahead(p) < Ahead(s.requests[e.r].phase)
  {
  }

  /** Every event other than an arrival uses up work. */
  lemma EventsUseWork(s: System, e: Event)
    requires WellDefined(s, e) && !e.Admit?
    ensures Work(Apply(s, e).requests) < Work(s.requests)
  {
    hide Work, Ahead, Apply, WellDefined;
    if e.Leave? {
      LeavingUsesWork(s, e);
    } else if e.ReleaseGlobal? || e.ReleaseOrigin? {
      ReturningUsesWork(s, e);
    } else {
      EventsMoveOn(s, e);
      WorkMoves(s.requests, e.r, Apply(s, e).requests[e.r].phase);
    }
  }

  /** Without arrivals a run is over after at most `Work` events. */
  lemma {:induction false} RunsWithoutArrivalsEnd(s: System, es: seq<Event>, t: System)
    requires IsRun(s, es, t) && forall e :: e in es ==> !e.Admit?
    ensures |es| + Work(t.requests) <= Work(s.requests)
    decreases |es|
  {
    if es != [] {
      EventsUseWork(s, es[0]);
      RunsWithoutArrivalsEnd(Apply(s, es[0]), es[1..], t);
    }
  }

  /**
   So every request comes to an end: continue any reachable state without arrivals until no request
   can go on of its own accord; that takes finitely many events and then no request is left and
   every permit is back.
   */
  lemma EveryRequestEnds(s: System, es: seq<Event>, t: System, more: seq<Event>, u: System)
    requires Initial(s) && IsRun(s, es, t)
    requires IsRun(t, more, u) && forall e :: e in more ==> !e.Admit?
    requires forall e :: Voluntary(e) ==> !Enabled(u, e)
    ensures |more| <= Work(t.requests)
    ensures u.requests == map[] && u.globalGate == EmptyGate
    ensures forall k :: k in u.store.pools ==> u.store.pools[k].gate == EmptyGate
  {
    hide Enabled, Inv;
    RunsWithoutArrivalsEnd(t, more, u);
    RunsCompose(s, es, t, more, u);
    if u.requests != map[] {
      NoDeadlock(s, es + more, u);
      assert false;
    }
    QuietGatesAreEmpty(s, es + more, u);
  }

  lemma {:induction false} RunsCompose(s: System, es: seq<Event>, t: System, fs: seq<Event>, u: System)
    requires IsRun(s, es, t) && IsRun(t, fs, u)
    ensures IsRun(s, es + fs, u)
    decreases |es|
  {
    hide Apply, WellDefined;
    if es == [] {
      assert es + fs == fs;
    } else {
      RunsCompose(Apply(s, es[0]), es[1..], t, fs, u);
      assert (es + fs)[1..] == es[1..] + fs;
    }
  }
}
