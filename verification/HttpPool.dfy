/**
 The pool store of the HTTP client: per-origin pools with their idle lists, the global idle
 counter, and the counting gates.  Each function is the specification of one member function
 of the client; `HttpClient` runs the same operations in place and `HttpRuns` interleaves them.
 */
module HttpPool {
  import opened Wrappers

  /** `Deadline::max()`, the sentinel of the eviction scan. */
  const DEADLINE_MAX: int := 0x7fff_ffff_ffff_ffff

  datatype OriginKey = OriginKey(scheme: string, host: string, port: string)

  /** A physical connection.  `id` is its identity and `home` the origin it was opened to. */
  datatype Connection = Connection(id: nat, home: OriginKey, idleSince: int, reusable: bool)

  /** A buffered channel used as a FIFO counting semaphore: messages held, and queued senders. */
  datatype Gate = Gate(buffered: nat, waiting: seq<nat>)

  datatype Pool = Pool(users: nat, idle: seq<Connection>, gate: Gate)

  datatype Options = Options(perOrigin: nat, maxActive: nat, maxIdle: nat, idleTimeout: int)

  datatype Store = Store(pools: map<OriginKey, Pool>, idleCount: nat)

  const EmptyGate := Gate(0, [])
  const EmptyPool := Pool(0, [], EmptyGate)

  predicate Positive(o: Options) {
    0 < o.perOrigin && 0 < o.maxActive && 0 < o.maxIdle && 0 < o.idleTimeout
  }

  // ---------------------------------------------------------------- gates

  /** `async_send`: take a slot if one is free, otherwise queue. */
  function Send(g: Gate, capacity: nat, r: nat): Gate {
    if g.buffered < capacity then g.(buffered := g.buffered + 1) else g.(waiting := g.waiting + [r])
  }

  /** `try_receive`: free a slot, which passes straight to the longest waiting sender. */
  function Receive(g: Gate): Gate
    requires 0 < g.buffered
  {
    if g.waiting == [] then g.(buffered := g.buffered - 1) else g.(waiting := g.waiting[1..])
  }

  function Without(s: seq<nat>, r: nat): seq<nat> {
    if s == [] then [] else if s[0] == r then Without(s[1..], r) else [s[0]] + Without(s[1..], r)
  }

  /** A queued send is cancelled: it leaves the queue and owns nothing. */
  function CancelSend(g: Gate, r: nat): Gate {
    g.(waiting := Without(g.waiting, r))
  }

  ghost predicate NoDup(s: seq<nat>) {
    forall i, j :: 0 <= i < j < |s| ==> s[i] != s[j]
  }

  lemma {:induction false} WithoutProperties(s: seq<nat>, r: nat)
    ensures forall x :: x in Without(s, r) <==> x in s && x != r
    ensures NoDup(s) ==> NoDup(Without(s, r))
    ensures Without(s, r) != [] ==> s != []
  {
    if s != [] {
      WithoutProperties(s[1..], r);
      assert s == [s[0]] + s[1..];
      assert forall x :: x in s <==> x == s[0] || x in s[1..];
      if NoDup(s) {
        assert NoDup(s[1..]);
        assert s[0] !in s[1..];
      }
    }
  }

  // ---------------------------------------------------------------- pools

  function AcquirePool(s: Store, k: OriginKey): Store {
    var p := if k in s.pools then s.pools[k] else EmptyPool;
    s.(pools := s.pools[k := p.(users := p.users + 1)])
  }

  function ReleasePool(s: Store, k: OriginKey): Store
    requires k in s.pools && 0 < s.pools[k].users
  {
    var p := s.pools[k].(users := s.pools[k].users - 1);
    s.(pools := if Dead(p) then s.pools - {k} else s.pools[k := p])
  }

  /** No lease and no idle connection: the pool is erased. */
  predicate Dead(p: Pool) {
    p.users == 0 && p.idle == []
  }

  predicate Expired(o: Options, now: int, c: Connection) {
    now - c.idleSince > o.idleTimeout
  }

  /** Pop from the back, dropping expired connections, until a usable one turns up. */
  function Popped(o: Options, idle: seq<Connection>, now: int): (r: (seq<Connection>, Option<Connection>)) {
    if idle == [] then ([], None)
    else
      var c := idle[|idle| - 1];
      var rest := idle[..|idle| - 1];
      if Expired(o, now, c) then Popped(o, rest, now) else (rest, Some(c.(reusable := false)))
  }

  function TakeIdle(o: Options, s: Store, k: OriginKey, now: int): (r: (Store, Option<Connection>))
    requires k in s.pools
    requires |s.pools[k].idle| <= s.idleCount
  {
    PoppedShape(o, s.pools[k].idle, now);
    var (rest, c) := Popped(o, s.pools[k].idle, now);
    (Cut(s, k, |rest|), c)
  }

  /** Only the first `n` idle connections of `k` are left. */
  function Cut(s: Store, k: OriginKey, n: nat): Store
    requires k in s.pools && n <= |s.pools[k].idle| <= s.idleCount
  {
    var p := s.pools[k];
    Store(s.pools[k := p.(idle := p.idle[..n])], s.idleCount - (|p.idle| - n))
  }

  function Kept(o: Options, idle: seq<Connection>, now: int): (r: seq<Connection>)
    ensures |r| <= |idle|
  {
    if idle == [] then []
    else (if Expired(o, now, idle[0]) then [] else [idle[0]]) + Kept(o, idle[1..], now)
  }

  function PrunedPool(o: Options, p: Pool, now: int): Pool {
    p.(idle := Kept(o, p.idle, now))
  }

  function PrunedPools(o: Options, pools: map<OriginKey, Pool>, now: int): map<OriginKey, Pool> {
    map k | k in pools && !Dead(PrunedPool(o, pools[k], now)) :: PrunedPool(o, pools[k], now)
  }

  /** Drop every expired idle connection and every pool this leaves dead. */
  ghost function Prune(o: Options, s: Store, now: int): Store {
    var pools := PrunedPools(o, s.pools, now);
    Store(pools, TotalIdle(pools))
  }

  ghost predicate Oldest(pools: map<OriginKey, Pool>, k: OriginKey, i: nat) {
    && k in pools && i < |pools[k].idle|
    && forall k', i' :: k' in pools && 0 <= i' < |pools[k'].idle| ==>
         pools[k].idle[i].idleSince <= pools[k'].idle[i'].idleSince
  }

  function EvictAt(s: Store, k: OriginKey, i: nat): Store
    requires k in s.pools && i < |s.pools[k].idle| && 0 < s.idleCount
  {
    var p := s.pools[k];
    var q := p.(idle := p.idle[..i] + p.idle[i + 1..]);
    Store(if Dead(q) then s.pools - {k} else s.pools[k := q], s.idleCount - 1)
  }

  /** The store after the two capacity checks of `release`, evicting `(vk, vi)` if it comes to that. */
  ghost predicate MadeRoom(o: Options, s: Store, now: int, vk: OriginKey, vi: nat, t: Store) {
    if s.idleCount < o.maxIdle then t == s
    else
      var p := Prune(o, s, now);
      if p.idleCount < o.maxIdle then t == p
      else Oldest(p.pools, vk, vi) && 0 < p.idleCount && t == EvictAt(p, vk, vi)
  }

  function Push(s: Store, k: OriginKey, c: Connection, now: int): Store
    requires k in s.pools
  {
    var p := s.pools[k];
    Store(s.pools[k := p.(idle := p.idle + [c.(idleSince := now)])], s.idleCount + 1)
  }

  /** `release`: a connection that may not be reused is dropped, any other goes to the idle list. */
  ghost predicate Released(o: Options, s: Store, k: OriginKey, c: Connection, now: int, t: Store) {
    if !c.reusable then t == s
    else exists vk, vi, m :: MadeRoom(o, s, now, vk, vi, m) && k in m.pools && t == Push(m, k, c, now)
  }

  // ---------------------------------------------------------------- accounting

  /** The sum of the idle-list sizes. */
  ghost function TotalIdle(pools: map<OriginKey, Pool>): nat {
    if pools == map[] then 0
    else
      var k :| k in pools;
      |pools[k].idle| + TotalIdle(pools - {k})
  }

  /** The order in which the pools are summed is irrelevant. */
  lemma {:induction false} TotalIdleAt(pools: map<OriginKey, Pool>, k: OriginKey)
    requires k in pools
    ensures TotalIdle(pools) == |pools[k].idle| + TotalIdle(pools - {k})
    decreases |pools|
  {
    var j :| j in pools && TotalIdle(pools) == |pools[j].idle| + TotalIdle(pools - {j});
    if j != k {
      TotalIdleAt(pools - {j}, k);
      TotalIdleAt(pools - {k}, j);
      assert pools - {j} - {k} == pools - {k} - {j};
    }
  }

  lemma TotalIdleUpdate(pools: map<OriginKey, Pool>, k: OriginKey, p: Pool)
    ensures TotalIdle(pools[k := p]) == TotalIdle(pools - {k}) + |p.idle|
    ensures k in pools ==> TotalIdle(pools[k := p]) == TotalIdle(pools) - |pools[k].idle| + |p.idle|
  {
    TotalIdleAt(pools[k := p], k);
    assert pools[k := p] - {k} == pools - {k};
    if k in pools {
      TotalIdleAt(pools, k);
    }
  }

  lemma {:induction false} TotalIdlePositive(pools: map<OriginKey, Pool>)
    requires 0 < TotalIdle(pools)
    ensures exists k :: k in pools && pools[k].idle != []
    decreases |pools|
  {
    var k :| k in pools && TotalIdle(pools) == |pools[k].idle| + TotalIdle(pools - {k});
    if pools[k].idle == [] {
      TotalIdlePositive(pools - {k});
      var j :| j in pools - {k} && (pools - {k})[j].idle != [];
      assert j in pools && pools[j].idle != [];
    }
  }

  // ---------------------------------------------------------------- by age, in milliseconds

  /**
   Taking walks from the newest end: what it hands out has been idle no longer than the timeout, all that
   it dropped on the way had been idle longer, and nothing else changed.
   */
  lemma TakeIdleByAge(o: Options, s: Store, k: OriginKey, now: int)
    requires k in s.pools && |s.pools[k].idle| <= s.idleCount
    ensures
      var idle := s.pools[k].idle;
      var (t, c) := TakeIdle(o, s, k, now);
      && k in t.pools
      && var n := |t.pools[k].idle|;
         && n <= |idle| && t.pools[k].idle == idle[..n] && t.idleCount == s.idleCount - (|idle| - n)
         && t.pools == s.pools[k := s.pools[k].(idle := idle[..n])]
         && (c.None? ==> n == 0 && forall j :: 0 <= j < |idle| ==> now - idle[j].idleSince > o.idleTimeout)
         && (c.Some? ==>
               && n < |idle| && now - idle[n].idleSince <= o.idleTimeout && c.value == idle[n].(reusable := false)
               && forall j :: n < j < |idle| ==> now - idle[j].idleSince > o.idleTimeout)
  {
    hide Popped;
    var idle := s.pools[k].idle;
    PoppedShape(o, idle, now);
    var (rest, c) := Popped(o, idle, now);
    assert c.None? ==> forall j :: 0 <= j < |idle| ==> idle[j] in idle;
  }

  /** `after` is what stands in `before` at the positions `at`, in that order. */
  ghost predicate PickedFrom(before: seq<Connection>, at: seq<nat>, after: seq<Connection>) {
    && |at| == |after|
    && (forall i, j :: 0 <= i < j < |at| ==> at[i] < at[j])
    && (forall i :: 0 <= i < |at| ==> at[i] < |before| && after[i] == before[at[i]])
  }

  /** The positions `at` one further on. */
  function Shifted(at: seq<nat>): (r: seq<nat>)
    ensures |r| == |at| && forall i :: 0 <= i < |r| ==> r[i] == at[i] + 1
  {
    if at == [] then [] else [at[0] + 1] + Shifted(at[1..])
  }

  lemma ShiftedHas(at: seq<nat>, j: nat)
    ensures j in Shifted(at) <==> 0 < j && j - 1 in at
  {
    if 0 < j && j - 1 in at {
      var i :| 0 <= i < |at| && at[i] == j - 1;
      assert Shifted(at)[i] == j;
    }
  }

  lemma PickedFurther(idle: seq<Connection>, at: seq<nat>, after: seq<Connection>)
    requires idle != [] && PickedFrom(idle[1..], at, after)
    ensures PickedFrom(idle, Shifted(at), after) && PickedFrom(idle, [0] + Shifted(at), [idle[0]] + after)
  {
  }

  lemma KeptUnfolds(o: Options, idle: seq<Connection>, now: int)
    requires idle != []
    ensures Kept(o, idle, now) ==
      if now - idle[0].idleSince <= o.idleTimeout then [idle[0]] + Kept(o, idle[1..], now) else Kept(o, idle[1..], now)
  {
    assert [] + Kept(o, idle[1..], now) == Kept(o, idle[1..], now);
  }

  lemma PositionsFurther(o: Options, idle: seq<Connection>, now: int, rest: seq<nat>, at: seq<nat>)
    requires idle != []
    requires forall j: nat :: j < |idle| - 1 ==> (j in rest <==> now - idle[1..][j].idleSince <= o.idleTimeout)
    requires at == if now - idle[0].idleSince <= o.idleTimeout then [0] + Shifted(rest) else Shifted(rest)
    ensures forall j: nat :: j < |idle| ==> (j in at <==> now - idle[j].idleSince <= o.idleTimeout)
  {
    hide Shifted;
    forall j: nat | j < |idle| ensures j in at <==> now - idle[j].idleSince <= o.idleTimeout {
      ShiftedHas(rest, j);
      assert j > 0 ==> idle[1..][j - 1] == idle[j];
    }
  }

  /** What is left of one idle list: exactly the positions no older than the timeout, in order. */
  lemma {:induction false} KeptByAge(o: Options, idle: seq<Connection>, now: int) returns (at: seq<nat>)
    ensures PickedFrom(idle, at, Kept(o, idle, now))
    ensures forall j: nat :: j < |idle| ==> (j in at <==> now - idle[j].idleSince <= o.idleTimeout)
  {
    at := [];
    if idle != [] {
      hide PickedFrom, Kept, Shifted;
      var rest := KeptByAge(o, idle[1..], now);
      PickedFurther(idle, rest, Kept(o, idle[1..], now));
      KeptUnfolds(o, idle, now);
      at := if now - idle[0].idleSince <= o.idleTimeout then [0] + Shifted(rest) else Shifted(rest);
      PositionsFurther(o, idle, now, rest, at);
    }
  }

  /**
   A pool after pruning: the positions `at` are exactly those idle no longer than the timeout, they are left
   in order, and the pool is gone exactly when there are none and nobody uses it.
   */
  ghost predicate LeftByAge(before: Pool, after: Option<Pool>, timeout: int, now: int, at: seq<nat>) {
    && (forall j: nat :: j < |before.idle| ==> (j in at <==> now - before.idle[j].idleSince <= timeout))
    && (after.Some? <==> 0 < before.users || at != [])
    && (after.Some? ==>
          && PickedFrom(before.idle, at, after.value.idle)
          && after.value.users == before.users && after.value.gate == before.gate)
  }

  function PoolAt(pools: map<OriginKey, Pool>, k: OriginKey): Option<Pool> {
    if k in pools then Some(pools[k]) else None
  }

  lemma PruneByAge(o: Options, s: Store, now: int)
    ensures Prune(o, s, now).pools.Keys <= s.pools.Keys
    ensures
      forall k :: k in s.pools ==>
        exists at: seq<nat> :: LeftByAge(s.pools[k], PoolAt(Prune(o, s, now).pools, k), o.idleTimeout, now, at)
  {
    forall k | k in s.pools
      ensures exists at: seq<nat> :: LeftByAge(s.pools[k], PoolAt(Prune(o, s, now).pools, k), o.idleTimeout, now, at)
    {
      var at := KeptByAge(o, s.pools[k].idle, now);
      hide Kept;
      assert LeftByAge(s.pools[k], PoolAt(Prune(o, s, now).pools, k), o.idleTimeout, now, at);
    }
  }

  // ---------------------------------------------------------------- shapes of the idle lists

  /** No physical connection occurs twice. */
  ghost predicate Distinct(idle: seq<Connection>) {
    forall i, j :: 0 <= i < j < |idle| ==> idle[i].id != idle[j].id
  }

  /** `idle'` is `idle` with some connections gone. */
  ghost predicate Thinned(idle: seq<Connection>, idle': seq<Connection>) {
    && |idle'| <= |idle|
    && (forall c :: c in idle' ==> c in idle)
    && (Distinct(idle) ==> Distinct(idle'))
  }

  lemma {:induction false} PoppedShape(o: Options, idle: seq<Connection>, now: int)
    ensures var (rest, c) := Popped(o, idle, now);
      && |rest| <= |idle| && rest == idle[..|rest|]
      && (c.None? ==> rest == [] && forall x :: x in idle ==> Expired(o, now, x))
      && (c.Some? ==>
            && |rest| < |idle| && !Expired(o, now, idle[|rest|])
            && c.value == idle[|rest|].(reusable := false)
            && forall j :: |rest| < j < |idle| ==> Expired(o, now, idle[j]))
    decreases |idle|
  {
    if idle != [] {
      var prior := idle[..|idle| - 1];
      PoppedShape(o, prior, now);
      var (rest, c) := Popped(o, idle, now);
      assert idle == prior + [idle[|idle| - 1]];
      assert forall j :: 0 <= j < |prior| ==> prior[j] == idle[j];
      if Expired(o, now, idle[|idle| - 1]) {
        assert rest == prior[..|rest|] == idle[..|rest|];
      }
    }
  }

  lemma {:induction false} KeptShape(o: Options, idle: seq<Connection>, now: int)
    ensures forall c :: c in Kept(o, idle, now) <==> c in idle && !Expired(o, now, c)
    ensures Thinned(idle, Kept(o, idle, now))
  {
    if idle != [] {
      KeptShape(o, idle[1..], now);
      assert forall c :: c in idle <==> c == idle[0] || c in idle[1..];
      if Distinct(idle) {
        assert Distinct(idle[1..]);
        assert forall c :: c in Kept(o, idle[1..], now) ==> c in idle[1..];
        assert forall c :: c in idle[1..] ==> c.id != idle[0].id;
      }
    }
  }

  /**
   What pruning and eviction may do to the rest of the store: idle lists get thinner, users and
   gates stay, and a pool disappears only when no lease refers to it.
   */
  ghost predicate Shrunk(s: Store, t: Store) {
    && t.pools.Keys <= s.pools.Keys
    && (forall k :: k in s.pools && k !in t.pools ==> s.pools[k].users == 0)
    && (forall k :: k in t.pools ==>
          && t.pools[k].users == s.pools[k].users
          && t.pools[k].gate == s.pools[k].gate
          && Thinned(s.pools[k].idle, t.pools[k].idle)
          && !Dead(t.pools[k]))
    && t.idleCount == TotalIdle(t.pools)
  }

  lemma PruneShrinks(o: Options, s: Store, now: int)
    ensures Shrunk(s, Prune(o, s, now))
    ensures forall k, c :: k in Prune(o, s, now).pools && c in Prune(o, s, now).pools[k].idle ==> !Expired(o, now, c)
    ensures forall k, c :: k in s.pools && c in s.pools[k].idle && !Expired(o, now, c) ==>
              k in Prune(o, s, now).pools && c in Prune(o, s, now).pools[k].idle
  {
    forall k | k in s.pools
      ensures Thinned(s.pools[k].idle, Kept(o, s.pools[k].idle, now))
      ensures forall c :: c in Kept(o, s.pools[k].idle, now) <==> c in s.pools[k].idle && !Expired(o, now, c)
    {
      KeptShape(o, s.pools[k].idle, now);
    }
  }

  lemma EvictShrinks(s: Store, k: OriginKey, i: nat)
    requires k in s.pools && i < |s.pools[k].idle|
    requires s.idleCount == TotalIdle(s.pools)
    requires forall j :: j in s.pools ==> !Dead(s.pools[j])
    ensures 0 < s.idleCount && Shrunk(s, EvictAt(s, k, i))
    ensures EvictAt(s, k, i).idleCount == s.idleCount - 1
  {
    var p := s.pools[k];
    var q := p.(idle := p.idle[..i] + p.idle[i + 1..]);
    TotalIdleAt(s.pools, k);
    TotalIdleUpdate(s.pools, k, q);
    assert Thinned(p.idle, q.idle) by {
      forall c | c in q.idle ensures c in p.idle { }
    }
    if Dead(q) {
      assert |p.idle| == 1;
      assert EvictAt(s, k, i).pools == s.pools - {k};
    }
    forall j | j in s.pools ensures Thinned(s.pools[j].idle, s.pools[j].idle) { }
  }

  lemma ShrunkTrans(s: Store, t: Store, u: Store)
    requires Shrunk(s, t) && Shrunk(t, u)
    ensures Shrunk(s, u)
  {
    forall k | k in u.pools ensures Thinned(s.pools[k].idle, u.pools[k].idle) {
      assert Thinned(s.pools[k].idle, t.pools[k].idle) && Thinned(t.pools[k].idle, u.pools[k].idle);
    }
  }

  /** Making room keeps the books straight and leaves space for one more idle connection. */
  lemma MadeRoomShrinks(o: Options, s: Store, now: int, vk: OriginKey, vi: nat, t: Store)
    requires Positive(o)
    requires s.idleCount == TotalIdle(s.pools) <= o.maxIdle
    requires forall j :: j in s.pools ==> !Dead(s.pools[j])
    requires MadeRoom(o, s, now, vk, vi, t)
    ensures Shrunk(s, t)
    ensures t.idleCount < o.maxIdle
  {
    if s.idleCount < o.maxIdle {
      forall j | j in s.pools ensures Thinned(s.pools[j].idle, s.pools[j].idle) { }
    } else {
      var p := Prune(o, s, now);
      PruneShrinks(o, s, now);
      if o.maxIdle <= p.idleCount {
        EvictShrinks(p, vk, vi);
        ShrunkTrans(s, p, t);
        PrunedTotal(o, s.pools, now);
      }
    }
  }

  /** Pruning never increases the total, and leaves it as it is only if nothing had expired. */
  lemma {:induction false} PrunedTotal(o: Options, pools: map<OriginKey, Pool>, now: int)
    ensures TotalIdle(PrunedPools(o, pools, now)) <= TotalIdle(pools)
    ensures TotalIdle(PrunedPools(o, pools, now)) == TotalIdle(pools) ==> NoneExpired(o, pools, now)
    decreases |pools|
  {
    hide Kept;
    if pools != map[] {
      var k :| k in pools && TotalIdle(pools) == |pools[k].idle| + TotalIdle(pools - {k});
      PrunedTotal(o, pools - {k}, now);
      var q := PrunedPools(o, pools, now);
      assert PrunedPools(o, pools - {k}, now) == q - {k};
      KeptTotal(o, pools[k].idle, now);
      if k in q {
        TotalIdleAt(q, k);
      } else {
        assert q - {k} == q;
      }
      hide TotalIdle, PrunedPools;
      forall j, c | TotalIdle(q) == TotalIdle(pools) && j in pools && c in pools[j].idle
        ensures now - c.idleSince <= o.idleTimeout
      {
        assert j != k ==> j in pools - {k};
      }
    }
  }

  /** Nothing idle is past the timeout. */
  ghost predicate NoneExpired(o: Options, pools: map<OriginKey, Pool>, now: int) {
    forall k, c :: k in pools && c in pools[k].idle ==> now - c.idleSince <= o.idleTimeout
  }

  lemma {:induction false} KeptTotal(o: Options, idle: seq<Connection>, now: int)
    ensures |Kept(o, idle, now)| <= |idle|
    ensures |Kept(o, idle, now)| == |idle| ==> forall c :: c in idle ==> now - c.idleSince <= o.idleTimeout
  {
    if idle != [] {
      KeptTotal(o, idle[1..], now);
      assert forall c :: c in idle <==> c == idle[0] || c in idle[1..];
    }
  }

  lemma {:induction false} NoneExpiredKeepsAll(o: Options, idle: seq<Connection>, now: int)
    requires forall c :: c in idle ==> now - c.idleSince <= o.idleTimeout
    ensures Kept(o, idle, now) == idle
  {
    if idle != [] {
      NoneExpiredKeepsAll(o, idle[1..], now);
      assert idle == [idle[0]] + idle[1..];
    }
  }

  /**
   What room costs: nothing below the limit; at the limit the connections past the timeout if there are
   any, and otherwise one connection.
   */
  lemma RoomByAge(o: Options, s: Store, now: int, vk: OriginKey, vi: nat, t: Store)
    requires s.idleCount == TotalIdle(s.pools) <= o.maxIdle && 0 < o.maxIdle
    requires forall j :: j in s.pools ==> !Dead(s.pools[j])
    requires MadeRoom(o, s, now, vk, vi, t)
    ensures s.idleCount < o.maxIdle ==> t == s
    ensures s.idleCount == o.maxIdle && !NoneExpired(o, s.pools, now) ==> t == Prune(o, s, now) && t.idleCount < s.idleCount
    ensures s.idleCount == o.maxIdle && NoneExpired(o, s.pools, now) ==> t.idleCount == s.idleCount - 1
  {
    PrunedTotal(o, s.pools, now);
    if NoneExpired(o, s.pools, now) {
      forall k | k in s.pools ensures Kept(o, s.pools[k].idle, now) == s.pools[k].idle {
        NoneExpiredKeepsAll(o, s.pools[k].idle, now);
      }
      assert PrunedPools(o, s.pools, now) == s.pools;
    }
  }

  /** What holds of the store between any two steps of the executor. */
  ghost predicate Sound(o: Options, s: Store) {
    && s.idleCount == TotalIdle(s.pools) <= o.maxIdle
    && (forall k :: k in s.pools ==> !Dead(s.pools[k]))
    && (forall k, c :: k in s.pools && c in s.pools[k].idle ==> c.idleSince < DEADLINE_MAX)
  }

  lemma ShrunkIsSound(o: Options, s: Store, t: Store)
    requires Sound(o, s) && Shrunk(s, t) && t.idleCount <= o.maxIdle
    ensures Sound(o, t)
  {
  }

  lemma PruneIsSound(o: Options, s: Store, now: int)
    requires Sound(o, s)
    ensures Sound(o, Prune(o, s, now))
  {
    PruneShrinks(o, s, now);
    PrunedTotal(o, s.pools, now);
    ShrunkIsSound(o, s, Prune(o, s, now));
  }

  lemma EvictIsSound(o: Options, s: Store, k: OriginKey, i: nat)
    requires Sound(o, s) && k in s.pools && i < |s.pools[k].idle|
    ensures 0 < s.idleCount && Sound(o, EvictAt(s, k, i))
  {
    EvictShrinks(s, k, i);
    ShrunkIsSound(o, s, EvictAt(s, k, i));
  }

  lemma CutIsSound(o: Options, s: Store, k: OriginKey, n: nat)
    requires Sound(o, s) && k in s.pools && 0 < s.pools[k].users && n <= |s.pools[k].idle| <= s.idleCount
    ensures Sound(o, Cut(s, k, n))
  {
    TotalIdleUpdate(s.pools, k, Cut(s, k, n).pools[k]);
    assert forall c :: c in Cut(s, k, n).pools[k].idle ==> c in s.pools[k].idle;
  }

  lemma PushIsSound(o: Options, s: Store, k: OriginKey, c: Connection, now: int)
    requires Sound(o, s) && k in s.pools && s.idleCount < o.maxIdle && now < DEADLINE_MAX
    ensures Sound(o, Push(s, k, c, now))
  {
    var idle := s.pools[k].idle + [c.(idleSince := now)];
    TotalIdleUpdate(s.pools, k, s.pools[k].(idle := idle));
    forall x | x in idle ensures x.idleSince < DEADLINE_MAX { }
  }

  /** Releasing a connection to a leased pool keeps the store sound and every leased pool in place. */
  lemma ReleaseIsSound(o: Options, s: Store, k: OriginKey, c: Connection, now: int, t: Store)
    requires Positive(o) && Sound(o, s) && now < DEADLINE_MAX
    requires Released(o, s, k, c, now, t)
    ensures Sound(o, t)
  {
    if c.reusable {
      var vk, vi, m :| MadeRoom(o, s, now, vk, vi, m) && k in m.pools && t == Push(m, k, c, now);
      MadeRoomShrinks(o, s, now, vk, vi, m);
      ShrunkIsSound(o, s, m);
      PushIsSound(o, m, k, c, now);
    }
  }

  /** A full store has a connection to evict, so the scan of `evict_oldest_idle` finds one. */
  lemma {:induction false} OldestExists(pools: map<OriginKey, Pool>)
    requires 0 < TotalIdle(pools)
    ensures exists k, i :: Oldest(pools, k, i)
  {
    TotalIdlePositive(pools);
    var k :| k in pools && pools[k].idle != [];
    var i := 0;
    assert Beats(pools, k, i, {});
    var todo := pools.Keys;
    var seen: set<OriginKey> := {};
    while todo != {}
      invariant todo + seen == pools.Keys
      invariant k in pools && 0 <= i < |pools[k].idle|
      invariant Beats(pools, k, i, seen)
      decreases todo
    {
      var j :| j in todo;
      var n := 0;
      while n < |pools[j].idle|
        invariant 0 <= n <= |pools[j].idle|
        invariant k in pools && 0 <= i < |pools[k].idle|
        invariant Beats(pools, k, i, seen)
        invariant forall m :: 0 <= m < n ==> pools[k].idle[i].idleSince <= pools[j].idle[m].idleSince
      {
        if pools[j].idle[n].idleSince < pools[k].idle[i].idleSince { k, i := j, n; }
        n := n + 1;
      }
      todo, seen := todo - {j}, seen + {j};
    }
    assert Oldest(pools, k, i);
  }

  /** `(k, i)` is at least as old as every idle connection of the origins in `seen`. */
  ghost predicate Beats(pools: map<OriginKey, Pool>, k: OriginKey, i: nat, seen: set<OriginKey>)
    requires k in pools && i < |pools[k].idle|
  {
    forall k', i' :: k' in seen && k' in pools && 0 <= i' < |pools[k'].idle| ==>
      pools[k].idle[i].idleSince <= pools[k'].idle[i'].idleSince
  }

  /** So `release` can always make room, whatever the store holds. */
  lemma RoomCanBeMade(o: Options, s: Store, now: int)
    requires Positive(o)
    ensures exists vk, vi, m :: MadeRoom(o, s, now, vk, vi, m)
  {
    hide PrunedPools;
    var p := Prune(o, s, now);
    if s.idleCount < o.maxIdle {
      assert MadeRoom(o, s, now, OriginKey("", "", ""), 0, s);
    } else if p.idleCount < o.maxIdle {
      assert MadeRoom(o, s, now, OriginKey("", "", ""), 0, p);
    } else {
      OldestExists(p.pools);
      var vk, vi :| Oldest(p.pools, vk, vi);
      assert MadeRoom(o, s, now, vk, vi, EvictAt(p, vk, vi));
    }
  }
}
