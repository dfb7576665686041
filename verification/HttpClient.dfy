/**
 The pool operations of the HTTP client on mutable fields: `pools_` and `idle_connections_`,
 updated in place.  Every method states its whole effect through the value
 functions of `HttpPool`; what those functions keep over all runs is proved in `HttpRuns`.
 */
module HttpClient {
  import opened Wrappers
  import opened HttpPool

  class Client {
    const options: Options
    var pools: map<OriginKey, Pool>
    var idleConnections: nat

    constructor (o: Options)
      requires Positive(o)
      ensures options == o && View() == Store(map[], 0) && Valid()
    {
      options := o;
      pools := map[];
      idleConnections := 0;
    }

    function View(): Store
      reads this
    {
      Store(pools, idleConnections)
    }

    ghost predicate Valid()
      reads this
    {
      Positive(options) && Sound(options, View())
    }

    method AcquirePool(k: OriginKey)
      requires Valid()
      modifies this`pools
      ensures View() == HttpPool.AcquirePool(old(View()), k)
      ensures Valid()
    {
      if k !in pools {
        pools := pools[k := EmptyPool];
        TotalIdleUpdate(old(pools), k, EmptyPool);
        assert k !in old(pools) ==> old(pools) - {k} == old(pools);
      }
      ghost var before := pools;
      var p := pools[k];
      pools := pools[k := p.(users := p.users + 1)];
      TotalIdleUpdate(before, k, p.(users := p.users + 1));
    }

    method ReleasePool(k: OriginKey)
      requires Valid() && k in pools && 0 < pools[k].users
      modifies this`pools
      ensures View() == HttpPool.ReleasePool(old(View()), k)
      ensures Valid()
    {
      var p := pools[k];
      pools := pools[k := p.(users := p.users - 1)];
      TotalIdleUpdate(old(pools), k, p.(users := p.users - 1));
      if pools[k].users == 0 && pools[k].idle == [] {
        TotalIdleAt(pools, k);
        pools := pools - {k};
        assert pools == old(pools) - {k};
      }
    }

    /** From the newest end: what was idle too long is dropped, the first that was not is handed out. */
    method TakeIdle(k: OriginKey, now: int) returns (taken: Option<Connection>)
      requires Valid() && k in pools && 0 < pools[k].users
      modifies this`pools, this`idleConnections
      ensures k in pools
      ensures
        var was, n := old(pools[k].idle), |pools[k].idle|;
        && n <= |was| && pools == old(pools)[k := old(pools)[k].(idle := was[..n])]
        && idleConnections == old(idleConnections) - (|was| - n)
        && (taken.None? ==> n == 0 && forall j :: 0 <= j < |was| ==> now - was[j].idleSince > options.idleTimeout)
        && (taken.Some? ==>
              && n < |was| && now - was[n].idleSince <= options.idleTimeout
              && taken.value == was[n].(reusable := false)
              && forall j :: n < j < |was| ==> now - was[j].idleSince > options.idleTimeout)
      ensures old(|pools[k].idle| <= idleConnections)
      ensures (View(), taken) == HttpPool.TakeIdle(options, old(View()), k, now)
      ensures Valid()
    {
      hide Sound, TotalIdle, Popped, Cut, HttpPool.TakeIdle;
      ghost var was, all := View(), pools[k].idle;
      ghost var n: nat := |all|;
      IdleIsCounted(options, was, k);
      NothingCut(was, k);
      taken := None;
      while pools[k].idle != []
        invariant n <= |all| && k in pools && pools[k].idle == all[..n]
        invariant View() == Cut(was, k, n)
        invariant Popped(options, all[..n], now) == Popped(options, all, now)
        decreases n
      {
        OneMoreCut(was, k, n);
        OnePopped(options, all, n, now);
        var p := pools[k];
        var c := p.idle[|p.idle| - 1];
        pools := pools[k := p.(idle := p.idle[..|p.idle| - 1])];
        idleConnections := idleConnections - 1;
        n := n - 1;
        if now - c.idleSince <= options.idleTimeout {
          taken := Some(c.(reusable := false));
          break;
        }
      }
      NonePopped(options, now);
      TakingEnds(options, was, k, now, n, taken);
      TakeIdleByAge(options, was, k, now);
      CutIsSound(options, was, k, n);
    }

    /** In each pool exactly what was idle no longer than the timeout is left; an empty pool without users goes. */
    method PruneExpiredIdle(now: int)
      requires Valid()
      modifies this`pools, this`idleConnections
      ensures pools.Keys <= old(pools).Keys
      ensures
        forall k :: k in old(pools) ==>
          exists at: seq<nat> :: LeftByAge(old(pools)[k], PoolAt(pools, k), options.idleTimeout, now, at)
      ensures View() == Prune(options, old(View()), now)
      ensures Valid()
    {
      hide Sound, TotalIdle, Kept, PrunedExcept, Prune, LeftByAge;
      ghost var was := View();
      var todo := pools.Keys;
      NothingPruned(options, was, now);
      while todo != {}
        invariant PrunedExcept(options, was.pools, now, todo, pools)
        invariant todo <= pools.Keys && idleConnections == TotalIdle(pools)
        decreases todo
      {
        var k :| k in todo;
        PruneOneMore(options, was.pools, now, todo, pools, k);
        OnePruned(options, pools, k, now);
        var p := pools[k];
        var kept := Kept(options, p.idle, now);
        idleConnections := idleConnections - (|p.idle| - |kept|);
        if p.users == 0 && kept == [] {
          pools := pools - {k};
        } else {
          pools := pools[k := p.(idle := kept)];
        }
        todo := todo - {k};
      }
      AllPruned(options, was, now, pools);
      PruneIsSound(options, was, now);
      PruneByAge(options, was, now);
    }

    /** Unbounded idle lists are scanned for the first connection strictly older than any before it. */
    method EvictOldestIdle() returns (ghost k: OriginKey, ghost i: nat)
      requires Valid() && 0 < idleConnections
      modifies this`pools, this`idleConnections
      ensures Oldest(old(pools), k, i)
      ensures View() == EvictAt(old(View()), k, i)
      ensures Valid()
    {
      var oldestPool: Option<OriginKey> := None;
      var oldestIndex := 0;
      var oldestTime := DEADLINE_MAX;
      var todo := pools.Keys;
      while todo != {}
        invariant todo <= pools.Keys
        invariant Found(oldestPool, oldestIndex, oldestTime)
        invariant forall j, n :: j in pools && j !in todo && 0 <= n < |pools[j].idle| ==>
                    oldestTime <= pools[j].idle[n].idleSince
        decreases todo
      {
        var j :| j in todo;
        var idle := pools[j].idle;
        var n := 0;
        while n < |idle|
          invariant 0 <= n <= |idle|
          invariant Found(oldestPool, oldestIndex, oldestTime)
          invariant forall j', n' :: j' in pools && j' !in todo && 0 <= n' < |pools[j'].idle| ==>
                      oldestTime <= pools[j'].idle[n'].idleSince
          invariant forall m :: 0 <= m < n ==> oldestTime <= idle[m].idleSince
        {
          if idle[n].idleSince < oldestTime {
            oldestPool, oldestIndex, oldestTime := Some(j), n, idle[n].idleSince;
          }
          n := n + 1;
        }
        todo := todo - {j};
      }
      TotalIdlePositive(pools);
      assert oldestPool.Some? by {
        var j :| j in pools && pools[j].idle != [];
        assert pools[j].idle[0] in pools[j].idle;
      }
      var victim := oldestPool.value;
      var p := pools[victim];
      EvictIsSound(options, View(), victim, oldestIndex);
      var idle := p.idle[..oldestIndex] + p.idle[oldestIndex + 1..];
      pools := pools[victim := p.(idle := idle)];
      idleConnections := idleConnections - 1;
      if p.users == 0 && idle == [] {
        pools := pools - {victim};
        assert pools == old(pools) - {victim};
      }
      k, i := victim, oldestIndex;
      assert View() == EvictAt(old(View()), k, i);
    }

    /** The scan has seen nothing yet, or remembers a real connection and its age. */
    ghost predicate Found(k: Option<OriginKey>, i: nat, t: int)
      reads this
    {
      match k
      case None => t == DEADLINE_MAX
      case Some(key) => key in pools && i < |pools[key].idle| && pools[key].idle[i].idleSince == t
    }

    /** At the global limit: prune, and if that frees nothing, evict. */
    method MakeRoom(now: int) returns (ghost vk: OriginKey, ghost vi: nat)
      requires Valid()
      modifies this`pools, this`idleConnections
      ensures MadeRoom(options, old(View()), now, vk, vi, View())
      ensures Valid()
    {
      hide Sound, TotalIdle, Prune, Oldest, EvictAt;
      vk, vi := OriginKey("", "", ""), 0;
      if idleConnections >= options.maxIdle {
        PruneExpiredIdle(now);
        if idleConnections >= options.maxIdle {
          vk, vi := EvictOldestIdle();
        }
      }
    }

    /** `release`: the lease of `k` is still held, so its pool survives whatever is pruned or evicted. */
    method Release(k: OriginKey, connection: Option<Connection>, now: int)
      requires Valid() && k in pools && 0 < pools[k].users
      requires now < DEADLINE_MAX
      modifies this`pools, this`idleConnections
      ensures connection.None? || !connection.value.reusable ==> View() == old(View())
      ensures
        connection.Some? && connection.value.reusable ==>
          && k in pools && pools[k].idle != []
          && pools[k].idle[|pools[k].idle| - 1] == connection.value.(idleSince := now)
          && (old(idleConnections) < options.maxIdle ==>
                idleConnections == old(idleConnections) + 1
                && pools == old(pools)[k := old(pools)[k].(idle := old(pools)[k].idle + [connection.value.(idleSince := now)])])
          && (old(idleConnections) == options.maxIdle && NoneExpired(options, old(pools), now) ==>
                idleConnections == options.maxIdle)
      ensures connection.Some? ==> Released(options, old(View()), k, connection.value, now, View())
      ensures Valid()
    {
      if connection.None? || !connection.value.reusable {
        return;
      }
      hide Sound, MadeRoom, NoneExpired, Released;
      ghost var was := View();
      ghost var vk, vi := MakeRoom(now);
      ghost var m := View();
      RoomForOne(options, was, k, connection.value, now, vk, vi, m);
      RoomCounted(options, was, k, connection.value, now, vk, vi, m);
      var p := pools[k];
      pools := pools[k := p.(idle := p.idle + [connection.value.(idleSince := now)])];
      idleConnections := idleConnections + 1;
      assert View() == Push(m, k, connection.value, now);
      hide Push;
    }
  }

  // ---------------------------------------------------------------- taking an idle connection, step by step

  lemma IdleIsCounted(o: Options, s: Store, k: OriginKey)
    requires Sound(o, s) && k in s.pools
    ensures |s.pools[k].idle| <= s.idleCount
  {
    TotalIdleAt(s.pools, k);
  }

  lemma NothingCut(s: Store, k: OriginKey)
    requires k in s.pools && |s.pools[k].idle| <= s.idleCount
    ensures Cut(s, k, |s.pools[k].idle|) == s && s.pools[k].idle[..|s.pools[k].idle|] == s.pools[k].idle
  {
    var p := s.pools[k];
    assert p.idle[..|p.idle|] == p.idle;
    assert s.pools[k := p] == s.pools;
  }

  /** From `n` connections left to one fewer. */
  lemma OneMoreCut(s: Store, k: OriginKey, n: nat)
    requires k in s.pools && 0 < n <= |s.pools[k].idle| <= s.idleCount
    ensures
      var t := Cut(s, k, n);
      && 0 < t.idleCount && k in t.pools && t.pools[k].idle == s.pools[k].idle[..n]
      && t.pools[k].idle[..n - 1] == s.pools[k].idle[..n - 1]
      && Cut(s, k, n - 1) == Store(t.pools[k := t.pools[k].(idle := s.pools[k].idle[..n - 1])], t.idleCount - 1)
  {
    var p := s.pools[k];
    assert p.idle[..n][..n - 1] == p.idle[..n - 1];
    assert s.pools[k := p.(idle := p.idle[..n])][k := p.(idle := p.idle[..n - 1])]
        == s.pools[k := p.(idle := p.idle[..n - 1])];
  }

  lemma OnePopped(o: Options, idle: seq<Connection>, n: nat, now: int)
    requires 0 < n <= |idle|
    ensures
      Popped(o, idle[..n], now)
      == (if Expired(o, now, idle[n - 1]) then Popped(o, idle[..n - 1], now)
          else (idle[..n - 1], Some(idle[n - 1].(reusable := false))))
  {
    assert idle[..n][..n - 1] == idle[..n - 1];
  }

  lemma NonePopped(o: Options, now: int)
    ensures Popped(o, [], now) == ([], None)
  {
  }

  lemma TakingEnds(o: Options, s: Store, k: OriginKey, now: int, n: nat, taken: Option<Connection>)
    requires k in s.pools && n <= |s.pools[k].idle| <= s.idleCount
    requires Popped(o, s.pools[k].idle, now) == (s.pools[k].idle[..n], taken)
    ensures TakeIdle(o, s, k, now) == (Cut(s, k, n), taken)
  {
    hide Popped;
  }

  // ---------------------------------------------------------------- returning a connection

  /** Once room was made, the leased pool is still there and takes the connection. */
  lemma RoomForOne(
      o: Options, s: Store, k: OriginKey, c: Connection, now: int, vk: OriginKey, vi: nat, m: Store)
    requires Positive(o) && Sound(o, s) && k in s.pools && 0 < s.pools[k].users && now < DEADLINE_MAX && c.reusable
    requires MadeRoom(o, s, now, vk, vi, m)
    ensures k in m.pools && Sound(o, Push(m, k, c, now)) && Released(o, s, k, c, now, Push(m, k, c, now))
  {
    MadeRoomShrinks(o, s, now, vk, vi, m);
    ShrunkIsSound(o, s, m);
    PushIsSound(o, m, k, c, now);
    hide MadeRoom, Sound, Push;
  }

  /** What the return comes to: below the limit one connection more, at it as many when none is past the timeout. */
  lemma RoomCounted(o: Options, s: Store, k: OriginKey, c: Connection, now: int, vk: OriginKey, vi: nat, m: Store)
    requires Positive(o) && Sound(o, s) && MadeRoom(o, s, now, vk, vi, m) && k in m.pools
    ensures
      var v := Push(m, k, c, now);
      && k in v.pools && v.pools[k].idle != [] && v.pools[k].idle[|v.pools[k].idle| - 1] == c.(idleSince := now)
      && (s.idleCount < o.maxIdle ==>
            && k in s.pools && v.idleCount == s.idleCount + 1
            && v.pools == s.pools[k := s.pools[k].(idle := s.pools[k].idle + [c.(idleSince := now)])])
      && (s.idleCount == o.maxIdle && NoneExpired(o, s.pools, now) ==> v.idleCount == o.maxIdle)
  {
    RoomByAge(o, s, now, vk, vi, m);
    hide MadeRoom, Sound, NoneExpired;
  }

  // ---------------------------------------------------------------- pruning, pool by pool

  /** The pools after visiting every origin outside `todo`. */
  ghost predicate PrunedExcept(o: Options, all: map<OriginKey, Pool>, now: int, todo: set<OriginKey>,
                               pools: map<OriginKey, Pool>)
  {
    && todo <= pools.Keys <= all.Keys
    && (forall k :: k in todo ==> pools[k] == all[k])
    && (forall k :: k in all && k !in todo ==> (k in pools <==> !Dead(PrunedPool(o, all[k], now))))
    && (forall k :: k in pools && k !in todo ==> pools[k] == PrunedPool(o, all[k], now))
  }

  lemma NothingPruned(o: Options, s: Store, now: int)
    requires Sound(o, s)
    ensures PrunedExcept(o, s.pools, now, s.pools.Keys, s.pools) && s.idleCount == TotalIdle(s.pools)
  {
  }

  lemma PruneOneMore(o: Options, all: map<OriginKey, Pool>, now: int, todo: set<OriginKey>,
                     pools: map<OriginKey, Pool>, k: OriginKey)
    requires PrunedExcept(o, all, now, todo, pools) && k in todo
    ensures
      && k in pools && pools[k] == all[k]
      && var p := PrunedPool(o, all[k], now);
         var after := if Dead(p) then pools - {k} else pools[k := p];
         todo - {k} <= after.Keys && PrunedExcept(o, all, now, todo - {k}, after)
  {
    hide Kept;
  }

  /** What pruning one pool takes off the total. */
  lemma OnePruned(o: Options, pools: map<OriginKey, Pool>, k: OriginKey, now: int)
    requires k in pools
    ensures
      var p, q := pools[k], PrunedPool(o, pools[k], now);
      var after := if Dead(q) then pools - {k} else pools[k := q];
      && |p.idle| <= TotalIdle(pools) && |q.idle| <= |p.idle|
      && TotalIdle(after) == TotalIdle(pools) - (|p.idle| - |q.idle|)
  {
    hide TotalIdle, Kept;
    TotalIdleAt(pools, k);
    TotalIdleUpdate(pools, k, PrunedPool(o, pools[k], now));
  }

  lemma AllPruned(o: Options, s: Store, now: int, pools: map<OriginKey, Pool>)
    requires PrunedExcept(o, s.pools, now, {}, pools)
    ensures Store(pools, TotalIdle(pools)) == Prune(o, s, now)
  {
    hide Kept, TotalIdle;
    assert pools == PrunedPools(o, s.pools, now);
  }
}
