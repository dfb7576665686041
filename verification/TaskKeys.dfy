/** Create idempotency over whole runs of operations that each run alone, on a clock that may be any. */
module TaskKeys {
  import opened Wrappers
  import opened Retention
  import opened TaskRow
  import opened TaskStore

  datatype Event =
    | Create(who: Identity, id: Id, answer: Answer, now: int)
    | Edit(id: Id, row: Row, now: int)              // a status write, pin, unpin, hold or single soft delete
    | SoftDelete(ids: seq<Id>, now: int)
    | HardDelete(ids: seq<Id>, now: int)
    | Purge(soft: seq<Id>, hard: seq<Id>, now: int)

  predicate Enabled(s: Store, e: Event) {
    match e
    case Create(_, id, _, _) => id !in s.used
    case Edit(id, row, _) => id in s.rows && row.who == s.rows[id].who
    case _ => true
  }

  ghost function Apply(s: Store, e: Event): Store {
    match e
    case Create(who, id, answer, now) => TaskStore.Create(s, who, id, answer, now).0
    case Edit(id, row, _) => s.(rows := s.rows[id := row])
    case SoftDelete(ids, now) => s.(rows := SoftDeleteAll(s.rows, ids, now))
    case HardDelete(ids, now) => HardDeleteAll(s, ids, now)
    case Purge(soft, hard, now) => Purged(s, soft, hard, now)
  }

  /** Status writes, pins, unpins, holds and single soft deletions keep the row's identity: each is an edit. */
  lemma RowWritesAreEdits(s: Store, id: Id, status: Status, hold: bool, now: int)
    requires id in s.rows
    ensures Enabled(s, Edit(id, StatusWritten(s.rows[id], s.rows[id], status, now), now))
    ensures Enabled(s, Edit(id, Unpinned(s.rows[id], s.rows[id]), now))
    ensures Enabled(s, Edit(id, s.rows[id].(pinnedAt := Some(now)), now))
    ensures Enabled(s, Edit(id, s.rows[id].(hold := hold), now))
    ensures Enabled(s, Edit(id, s.rows[id].(deletedAt := Some(now)), now))
  {
  }

  // ---------------------------------------------------------------- the tables stay consistent

  predicate Unheld(rows: map<Id, Row>, key: Option<Key>) {
    key.Some? ==> forall i :: i in rows ==> rows[i].who.key != key
  }

  lemma InsertKeepsUnique(s: Store, who: Identity, id: Id, answer: Answer, now: int)
    requires Unique(s.rows) && Unheld(s.rows, who.key)
    ensures Unique(Inserted(s, who, id, answer, now).rows)
  {
    hide Dispatched, Expiry;
    DispatchedWho(who, answer, now);
  }

  lemma InsertKeepsTombs(s: Store, who: Identity, id: Id, answer: Answer, now: int)
    requires Inv(s) && id !in s.used && Unheld(s.rows, who.key)
    ensures TombsAgree(Inserted(s, who, id, answer, now))
  {
    hide Dispatched, Expiry, Unique;
    DispatchedWho(who, answer, now);
  }

  lemma InsertKeepsInv(s: Store, who: Identity, id: Id, answer: Answer, now: int)
    requires Inv(s) && id !in s.used && (who.key.Some? ==> Holders(s.rows, who.key.value) == {})
    ensures Inv(Inserted(s, who, id, answer, now))
  {
    forall i | i in s.rows && who.key.Some? ensures s.rows[i].who.key != who.key {
      assert i in Holders(s.rows, who.key.value) <==> s.rows[i].who.key == who.key;
    }
    hide Dispatched, Expiry, Unique, TombsAgree;
    InsertKeepsUnique(s, who, id, answer, now);
    InsertKeepsTombs(s, who, id, answer, now);
  }

  lemma DispatchedWho(who: Identity, answer: Answer, now: int)
    ensures Dispatched(who, answer, now).who == who
  {
  }

  lemma FreeMeansNoHolder(s: Store, k: Key, now: int)
    requires Inv(s)
    ensures Find(s, k, now) == None <==> Holders(s.rows, k) == {} && !Live(s.tombs, k, now)
  {
  }

  lemma HardDeleteKeepsInv(s: Store, id: Id, now: int)
    requires Inv(s)
    ensures Inv(TaskStore.HardDelete(s, id, now))
  {
    hide Expiry;
    if id in s.rows {
      var v := TaskStore.HardDelete(s, id, now);
      assert Unique(v.rows);
      assert TombsAgree(v);
      assert IdsUsed(v);
    }
  }

  lemma {:induction false} HardDeleteAllKeepsInv(s: Store, ids: seq<Id>, now: int)
    requires Inv(s)
    ensures Inv(HardDeleteAll(s, ids, now))
    decreases |ids|
  {
    hide Inv, TaskStore.HardDelete;
    if ids != [] {
      HardDeleteAllKeepsInv(s, ids[..|ids| - 1], now);
      HardDeleteKeepsInv(HardDeleteAll(s, ids[..|ids| - 1], now), ids[|ids| - 1], now);
    }
  }

  lemma SoftDeleteKeepsInv(s: Store, ids: seq<Id>, now: int)
    requires Inv(s)
    ensures Inv(s.(rows := SoftDeleteAll(s.rows, ids, now)))
  {
  }

  lemma SweepKeepsInv(s: Store, now: int)
    requires Inv(s)
    ensures Inv(s.(tombs := LiveTombs(s.tombs, now)))
  {
  }

  lemma StepKeepsInv(s: Store, e: Event)
    requires Inv(s) && Enabled(s, e)
    ensures Inv(Apply(s, e))
  {
    match e
    case Create(who, id, answer, now) =>
      if who.key.Some? {
        FreeMeansNoHolder(s, who.key.value, now);
      }
      if who.key.None? || Find(s, who.key.value, now).None? {
        InsertKeepsInv(s, who, id, answer, now);
      }
    case Edit(_, _, _) =>
    case SoftDelete(ids, now) => SoftDeleteKeepsInv(s, ids, now);
    case HardDelete(ids, now) => HardDeleteAllKeepsInv(s, ids, now);
    case Purge(soft, hard, now) =>
      SoftDeleteKeepsInv(s, soft, now);
      HardDeleteAllKeepsInv(s.(rows := SoftDeleteAll(s.rows, soft, now)), hard, now);
      SweepKeepsInv(HardDeleteAll(s.(rows := SoftDeleteAll(s.rows, soft, now)), hard, now), now);
  }

  // ---------------------------------------------------------------- who has a key

  /** A row has the key. */
  predicate Owns(s: Store, k: Key, who: Identity, id: Id) {
    who.key == Some(k) && id in s.rows && s.rows[id].who == who
  }

  /** The row is gone and its tombstone keeps the key until `until`. */
  predicate Entombed(s: Store, k: Key, who: Identity, id: Id, until: int) {
    && who.key == Some(k) && id !in s.rows && id in s.used && Holders(s.rows, k) == {}
    && k in s.tombs && s.tombs[k].task == id && s.tombs[k].hash == who.hash && s.tombs[k].expiresAt == until
  }

  lemma OwnedIsFound(s: Store, k: Key, who: Identity, id: Id, now: int)
    requires Inv(s) && Owns(s, k, who, id)
    ensures Find(s, k, now) == Some(Binding(id, who.hash))
  {
    assert id in Holders(s.rows, k);
  }

  /** Until its time has passed a tombstone keeps the key, and then no longer. */
  lemma EntombedIsFound(s: Store, k: Key, who: Identity, id: Id, until: int, now: int)
    requires Entombed(s, k, who, id, until)
    ensures Find(s, k, now) == if now < until then Some(Binding(id, who.hash)) else None
  {
  }

  lemma HardDeleteOne(s: Store, x: Id, now: int, k: Key, who: Identity, id: Id)
    requires Inv(s) && Owns(s, k, who, id)
    ensures
      var v := TaskStore.HardDelete(s, x, now);
      if x == id then Entombed(v, k, who, id, Expiry(who, now)) else Owns(v, k, who, id)
  {
    hide Expiry;
    var v := TaskStore.HardDelete(s, x, now);
    if x == id {
      forall i | i in v.rows ensures v.rows[i].who.key != Some(k) {
      }
      assert Holders(v.rows, k) == {};
    }
  }

  lemma HardDeleteOther(s: Store, x: Id, now: int, k: Key, who: Identity, id: Id, until: int)
    requires Inv(s) && Entombed(s, k, who, id, until)
    ensures Entombed(TaskStore.HardDelete(s, x, now), k, who, id, until)
  {
    hide Expiry;
    if x in s.rows {
      assert x in Holders(s.rows, k) <==> s.rows[x].who.key == Some(k);
      var v := TaskStore.HardDelete(s, x, now);
      assert Holders(v.rows, k) <= Holders(s.rows, k);
    }
  }

  lemma {:induction false} HardDeleteAllOwned(s: Store, ids: seq<Id>, now: int, k: Key, who: Identity, id: Id)
    requires Inv(s) && Owns(s, k, who, id)
    ensures
      var v := HardDeleteAll(s, ids, now);
      if id in ids then Entombed(v, k, who, id, Expiry(who, now)) else Owns(v, k, who, id)
    decreases |ids|
  {
    hide Inv, Owns, Entombed, Expiry, TaskStore.HardDelete;
    if ids != [] {
      var front, last := ids[..|ids| - 1], ids[|ids| - 1];
      assert ids == front + [last];
      var mid := HardDeleteAll(s, front, now);
      HardDeleteAllOwned(s, front, now, k, who, id);
      HardDeleteAllKeepsInv(s, front, now);
      if id in front {
        HardDeleteOther(mid, last, now, k, who, id, Expiry(who, now));
      } else {
        HardDeleteOne(mid, last, now, k, who, id);
      }
    }
  }

  lemma {:induction false} HardDeleteAllEntombed(
      s: Store, ids: seq<Id>, now: int, k: Key, who: Identity, id: Id, until: int)
    requires Inv(s) && Entombed(s, k, who, id, until)
    ensures Entombed(HardDeleteAll(s, ids, now), k, who, id, until)
    decreases |ids|
  {
    hide Inv, Entombed, TaskStore.HardDelete;
    if ids != [] {
      HardDeleteAllEntombed(s, ids[..|ids| - 1], now, k, who, id, until);
      HardDeleteAllKeepsInv(s, ids[..|ids| - 1], now);
      HardDeleteOther(HardDeleteAll(s, ids[..|ids| - 1], now), ids[|ids| - 1], now, k, who, id, until);
    }
  }

  /** A key outlives its task by a week if the task was a test, and by thirty days if not. */
  lemma TimeToLive(who: Identity, now: int)
    ensures Expiry(who, now) == now + (if IsTest(who) then 604_800_000 else 2_592_000_000)
  {
  }

  lemma SoftDeleteOwned(s: Store, ids: seq<Id>, now: int, k: Key, who: Identity, id: Id)
    requires Owns(s, k, who, id)
    ensures Owns(s.(rows := SoftDeleteAll(s.rows, ids, now)), k, who, id)
  {
  }

  lemma SoftDeleteEntombed(s: Store, ids: seq<Id>, now: int, k: Key, who: Identity, id: Id, until: int)
    requires Entombed(s, k, who, id, until)
    ensures Entombed(s.(rows := SoftDeleteAll(s.rows, ids, now)), k, who, id, until)
  {
    assert Holders(SoftDeleteAll(s.rows, ids, now), k) == Holders(s.rows, k);
  }

  /** Nothing frees a key whose row is there: it stays with the row, or passes to a tombstone renewed just then. */
  lemma OwnedStep(s: Store, e: Event, k: Key, who: Identity, id: Id)
    requires Inv(s) && Enabled(s, e) && Owns(s, k, who, id)
    ensures if id in Apply(s, e).rows then Owns(Apply(s, e), k, who, id)
            else Entombed(Apply(s, e), k, who, id, e.now + (if IsTest(who) then 604_800_000 else 2_592_000_000))
  {
    TimeToLive(who, e.now);
    match e
    case Create(_, _, _, _) =>
      OwnedIsFound(s, k, who, id, e.now);
    case Edit(_, _, _) =>
    case SoftDelete(ids, now) => SoftDeleteOwned(s, ids, now, k, who, id);
    case HardDelete(ids, now) =>
      HardDeleteAllOwned(s, ids, now, k, who, id);
      HardDeleteAllRows(s, ids, now);
    case Purge(soft, hard, now) =>
      hide Expiry;
      SoftDeleteOwned(s, soft, now, k, who, id);
      SoftDeleteKeepsInv(s, soft, now);
      HardDeleteAllOwned(s.(rows := SoftDeleteAll(s.rows, soft, now)), hard, now, k, who, id);
  }

  lemma CreateKeepsTomb(s: Store, e: Event, k: Key, who: Identity, id: Id, until: int)
    requires Inv(s) && Enabled(s, e) && e.Create? && Entombed(s, k, who, id, until) && e.now < until
    ensures Entombed(Apply(s, e), k, who, id, until)
  {
    hide StatusWritten, Expiry;
    EntombedIsFound(s, k, who, id, until, e.now);
    if e.who.key != Some(k) {
      DispatchedWho(e.who, e.answer, e.now);
      hide Dispatched;
      var v := Apply(s, e);
      forall i | i in v.rows ensures v.rows[i].who.key != Some(k) {
        assert i in Holders(s.rows, k) <==> i in s.rows && s.rows[i].who.key == Some(k);
      }
      assert Holders(v.rows, k) == {};
    }
  }

  /** Before its time, nothing disturbs a tombstone. */
  lemma EntombedStep(s: Store, e: Event, k: Key, who: Identity, id: Id, until: int)
    requires Inv(s) && Enabled(s, e) && Entombed(s, k, who, id, until) && e.now < until
    ensures Entombed(Apply(s, e), k, who, id, until)
  {
    match e
    case Create(_, _, _, _) => CreateKeepsTomb(s, e, k, who, id, until);
    case Edit(i, row, _) =>
      assert i in Holders(s.rows, k) <==> s.rows[i].who.key == Some(k);
      assert Holders(s.rows[i := row], k) == Holders(s.rows, k);
    case SoftDelete(ids, now) => SoftDeleteEntombed(s, ids, now, k, who, id, until);
    case HardDelete(ids, now) => HardDeleteAllEntombed(s, ids, now, k, who, id, until);
    case Purge(soft, hard, now) =>
      SoftDeleteEntombed(s, soft, now, k, who, id, until);
      SoftDeleteKeepsInv(s, soft, now);
      HardDeleteAllEntombed(s.(rows := SoftDeleteAll(s.rows, soft, now)), hard, now, k, who, id, until);
  }

  // ---------------------------------------------------------------- over whole runs

  ghost predicate IsRun(s: Store, es: seq<Event>, v: Store)
    decreases |es|
  {
    if es == [] then s == v else Enabled(s, es[0]) && IsRun(Apply(s, es[0]), es[1..], v)
  }

  /** The state before event `j`. */
  ghost function StateAt(s: Store, es: seq<Event>, j: nat): Store
    requires j <= |es|
  {
    if j == 0 then s else Apply(StateAt(s, es, j - 1), es[j - 1])
  }

  lemma {:induction false} StateShifts(s: Store, es: seq<Event>, j: nat)
    requires es != [] && j < |es|
    ensures StateAt(Apply(s, es[0]), es[1..], j) == StateAt(s, es, j + 1)
  {
    hide Apply;
    if j > 0 {
      StateShifts(s, es, j - 1);
    }
  }

  /** Event `j` removes the row of task `id`. */
  ghost predicate Removes(s: Store, es: seq<Event>, j: nat, id: Id)
    requires j < |es|
  {
    id in StateAt(s, es, j).rows && id !in Apply(StateAt(s, es, j), es[j]).rows
  }

  predicate Before(es: seq<Event>, now: int) {
    forall j :: 0 <= j < |es| ==> es[j].now <= now
  }

  lemma {:induction false} TombOutlastsRun(
      s: Store, es: seq<Event>, v: Store, k: Key, who: Identity, id: Id, until: int, now: int)
    requires Inv(s) && IsRun(s, es, v) && Entombed(s, k, who, id, until) && Before(es, now) && now < until
    ensures Inv(v) && Entombed(v, k, who, id, until)
    decreases |es|
  {
    hide Inv, Entombed, Apply, Enabled;
    if es != [] {
      StepKeepsInv(s, es[0]);
      EntombedStep(s, es[0], k, who, id, until);
      TombOutlastsRun(Apply(s, es[0]), es[1..], v, k, who, id, until, now);
    }
  }

  /**
   A key leaves its task only after the row was removed and the time to live that removal renewed has
   passed: the witness is the removal.
   */
  lemma {:induction false} KeyFreedOnlyAfterTtl(
      s: Store, es: seq<Event>, v: Store, k: Key, who: Identity, id: Id, now: int) returns (j: nat)
    requires Inv(s) && IsRun(s, es, v) && Owns(s, k, who, id) && Before(es, now)
    requires Find(v, k, now) != Some(Binding(id, who.hash))
    ensures j < |es| && Removes(s, es, j, id)
    ensures es[j].now + (if IsTest(who) then 604_800_000 else 2_592_000_000) <= now
    decreases |es|
  {
    hide Inv, Owns, Entombed, Apply, Enabled, Find, Expiry, IsTest;
    if es == [] {
      OwnedIsFound(s, k, who, id, now);
      assert false;
    } else {
      var n := Apply(s, es[0]);
      StepKeepsInv(s, es[0]);
      OwnedStep(s, es[0], k, who, id);
      if id in n.rows {
        var i := KeyFreedOnlyAfterTtl(n, es[1..], v, k, who, id, now);
        StateShifts(s, es, i);
        j := i + 1;
      } else {
        j := 0;
        OwnedIsPresent(s, k, who, id);
        TimeToLive(who, es[0].now);
        var until := Expiry(who, es[0].now);
        if now < until {
          TombOutlastsRun(n, es[1..], v, k, who, id, until, now);
          EntombedIsFound(v, k, who, id, until, now);
          assert false;
        }
      }
    }
  }

  lemma OwnedIsPresent(s: Store, k: Key, who: Identity, id: Id)
    requires Owns(s, k, who, id)
    ensures id in s.rows
  {
  }

  /** How often a dispatch carried the key. */
  function DispatchesFor(sent: seq<(Option<Key>, Id)>, k: Key): nat {
    if sent == [] then 0
    else DispatchesFor(sent[..|sent| - 1], k) + if sent[|sent| - 1].0 == Some(k) then 1 else 0
  }

  lemma {:induction false} HardDeleteAllSendsNothing(s: Store, ids: seq<Id>, now: int)
    ensures HardDeleteAll(s, ids, now).sent == s.sent
    decreases |ids|
  {
    if ids != [] {
      HardDeleteAllSendsNothing(s, ids[..|ids| - 1], now);
    }
  }

  /** A create on a bound key replays the binding, dispatches nothing and changes nothing. */
  lemma BoundStep(s: Store, e: Event, k: Key, b: Binding)
    requires Enabled(s, e) && Find(s, k, e.now) == Some(b)
    ensures DispatchesFor(Apply(s, e).sent, k) == DispatchesFor(s.sent, k)
    ensures
      e.Create? && e.who.key == Some(k) ==>
        TaskStore.Create(s, e.who, e.id, e.answer, e.now) == (s, Replayed(b, e.who.hash))
  {
    match e
    case Create(who, id, answer, now) =>
      hide Find, Dispatched;
      if who.key != Some(k) && (who.key.None? || Find(s, who.key.value, now).None?) {
        var v := Inserted(s, who, id, answer, now);
        assert v.sent[..|v.sent| - 1] == s.sent;
      }
    case Edit(_, _, _) =>
    case SoftDelete(_, _) =>
    case HardDelete(ids, now) => HardDeleteAllSendsNothing(s, ids, now);
    case Purge(soft, hard, now) =>
      HardDeleteAllSendsNothing(s.(rows := SoftDeleteAll(s.rows, soft, now)), hard, now);
  }

  /** The clock `now` is within the time to live after every removal of the row. */
  ghost predicate WithinTtl(s: Store, es: seq<Event>, who: Identity, id: Id, now: int) {
    forall j :: 0 <= j < |es| && Removes(s, es, j, id) ==>
      now < es[j].now + (if IsTest(who) then 604_800_000 else 2_592_000_000)
  }

  lemma {:induction false} KeyedCreateReplays(
      s: Store, es: seq<Event>, v: Store, k: Key, who: Identity, id: Id, now: int)
    requires Inv(s) && IsRun(s, es, v) && Owns(s, k, who, id) && Before(es, now) && WithinTtl(s, es, who, id, now)
    ensures Find(v, k, now) == Some(Binding(id, who.hash))
    ensures DispatchesFor(v.sent, k) == DispatchesFor(s.sent, k)
    ensures
      forall j :: 0 <= j < |es| && es[j].Create? && es[j].who.key == Some(k) ==>
        && Apply(StateAt(s, es, j), es[j]) == StateAt(s, es, j)
        && TaskStore.Create(StateAt(s, es, j), es[j].who, es[j].id, es[j].answer, es[j].now).1
           == Replayed(Binding(id, who.hash), es[j].who.hash)
    decreases |es|
  {
    hide Inv, Owns, Entombed, Apply, Enabled, Find, Expiry, IsTest, DispatchesFor, TaskStore.Create;
    if es == [] {
      OwnedIsFound(s, k, who, id, now);
    } else {
      var e, n := es[0], Apply(s, es[0]);
      StepKeepsInv(s, e);
      OwnedIsFound(s, k, who, id, e.now);
      BoundStep(s, e, k, Binding(id, who.hash));
      OwnedStep(s, e, k, who, id);
      OwnedIsPresent(s, k, who, id);
      assert StateAt(s, es, 0) == s;
      if id in n.rows {
        forall j | 0 <= j < |es| - 1 && Removes(n, es[1..], j, id)
          ensures now < es[1..][j].now + (if IsTest(who) then 604_800_000 else 2_592_000_000)
        {
          StateShifts(s, es, j);
          assert Removes(s, es, j + 1, id);
        }
        KeyedCreateReplays(n, es[1..], v, k, who, id, now);
      } else {
        assert Removes(s, es, 0, id);
        TimeToLive(who, e.now);
        TombKeepsDispatches(n, es[1..], v, k, who, id, Expiry(who, e.now), now);
      }
      forall j | 0 < j < |es| && es[j].Create? && es[j].who.key == Some(k)
        ensures
          && Apply(StateAt(s, es, j), es[j]) == StateAt(s, es, j)
          && TaskStore.Create(StateAt(s, es, j), es[j].who, es[j].id, es[j].answer, es[j].now).1
             == Replayed(Binding(id, who.hash), es[j].who.hash)
      {
        StateShifts(s, es, j - 1);
        assert es[j] == es[1..][j - 1];
      }
      CreateApplies(s, e);
    }
  }

  /**
   One task per key: from a task that has the key, across any run of status writes, pins, soft and
   hard deletions, cleanups, purges and creates, and until a removal's time to live has passed, the
   key finds that task, no create on it is dispatched, and each is answered with that task,
   unless its hash is known to differ: then it is refused.
   */
  lemma KeyedCreateIsDispatchedOnce(
      s: Store, es: seq<Event>, v: Store, k: Key, who: Identity, id: Id, now: int)
    requires Inv(s) && IsRun(s, es, v) && Owns(s, k, who, id) && Before(es, now) && WithinTtl(s, es, who, id, now)
    ensures Find(v, k, now) == Some(Binding(id, who.hash))
    ensures DispatchesFor(v.sent, k) == DispatchesFor(s.sent, k)
    ensures
      forall j :: 0 <= j < |es| && es[j].Create? && es[j].who.key == Some(k) ==>
        && Apply(StateAt(s, es, j), es[j]) == StateAt(s, es, j)
        && TaskStore.Create(StateAt(s, es, j), es[j].who, es[j].id, es[j].answer, es[j].now).1
           == if who.hash.Some? && es[j].who.hash != who.hash then Conflict(who.hash.value)
              else Reused(id, es[j].who.hash)
  {
    hide Inv, Owns, IsRun, Apply, StateAt, Find, WithinTtl, DispatchesFor, TaskStore.Create;
    KeyedCreateReplays(s, es, v, k, who, id, now);
    forall j | 0 <= j < |es| && es[j].Create? && es[j].who.key == Some(k)
      ensures
        Replayed(Binding(id, who.hash), es[j].who.hash)
        == if who.hash.Some? && es[j].who.hash != who.hash then Conflict(who.hash.value) else Reused(id, es[j].who.hash)
    {
      ReplayedAnswers(Binding(id, who.hash), es[j].who.hash);
    }
  }

  lemma CreateApplies(s: Store, e: Event)
    ensures e.Create? ==> Apply(s, e) == TaskStore.Create(s, e.who, e.id, e.answer, e.now).0
  {
  }

  lemma {:induction false} TombKeepsDispatches(
      s: Store, es: seq<Event>, v: Store, k: Key, who: Identity, id: Id, until: int, now: int)
    requires Inv(s) && IsRun(s, es, v) && Entombed(s, k, who, id, until) && Before(es, now) && now < until
    ensures Find(v, k, now) == Some(Binding(id, who.hash))
    ensures DispatchesFor(v.sent, k) == DispatchesFor(s.sent, k)
    ensures
      forall j :: 0 <= j < |es| && es[j].Create? && es[j].who.key == Some(k) ==>
        && Apply(StateAt(s, es, j), es[j]) == StateAt(s, es, j)
        && TaskStore.Create(StateAt(s, es, j), es[j].who, es[j].id, es[j].answer, es[j].now).1
           == Replayed(Binding(id, who.hash), es[j].who.hash)
    decreases |es|
  {
    hide Inv, Entombed, Apply, Enabled, Find, DispatchesFor, TaskStore.Create;
    if es == [] {
      EntombedIsFound(s, k, who, id, until, now);
    } else {
      var e, n := es[0], Apply(s, es[0]);
      StepKeepsInv(s, e);
      EntombedIsFound(s, k, who, id, until, e.now);
      BoundStep(s, e, k, Binding(id, who.hash));
      EntombedStep(s, e, k, who, id, until);
      assert StateAt(s, es, 0) == s;
      TombKeepsDispatches(n, es[1..], v, k, who, id, until, now);
      forall j | 0 < j < |es| && es[j].Create? && es[j].who.key == Some(k)
        ensures
          && Apply(StateAt(s, es, j), es[j]) == StateAt(s, es, j)
          && TaskStore.Create(StateAt(s, es, j), es[j].who, es[j].id, es[j].answer, es[j].now).1
             == Replayed(Binding(id, who.hash), es[j].who.hash)
      {
        StateShifts(s, es, j - 1);
        assert es[j] == es[1..][j - 1];
      }
      CreateApplies(s, e);
    }
  }

  /**
   A create on a free key dispatches exactly once; it binds the key to its own task unless the backend
   lacks the capability, and then the key is as free as before, at any clock.
   */
  lemma FreeCreateBinds(s: Store, e: Event, k: Key, later: int)
    requires Inv(s) && Enabled(s, e) && e.Create? && e.who.key == Some(k) && Find(s, k, e.now) == None
    ensures DispatchesFor(Apply(s, e).sent, k) == DispatchesFor(s.sent, k) + 1
    ensures !e.answer.CapabilityMissing? ==> Owns(Apply(s, e), k, e.who, e.id)
    ensures e.answer.CapabilityMissing? ==> Find(Apply(s, e), k, later) == None
  {
    hide StatusWritten, Expiry;
    DispatchedWho(e.who, e.answer, e.now);
    hide Dispatched;
    FreeMeansNoHolder(s, k, e.now);
    var v := Apply(s, e);
    assert v.sent[..|v.sent| - 1] == s.sent;
    if e.answer.CapabilityMissing? {
      assert Holders(v.rows, k) <= Holders(s.rows, k);
    }
  }
}
