/** The task service over its two tables.  A SELECT's answer is a parameter: the rows it may return, in any order. */
module TaskIndex {
  import opened Wrappers
  import opened Retention
  import opened TaskRow
  import opened TaskStore
  import TaskKeys
  import TaskRuns

  datatype Mode = Soft | Hard

  /** `keep` is the conjunction of the column filters, at a fixed clock. */
  datatype Filters = Filters(keep: Row -> bool, includeDeleted: bool)

  datatype DeleteResult = NotFound | AlreadyDeleted | NotTerminal | LegalHold | Deleted

  datatype Preview = Preview(
    matched: nat, deletable: seq<Id>, protectedIds: seq<Id>, breakdown: map<Status, nat>)

  const CLEANUP_BATCH_SIZE := 500
  const CLEANUP_MAX_PER_RUN := 5_000

  function Limit(asked: Option<int>, fallback: int): (r: nat)
    ensures 1 <= r <= CLEANUP_MAX_PER_RUN
    ensures asked.Some? && 1 <= asked.value <= 5_000 ==> r == asked.value
    ensures asked.Some? && asked.value < 1 ==> r == 1
    ensures asked.Some? && asked.value > 5_000 ==> r == 5_000
    ensures asked.None? && 1 <= fallback <= 5_000 ==> r == fallback
  {
    var n := if asked.Some? then asked.value else fallback;
    if n < 1 then 1 else if n > CLEANUP_MAX_PER_RUN then CLEANUP_MAX_PER_RUN else n
  }

  function PreviewWhere(f: Filters): Row -> bool {
    (r: Row) => f.keep(r) && IsTerminal(r.status) && (f.includeDeleted || r.deletedAt.None?)
  }

  function RunWhere(f: Filters, mode: Mode): Row -> bool {
    (r: Row) =>
      f.keep(r) && !Protected(r) && IsTerminal(r.status) && ((mode.Hard? && f.includeDeleted) || r.deletedAt.None?)
  }

  function SoftPass(now: int): Row -> bool {
    (r: Row) => Purgeable(r, now)
  }

  function HardPass(now: int): Row -> bool {
    (r: Row) => PastGrace(r, now)
  }

  // ---------------------------------------------------------------- counting a selection

  /** The members of `ids` whose row is protected, or is not, in order. */
  function Sieve(rows: map<Id, Row>, ids: seq<Id>, held: bool): (r: seq<Id>)
    requires forall id :: id in ids ==> id in rows
    ensures forall id :: id in r <==> id in ids && Protected(rows[id]) == held
    decreases |ids|
  {
    if ids == [] then []
    else
      var last := ids[|ids| - 1];
      assert ids == ids[..|ids| - 1] + [last];
      Sieve(rows, ids[..|ids| - 1], held) + if Protected(rows[last]) == held then [last] else []
  }

  function Count(rows: map<Id, Row>, ids: seq<Id>, st: Status): nat
    requires forall id :: id in ids ==> id in rows
    decreases |ids|
  {
    if ids == [] then 0
    else Count(rows, ids[..|ids| - 1], st) + if rows[ids[|ids| - 1]].status == st then 1 else 0
  }

  function Tally(breakdown: map<Status, nat>, st: Status): nat {
    if st in breakdown then breakdown[st] else 0
  }

  function Total(breakdown: map<Status, nat>): nat {
    Tally(breakdown, Succeeded) + Tally(breakdown, Failed) + Tally(breakdown, Cancelled) + Tally(breakdown, TimedOut)
    + Tally(breakdown, DispatchFailed)
  }

  lemma SelectionStep(rows: map<Id, Row>, ids: seq<Id>, i: nat)
    requires i < |ids| && forall id :: id in ids ==> id in rows
    ensures
      var id := ids[i];
      && Sieve(rows, ids[..i + 1], true) == Sieve(rows, ids[..i], true) + (if Protected(rows[id]) then [id] else [])
      && Sieve(rows, ids[..i + 1], false) == Sieve(rows, ids[..i], false) + (if Protected(rows[id]) then [] else [id])
  {
    Prefix(ids, i);
  }

  lemma CountStep(rows: map<Id, Row>, ids: seq<Id>, i: nat, st: Status)
    requires i < |ids| && forall id :: id in ids ==> id in rows
    ensures Count(rows, ids[..i + 1], st) == Count(rows, ids[..i], st) + if rows[ids[i]].status == st then 1 else 0
  {
    Prefix(ids, i);
  }

  lemma EmptySelection(rows: map<Id, Row>, ids: seq<Id>)
    requires forall id :: id in ids ==> id in rows
    ensures Sieve(rows, ids[..0], true) == [] == Sieve(rows, ids[..0], false) && Total(map[]) == 0
    ensures forall st :: Count(rows, ids[..0], st) == 0
  {
  }

  lemma TotalStep(breakdown: map<Status, nat>, st: Status)
    requires IsTerminal(st)
    ensures Total(breakdown[st := Tally(breakdown, st) + 1]) == Total(breakdown) + 1
  {
  }

  lemma {:induction false} SieveKeepsDistinct(rows: map<Id, Row>, ids: seq<Id>, held: bool)
    requires Distinct(ids) && forall id :: id in ids ==> id in rows
    ensures Distinct(Sieve(rows, ids, held))
    decreases |ids|
  {
    if ids != [] {
      SieveKeepsDistinct(rows, ids[..|ids| - 1], held);
    }
  }

  // ---------------------------------------------------------------- the service

  /** Every row's stamps follow the retention policy; rows from before that policy need not. */
  ghost predicate AllStamped(rows: map<Id, Row>) {
    forall id :: id in rows ==> TaskRuns.Stamped(rows[id])
  }

  /** The rows that are left have all they had of what is written once, and follow the policy if they did. */
  ghost predicate Kept(before: map<Id, Row>, after: map<Id, Row>) {
    && (forall id :: id in before && id in after ==> TaskRuns.Extends(before[id], after[id]))
    && (AllStamped(before) ==> AllStamped(after))
  }

  lemma KeptAsItWas(rows: map<Id, Row>)
    ensures Kept(rows, rows)
  {
  }

  lemma EditKeeps(s: Store, id: Id, row: Row, now: int)
    requires Inv(s) && TaskKeys.Enabled(s, TaskKeys.Edit(id, row, now))
    requires TaskRuns.Extends(s.rows[id], row) && (TaskRuns.Stamped(s.rows[id]) ==> TaskRuns.Stamped(row))
    ensures Inv(s.(rows := s.rows[id := row])) && Kept(s.rows, s.rows[id := row])
  {
    TaskKeys.StepKeepsInv(s, TaskKeys.Edit(id, row, now));
    hide TaskRuns.Stamped, Inv;
  }

  lemma StatusWriteKeeps(s: Store, id: Id, status: Status, now: int)
    requires Inv(s) && id in s.rows
    ensures
      var rows := s.rows[id := StatusWritten(s.rows[id], s.rows[id], status, now)];
      Inv(s.(rows := rows)) && Kept(s.rows, rows)
  {
    var row := s.rows[id];
    TaskKeys.RowWritesAreEdits(s, id, status, false, now);
    if TaskRuns.Stamped(row) {
      TaskRuns.ExtendsItself(row);
      TaskRuns.StatusWriteStamps(row, row, status, now);
    }
    EditKeeps(s, id, StatusWritten(row, row, status, now), now);
  }

  lemma UnpinKeeps(s: Store, id: Id)
    requires Inv(s) && id in s.rows
    ensures
      var rows := s.rows[id := Unpinned(s.rows[id], s.rows[id])];
      Inv(s.(rows := rows)) && Kept(s.rows, rows)
  {
    var row := s.rows[id];
    TaskKeys.RowWritesAreEdits(s, id, Created, false, 0);
    if TaskRuns.Stamped(row) {
      TaskRuns.ExtendsItself(row);
      TaskRuns.UnpinStamps(row, row);
    }
    EditKeeps(s, id, Unpinned(row, row), 0);
  }

  /** Pins and holds touch no stamp. */
  lemma FlagsKeep(s: Store, id: Id, pinnedAt: Option<int>, hold: bool)
    requires Inv(s) && id in s.rows
    ensures
      var rows := s.rows[id := s.rows[id].(pinnedAt := pinnedAt, hold := hold)];
      Inv(s.(rows := rows)) && Kept(s.rows, rows)
  {
    EditKeeps(s, id, s.rows[id].(pinnedAt := pinnedAt, hold := hold), 0);
  }

  lemma SoftDeletesKeep(s: Store, ids: seq<Id>, now: int)
    requires Inv(s)
    ensures
      var rows := SoftDeleteAll(s.rows, ids, now);
      Inv(s.(rows := rows)) && Kept(s.rows, rows) && rows.Keys == s.rows.Keys
  {
    TaskKeys.SoftDeleteKeepsInv(s, ids, now);
    hide Inv;
    var rows := SoftDeleteAll(s.rows, ids, now);
    if AllStamped(s.rows) {
      forall id | id in rows ensures TaskRuns.Stamped(rows[id]) {
        assert TaskRuns.Stamped(s.rows[id]);
      }
    }
  }

  lemma HardDeletesKeep(s: Store, ids: seq<Id>, now: int)
    requires Inv(s)
    ensures Inv(HardDeleteAll(s, ids, now)) && Kept(s.rows, HardDeleteAll(s, ids, now).rows)
  {
    TaskKeys.HardDeleteAllKeepsInv(s, ids, now);
    HardDeleteAllRows(s, ids, now);
    hide Inv, HardDeleteAll, TaskRuns.Stamped;
  }

  lemma OneDeleted(s: Store, id: Id, now: int)
    ensures HardDeleteAll(s, [id], now) == HardDelete(s, id, now)
    ensures
      id in s.rows && s.rows[id].deletedAt.None? ==>
        SoftDeleteAll(s.rows, [id], now) == s.rows[id := s.rows[id].(deletedAt := Some(now))]
  {
    assert [id][..0] == [];
  }

  /** A removal leaves a tombstone marked deleted, for a week after a test and thirty days after any other task. */
  lemma HardDeleteEntombs(s: Store, id: Id, now: int)
    ensures
      id in s.rows ==>
        var who, v := s.rows[id].who, HardDelete(s, id, now);
        && v.rows == s.rows - {id} && v.sent == s.sent && v.used == s.used
        && v.tombs == if who.key.None? then s.tombs else
                        s.tombs[who.key.value :=
                          Tomb(id, who.hash, true, now + (if IsTest(who) then 604_800_000 else 2_592_000_000))]
  {
    if id in s.rows {
      TaskKeys.TimeToLive(s.rows[id].who, now);
    }
    hide IsTest, Expiry;
  }

  lemma PurgeKeeps(s: Store, soft: seq<Id>, hard: seq<Id>, now: int)
    requires Inv(s)
    ensures Inv(Purged(s, soft, hard, now)) && Kept(s.rows, Purged(s, soft, hard, now).rows)
  {
    var m := s.(rows := SoftDeleteAll(s.rows, soft, now));
    SoftDeletesKeep(s, soft, now);
    HardDeletesKeep(m, hard, now);
    TaskKeys.SweepKeepsInv(HardDeleteAll(m, hard, now), now);
    hide Inv, HardDeleteAll, SoftDeleteAll, TaskRuns.Stamped, TaskRuns.Extends;
    var v := Purged(s, soft, hard, now);
    forall id | id in s.rows && id in v.rows ensures TaskRuns.Extends(s.rows[id], v.rows[id]) {
      TaskRuns.ExtendsTransitive(s.rows[id], m.rows[id], v.rows[id]);
    }
  }

  lemma InsertKeeps(s: Store, who: Identity, id: Id, answer: Answer, now: int)
    requires Inv(s) && id !in s.used
    ensures
      var v := TaskStore.Create(s, who, id, answer, now).0;
      Inv(v) && (TaskRuns.Fresh(who) ==> Kept(s.rows, v.rows))
  {
    TaskKeys.StepKeepsInv(s, TaskKeys.Create(who, id, answer, now));
    if TaskRuns.Fresh(who) {
      NewTaskIsStamped(who, answer, now);
    }
    hide Inv, Find, Dispatched, TaskRuns.Stamped, TaskRuns.Extends;
    forall x | x in s.rows ensures TaskRuns.Extends(s.rows[x], s.rows[x]) {
      TaskRuns.ExtendsItself(s.rows[x]);
    }
    IdIsNew(s, id);
  }

  /** What the statements of an insertion add up to. */
  lemma InsertedEnds(s: Store, who: Identity, id: Id, answer: Answer, now: int)
    ensures
      var row := StatusWritten(New(who), New(who), Dispatching, now);
      var rows, tombs := s.rows[id := row], Entomb(s.tombs, who, id, false, now);
      && rows - {id} == s.rows - {id} && Forget(tombs, who.key) == Forget(s.tombs, who.key)
      && rows[id := StatusWritten(row, row, Queued, now)] == s.rows[id := StatusWritten(row, row, Queued, now)]
      && rows[id := StatusWritten(row, row, DispatchFailed, now)]
         == s.rows[id := StatusWritten(row, row, DispatchFailed, now)]
  {
    hide StatusWritten, Expiry, New;
  }

  /** What a create comes to, by what its key is bound to and what the backend answers. */
  lemma CreateByAnswer(s: Store, who: Identity, id: Id, answer: Answer, now: int)
    requires Inv(s) && id !in s.used
    ensures
      var found := if who.key.Some? then Find(s, who.key.value, now) else None;
      var (v, r) := TaskStore.Create(s, who, id, answer, now);
      && (found.Some? ==>
            && v == s
            && r == (if found.value.hash.Some? && found.value.hash != who.hash then Conflict(found.value.hash.value)
                     else Reused(found.value.task, who.hash)))
      && (found.None? ==>
            && v.sent == s.sent + [(who.key, id)]
            && (answer.CapabilityMissing? ==>
                  r == RolledBack && v.rows == s.rows && (who.key.Some? ==> who.key.value !in v.tombs))
            && (!answer.CapabilityMissing? ==>
                  && r == (if answer.Accepted? then Enqueued(id) else NotDispatched(id))
                  && id in v.rows && v.rows[id].who == who && v.rows[id].deletedAt.None?
                  && v.rows[id].status == (if answer.Accepted? then Queued else DispatchFailed)
                  && (who.key.Some? ==>
                        && who.key.value in v.tombs
                        && v.tombs[who.key.value] ==
                           Tomb(id, who.hash, false, now + (if IsTest(who) then 604_800_000 else 2_592_000_000)))))
  {
    hide IsTest, Find;
    TaskKeys.TimeToLive(who, now);
    DispatchedStatus(who, answer, now);
    IdIsNew(s, id);
    hide Dispatched, Expiry, Inv;
    assert s.rows - {id} == s.rows;
  }

  lemma DispatchedStatus(who: Identity, answer: Answer, now: int)
    ensures
      var row := Dispatched(who, answer, now);
      && row.who == who && row.deletedAt.None?
      && row.status == (if answer.Accepted? then Queued else DispatchFailed)
  {
  }

  lemma IdIsNew(s: Store, id: Id)
    requires Inv(s) && id !in s.used
    ensures id !in s.rows
  {
  }

  lemma NewTaskIsStamped(who: Identity, answer: Answer, now: int)
    requires TaskRuns.Fresh(who)
    ensures TaskRuns.Stamped(Dispatched(who, answer, now))
  {
    var row := New(who);
    TaskRuns.CreationStartsInv(who);
    assert row in TaskRuns.Start(who).seen;
    TaskRuns.ExtendsItself(row);
    TaskRuns.StatusWriteStamps(row, row, Dispatching, now);
    var sent := StatusWritten(row, row, Dispatching, now);
    TaskRuns.ExtendsItself(sent);
    TaskRuns.StatusWriteStamps(sent, sent, if answer.Accepted? then Queued else DispatchFailed, now);
  }

  class TaskTable {
    var rows: map<Id, Row>
    var tombs: map<Key, Tomb>
    var sent: seq<(Option<Key>, Id)>
    ghost var used: set<Id>

    ghost function Value(): Store
      reads this
    {
      Store(rows, tombs, sent, used)
    }

    /** Keys are unique and tombstones agree with rows. */
    ghost predicate Valid()
      reads this
    {
      Inv(Value())
    }

    constructor ()
      ensures Valid() && Value() == Store(map[], map[], [], {})
    {
      rows, tombs, sent, used := map[], map[], [], {};
    }

    method FindByIdempotency(key: Key, now: int) returns (r: Option<Binding>)
      requires Valid()
      ensures r == Find(Value(), key, now)
    {
      if key in tombs && tombs[key].expiresAt > now {
        var t := tombs[key];
        if !t.deleted && t.task in rows {
          return Some(Binding(t.task, rows[t.task].who.hash));
        }
        return Some(Binding(t.task, t.hash));
      }
      var holders := set id | id in rows && rows[id].who.key == Some(key);
      assert holders == Holders(rows, key);
      if holders == {} {
        return None;
      }
      var id :| id in holders;
      return Some(Binding(id, rows[id].who.hash));
    }

    /** The statements of a status write, wherever in an operation they run. */
    method WriteStatus(id: Id, status: Status, now: int)
      modifies this`rows
      ensures rows ==
        if id in old(rows) then old(rows)[id := StatusWritten(old(rows)[id], old(rows)[id], status, now)]
        else old(rows)
    {
      if id !in rows {
        return;
      }
      var row := rows[id];
      if !IsTerminal(status) {
        rows := rows[id := row.(status := status)];
        return;
      }
      var tag := ClassFor(status, row.who.labels, Environment(row.who));
      var at := if row.terminalAt.Some? then row.terminalAt.value else now;
      rows := rows[id := row.(
        status := status,
        terminalAt := Coalesce(row.terminalAt, Some(at)),
        expiresAt := Coalesce(row.expiresAt, Some(ExpiresAt(at, tag, status))),
        outputExpiresAt := Coalesce(row.outputExpiresAt, Some(at + OutputSpan(row.who.outputSeconds))),
        kept := Coalesce(row.kept, Some(tag)))];
    }

    method SetStatus(id: Id, status: Status, now: int)
      requires Valid()
      modifies this`rows
      ensures Valid() && Kept(old(rows), rows)
      ensures rows ==
        if id in old(rows) then old(rows)[id := StatusWritten(old(rows)[id], old(rows)[id], status, now)]
        else old(rows)
      ensures id in old(rows) ==> StampedByPolicy(old(rows)[id], old(rows)[id], status, now, rows[id])
    {
      if id in rows {
        StatusByPolicy(rows[id], rows[id], status, now);
        StatusWriteKeeps(Value(), id, status, now);
      } else {
        KeptAsItWas(rows);
      }
      hide StatusWritten, AllStamped, Inv, Kept, StampedByPolicy;
      WriteStatus(id, status, now);
    }

    /** Upsert: creation and hard deletion both renew the time to live. */
    method UpsertCreateIdempotency(key: Key, id: Id, who: Identity, deleted: bool, now: int)
      requires who.key == Some(key)
      modifies this`tombs
      ensures tombs == Entomb(old(tombs), who, id, deleted, now)
    {
      var expiresAt := now + KeyTtl(who.labels, Environment(who));
      tombs := tombs[key := Tomb(id, who.hash, deleted, expiresAt)];
    }

    /** The row and its tombstone, before anything is dispatched. */
    method InsertRow(who: Identity, id: Id, now: int)
      modifies this`rows, this`tombs, this`used
      ensures used == old(used) + {id}
      ensures rows == old(rows)[id := StatusWritten(New(who), New(who), Dispatching, now)]
      ensures tombs == Entomb(old(tombs), who, id, false, now)
    {
      hide StatusWritten, Expiry, IsTestTask, New;
      used := used + {id};
      rows := rows[id := New(who)];
      if who.key.Some? {
        UpsertCreateIdempotency(who.key.value, id, who, false, now);
      }
      WriteStatus(id, Dispatching, now);
    }

    /** The backend lacks a capability: the row and its tombstone go again. */
    method RollBack(who: Identity, id: Id)
      modifies this`rows, this`tombs
      ensures rows == old(rows) - {id} && tombs == Forget(old(tombs), who.key)
    {
      rows := rows - {id};
      if who.key.Some? {
        tombs := tombs - {who.key.value};
      }
    }

    /** The part of a create after its key was found free: insert the row, dispatch, note the answer. */
    method InsertAndDispatch(who: Identity, id: Id, answer: Answer, now: int) returns (r: CreateResult)
      requires id !in rows
      modifies this
      ensures Value() == Inserted(old(Value()), who, id, answer, now) && r == InsertResult(id, answer)
    {
      hide StatusWritten, Entomb, Forget, New;
      ghost var was := Value();
      InsertRow(who, id, now);
      sent := sent + [(who.key, id)];
      InsertedEnds(was, who, id, answer, now);
      match answer {
        case Accepted =>
          WriteStatus(id, Queued, now);
          r := Enqueued(id);
        case CapabilityMissing =>
          RollBack(who, id);
          r := RolledBack;
        case Rejected =>
          WriteStatus(id, DispatchFailed, now);
          r := NotDispatched(id);
      }
    }

    method Create(who: Identity, id: Id, answer: Answer, now: int) returns (r: CreateResult)
      requires Valid() && id !in used
      modifies this
      ensures (Value(), r) == TaskStore.Create(old(Value()), who, id, answer, now)
      ensures Valid() && (TaskRuns.Fresh(who) ==> Kept(old(rows), rows))
      ensures
        var found := if who.key.Some? then Find(old(Value()), who.key.value, now) else None;
        && (found.Some? ==>
              && Value() == old(Value())
              && r == (if found.value.hash.Some? && found.value.hash != who.hash then Conflict(found.value.hash.value)
                       else Reused(found.value.task, who.hash)))
        && (found.None? ==>
              && sent == old(sent) + [(who.key, id)]
              && (answer.Accepted? ==> r == Enqueued(id) && Placed(who, id, Queued, now))
              && (answer.Rejected? ==> r == NotDispatched(id) && Placed(who, id, DispatchFailed, now))
              && (answer.CapabilityMissing? ==>
                    r == RolledBack && rows == old(rows) && (who.key.Some? ==> who.key.value !in tombs)))
    {
      CreateByAnswer(Value(), who, id, answer, now);
      InsertKeeps(Value(), who, id, answer, now);
      IdIsNew(Value(), id);
      hide Inserted, InsertResult, Find, Inv, AllStamped, Kept;
      if who.key.Some? {
        var found := FindByIdempotency(who.key.value, now);
        if found.Some? {
          if found.value.hash.Some? && found.value.hash != who.hash {
            return Conflict(found.value.hash.value);
          }
          return Reused(found.value.task, if found.value.hash.Some? then found.value.hash else who.hash);
        }
      }
      r := InsertAndDispatch(who, id, answer, now);
    }

    /** The new task is there in status `st`, and its key is bound to it for a week if it is a test, else for thirty days. */
    ghost predicate Placed(who: Identity, id: Id, st: Status, now: int)
      reads this
    {
      && id in rows && rows[id].who == who && rows[id].status == st && rows[id].deletedAt.None?
      && (who.key.Some? ==>
            && who.key.value in tombs
            && tombs[who.key.value] ==
               Tomb(id, who.hash, false, now + (if IsTest(who) then 604_800_000 else 2_592_000_000)))
    }

    method Pin(id: Id, now: int) returns (found: bool)
      requires Valid()
      modifies this`rows
      ensures Valid() && Kept(old(rows), rows)
      ensures found <==> id in old(rows)
      ensures rows ==
        if found && old(rows)[id].pinnedAt.None? then old(rows)[id := old(rows)[id].(pinnedAt := Some(now))]
        else old(rows)
    {
      KeptAsItWas(rows);
      found := id in rows;
      if found && rows[id].pinnedAt.None? {
        FlagsKeep(Value(), id, Some(now), rows[id].hold);
        hide AllStamped, Inv, Kept;
        rows := rows[id := rows[id].(pinnedAt := Some(now))];
      }
    }

    method Unpin(id: Id) returns (found: bool)
      requires Valid()
      modifies this`rows
      ensures Valid() && Kept(old(rows), rows)
      ensures found <==> id in old(rows)
      ensures rows ==
        if found && old(rows)[id].pinnedAt.Some? then old(rows)[id := Unpinned(old(rows)[id], old(rows)[id])]
        else old(rows)
      ensures found && old(rows)[id].pinnedAt.Some? ==> UnpinnedByPolicy(old(rows)[id], old(rows)[id], rows[id])
    {
      KeptAsItWas(rows);
      found := id in rows;
      if found && rows[id].pinnedAt.Some? {
        UnpinByPolicy(rows[id], rows[id]);
        UnpinKeeps(Value(), id);
        hide AllStamped, Inv, Kept, UnpinnedByPolicy;
        var row := rows[id];
        var expiry := row.expiresAt;
        if row.terminalAt.Some? && IsTerminal(row.status) {
          var tag := ClassFor(row.status, row.who.labels, Environment(row.who));
          expiry := Some(ExpiresAt(row.terminalAt.value, tag, row.status));
        }
        rows := rows[id := row.(pinnedAt := None, expiresAt := if expiry.Some? then expiry else row.expiresAt)];
      }
    }

    method SetLegalHold(id: Id, hold: bool) returns (found: bool)
      requires Valid()
      modifies this`rows
      ensures Valid() && Kept(old(rows), rows)
      ensures found <==> id in old(rows)
      ensures rows == if found then old(rows)[id := old(rows)[id].(hold := hold)] else old(rows)
    {
      KeptAsItWas(rows);
      found := id in rows;
      if found {
        FlagsKeep(Value(), id, rows[id].pinnedAt, hold);
        hide AllStamped, Inv, Kept;
        rows := rows[id := rows[id].(hold := hold)];
      }
    }

    method HardDeleteTaskRow(id: Id, now: int)
      requires id in rows
      modifies this`rows, this`tombs
      ensures Value() == HardDelete(old(Value()), id, now)
    {
      var who := rows[id].who;
      if who.key.Some? {
        UpsertCreateIdempotency(who.key.value, id, who, true, now);
      }
      rows := rows - {id};
    }

    /** Deletes an inactive, unprotected task and nothing else; an active or protected one is refused. */
    method Delete(id: Id, mode: Mode, now: int) returns (r: DeleteResult)
      requires Valid()
      modifies this`rows, this`tombs
      ensures Valid() && Kept(old(rows), rows)
      ensures
        r ==
          if id !in old(rows) then NotFound
          else if old(rows)[id].deletedAt.Some? && mode.Soft? then AlreadyDeleted
          else if old(rows)[id].deletedAt.None?
                  && old(rows)[id].status in {Created, Dispatching, Queued, Running, WaitingForApproval} then NotTerminal
          else if old(rows)[id].pinnedAt.Some? || old(rows)[id].hold then LegalHold
          else Deleted
      ensures !r.Deleted? ==> Value() == old(Value())
      ensures r.Deleted? && mode.Hard? ==> Value() == HardDelete(old(Value()), id, now)
      ensures
        r.Deleted? && mode.Soft? ==>
          tombs == old(tombs) && rows == old(rows)[id := old(rows)[id].(deletedAt := Some(now))]
    {
      KeptAsItWas(rows);
      SoftDeletesKeep(Value(), [id], now);
      HardDeletesKeep(Value(), [id], now);
      OneDeleted(Value(), id, now);
      hide AllStamped, Inv, Kept, HardDeleteAll, SoftDeleteAll, HardDelete, IsTerminal;
      if id !in rows {
        return NotFound;
      }
      var row := rows[id];
      ActiveOrTerminal(row.status);
      if row.deletedAt.Some? && mode.Soft? {
        return AlreadyDeleted;
      } else if !IsTerminal(row.status) && row.deletedAt.None? {
        return NotTerminal;
      } else if Protected(row) {
        return LegalHold;
      } else if mode.Hard? {
        HardDeleteTaskRow(id, now);
      } else if rows[id].deletedAt.None? {
        rows := rows[id := row.(deletedAt := Some(now))];
      }
      return Deleted;
    }

    method CleanupPreview(f: Filters, limit: Option<int>, picked: seq<Id>) returns (p: Preview)
      requires IsAnswer(rows, PreviewWhere(f), Limit(limit, CLEANUP_MAX_PER_RUN), picked)
      ensures p.matched == |picked| == |p.deletable| + |p.protectedIds| == Total(p.breakdown)
      ensures p.deletable == Sieve(rows, picked, false) && p.protectedIds == Sieve(rows, picked, true)
      ensures forall st :: Tally(p.breakdown, st) == Count(rows, picked, st)
    {
      hide Count, Sieve, Total;
      var breakdown: map<Status, nat> := map[];
      var deletable: seq<Id> := [];
      var protectedIds: seq<Id> := [];
      EmptySelection(rows, picked);
      for i := 0 to |picked|
        invariant forall id :: id in picked ==> id in rows
        invariant deletable == Sieve(rows, picked[..i], false)
        invariant protectedIds == Sieve(rows, picked[..i], true)
        invariant |deletable| + |protectedIds| == i == Total(breakdown)
        invariant forall st :: Tally(breakdown, st) == Count(rows, picked[..i], st)
      {
        AnswerHits(rows, PreviewWhere(f), Limit(limit, CLEANUP_MAX_PER_RUN), picked, i);
        SelectionStep(rows, picked, i);
        var row := rows[picked[i]];
        TotalStep(breakdown, row.status);
        ghost var before := breakdown;
        breakdown := breakdown[row.status := (if row.status in breakdown then breakdown[row.status] else 0) + 1];
        forall st ensures Tally(breakdown, st) == Count(rows, picked[..i + 1], st) {
          CountStep(rows, picked, i, st);
          assert Tally(before, st) == Count(rows, picked[..i], st);
        }
        if Protected(row) {
          protectedIds := protectedIds + [picked[i]];
        } else {
          deletable := deletable + [picked[i]];
        }
      }
      assert picked[..|picked|] == picked;
      p := Preview(|picked|, deletable, protectedIds, breakdown);
    }

    /** Bulk deletion of exactly the selected rows, or a refusal before any change when the count is not as expected. */
    method CleanupRun(f: Filters, mode: Mode, expected: Option<nat>, limit: Option<int>, picked: seq<Id>, now: int)
      returns (deleted: Option<nat>)
      requires Valid() && IsAnswer(rows, RunWhere(f, mode), Limit(limit, CLEANUP_BATCH_SIZE), picked)
      modifies this`rows, this`tombs
      ensures Valid() && Kept(old(rows), rows)
      ensures deleted == if expected.Some? && expected.value != |picked| then None else Some(|picked|)
      ensures deleted.None? ==> Value() == old(Value())
      ensures deleted.Some? && mode.Hard? ==> Value() == HardDeleteAll(old(Value()), picked, now)
      ensures deleted.Some? && mode.Soft? ==> Value() == old(Value()).(rows := SoftDeleteAll(old(rows), picked, now))
    {
      KeptAsItWas(rows);
      SoftDeletesKeep(Value(), picked, now);
      HardDeletesKeep(Value(), picked, now);
      hide AllStamped, Inv, Kept;
      if expected.Some? && expected.value != |picked| {
        return None;
      }
      if mode.Hard? {
        HardDeleteEach(picked, now, RunWhere(f, mode), Limit(limit, CLEANUP_BATCH_SIZE));
      } else {
        SoftDeleteEach(picked, now, f, Limit(limit, CLEANUP_BATCH_SIZE));
      }
      deleted := Some(|picked|);
    }

    /** Hard deletion of every row of an answer to `matches`. */
    method HardDeleteEach(picked: seq<Id>, now: int, ghost matches: Row -> bool, ghost limit: nat)
      requires IsAnswer(rows, matches, limit, picked)
      modifies this`rows, this`tombs
      ensures Value() == HardDeleteAll(old(Value()), picked, now)
    {
      ghost var was := Value();
      for i := 0 to |picked|
        invariant Value() == HardDeleteAll(was, picked[..i], now)
      {
        Prefix(picked, i);
        AnswerHits(was.rows, matches, limit, picked, i);
        HardDeleteAllRows(was, picked[..i], now);
        HardDeleteTaskRow(picked[i], now);
      }
      assert picked[..|picked|] == picked;
    }

    method SoftDeleteEach(picked: seq<Id>, now: int, ghost f: Filters, ghost limit: nat)
      requires IsAnswer(rows, RunWhere(f, Soft), limit, picked)
      modifies this`rows
      ensures rows == SoftDeleteAll(old(rows), picked, now)
    {
      ghost var was := rows;
      for i := 0 to |picked|
        invariant rows == SoftDeleteAll(was, picked[..i], now)
      {
        Prefix(picked, i);
        AnswerHits(was, RunWhere(f, Soft), limit, picked, i);
        var id := picked[i];
        SoftDeleteStep(was, picked[..i], id, now);
        if rows[id].deletedAt.None? && IsTerminal(rows[id].status) {
          rows := rows[id := rows[id].(deletedAt := Some(now))];
        }
      }
      assert picked[..|picked|] == picked;
    }

    method PurgeSoftPass(soft: seq<Id>, now: int) returns (count: nat)
      requires IsAnswer(rows, SoftPass(now), CLEANUP_BATCH_SIZE, soft)
      modifies this`rows
      ensures rows == SoftDeleteAll(old(rows), soft, now) && count == |soft|
    {
      ghost var was := rows;
      count := 0;
      for i := 0 to |soft|
        invariant count == i
        invariant rows == SoftDeleteAll(was, soft[..i], now)
      {
        Prefix(soft, i);
        AnswerHits(was, SoftPass(now), CLEANUP_BATCH_SIZE, soft, i);
        var id := soft[i];
        SoftDeleteStep(was, soft[..i], id, now);
        if rows[id].deletedAt.None? && !Protected(rows[id]) {
          rows := rows[id := rows[id].(deletedAt := Some(now))];
        }
        count := count + 1;
      }
      assert soft[..|soft|] == soft;
    }

    /** The daily purge; `hard` is selected after the soft pass has written. */
    method PurgeExpired(soft: seq<Id>, hard: seq<Id>, now: int) returns (softDeleted: nat, hardDeleted: nat)
      requires Valid() && IsAnswer(rows, SoftPass(now), CLEANUP_BATCH_SIZE, soft)
      requires IsAnswer(SoftDeleteAll(rows, soft, now), HardPass(now), CLEANUP_BATCH_SIZE, hard)
      modifies this`rows, this`tombs
      ensures Valid() && Kept(old(rows), rows)
      ensures Value() == Purged(old(Value()), soft, hard, now)
      ensures softDeleted == |soft| && hardDeleted == |hard|
      ensures forall k :: k in tombs ==> tombs[k].expiresAt > now
      ensures forall k :: k in old(tombs) && old(tombs)[k].expiresAt > now ==> k in tombs
    {
      PurgeSweepsTombs(Value(), soft, hard, now);
      PurgeKeeps(Value(), soft, hard, now);
      hide SoftDeleteAll, HardDeleteAll, IsAnswer, AllStamped, Inv, Kept;
      softDeleted := PurgeSoftPass(soft, now);
      HardDeleteEach(hard, now, HardPass(now), CLEANUP_BATCH_SIZE);
      hardDeleted := |hard|;
      tombs := map k | k in tombs && tombs[k].expiresAt > now :: tombs[k];
    }
  }

  // ---------------------------------------------------------------- what a purge and a cleanup leave

  /** A purge that runs alone touches no pinned or held row. */
  lemma PurgeSparesProtected(s: Store, soft: seq<Id>, hard: seq<Id>, now: int, id: Id)
    requires IsAnswer(s.rows, SoftPass(now), CLEANUP_BATCH_SIZE, soft)
    requires IsAnswer(SoftDeleteAll(s.rows, soft, now), HardPass(now), CLEANUP_BATCH_SIZE, hard)
    requires id in s.rows && (s.rows[id].pinnedAt.Some? || s.rows[id].hold)
    ensures id in Purged(s, soft, hard, now).rows && Purged(s, soft, hard, now).rows[id] == s.rows[id]
  {
    HardDeleteAllRows(s.(rows := SoftDeleteAll(s.rows, soft, now)), hard, now);
    assert id !in soft;
    assert id !in hard;
  }

  /** Neither does a bulk cleanup that runs alone, soft or hard. */
  lemma CleanupSparesProtected(
      s: Store, f: Filters, mode: Mode, limit: nat, picked: seq<Id>, now: int, id: Id)
    requires IsAnswer(s.rows, RunWhere(f, mode), limit, picked)
    requires id in s.rows && (s.rows[id].pinnedAt.Some? || s.rows[id].hold)
    ensures
      var after := if mode.Hard? then HardDeleteAll(s, picked, now).rows else SoftDeleteAll(s.rows, picked, now);
      id in after && after[id] == s.rows[id]
  {
    HardDeleteAllRows(s, picked, now);
    assert id !in picked;
  }

  /**
   What a purge that runs alone takes, column by column.  It stamps as deleted only rows that are terminal,
   expired and neither pinned nor held, it removes only such rows deleted a day ago, and each of its two
   passes takes all of them unless there are more than 500.
   */
  lemma PurgeTakesTheExpired(s: Store, soft: seq<Id>, hard: seq<Id>, now: int, due: set<Id>, stale: set<Id>)
    requires IsAnswer(s.rows, SoftPass(now), CLEANUP_BATCH_SIZE, soft)
    requires IsAnswer(SoftDeleteAll(s.rows, soft, now), HardPass(now), CLEANUP_BATCH_SIZE, hard)
    requires
      forall id :: id in due <==>
        && id in s.rows && s.rows[id].deletedAt.None? && s.rows[id].terminalAt.Some?
        && s.rows[id].expiresAt.Some? && s.rows[id].expiresAt.value <= now
        && s.rows[id].status in {Succeeded, Failed, Cancelled, TimedOut, DispatchFailed}
        && s.rows[id].pinnedAt.None? && !s.rows[id].hold
    requires
      forall id :: id in stale <==>
        && id in s.rows && s.rows[id].deletedAt.Some? && s.rows[id].deletedAt.value + 86_400_000 <= now
        && s.rows[id].pinnedAt.None? && !s.rows[id].hold
    ensures
      var after := Purged(s, soft, hard, now).rows;
      forall id :: id in s.rows ==>
        && (id !in after ==> id in stale)
        && (id in after && after[id] != s.rows[id] ==>
              id in due && after[id] == s.rows[id].(deletedAt := Some(now)))
        && (id in due && |due| <= 500 ==> id in after && after[id].deletedAt == Some(now))
        && (id in stale && |stale| <= 500 ==> id !in after)
    ensures |soft| == (if |due| <= 500 then |due| else 500) && |hard| == (if |stale| <= 500 then |stale| else 500)
  {
    var mid := SoftDeleteAll(s.rows, soft, now);
    forall id | id in s.rows ensures id in due <==> id in Matching(s.rows, SoftPass(now)) {
      PurgeSelects(s.rows[id], now);
    }
    assert due == Matching(s.rows, SoftPass(now));
    AnswerSize(s.rows, SoftPass(now), CLEANUP_BATCH_SIZE, soft);
    forall id | id in s.rows ensures id in stale <==> id in Matching(mid, HardPass(now)) {
      PurgeSelects(mid[id], now);
    }
    assert stale == Matching(mid, HardPass(now));
    AnswerSize(mid, HardPass(now), CLEANUP_BATCH_SIZE, hard);
    HardDeleteAllRows(s.(rows := mid), hard, now);
    hide IsAnswer, HardDeleteAll, Purgeable, PastGrace;
    forall id ensures (id in soft <==> id in Members(soft)) && (id in hard <==> id in Members(hard)) {
    }
  }

  lemma {:induction false} RemovalsOnlyRenew(s: Store, ids: seq<Id>, now: int)
    ensures
      var v := HardDeleteAll(s, ids, now);
      && s.tombs.Keys <= v.tombs.Keys
      && forall k :: k in v.tombs ==> (k in s.tombs && v.tombs[k] == s.tombs[k]) || v.tombs[k].expiresAt > now
    decreases |ids|
  {
    if ids != [] {
      var mid, last := HardDeleteAll(s, ids[..|ids| - 1], now), ids[|ids| - 1];
      RemovalsOnlyRenew(s, ids[..|ids| - 1], now);
      HardDeleteEntombs(mid, last, now);
      hide TaskStore.HardDelete, IsTest;
      if last !in mid.rows {
        NothingRemoved(mid, last, now);
      }
    }
  }

  lemma NothingRemoved(s: Store, id: Id, now: int)
    requires id !in s.rows
    ensures HardDelete(s, id, now) == s
  {
  }

  /** A purge drops exactly the tombstones whose time has passed, but for those its own removals renew. */
  lemma PurgeSweepsTombs(s: Store, soft: seq<Id>, hard: seq<Id>, now: int)
    ensures
      var tombs := Purged(s, soft, hard, now).tombs;
      && (forall k :: k in tombs ==> tombs[k].expiresAt > now)
      && (forall k :: k in s.tombs && s.tombs[k].expiresAt > now ==> k in tombs)
  {
    RemovalsOnlyRenew(s.(rows := SoftDeleteAll(s.rows, soft, now)), hard, now);
    hide HardDeleteAll;
  }

  /**
   What a bulk cleanup that runs alone takes, column by column: terminal rows of its filter that are neither
   pinned nor held, and not yet deleted unless a hard run includes those; all of them unless its limit binds.
   */
  lemma CleanupTakesTheScope(
      s: Store, f: Filters, mode: Mode, limit: nat, picked: seq<Id>, now: int, scope: set<Id>)
    requires IsAnswer(s.rows, RunWhere(f, mode), limit, picked)
    requires
      forall id :: id in scope <==>
        && id in s.rows && f.keep(s.rows[id])
        && s.rows[id].status in {Succeeded, Failed, Cancelled, TimedOut, DispatchFailed}
        && s.rows[id].pinnedAt.None? && !s.rows[id].hold
        && (s.rows[id].deletedAt.None? || (mode.Hard? && f.includeDeleted))
    ensures |picked| == if |scope| <= limit then |scope| else limit
    ensures
      var removed, stamped := HardDeleteAll(s, picked, now).rows, SoftDeleteAll(s.rows, picked, now);
      forall id :: id in s.rows ==>
        && (id !in removed ==> id in scope) && (id in scope && |scope| <= limit ==> id !in removed)
        && (id in removed ==> removed[id] == s.rows[id])
        && (mode.Soft? ==>
              && (stamped[id] != s.rows[id] ==> id in scope && stamped[id] == s.rows[id].(deletedAt := Some(now)))
              && (id in scope && |scope| <= limit ==> stamped[id].deletedAt == Some(now)))
  {
    forall id | id in s.rows ensures id in scope <==> id in Matching(s.rows, RunWhere(f, mode)) {
      ActiveOrTerminal(s.rows[id].status);
    }
    assert scope == Matching(s.rows, RunWhere(f, mode));
    AnswerSize(s.rows, RunWhere(f, mode), limit, picked);
    HardDeleteAllRows(s, picked, now);
    hide IsAnswer, HardDeleteAll, RunWhere;
    forall id ensures id in picked <==> id in Members(picked) {
    }
    assert forall id :: id in picked ==> id in scope;
  }

  /** What a preview counts, column by column: terminal rows of its filter, the pinned and held apart. */
  lemma PreviewCountsTheScope(rows: map<Id, Row>, f: Filters, limit: nat, picked: seq<Id>, free: set<Id>, held: set<Id>)
    requires IsAnswer(rows, PreviewWhere(f), limit, picked)
    requires
      forall id :: id in free <==>
        && id in rows && f.keep(rows[id]) && rows[id].status in {Succeeded, Failed, Cancelled, TimedOut, DispatchFailed}
        && (f.includeDeleted || rows[id].deletedAt.None?) && rows[id].pinnedAt.None? && !rows[id].hold
    requires
      forall id :: id in held <==>
        && id in rows && f.keep(rows[id]) && rows[id].status in {Succeeded, Failed, Cancelled, TimedOut, DispatchFailed}
        && (f.includeDeleted || rows[id].deletedAt.None?) && (rows[id].pinnedAt.Some? || rows[id].hold)
    requires |free| + |held| <= limit
    ensures |picked| == |free| + |held|
    ensures forall id :: id in picked ==> id in rows
    ensures |Sieve(rows, picked, false)| == |free| && |Sieve(rows, picked, true)| == |held|
  {
    forall id | id in rows ensures id in free + held <==> id in Matching(rows, PreviewWhere(f)) {
      ActiveOrTerminal(rows[id].status);
    }
    assert free + held == Matching(rows, PreviewWhere(f));
    assert |free + held| == |free| + |held|;
    AnswerSize(rows, PreviewWhere(f), limit, picked);
    assert forall id :: id in picked ==> id in Members(picked);
    hide IsAnswer, PreviewWhere, Matching;
    SievedInto(rows, picked, false, free);
    SievedInto(rows, picked, true, held);
  }

  /** The places of the selection whose row has status `st`. */
  ghost function Places(rows: map<Id, Row>, ids: seq<Id>, st: Status): set<nat>
    requires forall id :: id in ids ==> id in rows
  {
    set i: nat | i < |ids| && rows[ids[i]].status == st
  }

  lemma OneMorePlace(rows: map<Id, Row>, ids: seq<Id>, n: nat, st: Status)
    requires |ids| == n + 1 && forall id :: id in ids ==> id in rows
    ensures forall id :: id in ids[..n] ==> id in rows
    ensures Places(rows, ids, st) == Places(rows, ids[..n], st) + (if rows[ids[n]].status == st then {n} else {})
    ensures n !in Places(rows, ids[..n], st)
  {
  }

  /** The breakdown counts, for each status, the places of the selection whose row has it. */
  lemma {:induction false} CountIsSize(rows: map<Id, Row>, ids: seq<Id>, st: Status)
    requires forall id :: id in ids ==> id in rows
    ensures Count(rows, ids, st) == |Places(rows, ids, st)|
    decreases |ids|
  {
    if ids == [] {
      assert Places(rows, ids, st) == {};
    } else {
      OneMorePlace(rows, ids, |ids| - 1, st);
      CountIsSize(rows, ids[..|ids| - 1], st);
      hide Places;
    }
  }

  lemma SievedInto(rows: map<Id, Row>, picked: seq<Id>, held: bool, part: set<Id>)
    requires Distinct(picked) && forall id :: id in picked ==> id in rows
    requires forall id :: id in part <==> id in picked && Protected(rows[id]) == held
    ensures |Sieve(rows, picked, held)| == |part|
  {
    SieveKeepsDistinct(rows, picked, held);
    DistinctSize(Sieve(rows, picked, held));
    assert Members(Sieve(rows, picked, held)) == part;
  }

  /** What one purge soft-deletes it never also removes: each row has the whole grace period in between. */
  lemma PassesAreDisjoint(s: Store, soft: seq<Id>, hard: seq<Id>, now: int, id: Id)
    requires IsAnswer(s.rows, SoftPass(now), CLEANUP_BATCH_SIZE, soft)
    requires IsAnswer(SoftDeleteAll(s.rows, soft, now), HardPass(now), CLEANUP_BATCH_SIZE, hard)
    requires id in soft
    ensures id !in hard && id in Purged(s, soft, hard, now).rows
    ensures Purged(s, soft, hard, now).rows[id] == s.rows[id].(deletedAt := Some(now))
  {
    HardDeleteAllRows(s.(rows := SoftDeleteAll(s.rows, soft, now)), hard, now);
    assert id in Matching(s.rows, SoftPass(now));
    var mid := SoftDeleteAll(s.rows, soft, now);
    assert mid[id].deletedAt == Some(now);
    assert id !in Matching(mid, HardPass(now));
  }

  /** After a soft cleanup whose limit did not bind, its own filter matches nothing any more. */
  lemma SoftRunExhausts(rows: map<Id, Row>, f: Filters, limit: nat, picked: seq<Id>, now: int)
    requires IsAnswer(rows, RunWhere(f, Soft), limit, picked) && |Matching(rows, RunWhere(f, Soft))| <= limit
    ensures Matching(SoftDeleteAll(rows, picked, now), RunWhere(f, Soft)) == {}
  {
    AnswerSize(rows, RunWhere(f, Soft), limit, picked);
    var after := SoftDeleteAll(rows, picked, now);
    forall id | id in after ensures !RunWhere(f, Soft)(after[id]) {
      assert id in Matching(rows, RunWhere(f, Soft)) <==> id in Members(picked);
    }
  }

  /** The deletable rows a preview counts: terminal, unprotected, and in scope. */
  ghost function DeletableScope(rows: map<Id, Row>, f: Filters): set<Id> {
    set id | id in Matching(rows, PreviewWhere(f)) && !Protected(rows[id])
  }

  /** A soft-deleted, unprotected row that the preview counts and a soft run cannot take. */
  ghost predicate Overcounted(rows: map<Id, Row>, f: Filters, mode: Mode) {
    mode.Soft? && exists id :: id in DeletableScope(rows, f) && rows[id].deletedAt.Some?
  }

  lemma ScopesCompare(rows: map<Id, Row>, f: Filters, mode: Mode)
    ensures Matching(rows, RunWhere(f, mode)) <= DeletableScope(rows, f)
    ensures Matching(rows, RunWhere(f, mode)) == DeletableScope(rows, f) <==> !Overcounted(rows, f, mode)
  {
    var run, pre := Matching(rows, RunWhere(f, mode)), DeletableScope(rows, f);
    forall id | id in run ensures id in pre {
      assert id in Matching(rows, PreviewWhere(f));
    }
    if !Overcounted(rows, f, mode) {
      forall id | id in pre ensures id in run {
        assert id in Matching(rows, PreviewWhere(f));
      }
    } else {
      var id :| id in pre && rows[id].deletedAt.Some?;
      assert id !in run;
    }
  }

  /** The previewed deletable rows, counted once each. */
  lemma PreviewCountsScope(rows: map<Id, Row>, f: Filters, limit: nat, picked: seq<Id>)
    requires IsAnswer(rows, PreviewWhere(f), limit, picked) && |Matching(rows, PreviewWhere(f))| <= limit
    ensures |Sieve(rows, picked, false)| == |DeletableScope(rows, f)|
  {
    AnswerSize(rows, PreviewWhere(f), limit, picked);
    forall id | id in picked ensures id in rows {
      assert id in Matching(rows, PreviewWhere(f));
    }
    assert forall id :: id in picked <==> id in Members(picked);
    SievedInto(rows, picked, false, DeletableScope(rows, f));
  }

  /**
   When no limit binds, a run guarded by the previewed deletable count goes ahead exactly when no
   soft-deleted unprotected row is in the preview's scope of a soft run.
   */
  lemma PreviewAgreesWithRun(
      rows: map<Id, Row>, f: Filters, mode: Mode, scan: nat, previewed: seq<Id>, batch: nat, picked: seq<Id>)
    requires IsAnswer(rows, PreviewWhere(f), scan, previewed) && |Matching(rows, PreviewWhere(f))| <= scan
    requires IsAnswer(rows, RunWhere(f, mode), batch, picked) && |Matching(rows, RunWhere(f, mode))| <= batch
    ensures |Sieve(rows, previewed, false)| == |picked| <==> !Overcounted(rows, f, mode)
    ensures
      !Overcounted(rows, f, mode) ==>
        forall id :: id in picked <==> id in Sieve(rows, previewed, false)
  {
    hide Sieve;
    AnswerSize(rows, RunWhere(f, mode), batch, picked);
    PreviewCountsScope(rows, f, scan, previewed);
    ScopesCompare(rows, f, mode);
    SubsetSize(Matching(rows, RunWhere(f, mode)), DeletableScope(rows, f));
    AnswerSize(rows, PreviewWhere(f), scan, previewed);
    forall id | !Overcounted(rows, f, mode) ensures id in picked <==> id in Sieve(rows, previewed, false) {
      assert id in picked <==> id in Members(picked);
      assert id in previewed <==> id in Members(previewed);
    }
  }

  /**
   The run's default batch is smaller than the preview's scan: with both limits at their defaults, a
   run guarded by the previewed count is refused as soon as more than 500 rows are deletable.
   */
  lemma DefaultGuardNeedsSmallScope(rows: map<Id, Row>, f: Filters, mode: Mode, previewed: seq<Id>, picked: seq<Id>)
    requires IsAnswer(rows, PreviewWhere(f), Limit(None, CLEANUP_MAX_PER_RUN), previewed)
    requires |Matching(rows, PreviewWhere(f))| <= CLEANUP_MAX_PER_RUN && !Overcounted(rows, f, mode)
    requires IsAnswer(rows, RunWhere(f, mode), Limit(None, CLEANUP_BATCH_SIZE), picked)
    ensures |Sieve(rows, previewed, false)| == |picked| <==> |Sieve(rows, previewed, false)| <= CLEANUP_BATCH_SIZE
  {
    hide Sieve, IsAnswer;
    AnswerSize(rows, RunWhere(f, mode), Limit(None, CLEANUP_BATCH_SIZE), picked);
    PreviewCountsScope(rows, f, Limit(None, CLEANUP_MAX_PER_RUN), previewed);
    ScopesCompare(rows, f, mode);
  }

  // ---------------------------------------------------------------- inputs on which preview and run disagree

  const ANY_ROW: Row -> bool := (r: Row) => true

  /** A task that has succeeded at time 0, and the same task soft-deleted. */
  function Succeeded0(deletedAt: Option<int>): Row {
    StatusWritten(New(NOBODY), New(NOBODY), Succeeded, 0).(deletedAt := deletedAt)
  }

  const NOBODY := Identity(None, None, map[], None, None, 0)

  /**
   One soft-deleted task, previewed with `includeDeleted` and cleaned up in soft mode: the preview
   promises one row and the run finds none.
   */
  lemma SoftDeletedIsOvercounted(previewed: seq<Id>, picked: seq<Id>)
    requires
      var rows, f := map[7 := Succeeded0(Some(1))], Filters(ANY_ROW, true);
      && IsAnswer(rows, PreviewWhere(f), CLEANUP_MAX_PER_RUN, previewed)
      && IsAnswer(rows, RunWhere(f, Soft), CLEANUP_BATCH_SIZE, picked)
    ensures |Sieve(map[7 := Succeeded0(Some(1))], previewed, false)| == 1 && |picked| == 0
  {
    var rows, f := map[7 := Succeeded0(Some(1))], Filters(ANY_ROW, true);
    assert PreviewWhere(f)(rows[7]) && !RunWhere(f, Soft)(rows[7]) && !Protected(rows[7]);
    assert Matching(rows, PreviewWhere(f)) == {7} && Matching(rows, RunWhere(f, Soft)) == {};
    assert DeletableScope(rows, f) == {7};
    PreviewCountsScope(rows, f, CLEANUP_MAX_PER_RUN, previewed);
    AnswerSize(rows, RunWhere(f, Soft), CLEANUP_BATCH_SIZE, picked);
  }

  function Below(n: nat): (r: set<Id>)
    ensures |r| == n && forall i: Id :: i in r <==> i < n
  {
    if n == 0 then {} else Below(n - 1) + {n - 1}
  }

  /** As many succeeded tasks. */
  function Tasks(n: nat): map<Id, Row> {
    map id | id in Below(n) :: Succeeded0(None)
  }

  lemma TasksMatch(n: nat, mode: Mode)
    ensures
      var rows, f := Tasks(n), Filters(ANY_ROW, false);
      && Matching(rows, PreviewWhere(f)) == Below(n) && Matching(rows, RunWhere(f, mode)) == Below(n)
      && DeletableScope(rows, f) == Below(n)
  {
    hide Below;
    var f := Filters(ANY_ROW, false);
    assert PreviewWhere(f)(Succeeded0(None)) && RunWhere(f, mode)(Succeeded0(None)) && !Protected(Succeeded0(None));
    hide Succeeded0, PreviewWhere, RunWhere;
    assert Matching(Tasks(n), PreviewWhere(f)) == Below(n);
    assert DeletableScope(Tasks(n), f) == Below(n);
  }

  /** 501 deletable tasks and default limits: the preview promises 501 rows and the run finds 500. */
  lemma FiveHundredAndOne(previewed: seq<Id>, picked: seq<Id>, mode: Mode)
    requires
      var f := Filters(ANY_ROW, false);
      && IsAnswer(Tasks(501), PreviewWhere(f), Limit(None, CLEANUP_MAX_PER_RUN), previewed)
      && IsAnswer(Tasks(501), RunWhere(f, mode), Limit(None, CLEANUP_BATCH_SIZE), picked)
    ensures |Sieve(Tasks(501), previewed, false)| == 501 && |picked| == 500
  {
    var rows, f := Tasks(501), Filters(ANY_ROW, false);
    hide Sieve, IsAnswer, Below, Tasks, Matching, DeletableScope;
    TasksMatch(501, mode);
    PreviewCountsScope(rows, f, Limit(None, CLEANUP_MAX_PER_RUN), previewed);
    AnswerSize(rows, RunWhere(f, mode), Limit(None, CLEANUP_BATCH_SIZE), picked);
  }
}
