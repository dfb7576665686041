/**
 The task table and the create-idempotency tombstones beside it, as values: what each operation of the
 service makes of them when it runs alone and the database answers without errors.
 */
module TaskStore {
  import opened Wrappers
  import opened Retention
  import opened TaskRow

  type Id = nat

  datatype Tomb = Tomb(task: Id, hash: Option<string>, deleted: bool, expiresAt: int)

  /** `sent` logs the dispatches to a backend; `used` holds every id ever drawn. */
  datatype Store = Store(rows: map<Id, Row>, tombs: map<Key, Tomb>, sent: seq<(Option<Key>, Id)>, used: set<Id>)

  /** What a key is bound to: the task and, where known, the hash of the request that made it. */
  datatype Binding = Binding(task: Id, hash: Option<string>)

  datatype Answer = Accepted | CapabilityMissing | Rejected

  datatype CreateResult =
    | Reused(task: Id, hash: Option<string>)
    | Conflict(expected: string)
    | Enqueued(task: Id)
    | RolledBack
    | NotDispatched(task: Id)

  function Holders(rows: map<Id, Row>, key: Key): set<Id> {
    set id | id in rows && rows[id].who.key == Some(key)
  }

  /** The unique index on (backend, idempotency key). */
  predicate Unique(rows: map<Id, Row>) {
    forall i, j :: i in rows && j in rows && rows[i].who.key.Some? && rows[i].who.key == rows[j].who.key ==> i == j
  }

  /** A tombstone names the row that has its key, if there is one. */
  predicate TombsAgree(s: Store) {
    && (forall k, id :: k in s.tombs && id in s.rows && s.rows[id].who.key == Some(k) ==>
          s.tombs[k].task == id && s.tombs[k].hash == s.rows[id].who.hash)
    && (forall k :: k in s.tombs && s.tombs[k].task in s.rows ==> s.rows[s.tombs[k].task].who.key == Some(k))
  }

  predicate IdsUsed(s: Store) {
    s.rows.Keys <= s.used && forall k :: k in s.tombs ==> s.tombs[k].task in s.used
  }

  predicate Inv(s: Store) {
    Unique(s.rows) && TombsAgree(s) && IdsUsed(s)
  }

  predicate Live(tombs: map<Key, Tomb>, key: Key, now: int) {
    key in tombs && tombs[key].expiresAt > now
  }

  /** `findByIdempotency`: a live tombstone first, else whatever row has the key. */
  ghost function Find(s: Store, key: Key, now: int): Option<Binding> {
    if Live(s.tombs, key, now) then
      var t := s.tombs[key];
      if !t.deleted && t.task in s.rows then Some(Binding(t.task, s.rows[t.task].who.hash))
      else Some(Binding(t.task, t.hash))
    else if Holders(s.rows, key) == {} then None
    else
      var id :| id in Holders(s.rows, key);
      Some(Binding(id, s.rows[id].who.hash))
  }

  function Expiry(who: Identity, now: int): int {
    now + KeyTtl(who.labels, Environment(who))
  }

  /** A create whose key is bound: the same task again, or a refusal when the hashes are known to differ. */
  function Replayed(b: Binding, hash: Option<string>): CreateResult {
    if b.hash.Some? && b.hash != hash then Conflict(b.hash.value) else Reused(b.task, Coalesce(b.hash, hash))
  }

  /** An equal hash gets the task, a known different one is refused, and where none is known any request is taken. */
  lemma ReplayedAnswers(b: Binding, hash: Option<string>)
    ensures b.hash.Some? && hash == b.hash ==> Replayed(b, hash) == Reused(b.task, hash)
    ensures b.hash.Some? && hash != b.hash ==> Replayed(b, hash) == Conflict(b.hash.value)
    ensures b.hash.None? ==> Replayed(b, hash) == Reused(b.task, hash)
  {
  }

  function Dispatched(who: Identity, answer: Answer, now: int): Row {
    var row := StatusWritten(New(who), New(who), Dispatching, now);
    StatusWritten(row, row, if answer.Accepted? then Queued else DispatchFailed, now)
  }

  function Entomb(tombs: map<Key, Tomb>, who: Identity, id: Id, deleted: bool, now: int): map<Key, Tomb> {
    if who.key.Some? then tombs[who.key.value := Tomb(id, who.hash, deleted, Expiry(who, now))] else tombs
  }

  function Forget(tombs: map<Key, Tomb>, key: Option<Key>): map<Key, Tomb> {
    if key.Some? then tombs - {key.value} else tombs
  }

  /** A create whose key, if any, is free; `id` is a UUID never drawn before. */
  function Inserted(s: Store, who: Identity, id: Id, answer: Answer, now: int): Store {
    var log := s.(sent := s.sent + [(who.key, id)], used := s.used + {id});
    if answer.CapabilityMissing? then log.(rows := s.rows - {id}, tombs := Forget(s.tombs, who.key))
    else log.(rows := s.rows[id := Dispatched(who, answer, now)], tombs := Entomb(s.tombs, who, id, false, now))
  }

  function InsertResult(id: Id, answer: Answer): CreateResult {
    match answer
    case Accepted => Enqueued(id)
    case CapabilityMissing => RolledBack
    case Rejected => NotDispatched(id)
  }

  ghost function Create(s: Store, who: Identity, id: Id, answer: Answer, now: int): (Store, CreateResult) {
    var found := if who.key.Some? then Find(s, who.key.value, now) else None;
    if found.Some? then (s, Replayed(found.value, who.hash))
    else (Inserted(s, who, id, answer, now), InsertResult(id, answer))
  }

  /** Mark the tombstone deleted and renew its time to live, then remove the row. */
  function HardDelete(s: Store, id: Id, now: int): Store {
    if id !in s.rows then s
    else s.(rows := s.rows - {id}, tombs := Entomb(s.tombs, s.rows[id].who, id, true, now))
  }

  function HardDeleteAll(s: Store, ids: seq<Id>, now: int): Store
    decreases |ids|
  {
    if ids == [] then s else HardDelete(HardDeleteAll(s, ids[..|ids| - 1], now), ids[|ids| - 1], now)
  }

  /** The rows of `ids` soft-deleted, where they are not yet. */
  function SoftDeleteAll(rows: map<Id, Row>, ids: seq<Id>, now: int): map<Id, Row> {
    map id | id in rows ::
      if id in ids && rows[id].deletedAt.None? then rows[id].(deletedAt := Some(now)) else rows[id]
  }

  function LiveTombs(tombs: map<Key, Tomb>, now: int): map<Key, Tomb> {
    map k | k in tombs && tombs[k].expiresAt > now :: tombs[k]
  }

  /** The purge: soft pass over `soft`, hard pass over `hard`, then the expired tombstones. */
  function Purged(s: Store, soft: seq<Id>, hard: seq<Id>, now: int): Store {
    var h := HardDeleteAll(s.(rows := SoftDeleteAll(s.rows, soft, now)), hard, now);
    h.(tombs := LiveTombs(h.tombs, now))
  }

  // ---------------------------------------------------------------- what a SELECT may answer

  function Members(ids: seq<Id>): set<Id> {
    set id | id in ids
  }

  predicate Distinct(ids: seq<Id>) {
    forall i, j :: 0 <= i < j < |ids| ==> ids[i] != ids[j]
  }

  ghost function Matching(rows: map<Id, Row>, matches: Row -> bool): set<Id> {
    set id | id in rows && matches(rows[id])
  }

  /** `SELECT ... WHERE ... LIMIT`: matching rows, each once, and all of them unless the limit cuts. */
  ghost predicate IsAnswer(rows: map<Id, Row>, matches: Row -> bool, limit: nat, ids: seq<Id>) {
    && Distinct(ids)
    && (forall id :: id in ids ==> id in Matching(rows, matches))
    && |ids| <= limit
    && (|ids| < limit ==> forall id :: id in Matching(rows, matches) ==> id in ids)
  }

  lemma {:induction false} DistinctSize(ids: seq<Id>)
    requires Distinct(ids)
    ensures |Members(ids)| == |ids|
  {
    if ids != [] {
      var front, last := ids[..|ids| - 1], ids[|ids| - 1];
      DistinctSize(front);
      assert ids == front + [last];
      assert last !in front;
      assert Members(ids) == Members(front) + {last};
    }
  }

  lemma SubsetSize<T>(a: set<T>, b: set<T>)
    requires a <= b
    ensures |a| <= |b|
    ensures |a| == |b| ==> a == b
  {
    assert b == a + (b - a);
    if |a| == |b| {
      assert |b - a| == 0;
    }
  }

  lemma AnswerSize(rows: map<Id, Row>, matches: Row -> bool, limit: nat, ids: seq<Id>)
    requires IsAnswer(rows, matches, limit, ids)
    ensures |ids| == if |Matching(rows, matches)| <= limit then |Matching(rows, matches)| else limit
    ensures |Matching(rows, matches)| <= limit ==> Members(ids) == Matching(rows, matches)
  {
    DistinctSize(ids);
    var got := Members(ids);
    assert got <= Matching(rows, matches);
    SubsetSize(got, Matching(rows, matches));
    if |ids| < limit {
      assert got == Matching(rows, matches);
    }
  }

  lemma AnswerHits(rows: map<Id, Row>, matches: Row -> bool, limit: nat, ids: seq<Id>, k: nat)
    requires IsAnswer(rows, matches, limit, ids) && k < |ids|
    ensures ids[k] in rows && matches(rows[ids[k]]) && ids[k] !in ids[..k]
  {
    assert ids[k] in ids;
  }

  /** One more prefix of the answer handled. */
  lemma Prefix(ids: seq<Id>, i: nat)
    requires i < |ids|
    ensures ids[..i + 1][..i] == ids[..i] && ids[..i + 1] == ids[..i] + [ids[i]]
  {
  }

  lemma SoftDeleteStep(rows: map<Id, Row>, ids: seq<Id>, id: Id, now: int)
    requires id in rows && id !in ids && rows[id].deletedAt.None?
    ensures SoftDeleteAll(rows, ids, now)[id] == rows[id]
    ensures
      SoftDeleteAll(rows, ids + [id], now) ==
      SoftDeleteAll(rows, ids, now)[id := rows[id].(deletedAt := Some(now))]
  {
  }

  lemma {:induction false} HardDeleteAllRows(s: Store, ids: seq<Id>, now: int)
    ensures HardDeleteAll(s, ids, now).rows == s.rows - Members(ids)
    decreases |ids|
  {
    if ids == [] {
      assert Members(ids) == {};
    } else {
      var front, last := ids[..|ids| - 1], ids[|ids| - 1];
      HardDeleteAllRows(s, front, now);
      assert ids == front + [last];
      assert Members(ids) == Members(front) + {last};
    }
  }
}
