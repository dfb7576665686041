/**
 Every interleaving of operations on one task row.  `seen` holds every value the row has had, so an
 event with a snapshot from `seen` stands for an operation that read it, however long ago.
 */
module TaskRuns {
  import opened Wrappers
  import opened Retention
  import opened TaskRow

  datatype World = World(row: Option<Row>, seen: set<Row>)

  datatype Event =
    | SetStatus(seen: Row, status: Status, now: int)
    | Pin(seen: Row, now: int)
    | Unpin(seen: Row)
    | SetHold
    | ClearHold
    | SoftDelete(seen: Row, now: int)      // one task, by an operator
    | CleanupDelete(seen: Row, now: int)   // bulk cleanup, by an operator
    | OperatorHardDelete(seen: Row)
    | PurgeSoft(seen: Row, now: int)
    | PurgeHard(seen: Row, now: int)

  /** What the operation found in its snapshot before it issued the statement. */
  predicate Decided(e: Event) {
    match e
    case SetStatus(_, _, _) => true
    case Pin(seen, _) => seen.pinnedAt.None?
    case Unpin(seen) => seen.pinnedAt.Some?
    case SetHold => true
    case ClearHold => true
    case SoftDelete(seen, _) => seen.deletedAt.None? && IsTerminal(seen.status) && !Protected(seen)
    case CleanupDelete(seen, _) => seen.deletedAt.None? && IsTerminal(seen.status) && !Protected(seen)
    case OperatorHardDelete(seen) => (seen.deletedAt.Some? || IsTerminal(seen.status)) && !Protected(seen)
    case PurgeSoft(seen, now) => Purgeable(seen, now)
    case PurgeHard(seen, now) => PastGrace(seen, now)
  }

  predicate Enabled(w: World, e: Event) {
    (e.SetHold? || e.ClearHold? || e.seen in w.seen) && Decided(e)
  }

  /** The row after the statement of the event; None after a DELETE. */
  function Written(row: Row, e: Event): Option<Row> {
    match e
    case SetStatus(seen, status, now) => Some(StatusWritten(row, seen, status, now))
    case Pin(_, now) => Some(row.(pinnedAt := Some(now)))
    case Unpin(seen) => Some(Unpinned(row, seen))
    case SetHold => Some(row.(hold := true))
    case ClearHold => Some(row.(hold := false))
    case SoftDelete(_, now) => Some(if row.deletedAt.None? then row.(deletedAt := Some(now)) else row)
    case CleanupDelete(_, now) =>
      Some(if row.deletedAt.None? && IsTerminal(row.status) then row.(deletedAt := Some(now)) else row)
    case OperatorHardDelete(_) => None
    case PurgeSoft(_, now) =>
      Some(if row.deletedAt.None? && !Protected(row) then row.(deletedAt := Some(now)) else row)
    case PurgeHard(_, _) => None
  }

  function Apply(w: World, e: Event): World {
    if w.row.None? then w
    else
      var r := Written(w.row.value, e);
      World(r, if r.Some? then w.seen + {r.value} else w.seen)
  }

  // ---------------------------------------------------------------- what every event keeps

  /** The three stamps come together; a test task lives three days, any other fourteen or thirty. */
  predicate Stamped(r: Row) {
    && (r.terminalAt.Some? <==> r.expiresAt.Some?)
    && (r.terminalAt.Some? <==> r.outputExpiresAt.Some?)
    && (r.terminalAt.Some? ==>
          && r.outputExpiresAt.value - r.terminalAt.value ==
             (if r.who.outputSeconds.Some? && r.who.outputSeconds.value > 0 then r.who.outputSeconds.value * 1000
              else 604_800_000)
          && var span := r.expiresAt.value - r.terminalAt.value;
             span in (if IsTest(r.who) then {259_200_000} else {1_209_600_000, 2_592_000_000}))
    && (r.kept.Some? ==> (r.kept.value == TestNoise <==> IsTest(r.who)))
    && (r.terminalAt.Some? ==> r.kept.Some?)
  }

  /** The write-once columns of `before` are those of `after` wherever `before` has them. */
  predicate Extends(before: Row, after: Row) {
    && after.who == before.who
    && (before.terminalAt.Some? ==> after.terminalAt == before.terminalAt)
    && (before.outputExpiresAt.Some? ==> after.outputExpiresAt == before.outputExpiresAt)
    && (before.kept.Some? ==> after.kept == before.kept)
    && (before.deletedAt.Some? ==> after.deletedAt == before.deletedAt)
  }

  predicate AllStamped(w: World) {
    forall r :: r in w.seen ==> Stamped(r)
  }

  predicate RowIsLatest(w: World) {
    w.row.Some? ==> w.row.value in w.seen && forall r :: r in w.seen ==> Extends(r, w.row.value)
  }

  predicate Inv(w: World) {
    AllStamped(w) && RowIsLatest(w)
  }

  function Start(who: Identity): World {
    World(Some(New(who)), {New(who)})
  }

  /** Creation stores the environment it derives from the labels. */
  predicate Fresh(who: Identity) {
    who.environment == EnvironmentFromLabels(who.labels)
  }

  lemma CreationStartsInv(who: Identity)
    requires Fresh(who)
    ensures Inv(Start(who))
  {
  }

  lemma SnapshotAgrees(w: World, seen: Row)
    requires Inv(w) && w.row.Some? && seen in w.seen
    ensures Stamped(seen) && Stamped(w.row.value) && Extends(seen, w.row.value)
  {
  }

  lemma StatusWriteStamps(row: Row, seen: Row, status: Status, now: int)
    requires Stamped(row) && Stamped(seen) && Extends(seen, row)
    ensures Stamped(StatusWritten(row, seen, status, now))
    ensures Extends(row, StatusWritten(row, seen, status, now))
  {
    hide IsTestTask, EnvironmentFromLabels;
  }

  lemma UnpinStamps(row: Row, seen: Row)
    requires Stamped(row) && Stamped(seen) && Extends(seen, row)
    ensures Stamped(Unpinned(row, seen)) && Extends(row, Unpinned(row, seen))
  {
    hide IsTestTask, EnvironmentFromLabels;
  }

  lemma WriteStamps(w: World, e: Event)
    requires Inv(w) && Enabled(w, e) && w.row.Some?
    ensures var r := Written(w.row.value, e); r.Some? ==> Stamped(r.value) && Extends(w.row.value, r.value)
  {
    hide IsTestTask, EnvironmentFromLabels;
    if e.SetStatus? || e.Unpin? {
      SnapshotAgrees(w, e.seen);
      hide StatusWritten, Unpinned, Stamped, Extends;
      if e.SetStatus? {
        StatusWriteStamps(w.row.value, e.seen, e.status, e.now);
      } else {
        UnpinStamps(w.row.value, e.seen);
      }
    } else {
      SnapshotAgrees(w, w.row.value);
    }
  }

  lemma ExtendsTransitive(a: Row, b: Row, c: Row)
    requires Extends(a, b) && Extends(b, c)
    ensures Extends(a, c)
  {
  }

  lemma StepKeepsInv(w: World, e: Event)
    requires Inv(w) && Enabled(w, e)
    ensures Inv(Apply(w, e)) && w.seen <= Apply(w, e).seen
  {
    if w.row.Some? {
      WriteStamps(w, e);
      hide Stamped, Extends, Written;
      var v := Apply(w, e);
      if v.row.Some? {
        forall r | r in w.seen ensures Extends(r, v.row.value) {
          ExtendsTransitive(r, w.row.value, v.row.value);
        }
        ExtendsItself(v.row.value);
      }
    }
  }

  lemma ExtendsItself(r: Row)
    ensures Extends(r, r)
  {
  }

  predicate IsRun(w: World, es: seq<Event>, v: World)
    decreases |es|
  {
    if es == [] then w == v else Enabled(w, es[0]) && IsRun(Apply(w, es[0]), es[1..], v)
  }

  lemma {:induction false} RunKeepsInv(w: World, es: seq<Event>, v: World)
    requires Inv(w) && IsRun(w, es, v)
    ensures Inv(v) && w.seen <= v.seen
    decreases |es|
  {
    hide Inv, Enabled, Apply;
    if es != [] {
      StepKeepsInv(w, es[0]);
      RunKeepsInv(Apply(w, es[0]), es[1..], v);
    }
  }

  // ---------------------------------------------------------------- over whole runs

  /** However status writes, pins and deletions overlap, no stamp is ever rewritten. */
  lemma StampsAreWrittenOnce(who: Identity, es: seq<Event>, w: World, fs: seq<Event>, v: World)
    requires Fresh(who) && IsRun(Start(who), es, w) && IsRun(w, fs, v)
    requires w.row.Some? && v.row.Some?
    ensures Extends(w.row.value, v.row.value)
  {
    CreationStartsInv(who);
    RunKeepsInv(Start(who), es, w);
    RunKeepsInv(w, fs, v);
  }

  /** A row is stamped all at once, and its expiry is three days exactly for test tasks, else 14 or 30. */
  lemma ExpiryFollowsPolicy(who: Identity, es: seq<Event>, w: World)
    requires Fresh(who) && IsRun(Start(who), es, w) && w.row.Some?
    ensures
      var r := w.row.value;
      && (r.terminalAt.Some? <==> r.expiresAt.Some?)
      && (r.terminalAt.Some? <==> r.outputExpiresAt.Some?)
      && (r.terminalAt.Some? ==>
            && r.outputExpiresAt.value - r.terminalAt.value ==
               (if who.outputSeconds.Some? && who.outputSeconds.value > 0 then who.outputSeconds.value * 1000
                else 604_800_000)
            && r.expiresAt.value - r.terminalAt.value in {259_200_000, 1_209_600_000, 2_592_000_000}
            && (r.expiresAt.value - r.terminalAt.value == 259_200_000 <==> IsTest(who)))
  {
    CreationStartsInv(who);
    RunKeepsInv(Start(who), es, w);
    assert New(who) in w.seen;
  }

  /**
   The first terminal status of a task, from whatever snapshot it is written, fixes its stamps for the rest
   of any run: the time of that write, and the class and output expiry its status calls for; the row's own
   expiry is 14 days for a success, 30 for the rest and 3 for any test.
   */
  lemma FirstTerminalStatusDecides(w: World, e: Event, es: seq<Event>, v: World)
    requires Inv(w) && Enabled(w, e) && e.SetStatus? && w.row.Some? && w.row.value.terminalAt.None?
    requires e.status in {Succeeded, Failed, Cancelled, TimedOut, DispatchFailed}
    requires IsRun(Apply(w, e), es, v) && v.row.Some?
    ensures v.row.value.terminalAt == Some(e.now)
    ensures
      Apply(w, e).row.Some? &&
      Apply(w, e).row.value.expiresAt ==
        Some(e.now + (if IsTest(w.row.value.who) then 259_200_000
                      else if e.status == Succeeded then 1_209_600_000 else 2_592_000_000))
    ensures
      v.row.value.outputExpiresAt ==
        Some(e.now + (if w.row.value.who.outputSeconds.Some? && w.row.value.who.outputSeconds.value > 0
                      then w.row.value.who.outputSeconds.value * 1000 else 604_800_000))
    ensures
      v.row.value.kept.Some? && (v.row.value.kept.value == TestNoise <==> IsTest(w.row.value.who))
  {
    SnapshotAgrees(w, e.seen);
    StatusByPolicy(w.row.value, e.seen, e.status, e.now);
    StepKeepsInv(w, e);
    RunKeepsInv(Apply(w, e), es, v);
    hide IsTest, StatusWritten;
    assert Apply(w, e).row.value in v.seen;
  }

  /** A task that ever had a terminal status has its stamps, even if a later write made it active again. */
  lemma TerminalIsStamped(w: World, e: Event, es: seq<Event>, v: World)
    requires Inv(w) && Enabled(w, e) && e.SetStatus? && IsTerminal(e.status) && w.row.Some?
    requires IsRun(Apply(w, e), es, v) && v.row.Some?
    ensures v.row.value.terminalAt.Some? && v.row.value.expiresAt.Some? && v.row.value.outputExpiresAt.Some?
  {
    StepKeepsInv(w, e);
    RunKeepsInv(Apply(w, e), es, v);
    assert Apply(w, e).row.value in v.seen;
  }

  /** The soft pass deletes no row that is pinned or held when its UPDATE runs. */
  lemma PurgeSparesProtected(w: World, e: Event)
    requires Enabled(w, e) && e.PurgeSoft? && w.row.Some?
    ensures Apply(w, e).row.Some?
    ensures w.row.value.pinnedAt.Some? || w.row.value.hold ==> Apply(w, e).row == w.row
    ensures Apply(w, e).row != w.row ==> w.row.value.deletedAt.None? && Apply(w, e).row.value.deletedAt == Some(e.now)
  {
  }

  /** The hard pass removes a row only when it was soft-deleted a full grace period before the purge began. */
  lemma PurgeWaitsForGrace(w: World, e: Event)
    requires Inv(w) && Enabled(w, e) && e.PurgeHard? && w.row.Some?
    ensures Apply(w, e).row.None?
    ensures w.row.value.deletedAt.Some? && w.row.value.deletedAt.value + 86_400_000 <= e.now
  {
    SnapshotAgrees(w, e.seen);
  }

  /** Each event writes its own columns, and only a hard deletion takes the row away. */
  lemma EventsWriteTheirColumns(w: World, e: Event)
    requires Enabled(w, e) && w.row.Some?
    ensures Apply(w, e).row.None? <==> e.OperatorHardDelete? || e.PurgeHard?
    ensures
      Apply(w, e).row.Some? ==>
        var r, q := w.row.value, Apply(w, e).row.value;
        && q.who == r.who
        && q.status == (if e.SetStatus? then e.status else r.status)
        && q.pinnedAt == (if e.Pin? then Some(e.now) else if e.Unpin? then None else r.pinnedAt)
        && q.hold == (if e.SetHold? then true else if e.ClearHold? then false else r.hold)
        && (!e.SetStatus? ==> q.terminalAt == r.terminalAt && q.outputExpiresAt == r.outputExpiresAt && q.kept == r.kept)
        && (!e.SetStatus? && !e.Unpin? ==> q.expiresAt == r.expiresAt)
        && (e.SetStatus? ==> StampedByPolicy(r, e.seen, e.status, e.now, q))
        && (e.Unpin? ==> UnpinnedByPolicy(r, e.seen, q))
        && (q.deletedAt != r.deletedAt ==>
              r.deletedAt.None? && (e.SoftDelete? || e.CleanupDelete? || e.PurgeSoft?) && q.deletedAt == Some(e.now))
        && (e.SoftDelete? ==> q.deletedAt.Some?)
        && (e.CleanupDelete? && IsTerminal(r.status) ==> q.deletedAt.Some?)
        && (e.PurgeSoft? && r.pinnedAt.None? && !r.hold ==> q.deletedAt.Some?)
  {
    if e.SetStatus? {
      StatusByPolicy(w.row.value, e.seen, e.status, e.now);
    } else if e.Unpin? {
      UnpinByPolicy(w.row.value, e.seen);
    }
    hide IsTest, StatusWritten, Unpinned;
  }

  predicate Automatic(e: Event) {
    !e.SoftDelete? && !e.CleanupDelete? && !e.OperatorHardDelete?
  }

  /** The states of a run: `At(w, es, i)` is the one before event `i`. */
  function At(w: World, es: seq<Event>, i: nat): World
    requires i <= |es|
  {
    if i == 0 then w else Apply(At(w, es, i - 1), es[i - 1])
  }

  lemma {:induction false} AtShifts(w: World, es: seq<Event>, i: nat)
    requires es != [] && i < |es|
    ensures At(Apply(w, es[0]), es[1..], i) == At(w, es, i + 1)
  {
    hide Apply;
    if i > 0 {
      AtShifts(w, es, i - 1);
    }
  }

  /**
   Event `i` of the run is the purge's soft deletion, stamped `at`, of a row neither pinned nor held, which
   the purge had read as terminal and expired.
   */
  predicate SoftPurgedAt(w: World, es: seq<Event>, i: nat, at: int)
    requires i < |es|
  {
    && es[i].PurgeSoft? && es[i].now == at
    && At(w, es, i).row.Some? && At(w, es, i).row.value.deletedAt.None?
    && At(w, es, i).row.value.pinnedAt.None? && !At(w, es, i).row.value.hold
    && es[i].seen.terminalAt.Some? && es[i].seen.expiresAt.Some? && es[i].seen.expiresAt.value <= at
    && es[i].seen.status in {Succeeded, Failed, Cancelled, TimedOut, DispatchFailed}
  }

  lemma {:induction false} RunStaysGone(w: World, es: seq<Event>, v: World)
    requires IsRun(w, es, v) && w.row.None?
    ensures v.row.None?
    decreases |es|
  {
    if es != [] {
      RunStaysGone(Apply(w, es[0]), es[1..], v);
    }
  }

  /** Deleted in this run by no operator, the row went through the soft pass, unprotected then. */
  lemma {:induction false} DeletedOnlyByPurge(w: World, es: seq<Event>, v: World) returns (i: nat)
    requires Inv(w) && IsRun(w, es, v) && (forall k :: 0 <= k < |es| ==> Automatic(es[k]))
    requires w.row.Some? && w.row.value.deletedAt.None? && v.row.Some? && v.row.value.deletedAt.Some?
    ensures i < |es| && SoftPurgedAt(w, es, i, v.row.value.deletedAt.value)
    decreases |es|
  {
    hide Inv, Automatic, Apply, Enabled, SoftPurgedAt;
    var n := Apply(w, es[0]);
    StepKeepsInv(w, es[0]);
    if n.row.None? {
      RunStaysGone(n, es[1..], v);
      assert false;
    } else if n.row.value.deletedAt.Some? {
      i := 0;
      StampStays(n, es[1..], v);
      FirstDeletion(w, es);
    } else {
      var k := DeletedOnlyByPurge(n, es[1..], v);
      LaterDeletion(w, es, k, v.row.value.deletedAt.value);
      i := k + 1;
    }
  }

  /** The deletion stamp of a row is that of every later state of the run. */
  lemma StampStays(w: World, es: seq<Event>, v: World)
    requires Inv(w) && IsRun(w, es, v)
    ensures w.row.Some? && w.row.value.deletedAt.Some? && v.row.Some? ==> v.row.value.deletedAt == w.row.value.deletedAt
  {
    hide IsRun;
    RunKeepsInv(w, es, v);
    assert w.row.Some? ==> w.row.value in v.seen;
  }

  lemma FirstDeletion(w: World, es: seq<Event>)
    requires es != [] && Inv(w) && Enabled(w, es[0]) && Automatic(es[0])
    requires w.row.Some? && w.row.value.deletedAt.None?
    requires Apply(w, es[0]).row.Some? && Apply(w, es[0]).row.value.deletedAt.Some?
    ensures SoftPurgedAt(w, es, 0, Apply(w, es[0]).row.value.deletedAt.value)
  {
    EventsWriteTheirColumns(w, es[0]);
    assert es[0].PurgeSoft?;
    PurgeSparesProtected(w, es[0]);
    PurgeSelects(es[0].seen, es[0].now);
    assert At(w, es, 0) == w;
    hide Apply, StampedByPolicy, UnpinnedByPolicy;
  }

  lemma LaterDeletion(w: World, es: seq<Event>, k: nat, at: int)
    requires es != [] && k < |es| - 1 && SoftPurgedAt(Apply(w, es[0]), es[1..], k, at)
    ensures SoftPurgedAt(w, es, k + 1, at)
  {
    hide Apply;
    AtShifts(w, es, k);
  }

  /**
   Left to the purge alone, a live row disappears only in two passes: a soft deletion of an expired row
   while it is unprotected, and at least a day later a hard one.
   */
  lemma {:induction false} RemovedInTwoPasses(w: World, es: seq<Event>, v: World) returns (i: nat, j: nat)
    requires Inv(w) && IsRun(w, es, v) && (forall k :: 0 <= k < |es| ==> Automatic(es[k]))
    requires w.row.Some? && w.row.value.deletedAt.None? && v.row.None?
    ensures i < j < |es| && es[j].PurgeHard? && At(w, es, j).row.Some?
    ensures es[i].PurgeSoft? && SoftPurgedAt(w, es, i, es[i].now) && es[i].now + 86_400_000 <= es[j].now
    decreases |es|
  {
    j := LastAlive(w, es, v);
    var u := At(w, es, j);
    SplitRun(w, es, j, v);
    RunKeepsInv(w, es[..j], u);
    PurgeWaitsForGrace(u, es[j]);
    i := DeletedOnlyByPurge(w, es[..j], u);
    AtOfPrefix(w, es, j, i);
  }

  /** Where the row goes, a DELETE ran. */
  lemma {:induction false} LastAlive(w: World, es: seq<Event>, v: World) returns (j: nat)
    requires IsRun(w, es, v) && w.row.Some? && v.row.None?
    ensures j < |es| && At(w, es, j).row.Some? && (es[j].PurgeHard? || es[j].OperatorHardDelete?)
    decreases |es|
  {
    var n := Apply(w, es[0]);
    if n.row.None? {
      j := 0;
    } else {
      var k := LastAlive(n, es[1..], v);
      AtShifts(w, es, k);
      j := k + 1;
    }
  }

  lemma {:induction false} SplitRun(w: World, es: seq<Event>, j: nat, v: World)
    requires IsRun(w, es, v) && j < |es|
    ensures IsRun(w, es[..j], At(w, es, j)) && Enabled(At(w, es, j), es[j])
    decreases j
  {
    hide Enabled, Apply;
    if j > 0 {
      SplitRun(Apply(w, es[0]), es[1..], j - 1, v);
      AtShifts(w, es, j - 1);
      assert es[1..][..j - 1] == es[..j][1..];
    }
  }

  lemma {:induction false} AtOfPrefix(w: World, es: seq<Event>, j: nat, i: nat)
    requires i <= j <= |es|
    ensures At(w, es[..j], i) == At(w, es, i)
    decreases i
  {
    hide Apply;
    if i > 0 {
      AtOfPrefix(w, es, j, i - 1);
    }
  }

  // ---------------------------------------------------------------- what does not hold

  /** The hard pass trusts its SELECT: it removes a row pinned since, which the soft pass would have spared. */
  lemma HardPassMissesLatePin(who: Identity, now: int) returns (es: seq<Event>, v: World)
    requires Fresh(who)
    ensures IsRun(Start(who), es, v) && v.row.None? && |es| > 0 && es[|es| - 1].PurgeHard?
    ensures At(Start(who), es, |es| - 1).row.Some? && Protected(At(Start(who), es, |es| - 1).row.value)
  {
    var w0 := Start(who);
    var e0 := SetStatus(New(who), Succeeded, now);
    var w1 := Apply(w0, e0);
    var e1 := SoftDelete(w1.row.value, now);
    var w2 := Apply(w1, e1);
    var e2 := Pin(w2.row.value, now);
    var w3 := Apply(w2, e2);
    var e3 := PurgeHard(w2.row.value, now + GRACE);
    es := [e0, e1, e2, e3];
    v := Apply(w3, e3);
    assert IsRun(w3, [e3], v);
    assert [e2, e3][1..] == [e3];
    assert IsRun(w2, [e2, e3], v);
    assert [e1, e2, e3][1..] == [e2, e3];
    assert IsRun(w1, [e1, e2, e3], v);
    assert es[1..] == [e1, e2, e3];
    assert At(w0, es, 1) == w1 && At(w0, es, 2) == w2 && At(w0, es, 3) == w3;
  }
}
