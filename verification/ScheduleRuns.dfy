/**
 Every interleaving of operations on one schedule row.  `seen` holds every value the row has had, so
 an event with any snapshot from `seen` stands for an operation that read it, however long ago.
 */
module ScheduleRuns {
  import opened Wrappers
  import opened Cron
  import opened ScheduleRow
  import opened Utc

  /** `claims` logs the acknowledgements that applied, `wins` the base revision of updates that did. */
  datatype World = World(row: Option<Row>, seen: set<Row>, claims: seq<(nat, int)>, wins: seq<nat>)

  datatype Event =
    | Update(snap: Row, patch: Patch, now: int)
    | RunNow(snap: Row, now: int)
    | AckCas(snap: Row, ack: Ack, token: Stamp, now: int)   // on the raw cursor, then on scheduled_for
    | Delete

  ghost predicate Enabled(w: World, e: Event) {
    match e
    case Update(snap, _, _) => snap in w.seen
    case RunNow(snap, _) => snap in w.seen
    case AckCas(snap, ack, token, _) =>
      snap in w.seen && Decide(snap, ack).TryCas?
      && token in {Decide(snap, ack).token, Decide(snap, ack).scheduledFor}
    case Delete => true
  }

  /** Whether the statement of the event changes the row. */
  predicate Writes(w: World, e: Event) {
    match e
    case Update(snap, p, _) => !NoOp(snap, p) && AtRevision(w.row, snap.revision)
    case RunNow(snap, _) =>
      if snap.nextRun.Some? then Matches(w.row, snap.revision, snap.nextRun.value) else AtRevision(w.row, snap.revision)
    case AckCas(snap, _, token, _) => Matches(w.row, snap.revision, token)
    case Delete => w.row.Some?
  }

  function Put(w: World, r: Row): World {
    w.(row := Some(r), seen := w.seen + {r})
  }

  ghost function Apply(zones: Zones, w: World, e: Event): World
    requires Enabled(w, e)
  {
    if !Writes(w, e) then w
    else
      match e
      case Update(snap, p, now) =>
        Put(w, Updated(zones, w.row.value, snap, p, now)).(wins := w.wins + [snap.revision])
      case RunNow(snap, now) => Put(w, Moved(w.row.value, RunNowNext(zones, snap, now), now))
      case AckCas(snap, ack, _, now) =>
        Put(w, Moved(w.row.value, AckNext(zones, snap, ack, now), now))
          .(claims := w.claims + [(snap.revision, ack.scheduledFor.ms)])
      case Delete => w.(row := None)
  }

  // ---------------------------------------------------------------- what every event keeps

  /** Revisions only go up, and a revision fixes the configuration and whether it is enabled. */
  ghost predicate Versioned(w: World) {
    && (w.row.Some? ==> w.row.value in w.seen)
    && (w.row.Some? ==> forall r :: r in w.seen ==> r.revision <= w.row.value.revision)
    && (forall r, q :: r in w.seen && q in w.seen && r.revision == q.revision ==>
          r.config == q.config && r.enabled == q.enabled)
  }

  /** A disabled schedule never has a cursor. */
  ghost predicate DisabledIsIdle(w: World) {
    forall r :: r in w.seen && !r.enabled ==> r.nextRun == None
  }

  /** Every update that won did so from a revision of its own. */
  ghost predicate WinsApart(w: World) {
    && (w.row.Some? ==> forall i :: 0 <= i < |w.wins| ==> w.wins[i] < w.row.value.revision)
    && (forall i, j :: 0 <= i < j < |w.wins| ==> w.wins[i] < w.wins[j])
  }

  ghost predicate Inv(w: World) {
    Versioned(w) && DisabledIsIdle(w) && WinsApart(w)
  }

  lemma UpdateKeepsInv(zones: Zones, w: World, e: Event)
    requires Inv(w) && Enabled(w, e) && e.Update?
    ensures Inv(Apply(zones, w, e))
  {
  }

  lemma CursorWriteKeepsInv(zones: Zones, w: World, e: Event)
    requires Inv(w) && Enabled(w, e) && (e.RunNow? || e.AckCas?)
    ensures Inv(Apply(zones, w, e))
  {
    if Writes(w, e) {
      var row := w.row.value;
      assert row.enabled == e.snap.enabled;
    }
  }

  lemma StepKeepsInv(zones: Zones, w: World, e: Event)
    requires Inv(w) && Enabled(w, e)
    ensures Inv(Apply(zones, w, e))
  {
    if e.Update? {
      UpdateKeepsInv(zones, w, e);
    } else if !e.Delete? {
      CursorWriteKeepsInv(zones, w, e);
    }
  }

  /** Any row as stored, created by this code or older; a deleted row never comes back, for ids are not reused. */
  ghost predicate Initial(w: World) {
    exists r: Row :: (r.enabled || r.nextRun == None) && w == Start(r)
  }

  lemma CreatedIsInitial(zones: Zones, c: Config, enabled: bool, now: int)
    ensures Initial(Start(Created(zones, c, enabled, now)))
  {
    var r := Created(zones, c, enabled, now);
    assert r.enabled || r.nextRun == None;
  }

  function Start(r: Row): World {
    World(Some(r), {r}, [], [])
  }

  ghost predicate IsRun(zones: Zones, w: World, es: seq<Event>, v: World)
    decreases |es|
  {
    if es == [] then w == v else Enabled(w, es[0]) && IsRun(zones, Apply(zones, w, es[0]), es[1..], v)
  }

  lemma {:induction false} RunKeepsInv(zones: Zones, w: World, es: seq<Event>, v: World)
    requires Inv(w) && IsRun(zones, w, es, v)
    ensures Inv(v) && w.seen <= v.seen
    decreases |es|
  {
    hide Inv;
    if es != [] {
      StepKeepsInv(zones, w, es[0]);
      RunKeepsInv(zones, Apply(zones, w, es[0]), es[1..], v);
    }
  }

  /** Over any run: a revision determines configuration and enablement, and the revision never goes back. */
  lemma RevisionsIdentifyConfigurations(zones: Zones, w: World, es: seq<Event>, v: World)
    requires Initial(w) && IsRun(zones, w, es, v)
    ensures forall r, q :: r in v.seen && q in v.seen && r.revision == q.revision ==>
              r.config == q.config && r.enabled == q.enabled
    ensures v.row.Some? ==> forall r :: r in v.seen ==> r.revision <= v.row.value.revision
    ensures forall r :: r in v.seen && !r.enabled ==> r.nextRun == None
    ensures forall i, j :: 0 <= i < j < |v.wins| ==> v.wins[i] != v.wins[j]
  {
    RunKeepsInv(zones, w, es, v);
  }

  /** One event raises the revision by one if it is a winning update, and otherwise not at all. */
  lemma RevisionStep(zones: Zones, w: World, e: Event)
    requires Enabled(w, e) && w.row.Some? && Apply(zones, w, e).row.Some?
    ensures Apply(zones, w, e).row.value.revision ==
            w.row.value.revision + (if e.Update? && Writes(w, e) then 1 else 0)
  {
  }

  // ---------------------------------------------------------------- at most one claim

  /** The one write that can move a live cursor back: run-now from a snapshot without a cursor. */
  ghost predicate Unguarded(zones: Zones, e: Event) {
    e.RunNow? && e.snap.nextRun.None? && RunNowNext(zones, e.snap, e.now).Some?
  }

  /** The cursor went strictly forward, was cleared, or was unreadable before. */
  ghost predicate Forward(before: Option<Stamp>, after: Option<Stamp>) {
    after.None? || (before.Some? && after.value.At? && (before.value.At? ==> before.value.ms < after.value.ms))
  }

  /** A cursor-guarded write moves the cursor forward. */
  lemma CursorMovesForward(zones: Zones, w: World, e: Event)
    requires Enabled(w, e) && Writes(w, e) && (e.RunNow? || e.AckCas?) && !Unguarded(zones, e)
    ensures Forward(w.row.value.nextRun, Apply(zones, w, e).row.value.nextRun)
    ensures e.AckCas? ==> Apply(zones, w, e).row.value.nextRun.Some? ==>
              e.ack.scheduledFor.ms < Apply(zones, w, e).row.value.nextRun.value.ms
    ensures e.AckCas? && w.row.value.nextRun.value.At? ==> w.row.value.nextRun.value.ms == e.ack.scheduledFor.ms
  {
    hide NextRun;
    var snap := e.snap;
    var c := snap.config;
    if e.RunNow? {
      var from := if snap.nextRun.Some? && snap.nextRun.value.At? then snap.nextRun.value.ms else e.now;
      NextRunIsNext(c.cron, zones(c.timezone), from);
    } else if AckNext(zones, snap, e.ack, e.now).Some? {
      var enqueued := Enqueued(e.ack);
      var misfire := if c.policy.misfire.CatchUp? && enqueued == 0 then Skip else c.policy.misfire;
      AuthoritativeGrows(c.cron, zones(c.timezone), e.ack.scheduledFor.ms, e.now, misfire,
                         Max(1, if enqueued == 0 then 1 else enqueued));
    }
  }

  /** Every applied claim is at the current revision with the cursor past it, or at an earlier revision. */
  ghost predicate ClaimsPast(w: World) {
    && (w.row.Some? ==> forall i :: 0 <= i < |w.claims| ==> Past(w.row.value, w.claims[i]))
    && (forall i, j :: 0 <= i < j < |w.claims| ==> w.claims[i] != w.claims[j])
  }

  ghost predicate Past(row: Row, claim: (nat, int)) {
    && claim.0 <= row.revision
    && (claim.0 == row.revision && row.nextRun.Some? ==> row.nextRun.value.At? && claim.1 < row.nextRun.value.ms)
  }

  lemma StepKeepsClaims(zones: Zones, w: World, e: Event)
    requires Inv(w) && ClaimsPast(w) && Enabled(w, e) && !Unguarded(zones, e)
    ensures ClaimsPast(Apply(zones, w, e))
  {
    hide Versioned, DisabledIsIdle, WinsApart, NextRun, Authoritative, RunNowNext, AckNext;
    var v := Apply(zones, w, e);
    if Writes(w, e) && (e.RunNow? || e.AckCas?) {
      CursorMovesForward(zones, w, e);
      forall i | 0 <= i < |w.claims| ensures Past(v.row.value, w.claims[i]) {
        assert Past(w.row.value, w.claims[i]);
      }
      if e.AckCas? {
        var claim := (e.snap.revision, e.ack.scheduledFor.ms);
        forall i | 0 <= i < |w.claims| ensures w.claims[i] != claim {
          assert Past(w.row.value, w.claims[i]);
        }
      }
    }
  }

  lemma {:induction false} RunKeepsClaims(zones: Zones, w: World, es: seq<Event>, v: World)
    requires Inv(w) && ClaimsPast(w) && IsRun(zones, w, es, v)
    requires forall e :: e in es ==> !Unguarded(zones, e)
    ensures Inv(v) && ClaimsPast(v)
    decreases |es|
  {
    hide Inv, ClaimsPast, Unguarded;
    if es != [] {
      StepKeepsInv(zones, w, es[0]);
      StepKeepsClaims(zones, w, es[0]);
      RunKeepsClaims(zones, Apply(zones, w, es[0]), es[1..], v);
    }
  }

  /** Without the unguarded write, an occurrence of a revision is claimed at most once. */
  lemma ClaimedAtMostOnce(zones: Zones, w: World, es: seq<Event>, v: World)
    requires Initial(w) && IsRun(zones, w, es, v)
    requires forall e :: e in es ==> !Unguarded(zones, e)
    ensures forall i, j :: 0 <= i < j < |v.claims| ==> v.claims[i] != v.claims[j]
  {
    hide IsRun;
    RunKeepsClaims(zones, w, es, v);
  }

  /**
   A repeated acknowledgement of a claimed occurrence: with a live cursor it reads that the row is past
   it and writes nothing; with the cursor cleared its compare-and-swap cannot match.
   */
  lemma RepeatedAckChangesNothing(zones: Zones, w: World, es: seq<Event>, v: World, ack: Ack, token: Stamp, now: int)
    requires Initial(w) && IsRun(zones, w, es, v)
    requires forall e :: e in es ==> !Unguarded(zones, e)
    requires ack.scheduledFor.At? && (ack.revision, ack.scheduledFor.ms) in v.claims
    requires v.row.Some? && v.row.value.revision == ack.revision && v.row.value.enabled
    ensures v.row.value.nextRun.Some? ==> Decide(v.row.value, ack) == AlreadyAdvanced
    ensures var e := AckCas(v.row.value, ack, token, now); Enabled(v, e) ==> Apply(zones, v, e) == v
  {
    hide IsRun;
    RunKeepsClaims(zones, w, es, v);
    var i :| 0 <= i < |v.claims| && v.claims[i] == (ack.revision, ack.scheduledFor.ms);
    assert Past(v.row.value, v.claims[i]);
  }

  /** The state of the claims a run-now write meets at worst: its own occurrence claimed, the cursor cleared since. */
  function WorstCase(snap: Row, claimed: int): World {
    World(Some(snap), {snap}, [(snap.revision, claimed)], [])
  }

  /**
   Exactly when a run-now is safe: whatever state it meets, it leaves no claim to be made again, if and
   only if its snapshot had a cursor or it has none to write.
   */
  lemma RunNowIsSafeExactlyWhenGuarded(zones: Zones, snap: Row, now: int)
    ensures
      (forall w :: Inv(w) && ClaimsPast(w) && Enabled(w, RunNow(snap, now)) ==>
         ClaimsPast(Apply(zones, w, RunNow(snap, now))))
      <==> !Unguarded(zones, RunNow(snap, now))
  {
    hide NextRun;
    var e := RunNow(snap, now);
    if Unguarded(zones, e) {
      var w := WorstCase(snap, RunNowNext(zones, snap, now).value.ms);
      assert Inv(w) && ClaimsPast(w) && Enabled(w, e);
      assert !Past(Apply(zones, w, e).row.value, w.claims[0]);
    } else {
      forall w | Inv(w) && ClaimsPast(w) && Enabled(w, e) ensures ClaimsPast(Apply(zones, w, e)) {
        StepKeepsClaims(zones, w, e);
      }
    }
  }

  // ---------------------------------------------------------------- the unguarded write claims twice

  /**
   From any enabled schedule without a cursor whose rule has an occurrence `d` after `t`: run-now,
   started while there was no cursor, is repeated after the occurrence was acknowledged, puts the
   claimed cursor back, and the occurrence is claimed again.
   */
  lemma UnguardedRunNowClaimsTwice(zones: Zones, r0: Row, t: int, d: int) returns (es: seq<Event>, v: World)
    requires r0.enabled && r0.nextRun == None
    requires NextRun(r0.config.cron, zones(r0.config.timezone), t) == Some(d)
    ensures Initial(Start(r0)) && IsRun(zones, Start(r0), es, v)
    ensures v.claims == [(r0.revision, d), (r0.revision, d)]
    ensures forall e :: e in es ==> e == RunNow(r0, t) || e.AckCas?
  {
    hide NextRun, Advance, Iterate;
    var due := At(d, 0);
    var ack := Ack(r0.revision, due, true, None);
    var w := Start(r0);
    var run := RunNow(r0, t);
    var w1 := Apply(zones, w, run);
    var claim := AckCas(w1.row.value, ack, due, d);
    var w2 := Apply(zones, w1, claim);
    assert w2.claims == [(r0.revision, d)];
    var w3 := Apply(zones, w2, run);
    var again := AckCas(w3.row.value, ack, due, d);
    v := Apply(zones, w3, again);
    es := [run, claim, run, again];
    FourSteps(zones, w, es, w1, w2, w3, v);
  }

  /** Some occurrence of some revision was claimed more than once. */
  ghost predicate ClaimedTwice(w: World) {
    exists i, j :: 0 <= i < j < |w.claims| && w.claims[i] == w.claims[j]
  }

  /** Reached from the stored row by run-nows of that row, all at `now`, and acknowledgements of any kind. */
  ghost predicate RunsNowAndAcks(zones: Zones, snap: Row, now: int, es: seq<Event>, v: World) {
    IsRun(zones, Start(snap), es, v) && forall e :: e in es ==> e == RunNow(snap, now) || e.AckCas?
  }

  /**
   Exactly when a run-now of a stored row can make an occurrence be claimed twice, over every run of
   that run-now and acknowledgements: when the row had no cursor and its rule has an occurrence to write.
   */
  lemma RunNowClaimsTwiceExactlyWhenUnguarded(zones: Zones, snap: Row, now: int)
    requires snap.enabled || snap.nextRun == None
    ensures (exists es, v :: RunsNowAndAcks(zones, snap, now, es, v) && ClaimedTwice(v))
      <==> Unguarded(zones, RunNow(snap, now))
  {
    hide NextRun, IsRun;
    var run := RunNow(snap, now);
    if Unguarded(zones, run) {
      var es, v := UnguardedRunNowClaimsTwice(zones, snap, now, RunNowNext(zones, snap, now).value.ms);
      assert v.claims[0] == v.claims[1];
      assert RunsNowAndAcks(zones, snap, now, es, v) && ClaimedTwice(v);
    } else {
      forall es, v | RunsNowAndAcks(zones, snap, now, es, v) ensures !ClaimedTwice(v) {
        assert Initial(Start(snap));
        ClaimedAtMostOnce(zones, Start(snap), es, v);
      }
    }
  }

  /** For example midnight on 29 February, in UTC: created in March 2021 the schedule has no cursor for three years. */
  lemma LeapDayIsClaimedTwice(zones: Zones, c: Config, now: int) returns (es: seq<Event>, v: World)
    requires c.cron == LEAP_DAY && zones(c.timezone) == Universal && now == MARCH_2021
    ensures Initial(Start(Created(zones, c, true, now))) && IsRun(zones, Start(Created(zones, c, true, now)), es, v)
    ensures v.claims == [(1, LEAP_DAY_2024), (1, LEAP_DAY_2024)]
  {
    hide NextRun;
    var d := LEAP_DAY_2024;
    LeapDayRuns(now, d);
    CreatedIsInitial(zones, c, true, now);
    es, v := UnguardedRunNowClaimsTwice(zones, Created(zones, c, true, now), d - MINUTE, d);
  }

  lemma FourSteps(zones: Zones, w: World, es: seq<Event>, w1: World, w2: World, w3: World, v: World)
    requires |es| == 4
    requires Enabled(w, es[0]) && w1 == Apply(zones, w, es[0])
    requires Enabled(w1, es[1]) && w2 == Apply(zones, w1, es[1])
    requires Enabled(w2, es[2]) && w3 == Apply(zones, w2, es[2])
    requires Enabled(w3, es[3]) && v == Apply(zones, w3, es[3])
    ensures IsRun(zones, w, es, v)
  {
    hide Enabled, Apply;
    assert IsRun(zones, v, es[4..], v);
    assert es[3..][0] == es[3] && es[3..][1..] == es[4..] && IsRun(zones, w3, es[3..], v);
    assert es[2..][0] == es[2] && es[2..][1..] == es[3..] && IsRun(zones, w2, es[2..], v);
    assert es[1..][0] == es[1] && es[1..][1..] == es[2..] && IsRun(zones, w1, es[1..], v);
  }
}
