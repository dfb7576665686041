/**
 One schedule row in the database, under any interleaving of create, update, run-now,
 acknowledgement and delete.  An operation reads a snapshot of the row, computes, and writes with
 `UPDATE ... WHERE revision = ? [AND next_run_at = ?]`; only a single statement is atomic.
 */
module ScheduleRow {
  import opened Wrappers
  import opened Cron

  /** A stored timestamp: the spelling matters to a textual comparison, 0 is `Date#toISOString`. */
  datatype Stamp = At(ms: int, spelling: nat) | Garbage(text: nat)

  datatype Policy = Policy(concurrency: string, misfire: Misfire, maxCatchupRuns: nat)

  /** What only an update changes: name, trigger, task template and policy. */
  datatype Config = Config(name: string, cron: seq<Field>, timezone: string, task: string, policy: Policy)

  datatype Row = Row(
    revision: nat, enabled: bool, config: Config, nextRun: Option<Stamp>, lastRun: Option<int>, updatedAt: int)

  datatype Patch = Patch(
    name: Option<string>, trigger: Option<(seq<Field>, string)>, enabled: Option<bool>, task: Option<string>,
    policy: Option<Policy>)

  datatype Ack = Ack(revision: nat, scheduledFor: Stamp, hasOccurrence: bool, enqueuedCount: Option<nat>)

  type Zones = string -> Projection

  function Canonical(s: Stamp): Option<Stamp> {
    if s.At? then Some(At(s.ms, 0)) else None
  }

  // ---------------------------------------------------------------- what the operations compute

  ghost function NextAt(zones: Zones, c: Config, after: int): Option<Stamp> {
    match NextRun(c.cron, zones(c.timezone), after)
    case None => None
    case Some(t) => Some(At(t, 0))
  }

  /** The cursor `r` is the canonical spelling of the next run of the rule after `after`; none if it has none. */
  ghost predicate NextAfter(zones: Zones, c: Config, after: int, r: Option<Stamp>) {
    match r
    case None => IsNext(c.cron, zones(c.timezone), after, None)
    case Some(stamp) => stamp.At? && stamp.spelling == 0 && IsNext(c.cron, zones(c.timezone), after, Some(stamp.ms))
  }

  lemma NextAtIsNext(zones: Zones, c: Config, after: int)
    ensures NextAfter(zones, c, after, NextAt(zones, c, after))
  {
    hide NextRun, IsNext;
    NextRunIsNext(c.cron, zones(c.timezone), after);
  }

  function Patched(c: Config, p: Patch): Config {
    Config(
      if p.name.Some? then p.name.value else c.name,
      if p.trigger.Some? then p.trigger.value.0 else c.cron,
      if p.trigger.Some? then p.trigger.value.1 else c.timezone,
      if p.task.Some? then p.task.value else c.task,
      if p.policy.Some? then p.policy.value else c.policy)
  }

  function PatchedEnabled(snap: Row, p: Patch): bool {
    if p.enabled.Some? then p.enabled.value else snap.enabled
  }

  predicate NoOp(snap: Row, p: Patch) {
    Patched(snap.config, p) == snap.config && PatchedEnabled(snap, p) == snap.enabled
  }

  ghost function Created(zones: Zones, c: Config, enabled: bool, now: int): Row {
    Row(1, enabled, c, if enabled then NextAt(zones, c, now) else None, None, now)
  }

  /** The columns an update sets; the last run stays what it is. */
  ghost function Updated(zones: Zones, row: Row, snap: Row, p: Patch, now: int): Row {
    var c, e := Patched(snap.config, p), PatchedEnabled(snap, p);
    row.(revision := snap.revision + 1, enabled := e, config := c,
         nextRun := if e then NextAt(zones, c, now) else None, updatedAt := now)
  }

  /** Run-now advances from the claimed cursor if it has one that parses, else from now. */
  ghost function RunNowNext(zones: Zones, snap: Row, now: int): Option<Stamp> {
    var from := if snap.nextRun.Some? && snap.nextRun.value.At? then snap.nextRun.value.ms else now;
    if snap.enabled then NextAt(zones, snap.config, from) else None
  }

  /** An update sets what the patch gives and keeps what it does not, and restarts the cursor from now. */
  lemma UpdateTakesEffect(zones: Zones, row: Row, snap: Row, p: Patch, now: int)
    ensures
      var r := Updated(zones, row, snap, p, now);
      && r.revision == snap.revision + 1 && r.lastRun == row.lastRun && r.updatedAt == now
      && r.config.name == (if p.name.Some? then p.name.value else snap.config.name)
      && (r.config.cron, r.config.timezone)
         == (if p.trigger.Some? then p.trigger.value else (snap.config.cron, snap.config.timezone))
      && r.config.task == (if p.task.Some? then p.task.value else snap.config.task)
      && r.config.policy == (if p.policy.Some? then p.policy.value else snap.config.policy)
      && r.enabled == (if p.enabled.Some? then p.enabled.value else snap.enabled)
      && (r.enabled ==> NextAfter(zones, r.config, now, r.nextRun)) && (!r.enabled ==> r.nextRun == None)
  {
    hide NextAt;
    NextAtIsNext(zones, Patched(snap.config, p), now);
    hide NextAfter;
  }

  /** A patch does nothing exactly when every part it gives is what the snapshot already has. */
  lemma NoOpExactly(snap: Row, p: Patch)
    ensures
      NoOp(snap, p) <==>
        && (p.name.Some? ==> p.name.value == snap.config.name)
        && (p.trigger.Some? ==> p.trigger.value == (snap.config.cron, snap.config.timezone))
        && (p.task.Some? ==> p.task.value == snap.config.task)
        && (p.policy.Some? ==> p.policy.value == snap.config.policy)
        && (p.enabled.Some? ==> p.enabled.value == snap.enabled)
  {
  }

  /** Run-now puts the cursor at the next run after the occurrence it claims, or after now if there is none to claim. */
  lemma RunNowAdvances(zones: Zones, snap: Row, now: int)
    ensures snap.enabled && snap.nextRun.Some? && snap.nextRun.value.At? ==>
      NextAfter(zones, snap.config, snap.nextRun.value.ms, RunNowNext(zones, snap, now))
    ensures snap.enabled && !(snap.nextRun.Some? && snap.nextRun.value.At?) ==>
      NextAfter(zones, snap.config, now, RunNowNext(zones, snap, now))
    ensures !snap.enabled ==> RunNowNext(zones, snap, now) == None
  {
    hide NextAt, NextAfter;
    NextAtIsNext(zones, snap.config, if snap.nextRun.Some? && snap.nextRun.value.At? then snap.nextRun.value.ms else now);
  }

  function Moved(row: Row, next: Option<Stamp>, now: int): Row {
    row.(lastRun := Some(now), nextRun := next, updatedAt := now)
  }

  datatype AckStatus =
    | RevisionMismatch
    | ScheduleDisabled
    | InvalidRequest
    | AlreadyAdvanced
    | CursorMismatch
    | TryCas(scheduledFor: Stamp, token: Stamp)

  /** What an acknowledgement decides from its snapshot, before it writes anything. */
  function Decide(snap: Row, ack: Ack): AckStatus {
    if ack.revision != snap.revision then RevisionMismatch
    else if !snap.enabled then ScheduleDisabled
    else if Canonical(ack.scheduledFor).None? then InvalidRequest
    else
      var due := Canonical(ack.scheduledFor).value;
      var current := if snap.nextRun.Some? then Canonical(snap.nextRun.value) else None;
      if current.Some? && current.value.ms > due.ms then AlreadyAdvanced
      else if current.Some? && current.value != due && snap.nextRun.value != ack.scheduledFor
              && snap.nextRun.value.ms != due.ms then CursorMismatch
      else TryCas(due, if snap.nextRun.Some? then snap.nextRun.value else due)
  }

  /**
   The decision by comparing numbers: the cursor read as an instant decides against the occurrence, and where
   there is none, or it does not parse, the compare-and-swap is tried.
   */
  lemma DecideByCursor(snap: Row, ack: Ack)
    ensures
      Decide(snap, ack) ==
        if ack.revision != snap.revision then RevisionMismatch
        else if !snap.enabled then ScheduleDisabled
        else
          match ack.scheduledFor
          case Garbage(_) => InvalidRequest
          case At(due, _) =>
            match snap.nextRun
            case None => TryCas(At(due, 0), At(due, 0))
            case Some(Garbage(text)) => TryCas(At(due, 0), Garbage(text))
            case Some(At(cursor, spelling)) =>
              if cursor > due then AlreadyAdvanced
              else if cursor < due then CursorMismatch
              else TryCas(At(due, 0), At(cursor, spelling))
  {
  }

  /** How many tasks the agent says it enqueued; without a count, the one of the occurrence if it names one. */
  function Enqueued(ack: Ack): nat {
    if ack.enqueuedCount.Some? then ack.enqueuedCount.value else if ack.hasOccurrence then 1 else 0
  }

  ghost function AckNext(zones: Zones, snap: Row, ack: Ack, now: int): Option<Stamp>
    requires Canonical(ack.scheduledFor).Some?
  {
    var enqueued := Enqueued(ack);
    var misfire := if snap.config.policy.misfire.CatchUp? && enqueued == 0 then Skip else snap.config.policy.misfire;
    var next := Authoritative(snap.config.cron, zones(snap.config.timezone), ack.scheduledFor.ms, now, misfire,
                              Max(1, if enqueued == 0 then 1 else enqueued));
    if next.None? then None else Some(At(next.value, 0))
  }

  /** The policy at work: catching up by what was enqueued, and otherwise past the backlog. */
  lemma AckFollowsPolicy(zones: Zones, snap: Row, ack: Ack, now: int)
    requires ack.scheduledFor.At?
    ensures
      var c := snap.config;
      var n := if ack.enqueuedCount.Some? then ack.enqueuedCount.value else if ack.hasOccurrence then 1 else 0;
      var next := if c.policy.misfire == CatchUp && n > 0
                  then Authoritative(c.cron, zones(c.timezone), ack.scheduledFor.ms, now, CatchUp, n)
                  else Authoritative(c.cron, zones(c.timezone), ack.scheduledFor.ms, now, Skip, 1);
      AckNext(zones, snap, ack, now) == if next.None? then None else Some(At(next.value, 0))
  {
    hide Advance, Iterate;
  }

  /**
   Where an acknowledgement puts the cursor.  Catching up, it goes one next run on for each task enqueued, at
   most 32; under any other policy, or when nothing was enqueued, it goes past a backlog of at most 32
   missed minutes to the next run after now.
   */
  lemma AckAdvances(zones: Zones, snap: Row, ack: Ack, now: int)
    requires ack.scheduledFor.At?
    ensures
      var c, due, next := snap.config, ack.scheduledFor.ms, AckNext(zones, snap, ack, now);
      var zone := zones(c.timezone);
      var n := if ack.enqueuedCount.Some? then ack.enqueuedCount.value else if ack.hasOccurrence then 1 else 0;
      && (next.Some? ==> next.value.At? && next.value.spelling == 0 && due < next.value.ms)
      && (c.policy.misfire == CatchUp && n > 0 ==>
            && (n == 1 ==> NextAfter(zones, c, due, next))
            && next == (match Iterate(c.cron, zone, due, if n < 32 then n else 32)
                        case None => None
                        case Some(t) => Some(At(t, 0))))
      && (!(c.policy.misfire == CatchUp && n > 0) && due <= now && |Backlog(c.cron, zone, due, now)| <= 32 && next.Some? ==>
            NextAfter(zones, c, now, next))
  {
    var c, due, n := snap.config, ack.scheduledFor.ms, Enqueued(ack);
    var zone := zones(c.timezone);
    hide NextRun, Backlog, IsNext;
    NextRunIsNext(c.cron, zone, due);
    NextRunIsNext(c.cron, zone, now);
    if c.policy.misfire == CatchUp && n > 0 {
      if n == 1 {
        OneIteration(c.cron, zone, due);
      }
    } else if due <= now && Advance(c.cron, zone, due, now).Some? {
      AdvanceLeavesBacklog(c.cron, zone, due, now);
    }
    var misfire := if c.policy.misfire.CatchUp? && n == 0 then Skip else c.policy.misfire;
    if AckNext(zones, snap, ack, now).Some? {
      AuthoritativeGrows(c.cron, zone, due, now, misfire, Max(1, if n == 0 then 1 else n));
    }
  }

  lemma OneIteration(expression: seq<Field>, zone: Projection, from: int)
    ensures Iterate(expression, zone, from, 1) == NextRun(expression, zone, from)
  {
    hide NextRun;
  }

  /** The `WHERE` clause of the cursor writes; `NULL = ?` is never true. */
  predicate Matches(row: Option<Row>, revision: nat, token: Stamp) {
    row.Some? && row.value.revision == revision && row.value.nextRun == Some(token)
  }

  predicate AtRevision(row: Option<Row>, revision: nat) {
    row.Some? && row.value.revision == revision
  }
}
