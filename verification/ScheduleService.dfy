/**
 The schedule service over its row.  Beside the row, ghost fields keep what `ScheduleRuns` says about
 runs: every value the row has had, the claims that applied and the updates that won; each statement
 is one event of such a run, issued from a snapshot that may be stale.
 */
module ScheduleService {
  import opened Wrappers
  import opened Cron
  import opened ScheduleRow
  import opened ScheduleRuns

  datatype Answer = Refused(why: AckStatus) | Advanced | Mismatched | Applied | NotFound

  class ScheduleTable {
    const zones: Zones
    var row: Option<Row>
    ghost var seen: set<Row>
    ghost var claims: seq<(nat, int)>
    ghost var wins: seq<nat>

    ghost function View(): World
      reads this
    {
      World(row, seen, claims, wins)
    }

    ghost predicate Valid()
      reads this
    {
      Inv(View())
    }

    constructor (zones: Zones)
      ensures Valid() && this.zones == zones && View() == World(None, {}, [], [])
    {
      this.zones := zones;
      row, seen, claims, wins := None, {}, [], [];
    }

    method NextIso(c: Config, after: int) returns (r: Option<Stamp>)
      ensures r == NextAt(zones, c, after)
    {
      var t := NextCronRunAfter(c.cron, zones(c.timezone), after);
      r := if t.None? then None else Some(At(t.value, 0));
    }

    method Insert(c: Config, enabled: bool, now: int)
      requires View() == World(None, {}, [], [])
      modifies this
      ensures Valid() && View() == Start(Created(zones, c, enabled, now))
      ensures row.Some? && row.value == Row(1, enabled, c, row.value.nextRun, None, now)
      ensures if enabled then NextAfter(zones, c, now, row.value.nextRun) else row.value.nextRun == None
    {
      NextAtIsNext(zones, c, now);
      hide NextAfter, NextAt;
      var next: Option<Stamp> := None;
      if enabled {
        next := NextIso(c, now);
      }
      row := Some(Row(1, enabled, c, next, None, now));
      seen := {row.value};
    }

    /** `applyUpdate`: nothing changed is a no-op or, if `conflict`, a lost race. */
    method ApplyUpdate(snap: Row, p: Patch, now: int) returns (changed: bool, conflict: bool)
      requires Valid() && snap in seen
      modifies this
      ensures Valid() && View() == Apply(zones, old(View()), Update(snap, p, now))
      ensures changed <==> !NoOp(snap, p) && AtRevision(old(row), snap.revision)
      ensures conflict <==> !NoOp(snap, p) && !AtRevision(old(row), snap.revision)
      ensures !changed ==> row == old(row)
      ensures changed || conflict <==>
        || (p.name.Some? && p.name.value != snap.config.name)
        || (p.trigger.Some? && p.trigger.value != (snap.config.cron, snap.config.timezone))
        || (p.task.Some? && p.task.value != snap.config.task)
        || (p.policy.Some? && p.policy.value != snap.config.policy)
        || (p.enabled.Some? && p.enabled.value != snap.enabled)
      ensures changed ==>
        && old(row).Some? && old(row).value.revision == snap.revision
        && row.Some? && row.value.revision == snap.revision + 1
        && row.value.lastRun == old(row).value.lastRun && row.value.updatedAt == now
        && row.value.config.name == (if p.name.Some? then p.name.value else snap.config.name)
        && (row.value.config.cron, row.value.config.timezone)
           == (if p.trigger.Some? then p.trigger.value else (snap.config.cron, snap.config.timezone))
        && row.value.config.task == (if p.task.Some? then p.task.value else snap.config.task)
        && row.value.config.policy == (if p.policy.Some? then p.policy.value else snap.config.policy)
        && row.value.enabled == (if p.enabled.Some? then p.enabled.value else snap.enabled)
        && (row.value.enabled ==> NextAfter(zones, row.value.config, now, row.value.nextRun))
        && (!row.value.enabled ==> row.value.nextRun == None)
    {
      NoOpExactly(snap, p);
      if row.Some? {
        UpdateTakesEffect(zones, row.value, snap, p, now);
      }
      hide NextAt, NextAfter, Inv;
      StepKeepsInv(zones, View(), Update(snap, p, now));
      if NoOp(snap, p) {
        return false, false;
      }
      var c, e := Patched(snap.config, p), PatchedEnabled(snap, p);
      var next: Option<Stamp> := None;
      if e {
        next := NextIso(c, now);
      }
      if AtRevision(row, snap.revision) {
        row := Some(row.value.(revision := snap.revision + 1, enabled := e, config := c, nextRun := next, updatedAt := now));
        seen, wins := seen + {row.value}, wins + [snap.revision];
        return true, false;
      }
      return false, true;
    }

    /** The write of `runNow`: guarded by the cursor only if the snapshot has one. */
    method RunNow(snap: Row, now: int) returns (changed: bool)
      requires Valid() && snap in seen
      modifies this
      ensures Valid() && View() == Apply(zones, old(View()), Event.RunNow(snap, now))
      ensures changed <==> Writes(old(View()), Event.RunNow(snap, now))
      ensures changed <==>
        && old(row).Some? && old(row).value.revision == snap.revision
        && (snap.nextRun.Some? ==> old(row).value.nextRun == snap.nextRun)
      ensures !changed ==> row == old(row)
      ensures changed ==>
        && row.Some? && row.value == old(row).value.(lastRun := Some(now), updatedAt := now, nextRun := row.value.nextRun)
        && (!snap.enabled ==> row.value.nextRun == None)
        && (snap.enabled && snap.nextRun.Some? && snap.nextRun.value.At? ==>
              NextAfter(zones, snap.config, snap.nextRun.value.ms, row.value.nextRun))
        && (snap.enabled && !(snap.nextRun.Some? && snap.nextRun.value.At?) ==>
              NextAfter(zones, snap.config, now, row.value.nextRun))
    {
      RunNowAdvances(zones, snap, now);
      hide NextAt, NextAfter, Inv;
      StepKeepsInv(zones, View(), Event.RunNow(snap, now));
      var from := now;
      if snap.nextRun.Some? && snap.nextRun.value.At? {
        from := snap.nextRun.value.ms;
      }
      var next: Option<Stamp> := None;
      if snap.enabled {
        next := NextIso(snap.config, from);
      }
      if snap.nextRun.Some? {
        changed := Matches(row, snap.revision, snap.nextRun.value);
      } else {
        changed := AtRevision(row, snap.revision);
      }
      if changed {
        row := Some(Moved(row.value, next, now));
        seen := seen + {row.value};
      }
    }

    method NextAfterAck(snap: Row, ack: Ack, now: int) returns (next: Option<Stamp>)
      requires ack.scheduledFor.At?
      ensures next == AckNext(zones, snap, ack, now)
    {
      var enqueued := Enqueued(ack);
      var misfire := snap.config.policy.misfire;
      if misfire.CatchUp? && enqueued == 0 {
        misfire := Skip;
      }
      var computed := AuthoritativeNextAfterOccurrence(
        snap.config.cron, zones(snap.config.timezone), Some(ack.scheduledFor.ms), now, misfire,
        Max(1, if enqueued == 0 then 1 else enqueued));
      next := if computed.None? then None else Some(At(computed.value, 0));
    }

    /** One compare-and-swap of an acknowledgement, on `token`. */
    method Swap(snap: Row, ack: Ack, token: Stamp, next: Option<Stamp>, now: int) returns (applied: bool)
      requires Valid() && Enabled(View(), AckCas(snap, ack, token, now)) && next == AckNext(zones, snap, ack, now)
      modifies this
      ensures Valid() && View() == Apply(zones, old(View()), AckCas(snap, ack, token, now))
      ensures applied <==> Writes(old(View()), AckCas(snap, ack, token, now))
    {
      hide AckNext;
      StepKeepsInv(zones, View(), AckCas(snap, ack, token, now));
      applied := Matches(row, snap.revision, token);
      if applied {
        row := Some(Moved(row.value, next, now));
        seen, claims := seen + {row.value}, claims + [(snap.revision, ack.scheduledFor.ms)];
      }
    }

    /**
     `ackOccurrence` from a snapshot: the answers that need no write, then the compare-and-swap on the
     stored cursor and, should that fail, on the canonical one.  An applied answer is one claim more,
     every other answer changes nothing.
     */
    method AckOccurrence(snap: Row, ack: Ack, now: int) returns (answer: Answer)
      requires Valid() && snap in seen
      modifies this
      ensures Valid()
      ensures
        answer.Applied? ==>
          && SwapsOnce(zones, old(View()), View(), snap, ack, now)
          && claims == old(claims) + [(snap.revision, ack.scheduledFor.ms)]
      ensures !answer.Applied? ==> View() == old(View())
      ensures answer == Refused(Decide(snap, ack)) || Decide(snap, ack).TryCas?
      ensures answer.Advanced? ==>
        row.Some? && row.value.nextRun.Some? && row.value.nextRun.value.At?
        && ack.scheduledFor.At? && row.value.nextRun.value.ms > ack.scheduledFor.ms
      ensures answer.Mismatched? && row.Some? && row.value.nextRun.Some? && row.value.nextRun.value.At? ==>
        ack.scheduledFor.At? && row.value.nextRun.value.ms <= ack.scheduledFor.ms
      ensures answer.NotFound? ==> row.None?
      ensures answer.Advanced? || answer.Mismatched? ==> row.Some?
      ensures answer.Applied? <==>
        && ack.revision == snap.revision && snap.enabled && ack.scheduledFor.At?
        && (snap.nextRun.Some? && snap.nextRun.value.At? ==> snap.nextRun.value.ms == ack.scheduledFor.ms)
        && old(row).Some? && old(row).value.revision == snap.revision
        && old(row).value.nextRun.Some? && old(row).value.nextRun in {snap.nextRun, Some(At(ack.scheduledFor.ms, 0))}
      ensures answer.Applied? ==>
        && row.Some? && row.value == old(row).value.(lastRun := Some(now), updatedAt := now, nextRun := row.value.nextRun)
        && var c := snap.config;
           var n := if ack.enqueuedCount.Some? then ack.enqueuedCount.value else if ack.hasOccurrence then 1 else 0;
           var next := if c.policy.misfire == CatchUp && n > 0
                       then Authoritative(c.cron, zones(c.timezone), ack.scheduledFor.ms, now, CatchUp, n)
                       else Authoritative(c.cron, zones(c.timezone), ack.scheduledFor.ms, now, Skip, 1);
           row.value.nextRun == if next.None? then None else Some(At(next.value, 0))
      ensures old(row) == Some(snap) ==>
        answer ==
          if ack.revision != snap.revision then Refused(RevisionMismatch)
          else if !snap.enabled then Refused(ScheduleDisabled)
          else if !ack.scheduledFor.At? then Refused(InvalidRequest)
          else
            match snap.nextRun
            case None => Mismatched
            case Some(Garbage(_)) => Applied
            case Some(At(cursor, _)) =>
              if cursor > ack.scheduledFor.ms then Refused(AlreadyAdvanced)
              else if cursor < ack.scheduledFor.ms then Refused(CursorMismatch)
              else Applied
    {
      if ack.scheduledFor.At? {
        AckFollowsPolicy(zones, snap, ack, now);
      }
      DecideByCursor(snap, ack);
      hide Authoritative, AckNext, Inv, Decide;
      var decision := Decide(snap, ack);
      if !decision.TryCas? {
        return Refused(decision);
      }
      var next := NextAfterAck(snap, ack, now);
      var applied := Swap(snap, ack, decision.token, next, now);
      if !applied && decision.token != decision.scheduledFor {
        applied := Swap(snap, ack, decision.scheduledFor, next, now);
      }
      if applied {
        return Applied;
      }
      if row.None? {
        return NotFound;
      }
      answer := if PastOccurrence(row.value, ack) then Advanced else Mismatched;
    }

    method Delete()
      requires Valid()
      modifies this
      ensures Valid() && View() == Apply(zones, old(View()), Event.Delete) && row == None
    {
      StepKeepsInv(zones, View(), Event.Delete);
      row := None;
    }
  }

  /** `v` is `w` after one compare-and-swap, on either spelling of the cursor, that applied. */
  ghost predicate SwapsOnce(zones: Zones, w: World, v: World, snap: Row, ack: Ack, now: int) {
    exists token ::
      var e := AckCas(snap, ack, token, now);
      Enabled(w, e) && Writes(w, e) && v == Apply(zones, w, e)
  }

  /** The row's cursor reads as later than the acknowledged occurrence. */
  predicate PastOccurrence(row: Row, ack: Ack) {
    && ack.scheduledFor.At? && row.nextRun.Some? && row.nextRun.value.At?
    && row.nextRun.value.ms > ack.scheduledFor.ms
  }
}
