/** One row of the task index and the single statements that change it, each from a possibly stale snapshot. */
module TaskRow {
  import opened Wrappers
  import opened Retention

  datatype Key = Key(backend: string, name: string)

  /** What creation fixes for good. */
  datatype Identity = Identity(
    key: Option<Key>, hash: Option<string>, labels: Labels, environment: Option<string>, outputSeconds: Option<int>,
    createdAt: int)

  datatype Row = Row(
    who: Identity, status: Status, terminalAt: Option<int>, expiresAt: Option<int>, outputExpiresAt: Option<int>,
    kept: Option<RetentionClass>, deletedAt: Option<int>, pinnedAt: Option<int>, hold: bool)

  function Coalesce<T>(a: Option<T>, b: Option<T>): Option<T> {
    if a.Some? then a else b
  }

  predicate Protected(r: Row) {
    r.pinnedAt.Some? || r.hold
  }

  /** The environment column, derived again from the labels when it is null. */
  function Environment(who: Identity): Option<string> {
    Coalesce(who.environment, EnvironmentFromLabels(who.labels))
  }

  predicate IsTest(who: Identity) {
    IsTestTask(who.labels, Environment(who))
  }

  function New(who: Identity): Row {
    Row(who, Created, None, None, None, if IsTestTask(who.labels, who.environment) then Some(TestNoise) else None,
        None, None, false)
  }

  /** The stamps a terminal status write computes from its snapshot, to be kept only where the row has none. */
  function StatusWritten(row: Row, seen: Row, status: Status, now: int): Row {
    if !IsTerminal(status) then row.(status := status)
    else
      var tag := ClassFor(status, seen.who.labels, Environment(seen.who));
      var at := if seen.terminalAt.Some? then seen.terminalAt.value else now;
      row.(status := status,
           terminalAt := Coalesce(row.terminalAt, Some(at)),
           expiresAt := Coalesce(row.expiresAt, Some(ExpiresAt(at, tag, status))),
           outputExpiresAt := Coalesce(row.outputExpiresAt, Some(at + OutputSpan(seen.who.outputSeconds))),
           kept := Coalesce(row.kept, Some(tag)))
  }

  /**
   In milliseconds: at its first terminal status a row gets an expiry 3 days on for a test, else 14 for a
   success and 30 for the rest, and one for its output after the seconds asked for or else 7 days.  Any other
   status is only written, and a stamp that is there stays.
   */
  predicate StampedByPolicy(row: Row, seen: Row, status: Status, now: int, r: Row) {
    var at := if seen.terminalAt.Some? then seen.terminalAt.value else now;
    if status in {Succeeded, Failed, Cancelled, TimedOut, DispatchFailed} then
      && r == row.(status := status, terminalAt := r.terminalAt, expiresAt := r.expiresAt,
                   outputExpiresAt := r.outputExpiresAt, kept := r.kept)
      && r.terminalAt == (if row.terminalAt.Some? then row.terminalAt else Some(at))
      && r.expiresAt ==
         (if row.expiresAt.Some? then row.expiresAt
          else Some(at + (if IsTest(seen.who) then 259_200_000
                          else if status == Succeeded then 1_209_600_000 else 2_592_000_000)))
      && r.outputExpiresAt ==
         (if row.outputExpiresAt.Some? then row.outputExpiresAt
          else if seen.who.outputSeconds.Some? && seen.who.outputSeconds.value > 0 then
            Some(at + seen.who.outputSeconds.value * 1000)
          else Some(at + 604_800_000))
      && r.kept ==
         (if row.kept.Some? then row.kept
          else Some(if IsTest(seen.who) then TestNoise else if status == Succeeded then Success
                    else if status == Cancelled then Withdrawn else Failure))
    else r == row.(status := status)
  }

  lemma StatusByPolicy(row: Row, seen: Row, status: Status, now: int)
    ensures StampedByPolicy(row, seen, status, now, StatusWritten(row, seen, status, now))
  {
    hide IsTestTask, EnvironmentFromLabels;
  }

  /** Unpinning refreshes the expiry of a terminal task under the policy of the status it was seen with. */
  function Unpinned(row: Row, seen: Row): Row {
    var expiry :=
      if seen.terminalAt.Some? && IsTerminal(seen.status) then
        Some(ExpiresAt(seen.terminalAt.value, ClassFor(seen.status, seen.who.labels, Environment(seen.who)), seen.status))
      else seen.expiresAt;
    row.(pinnedAt := None, expiresAt := Coalesce(expiry, row.expiresAt))
  }

  /** In milliseconds: the refreshed expiry counts from the terminal stamp; a task not terminal keeps what it has. */
  predicate UnpinnedByPolicy(row: Row, seen: Row, r: Row) {
    && r == row.(pinnedAt := None, expiresAt := r.expiresAt)
    && r.expiresAt ==
       (if seen.terminalAt.Some? && seen.status in {Succeeded, Failed, Cancelled, TimedOut, DispatchFailed} then
          Some(seen.terminalAt.value + (if IsTest(seen.who) then 259_200_000
                                        else if seen.status == Succeeded then 1_209_600_000 else 2_592_000_000))
        else if seen.expiresAt.Some? then seen.expiresAt else row.expiresAt)
  }

  lemma UnpinByPolicy(row: Row, seen: Row)
    ensures UnpinnedByPolicy(row, seen, Unpinned(row, seen))
  {
    hide IsTestTask, EnvironmentFromLabels;
  }

  predicate Expired(r: Row, now: int) {
    r.terminalAt.Some? && r.expiresAt.Some? && r.expiresAt.value <= now && IsTerminal(r.status)
  }

  /** What the soft pass of the purge selects. */
  predicate Purgeable(r: Row, now: int) {
    r.deletedAt.None? && Expired(r, now) && !Protected(r)
  }

  /** What the hard pass of the purge selects. */
  predicate PastGrace(r: Row, now: int) {
    r.deletedAt.Some? && r.deletedAt.value <= now - GRACE && !Protected(r)
  }

  /**
   What the two passes of the purge take, column by column: the soft pass terminal rows that have expired,
   the hard pass rows deleted a day ago, and neither a pinned or held one.
   */
  lemma PurgeSelects(r: Row, now: int)
    ensures
      Purgeable(r, now) <==>
        && r.deletedAt.None? && r.terminalAt.Some? && r.expiresAt.Some? && r.expiresAt.value <= now
        && r.status in {Succeeded, Failed, Cancelled, TimedOut, DispatchFailed} && r.pinnedAt.None? && !r.hold
    ensures
      PastGrace(r, now) <==>
        r.deletedAt.Some? && r.deletedAt.value + 86_400_000 <= now && r.pinnedAt.None? && !r.hold
  {
  }
}
