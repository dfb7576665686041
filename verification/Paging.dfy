/** Offset paging of schedules, tasks and backends: what a client that follows every next offset sees. */
module Paging {
  import opened Wrappers

  datatype Page<T> = Page(items: seq<T>, next: Option<nat>)

  const MAX_LIMIT := 200

  /** `SELECT ... LIMIT limit OFFSET offset` over the ordered, filtered rows. */
  function Select<T>(rows: seq<T>, limit: nat, offset: nat): seq<T> {
    rows[Min(offset, |rows|)..Min(offset + limit, |rows|)]
  }

  function Clamped(limit: Option<int>): (r: nat)
    ensures 1 <= r <= 200
    ensures limit.Some? && 1 <= limit.value <= 200 ==> r == limit.value
    ensures limit.Some? && limit.value > 200 ==> r == 200
    ensures limit.Some? && limit.value < 1 ==> r == 1
    ensures limit.None? ==> r == 50
  {
    var n := if limit.Some? then limit.value else 50;
    if n < 1 then 1 else if n > MAX_LIMIT then MAX_LIMIT else n
  }

  function Take<T>(s: seq<T>, n: nat): seq<T> {
    s[..Min(n, |s|)]
  }

  /** Schedules fetch one row more than the page to learn whether there is a next one. */
  function ScheduleList<T>(rows: seq<T>, limit: Option<int>, offset: nat): Page<T> {
    var n := Clamped(limit);
    var got := Select(rows, n + 1, offset);
    Page(Take(got, n), if |got| > n then Some(offset + |Take(got, n)|) else None)
  }

  function TaskList<T>(rows: seq<T>, limit: Option<int>, offset: nat): seq<T> {
    Select(rows, Clamped(limit), offset)
  }

  /** Tasks ask `list` for one more, and `list` clamps again. */
  function TaskListPage<T>(rows: seq<T>, limit: Option<int>, offset: nat): Page<T> {
    var n := Clamped(limit);
    var got := TaskList(rows, Some(n + 1), offset);
    Page(Take(got, n), if |got| > n then Some(offset + |Take(got, n)|) else None)
  }

  /** Backends are sliced from the whole filtered list, with no clamp. */
  function PageBackends<T>(rows: seq<T>, limit: nat, offset: nat): Page<T> {
    var items := Select(rows, limit, offset);
    Page(items, if offset + |items| < |rows| then Some(offset + |items|) else None)
  }

  // ---------------------------------------------------------------- following next offsets

  /** The items of the page at `offset` and of all pages after it, given up after `fuel` pages. */
  function Follow<T>(pager: nat -> Page<T>, offset: nat, fuel: nat): (seq<T>, bool)
    decreases fuel
  {
    if fuel == 0 then ([], false)
    else
      var page := pager(offset);
      match page.next
      case None => (page.items, true)
      case Some(next) => var rest := Follow(pager, next, fuel - 1); (page.items + rest.0, rest.1)
  }

  /** Following from `offset` ends, within `fuel` pages, having seen exactly `want`. */
  predicate Sees<T(==)>(pager: nat -> Page<T>, offset: nat, fuel: nat, want: seq<T>) {
    Follow(pager, offset, fuel) == (want, true)
  }

  /** A pager that returns the next `n` rows and points past them while rows remain. */
  ghost predicate Faithful<T(!new)>(rows: seq<T>, n: nat, pager: nat -> Page<T>) {
    forall offset: nat ::
      var items := Select(rows, n, offset);
      pager(offset) == Page(items, if offset + |items| < |rows| then Some(offset + |items|) else None)
  }

  /** However many rows and whatever positive page size, every row comes once and in order. */
  lemma {:induction false} FollowSeesAll<T(!new)>(rows: seq<T>, n: nat, pager: nat -> Page<T>, offset: nat, fuel: nat)
    requires n > 0 && Faithful(rows, n, pager) && offset <= |rows| && fuel > |rows| - offset
    ensures Sees(pager, offset, fuel, rows[offset..])
    decreases fuel
  {
    var items := Select(rows, n, offset);
    assert pager(offset) == Page(items, if offset + |items| < |rows| then Some(offset + |items|) else None);
    if offset + |items| < |rows| {
      FollowSeesAll(rows, n, pager, offset + |items|, fuel - 1);
      assert items + rows[offset + |items|..] == rows[offset..];
    } else {
      assert items == rows[offset..];
    }
  }

  lemma TakeOfSelect<T>(rows: seq<T>, n: nat, offset: nat)
    ensures Take(Select(rows, n + 1, offset), n) == Select(rows, n, offset)
    ensures
      |Select(rows, n + 1, offset)| > n <==> offset + |Select(rows, n, offset)| < |rows| && |Select(rows, n, offset)| == n
  {
    var got, want := Take(Select(rows, n + 1, offset), n), Select(rows, n, offset);
    assert |got| == |want|;
    assert forall i :: 0 <= i < |want| ==> got[i] == want[i];
  }

  lemma SchedulesAreSeenOnce<T(!new)>(rows: seq<T>, limit: Option<int>)
    ensures Sees(offset => ScheduleList(rows, limit, offset), 0, |rows| + 1, rows)
  {
    var pager := (offset: nat) => ScheduleList(rows, limit, offset);
    var n := Clamped(limit);
    forall offset: nat ensures
        var items := Select(rows, n, offset);
        pager(offset) == Page(items, if offset + |items| < |rows| then Some(offset + |items|) else None)
    {
      TakeOfSelect(rows, n, offset);
    }
    FollowSeesAll(rows, n, pager, 0, |rows| + 1);
    assert rows[0..] == rows;
  }

  lemma BackendsAreSeenOnce<T(!new)>(rows: seq<T>, limit: nat)
    requires limit > 0
    ensures Sees(offset => PageBackends(rows, limit, offset), 0, |rows| + 1, rows)
  {
    var pager := (offset: nat) => PageBackends(rows, limit, offset);
    assert Faithful(rows, limit, pager);
    FollowSeesAll(rows, limit, pager, 0, |rows| + 1);
    assert rows[0..] == rows;
  }

  /** A zero limit never ends while there is a row. */
  lemma {:induction false} ZeroLimitNeverEnds<T(!new)>(rows: seq<T>, pager: nat -> Page<T>, fuel: nat)
    requires rows != [] && forall offset: nat :: pager(offset) == PageBackends(rows, 0, offset)
    ensures Follow(pager, 0, fuel) == ([], false)
  {
    if fuel > 0 {
      ZeroLimitNeverEnds(rows, pager, fuel - 1);
      assert pager(0) == Page([], Some(0));
      var none: seq<T> := [];
      assert none + Follow(pager, 0, fuel - 1).0 == none;
    }
  }

  /** At the full page size the probe row is clamped away: the first page claims to be the last. */
  lemma TaskProbeIsLost<T>(rows: seq<T>, limit: Option<int>, offset: nat)
    requires Clamped(limit) == MAX_LIMIT
    ensures TaskListPage(rows, limit, offset) == Page(Select(rows, MAX_LIMIT, offset), None)
  {
    var got := TaskList(rows, Some(MAX_LIMIT + 1), offset);
    assert got == Select(rows, MAX_LIMIT, offset);
    assert Take(got, MAX_LIMIT) == got;
  }

  lemma TasksBelowTheClamp<T(!new)>(rows: seq<T>, limit: Option<int>)
    requires Clamped(limit) < MAX_LIMIT
    ensures Sees(offset => TaskListPage(rows, limit, offset), 0, |rows| + 1, rows)
  {
    var pager := (offset: nat) => TaskListPage(rows, limit, offset);
    var n := Clamped(limit);
    forall offset: nat ensures
        var items := Select(rows, n, offset);
        pager(offset) == Page(items, if offset + |items| < |rows| then Some(offset + |items|) else None)
    {
      TakeOfSelect(rows, n, offset);
    }
    FollowSeesAll(rows, n, pager, 0, |rows| + 1);
    assert rows[0..] == rows;
  }

  /** Following task pages sees every row exactly when the limit is below 200 or one page holds them all. */
  lemma TasksAreSeenOnceIff<T(!new)>(rows: seq<T>, limit: Option<int>)
    ensures
      Sees(offset => TaskListPage(rows, limit, offset), 0, |rows| + 1, rows) <==>
      (limit.Some? ==> limit.value < 200) || |rows| <= 200
  {
    if Clamped(limit) < MAX_LIMIT {
      TasksBelowTheClamp(rows, limit);
    } else {
      var pager := (offset: nat) => TaskListPage(rows, limit, offset);
      TaskProbeIsLost(rows, limit, 0);
      assert Follow(pager, 0, |rows| + 1) == (Select(rows, MAX_LIMIT, 0), true);
      if |rows| <= MAX_LIMIT {
        assert Select(rows, MAX_LIMIT, 0) == rows;
      } else {
        assert |Select(rows, MAX_LIMIT, 0)| == MAX_LIMIT;
      }
    }
  }

  /** 201 tasks at the full page size: the client stops after the first page and never sees the last one. */
  lemma LastTaskIsLost(rows: seq<int>)
    requires |rows| == 201
    ensures Follow((offset: nat) => TaskListPage(rows, Some(200), offset), 0, 202) == (rows[..200], true)
  {
    var pager := (offset: nat) => TaskListPage(rows, Some(200), offset);
    TaskProbeIsLost(rows, Some(200), 0);
    assert pager(0) == Page(rows[..200], None);
  }
}
