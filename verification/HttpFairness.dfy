/**
 Fairness of the two gates of the HTTP client over whole runs: whoever queues is overtaken by nobody,
 and is granted at the latest when as many permits have come back as stood before it, and one more.
 */
module HttpFairness {
  import opened HttpPool
  import opened HttpRuns

  /** The gate of one origin, or the global one. */
  datatype Which = OriginGate(k: OriginKey) | GlobalGate

  ghost function Line(s: System, g: Which): seq<nat> {
    match g
    case OriginGate(k) => if k in s.store.pools then s.store.pools[k].gate.waiting else []
    case GlobalGate => s.globalGate.waiting
  }

  /** Request `r` is queued at `g`. */
  ghost predicate Waits(s: System, g: Which, r: nat) {
    match g
    case OriginGate(k) => At(s, r, AwaitOrigin(false)) && s.requests[r].origin == k
    case GlobalGate => At(s, r, AwaitGlobal(false))
  }

  /** The event hands a permit of `g` back. */
  ghost predicate Returns(s: System, e: Event, g: Which)
    requires WellDefined(s, e)
  {
    match g
    case OriginGate(k) => e.ReleaseOrigin? && s.requests[e.r].origin == k
    case GlobalGate => e.ReleaseGlobal?
  }

  /** How many stand before `r`. */
  function Place(line: seq<nat>, r: nat): nat
    requires r in line
  {
    if line[0] == r then 0 else 1 + Place(line[1..], r)
  }

  lemma {:induction false} PlaceIsIndex(line: seq<nat>, r: nat)
    requires r in line
    ensures Place(line, r) < |line| && line[Place(line, r)] == r
    ensures r !in line[..Place(line, r)]
  {
    if line[0] != r {
      PlaceIsIndex(line[1..], r);
      assert line[..Place(line, r)] == [line[0]] + line[1..][..Place(line[1..], r)];
    }
  }

  lemma {:induction false} PlaceBehindArrival(line: seq<nat>, x: nat, r: nat)
    requires r in line
    ensures r in line + [x] && Place(line + [x], r) == Place(line, r)
  {
    assert (line + [x])[0] == line[0];
    if line[0] != r {
      PlaceBehindArrival(line[1..], x, r);
      assert (line + [x])[1..] == line[1..] + [x];
    }
  }

  lemma {:induction false} PlaceAfterCancel(line: seq<nat>, x: nat, r: nat)
    requires r in line && r != x
    ensures r in Without(line, x) && Place(Without(line, x), r) <= Place(line, r)
  {
    if line[0] != r {
      PlaceAfterCancel(line[1..], x, r);
      var rest := Without(line[1..], x);
      assert line[0] != x ==> ([line[0]] + rest)[1..] == rest;
    }
  }

  /** Arrivals queue behind, cancellations close up, a permit coming back serves the first, and nothing else moves the line. */
  ghost predicate Advances(s: System, e: Event, g: Which, t: System)
    requires WellDefined(s, e)
  {
    var before, after := Line(s, g), Line(t, g);
    if Returns(s, e, g) then before != [] && after == before[1..]
    else after == before || (exists x :: after == before + [x])
         || ((e.CancelOrigin? || e.CancelGlobal?) && after == Without(before, e.r))
  }

  lemma WaiterIsInLine(s: System, g: Which, r: nat)
    requires Inv(s) && Waits(s, g, r)
    ensures r in Line(s, g)
    ensures g.OriginGate? ==> g.k in s.store.pools
  {
    hide ReserveOk, ConnectionsOk, Sound;
    if g.OriginGate? {
      assert r in OriginQueue(s.requests, g.k);
    } else {
      assert r in GlobalQueue(s.requests);
    }
  }

  lemma FinishKeepsGates(s: System, e: Event, k: OriginKey)
    requires Inv(s) && WellDefined(s, e) && e.Finish? && k in s.store.pools && k in Apply(s, e).store.pools
    ensures Apply(s, e).store.pools[k].gate == s.store.pools[k].gate
  {
    hide LeasesOk, OriginGatesOk, GlobalGateOk, ReserveOk, ConnectionsOk, Sound;
    if e.keepAlive {
      var c := s.requests[e.r].phase.conn.(reusable := true);
      var home := s.requests[e.r].origin;
      var vk, vi: nat, m :|
        MadeRoom(s.options, s.store, e.now, vk, vi, m) && home in m.pools && Returned(s, e) == Push(m, home, c, e.now);
      RoomKeepsPool(s, e.r, e.now, vk, vi, m);
    }
  }

  lemma OriginLineAdvances(s: System, e: Event, k: OriginKey)
    requires Inv(s) && WellDefined(s, e) && k in s.store.pools && k in Apply(s, e).store.pools
    requires Line(s, OriginGate(k)) != []
    ensures Advances(s, e, OriginGate(k), Apply(s, e))
  {
    hide LeasesOk, OriginGatesOk, GlobalGateOk, ReserveOk, ConnectionsOk, Sound;
    if e.Finish? {
      FinishKeepsGates(s, e, k);
      hide Apply;
    }
  }

  lemma GlobalLineAdvances(s: System, e: Event)
    requires WellDefined(s, e) && Line(s, GlobalGate) != []
    ensures Advances(s, e, GlobalGate, Apply(s, e))
  {
  }

  lemma RequestStays(s: System, e: Event, g: Which, r: nat)
    requires Inv(s) && WellDefined(s, e) && Waits(s, g, r) && Waits(Apply(s, e), g, r)
    ensures Advances(s, e, g, Apply(s, e)) && r in Line(s, g) && r in Line(Apply(s, e), g)
  {
    StepKeepsInv(s, e);
    WaiterIsInLine(s, g, r);
    WaiterIsInLine(Apply(s, e), g, r);
    hide Inv, Apply, Advances, WellDefined, Waits;
    match g
    case OriginGate(k) => OriginLineAdvances(s, e, k);
    case GlobalGate => GlobalLineAdvances(s, e);
  }

  /** One event never sets a waiter back, and a permit coming back brings it one place forward. */
  lemma WaiterAdvances(s: System, e: Event, g: Which, r: nat)
    requires Inv(s) && WellDefined(s, e) && Waits(s, g, r) && Waits(Apply(s, e), g, r)
    ensures r in Line(s, g) && r in Line(Apply(s, e), g)
    ensures Place(Line(Apply(s, e), g), r) + (if Returns(s, e, g) then 1 else 0) <= Place(Line(s, g), r)
  {
    RequestStays(s, e, g, r);
    NotCancelled(s, e, g, r);
    hide Inv, Apply, WellDefined, Waits, Returns, Line;
    var before, after := Line(s, g), Line(Apply(s, e), g);
    if Returns(s, e, g) {
      StepKeepsInv(s, e);
      NoTwins(s, g);
      HeadIsServed(before, r);
    } else if after == before {
    } else if x: nat :| after == before + [x] {
      PlaceBehindArrival(before, x, r);
    } else {
      PlaceAfterCancel(before, e.r, r);
    }
  }

  lemma NotCancelled(s: System, e: Event, g: Which, r: nat)
    requires WellDefined(s, e) && Waits(s, g, r) && Waits(Apply(s, e), g, r)
    ensures e.CancelOrigin? || e.CancelGlobal? ==> e.r != r
  {
  }

  lemma NoTwins(s: System, g: Which)
    requires Inv(s)
    ensures NoDup(Line(s, g))
  {
    hide ReserveOk, ConnectionsOk, Sound;
  }

  lemma HeadIsServed(line: seq<nat>, r: nat)
    requires NoDup(line) && line != [] && r in line && r in line[1..]
    ensures Place(line[1..], r) + 1 == Place(line, r)
  {
    PlaceIsIndex(line[1..], r);
  }

  // ---------------------------------------------------------------- over whole runs

  /** `r` is queued at `g` in every state of the run. */
  ghost predicate WaitsThrough(s: System, es: seq<Event>, t: System, g: Which, r: nat)
    requires IsRun(s, es, t)
    decreases |es|
  {
    Waits(s, g, r) && (es != [] ==> WaitsThrough(Apply(s, es[0]), es[1..], t, g, r))
  }

  /** How many permits of `g` come back in the run. */
  ghost function Served(s: System, es: seq<Event>, t: System, g: Which): nat
    requires IsRun(s, es, t)
    decreases |es|
  {
    if es == [] then 0
    else (if Returns(s, es[0], g) then 1 else 0) + Served(Apply(s, es[0]), es[1..], t, g)
  }

  /**
   From any reachable state and through any run in which it stays queued, a request never falls back,
   and every permit that comes back to its gate brings it one place forward: with `n` before it, it is
   granted at the latest by the permit that comes back after `n` others.
   */
  lemma {:induction false} WaitersAreServedInOrder(s: System, es: seq<Event>, t: System, g: Which, r: nat)
    requires Inv(s) && IsRun(s, es, t) && WaitsThrough(s, es, t, g, r)
    ensures r in Line(s, g) && r in Line(t, g)
    ensures Place(Line(t, g), r) + Served(s, es, t, g) <= Place(Line(s, g), r)
    decreases |es|
  {
    hide Inv, Apply, Waits, Returns, Line, Place;
    if es == [] {
      WaiterIsInLine(s, g, r);
    } else {
      var u := Apply(s, es[0]);
      StepKeepsInv(s, es[0]);
      WaitsFirst(u, es[1..], t, g, r);
      WaiterAdvances(s, es[0], g, r);
      WaitersAreServedInOrder(u, es[1..], t, g, r);
    }
  }

  lemma WaitsFirst(s: System, es: seq<Event>, t: System, g: Which, r: nat)
    requires IsRun(s, es, t) && WaitsThrough(s, es, t, g, r)
    ensures Waits(s, g, r)
  {
  }

  /** So in any run of the client, no more permits come back to a gate while `r` is queued than stood before it. */
  lemma OvertakingIsBounded(i: System, arrivals: seq<Event>, s: System, es: seq<Event>, t: System, g: Which, r: nat)
    requires Initial(i) && IsRun(i, arrivals, s) && IsRun(s, es, t) && WaitsThrough(s, es, t, g, r)
    ensures r in Line(s, g) && Served(s, es, t, g) <= Place(Line(s, g), r) < |Line(s, g)|
  {
    InitialInv(i);
    RunKeepsInv(i, arrivals, s);
    WaitersAreServedInOrder(s, es, t, g, r);
    PlaceIsIndex(Line(s, g), r);
  }
}
