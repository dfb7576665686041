/**
 Cron rules to absolute instants.  Instants are milliseconds; the time zone is any function that
 projects an instant to wall-clock fields (or to nothing), so daylight saving needs no special case.
 A field is its list of comma-separated parts, each number already converted; `None` is a token
 that is not a number.
 */
module Cron {
  import opened Wrappers

  const MINUTE: int := 60_000
  const YEAR: int := 366 * 24 * 60 * 60 * 1000
  const MAX_ADVANCE_STEPS: nat := 32

  datatype Wall = Wall(minute: int, hour: int, day: int, month: int, dow: int)

  type Projection = int -> Option<Wall>

  datatype Span =
    | All                                             // "*" or nothing before the slash
    | Bounds(lo: Option<nat>, hi: Option<nat>)        // "a-b"
    | From(lo: Option<nat>)                           // "a"

  datatype Part =
    | Star
    | Every(span: Span, step: Option<nat>)            // "span/step"
    | Range(lo: Option<nat>, hi: Option<nat>)         // "a-b"
    | Single(n: Option<nat>)

  type Field = seq<Part>

  /** A parsed expression: `None` is the wildcard. */
  datatype Fields = Fields(
    minutes: Option<set<int>>, hours: Option<set<int>>, doms: Option<set<int>>, months: Option<set<int>>,
    dows: Option<set<int>>)

  // ---------------------------------------------------------------- what a field denotes

  /** `v` is one of `a, a + step, ...` up to `b`. */
  ghost predicate InProgression(v: int, a: int, b: int, step: int) {
    v <= b && exists n: nat :: v == Term(a, step, n)
  }

  function Term(a: int, step: int, n: nat): int {
    a + n * step
  }

  /** The progression a part walks, if it walks one: first, last and step. */
  function Walk(p: Part, min: int, max: int): Option<(int, int, int)> {
    match p
    case Star => None
    case Single(None) => None
    case Single(Some(n)) => Some((n, n, 1))
    case Range(Some(a), Some(b)) => Some((a, b, 1))
    case Range(_, _) => None
    case Every(_, None) => None
    case Every(span, Some(step)) =>
      if step == 0 then None
      else
        match span
        case All => Some((min, max, step))
        case Bounds(Some(a), Some(b)) => Some((a, b, step))
        case Bounds(_, _) => None
        case From(Some(a)) => Some((a, max, step))
        case From(None) => None
  }

  ghost predicate PartDenotes(p: Part, min: int, max: int, v: int) {
    Walk(p, min, max).Some?
    && var (a, b, step) := Walk(p, min, max).value;
       0 < step && InProgression(v, a, b, step)
  }

  /** A field allows `v` if it has a wildcard part or some part walks over `v` within the bounds. */
  ghost predicate FieldAllows(field: Field, min: int, max: int, v: int) {
    Star in field || (min <= v <= max && exists p :: p in field && PartDenotes(p, min, max, v))
  }

  /** Day of week: `a/step` walks over `a` alone, and a walked 7 stands for Sunday, as does 0. */
  function DowWalk(p: Part): Option<(int, int, int)> {
    match p
    case Every(From(Some(a)), Some(step)) => if step == 0 then None else Some((a, a, step))
    case _ => Walk(p, 0, 6)
  }

  /** How a walked number is read: 7 as Sunday, and others modulo a week when `wrap`, after a slash. */
  function DowValue(w: int, wrap: bool): int {
    if w == 7 then 0 else if wrap then w % 7 else w
  }

  ghost predicate DowPartDenotes(p: Part, v: int) {
    DowWalk(p).Some?
    && var (a, b, step) := DowWalk(p).value;
       0 < step && exists w :: InProgression(w, a, b, step) && v == DowValue(w, p.Every?)
  }

  ghost predicate DowAllows(field: Field, v: int) {
    Star in field || exists p :: p in field && DowPartDenotes(p, v)
  }

  ghost predicate SetAllows(s: Option<set<int>>, v: int) {
    s.None? || v in s.value
  }

  /** A progression in arithmetic: within its bounds and a whole number of steps from its first. */
  lemma ProgressionIsModular(v: int, a: int, b: int, step: int)
    requires 0 < step
    ensures InProgression(v, a, b, step) <==> a <= v <= b && (v - a) % step == 0
  {
    if InProgression(v, a, b, step) {
      var n: nat :| v == Term(a, step, n);
      TermsGrow(a, step, 0, n);
      MultipleHasNoRest(n, step);
    }
    if a <= v <= b && (v - a) % step == 0 {
      var n: nat := (v - a) / step;
      assert v == Term(a, step, n);
    }
  }

  lemma MultipleHasNoRest(n: nat, step: int)
    requires 0 < step
    ensures n * step % step == 0
  {
    var x := n * step;
    var d := n - x / step;
    assert x % step == x - x / step * step == d * step;
    WholeSteps(d, step);
  }

  lemma WholeSteps(d: int, step: int)
    requires 0 < step
    ensures 1 <= d ==> step <= d * step
    ensures d <= -1 ==> d * step <= -step
  {
  }

  /** A list of parts allows what any of them allows. */
  lemma FieldIsUnion(field: Field, min: int, max: int, v: int)
    ensures FieldAllows(field, min, max, v) <==> exists i :: 0 <= i < |field| && FieldAllows([field[i]], min, max, v)
  {
    if Star in field {
      var i :| 0 <= i < |field| && field[i] == Star;
      assert FieldAllows([field[i]], min, max, v);
    } else if FieldAllows(field, min, max, v) {
      var p :| p in field && PartDenotes(p, min, max, v);
      var i :| 0 <= i < |field| && field[i] == p;
      assert p in [field[i]];
      assert FieldAllows([field[i]], min, max, v);
    }
    forall i | 0 <= i < |field| && FieldAllows([field[i]], min, max, v) ensures FieldAllows(field, min, max, v) {
      assert field[i] in field;
    }
  }

  lemma DowFieldIsUnion(field: Field, v: int)
    ensures DowAllows(field, v) <==> exists i :: 0 <= i < |field| && DowAllows([field[i]], v)
  {
    if Star in field {
      var i :| 0 <= i < |field| && field[i] == Star;
      assert DowAllows([field[i]], v);
    } else if DowAllows(field, v) {
      var p :| p in field && DowPartDenotes(p, v);
      var i :| 0 <= i < |field| && field[i] == p;
      assert p in [field[i]];
      assert DowAllows([field[i]], v);
    }
    forall i | 0 <= i < |field| && DowAllows([field[i]], v) ensures DowAllows(field, v) {
      assert field[i] in field;
    }
  }

  /** What each kind of part allows, in arithmetic: `*`, `n`, `a-b`, and with a step `*`, `a-b` and `a`. */
  lemma PartByArithmetic(p: Part, min: int, max: int, v: int)
    requires min <= v <= max
    ensures
      FieldAllows([p], min, max, v) <==>
        match p
        case Star => true
        case Single(Some(n)) => v == n
        case Range(Some(a), Some(b)) => a <= v <= b
        case Every(All, Some(step)) => 0 < step && (v - min) % step == 0
        case Every(Bounds(Some(a), Some(b)), Some(step)) => 0 < step && a <= v <= b && (v - a) % step == 0
        case Every(From(Some(a)), Some(step)) => 0 < step && a <= v && (v - a) % step == 0
        case _ => false
  {
    assert p in [p];
    if Walk(p, min, max).Some? {
      var (a, b, step) := Walk(p, min, max).value;
      ProgressionIsModular(v, a, b, step);
    }
  }

  /** The same for the day of the week, 0 to 6 from Sunday: a 7 is Sunday, and after a slash `a` stands alone. */
  lemma DowPartByArithmetic(p: Part, v: int)
    requires 0 <= v <= 6
    ensures
      DowAllows([p], v) <==>
        match p
        case Star => true
        case Single(Some(n)) => v == n || (v == 0 && n == 7)
        case Range(Some(a), Some(b)) => a <= v <= b || (v == 0 && a <= 7 <= b)
        case Every(All, Some(step)) => 0 < step && v % step == 0
        case Every(Bounds(Some(a), Some(b)), Some(step)) =>
          0 < step && exists w :: InProgression(w, a, b, step) && w % 7 == v
        case Every(From(Some(a)), Some(step)) => 0 < step && v == a % 7
        case _ => false
  {
    assert p in [p];
    if DowWalk(p).Some? {
      var (a, b, step) := DowWalk(p).value;
      forall w ensures InProgression(w, a, b, step) <==> a <= w <= b && (w - a) % step == 0 {
        ProgressionIsModular(w, a, b, step);
      }
      hide InProgression;
      assert InProgression(v, a, b, step) <==> a <= v <= b && (v - a) % step == 0;
      assert InProgression(a, a, b, step) <==> a <= b;
      assert InProgression(7, a, b, step) <==> a <= 7 <= b && (7 - a) % step == 0;
      assert DowAllows([p], v) <==> exists w :: InProgression(w, a, b, step) && v == DowValue(w, p.Every?);
    }
  }

  // ---------------------------------------------------------------- expanding a field

  method ExpandField(field: Field, min: int, max: int) returns (r: Option<set<int>>)
    requires 0 <= min <= max
    ensures r.None? <==> Star in field
    ensures forall v :: SetAllows(r, v) <==> FieldAllows(field, min, max, v)
  {
    var out: set<int> := {};
    for i := 0 to |field|
      invariant Star !in field[..i]
      invariant forall v :: v in out <==> min <= v <= max && exists p :: p in field[..i] && PartDenotes(p, min, max, v)
    {
      var part := field[i];
      assert field[..i + 1] == field[..i] + [part];
      if part.Star? {
        assert Star in field;
        return None;
      }
      ghost var before := out;
      if part.Every? {
        if part.step.Some? && part.step.value > 0 {
          var a: Option<int>, b: Option<int> := Some(min), Some(max);
          if part.span.Bounds? {
            a, b := part.span.lo, part.span.hi;
          } else if part.span.From? {
            a, b := part.span.lo, Some(max);
          }
          if a.Some? && b.Some? {
            out := WalkInto(out, a.value, b.value, part.step.value, min, max);
          }
        }
      } else if part.Range? {
        if part.lo.Some? && part.hi.Some? {
          out := WalkInto(out, part.lo.value, part.hi.value, 1, min, max);
        }
      } else if part.n.Some? {
        OneTerm(part.n.value);
        if min <= part.n.value <= max {
          out := out + {part.n.value};
        }
      }
      assert forall v :: v in out <==> v in before || (min <= v <= max && PartDenotes(part, min, max, v));
    }
    assert field[..|field|] == field;
    return Some(out);
  }

  /** `for (let v = a; v <= b; v += step) if (v >= min && v <= max) out.add(v)`. */
  method WalkInto(out: set<int>, a: int, b: int, step: int, min: int, max: int) returns (r: set<int>)
    requires 0 < step
    ensures forall v :: v in r <==> v in out || (min <= v <= max && InProgression(v, a, b, step))
  {
    r := out;
    var v := a;
    ghost var n: nat := 0;
    forall x | InProgression(x, a, b, step) ensures a <= x { NothingBefore(a, b, step, x); }
    while v <= b
      invariant v == Term(a, step, n)
      invariant forall x :: x in r <==> x in out || (min <= x <= max && x < v && InProgression(x, a, b, step))
      decreases b - v
    {
      TermsGrow(a, step, n, n);
      forall x | v <= x < v + step && InProgression(x, a, b, step) ensures x == v {
        NothingBetween(a, b, step, n, x);
      }
      if min <= v <= max {
        r := r + {v};
      }
      v, n := v + step, n + 1;
    }
  }

  /** Terms grow by `step`, so there is none strictly between two neighbours. */
  lemma TermsGrow(a: int, step: int, n: nat, m: nat)
    requires 0 < step
    ensures Term(a, step, n + 1) == Term(a, step, n) + step
    ensures n < m ==> Term(a, step, n) + step <= Term(a, step, m)
    ensures Term(a, step, m) < Term(a, step, n) ==> m < n
  {
    var d := m - n;
    assert Term(a, step, m) == Term(a, step, n) + d * step;
    if 1 <= d {
      assert d * step == step + (d - 1) * step;
    }
  }

  lemma OneTerm(a: int)
    ensures forall x :: InProgression(x, a, a, 1) <==> x == a
  {
    assert a == Term(a, 1, 0);
  }

  /** Past term `n` the progression goes on with term `n + 1`. */
  lemma NothingBetween(a: int, b: int, step: int, n: nat, x: int)
    requires 0 < step && InProgression(x, a, b, step)
    requires Term(a, step, n) <= x < Term(a, step, n + 1)
    ensures x == Term(a, step, n)
  {
    var m: nat :| x == Term(a, step, m);
    TermsGrow(a, step, n, m);
  }

  lemma NothingBefore(a: int, b: int, step: int, x: int)
    requires 0 < step && InProgression(x, a, b, step)
    ensures a <= x
  {
    var m: nat :| x == Term(a, step, m);
    TermsGrow(a, step, 0, m);
  }

  method ExpandDow(field: Field) returns (r: Option<set<int>>)
    ensures r.None? <==> Star in field
    ensures forall v :: SetAllows(r, v) <==> DowAllows(field, v)
  {
    var out: set<int> := {};
    for i := 0 to |field|
      invariant Star !in field[..i]
      invariant forall v :: v in out <==> exists p :: p in field[..i] && DowPartDenotes(p, v)
    {
      var part := field[i];
      assert field[..i + 1] == field[..i] + [part];
      if part.Star? {
        assert Star in field;
        return None;
      }
      ghost var before := out;
      if part.Every? {
        if part.step.Some? && part.step.value > 0 {
          var a: Option<int>, b: Option<int> := Some(0), Some(6);
          if part.span.Bounds? {
            a, b := part.span.lo, part.span.hi;
          } else if part.span.From? {
            a, b := part.span.lo, part.span.lo;
          }
          if a.Some? && b.Some? {
            out := DowWalkInto(out, a.value, b.value, part.step.value, true);
          }
        }
      } else if part.Range? {
        if part.lo.Some? && part.hi.Some? {
          out := DowWalkInto(out, part.lo.value, part.hi.value, 1, false);
        }
      } else if part.n.Some? {
        out := out + {if part.n.value == 7 then 0 else part.n.value};
        OneTerm(part.n.value);
        assert InProgression(part.n.value, part.n.value, part.n.value, 1);
        assert DowPartDenotes(part, DowValue(part.n.value, false));
      }
      assert forall v :: v in out <==> v in before || DowPartDenotes(part, v);
    }
    assert field[..|field|] == field;
    return Some(out);
  }

  /** `for (let v = a; v <= b; v += step) out.add(v === 7 ? 0 : v)`, with `v % 7` when `wrap`. */
  method DowWalkInto(out: set<int>, a: int, b: int, step: int, wrap: bool) returns (r: set<int>)
    requires 0 < step
    ensures forall v :: v in r <==>
      v in out || exists w :: InProgression(w, a, b, step) && v == DowValue(w, wrap)
  {
    r := out;
    var v := a;
    ghost var n: nat := 0;
    forall x | InProgression(x, a, b, step) ensures a <= x { NothingBefore(a, b, step, x); }
    while v <= b
      invariant v == Term(a, step, n)
      invariant forall x :: x in r <==>
        x in out || exists w :: w < v && InProgression(w, a, b, step) && x == DowValue(w, wrap)
      decreases b - v
    {
      TermsGrow(a, step, n, n);
      forall x | v <= x < v + step && InProgression(x, a, b, step) ensures x == v {
        NothingBetween(a, b, step, n, x);
      }
      assert InProgression(v, a, b, step);
      r := r + {if v == 7 then 0 else if wrap then v % 7 else v};
      v, n := v + step, n + 1;
    }
  }

  // ---------------------------------------------------------------- matching and the minute walk

  /** `parseCron`: exactly five fields. */
  method ParseCron(expression: seq<Field>) returns (r: Option<Fields>)
    ensures r.Some? <==> |expression| == 5
    ensures r.Some? ==> forall w :: MatchesFields(r.value, w) <==> RuleAllows(expression, w)
  {
    if |expression| != 5 {
      return None;
    }
    var minutes := ExpandField(expression[0], 0, 59);
    var hours := ExpandField(expression[1], 0, 23);
    var doms := ExpandField(expression[2], 1, 31);
    var months := ExpandField(expression[3], 1, 12);
    var dows := ExpandDow(expression[4]);
    r := Some(Fields(minutes, hours, doms, months, dows));
  }

  predicate MatchesFields(f: Fields, w: Wall) {
    && (f.minutes.None? || w.minute in f.minutes.value)
    && (f.hours.None? || w.hour in f.hours.value)
    && (f.months.None? || w.month in f.months.value)
    && (f.doms.None? || w.day in f.doms.value)
    && (f.dows.None? || w.dow in f.dows.value)
  }

  /** All five fields of the rule allow the wall clock. */
  ghost predicate RuleAllows(expression: seq<Field>, w: Wall)
    requires |expression| == 5
  {
    && FieldAllows(expression[0], 0, 59, w.minute)
    && FieldAllows(expression[1], 0, 23, w.hour)
    && FieldAllows(expression[2], 1, 31, w.day)
    && FieldAllows(expression[3], 1, 12, w.month)
    && DowAllows(expression[4], w.dow)
  }

  /** A rule of five numbers allows exactly the wall clock with those numbers, and none if one is out of its range. */
  lemma PlainRuleAllows(minute: nat, hour: nat, day: nat, month: nat, dow: nat, w: Wall)
    requires 0 <= w.dow <= 6
    ensures
      var rule := [[Single(Some(minute))], [Single(Some(hour))], [Single(Some(day))], [Single(Some(month))], [Single(Some(dow))]];
      RuleAllows(rule, w) <==>
        && w.minute == minute <= 59 && w.hour == hour <= 23 && 1 <= w.day == day <= 31 && 1 <= w.month == month <= 12
        && (w.dow == dow || (w.dow == 0 && dow == 7))
  {
    hide FieldAllows, DowAllows;
    SingleAllows(minute, 0, 59, w.minute);
    SingleAllows(hour, 0, 23, w.hour);
    SingleAllows(day, 1, 31, w.day);
    SingleAllows(month, 1, 12, w.month);
    DowPartByArithmetic(Single(Some(dow)), w.dow);
  }

  lemma SingleAllows(n: nat, min: int, max: int, v: int)
    ensures FieldAllows([Single(Some(n))], min, max, v) <==> min <= v <= max && v == n
  {
    if min <= v <= max {
      PartByArithmetic(Single(Some(n)), min, max, v);
    }
  }

  /** The instant projects to a wall clock the rule allows. */
  ghost predicate Due(expression: seq<Field>, zone: Projection, t: int) {
    |expression| == 5 && zone(t).Some? && RuleAllows(expression, zone(t).value)
  }

  /** The start of the next full minute. */
  function NextMinute(after: int): (t: int)
    ensures after < t <= after + MINUTE && t % MINUTE == 0
  {
    (after / MINUTE) * MINUTE + MINUTE
  }

  /** `t` is a minute the walk from `after` visits. */
  ghost predicate InWindow(t: int, after: int) {
    t % MINUTE == 0 && NextMinute(after) <= t <= NextMinute(after) + YEAR
  }

  /** The least due minute strictly after `after`, if there is one within the window. */
  ghost predicate IsNext(expression: seq<Field>, zone: Projection, after: int, r: Option<int>) {
    match r
    case Some(t) =>
      && InWindow(t, after) && Due(expression, zone, t)
      && forall u :: u % MINUTE == 0 && after < u < t ==> !Due(expression, zone, u)
    case None => forall u :: InWindow(u, after) ==> !Due(expression, zone, u)
  }

  lemma NextIsUnique(expression: seq<Field>, zone: Projection, after: int, r: Option<int>, q: Option<int>)
    requires IsNext(expression, zone, after, r) && IsNext(expression, zone, after, q)
    ensures r == q
  {
    if r.Some? {
      assert InWindow(r.value, after) && Due(expression, zone, r.value);
    }
    if q.Some? {
      assert InWindow(q.value, after) && Due(expression, zone, q.value);
    }
  }

  /** The first due minute from `t` on, up to `limit`. */
  ghost function FirstDue(expression: seq<Field>, zone: Projection, t: int, limit: int): Option<int>
    decreases limit - t
  {
    if t > limit then None
    else if Due(expression, zone, t) then Some(t)
    else FirstDue(expression, zone, t + MINUTE, limit)
  }

  ghost function NextRun(expression: seq<Field>, zone: Projection, after: int): Option<int> {
    FirstDue(expression, zone, NextMinute(after), NextMinute(after) + YEAR)
  }

  lemma {:induction false} FirstDueIsLeast(expression: seq<Field>, zone: Projection, t: int, limit: int)
    requires t % MINUTE == 0
    ensures match FirstDue(expression, zone, t, limit)
      case Some(d) =>
        && d % MINUTE == 0 && t <= d <= limit && Due(expression, zone, d)
        && forall u :: u % MINUTE == 0 && t <= u < d ==> !Due(expression, zone, u)
      case None => forall u :: u % MINUTE == 0 && t <= u <= limit ==> !Due(expression, zone, u)
    decreases limit - t
  {
    hide Due;
    if t <= limit && !Due(expression, zone, t) {
      FirstDueIsLeast(expression, zone, t + MINUTE, limit);
      forall u | u % MINUTE == 0 && t <= u && u != t ensures t + MINUTE <= u { }
    }
  }

  /** The next run is the least due minute of the window, and nothing else is. */
  lemma NextRunIsNext(expression: seq<Field>, zone: Projection, after: int)
    ensures IsNext(expression, zone, after, NextRun(expression, zone, after))
    ensures forall r :: IsNext(expression, zone, after, r) ==> r == NextRun(expression, zone, after)
  {
    hide Due;
    FirstDueIsLeast(expression, zone, NextMinute(after), NextMinute(after) + YEAR);
    forall r | IsNext(expression, zone, after, r) ensures r == NextRun(expression, zone, after) {
      NextIsUnique(expression, zone, after, r, NextRun(expression, zone, after));
    }
  }

  /** In milliseconds: the next run is the first due full minute after `after`, looked for over 366 days. */
  lemma NextRunWithinAYear(expression: seq<Field>, zone: Projection, after: int)
    ensures
      match NextRun(expression, zone, after)
      case Some(t) =>
        && t % 60_000 == 0 && after < t <= after + 60_000 + 366 * 86_400_000 && Due(expression, zone, t)
        && forall u :: u % 60_000 == 0 && after < u < t ==> !Due(expression, zone, u)
      case None =>
        forall u :: u % 60_000 == 0 && after < u <= after + 366 * 86_400_000 ==> !Due(expression, zone, u)
  {
    hide Due, NextRun;
    NextRunIsNext(expression, zone, after);
    forall u | u % 60_000 == 0 && after < u <= after + 366 * 86_400_000 ensures InWindow(u, after) {
    }
  }

  lemma BadRuleIsNeverDue(expression: seq<Field>, zone: Projection, after: int)
    requires |expression| != 5
    ensures IsNext(expression, zone, after, None)
  {
  }

  method NextCronRunAfter(expression: seq<Field>, zone: Projection, after: int) returns (r: Option<int>)
    ensures IsNext(expression, zone, after, r)
    ensures r == NextRun(expression, zone, after)
  {
    hide RuleAllows, IsNext, MatchesFields;
    NextRunIsNext(expression, zone, after);
    var parsed := ParseCron(expression);
    if parsed.None? {
      BadRuleIsNeverDue(expression, zone, after);
      return None;
    }
    var fields := parsed.value;
    var t := (after / MINUTE) * MINUTE + MINUTE;
    var limit := t + YEAR;
    while t <= limit
      invariant FirstDue(expression, zone, t, limit) == NextRun(expression, zone, after)
      decreases limit - t
    {
      var parts := zone(t);
      if parts.Some? && MatchesFields(fields, parts.value) {
        return Some(t);
      }
      t := t + MINUTE;
    }
    return None;
  }

  // ---------------------------------------------------------------- advancing the cursor

  datatype Misfire = Skip | RunOnce | CatchUp

  /** `n` next runs in a row. */
  ghost function Iterate(expression: seq<Field>, zone: Projection, from: int, n: nat): Option<int>
    decreases n
  {
    if n == 0 then Some(from)
    else
      match NextRun(expression, zone, from)
      case None => None
      case Some(t) => Iterate(expression, zone, t, n - 1)
  }

  /** The due minutes in `(from, now]`. */
  ghost function Backlog(expression: seq<Field>, zone: Projection, from: int, now: int): set<int> {
    set u: int | from < u <= now && u % MINUTE == 0 && Due(expression, zone, u)
  }

  /** Where `run_once` and `skip` put the cursor: past the backlog, in at most 33 next runs. */
  ghost function Advance(expression: seq<Field>, zone: Projection, from: int, now: int): Option<int> {
    Iterate(expression, zone, from, Min(|Backlog(expression, zone, from, now)| + 1, MAX_ADVANCE_STEPS + 1))
  }

  /** The next run takes one minute off the backlog, or there was none to take. */
  lemma BacklogStep(expression: seq<Field>, zone: Projection, from: int, now: int)
    requires NextRun(expression, zone, from).Some?
    ensures var t := NextRun(expression, zone, from).value;
      && from < t
      && (t <= now ==>
            && Backlog(expression, zone, from, now) == Backlog(expression, zone, t, now) + {t}
            && |Backlog(expression, zone, from, now)| == |Backlog(expression, zone, t, now)| + 1)
      && (t > now ==> Backlog(expression, zone, from, now) == {})
  {
    hide Due;
    NextRunIsNext(expression, zone, from);
    var t := NextRun(expression, zone, from).value;
    if t <= now {
      assert Backlog(expression, zone, from, now) == Backlog(expression, zone, t, now) + {t};
      assert t !in Backlog(expression, zone, t, now);
    }
  }

  /** The authoritative cursor after a claimed occurrence. */
  ghost function Authoritative(expression: seq<Field>, zone: Projection, from: int, now: int, misfire: Misfire,
                               enqueuedCount: int): Option<int>
  {
    if misfire.CatchUp?
    then Iterate(expression, zone, from, Min(MAX_ADVANCE_STEPS, Max(1, enqueuedCount)))
    else Advance(expression, zone, from, now)
  }

  /** `run_once` and `skip`: up to 32 next runs inside the backlog, and one more. */
  method AdvancePast(expression: seq<Field>, zone: Projection, from: int, now: int) returns (r: Option<int>)
    ensures r == Advance(expression, zone, from, now)
  {
    hide Due, NextRun, Backlog;
    var cursor := from;
    ghost var b := |Backlog(expression, zone, from, now)|;
    ghost var steps: nat := Min(b + 1, MAX_ADVANCE_STEPS + 1);
    for i := 0 to MAX_ADVANCE_STEPS
      invariant i < steps && |Backlog(expression, zone, cursor, now)| == b - i
      invariant Iterate(expression, zone, cursor, steps - i) == Advance(expression, zone, from, now)
    {
      var next := NextCronRunAfter(expression, zone, cursor);
      if next.None? {
        return None;
      }
      BacklogStep(expression, zone, cursor, now);
      if next.value > now {
        NoBacklog(expression, zone, cursor, now);
        return next;
      }
      cursor := next.value;
    }
    r := NextCronRunAfter(expression, zone, cursor);
  }

  lemma NoBacklog(expression: seq<Field>, zone: Projection, from: int, now: int)
    requires Backlog(expression, zone, from, now) == {}
    ensures |Backlog(expression, zone, from, now)| == 0
  {
  }

  /** `catch_up`: one next run for each task enqueued, within the cap. */
  method CatchUpBy(expression: seq<Field>, zone: Projection, from: int, steps: nat) returns (r: Option<int>)
    requires steps > 0
    ensures r == Iterate(expression, zone, from, steps)
  {
    hide Due, NextRun;
    var cursor := from;
    r := None;
    for i := 0 to steps
      invariant i > 0 ==> r == Some(cursor)
      invariant Iterate(expression, zone, cursor, steps - i) == Iterate(expression, zone, from, steps)
    {
      r := NextCronRunAfter(expression, zone, cursor);
      if r.None? {
        return None;
      }
      cursor := r.value;
    }
  }

  method AuthoritativeNextAfterOccurrence(expression: seq<Field>, zone: Projection, scheduledFor: Option<int>,
                                          now: int, misfire: Misfire, enqueuedCount: int)
    returns (r: Option<int>)
    ensures scheduledFor.None? ==> r.None?
    ensures scheduledFor.Some? ==>
      r == Authoritative(expression, zone, scheduledFor.value, now, misfire, enqueuedCount)
  {
    hide Due, NextRun, Iterate, Advance;
    if scheduledFor.None? {
      return None;
    }
    if misfire.CatchUp? {
      r := CatchUpBy(expression, zone, scheduledFor.value, Min(MAX_ADVANCE_STEPS, Max(1, enqueuedCount)));
    } else {
      r := AdvancePast(expression, zone, scheduledFor.value, now);
    }
  }

  lemma {:induction false} IterateAdds(expression: seq<Field>, zone: Projection, from: int, j: nat, k: nat)
    ensures match Iterate(expression, zone, from, j)
      case None => Iterate(expression, zone, from, j + k).None?
      case Some(t) => Iterate(expression, zone, from, j + k) == Iterate(expression, zone, t, k)
    decreases j
  {
    hide NextRun;
    if j != 0 && NextRun(expression, zone, from).Some? {
      IterateAdds(expression, zone, NextRun(expression, zone, from).value, j - 1, k);
    }
  }

  /** `catch_up` by `j` and then by `k` is `catch_up` by `j + k`, as long as no cap cuts in. */
  lemma CatchUpAdds(expression: seq<Field>, zone: Projection, from: int, now: int, j: int, k: int)
    requires 1 <= j && 1 <= k && j + k <= 32
    ensures
      match Authoritative(expression, zone, from, now, CatchUp, j)
      case None => Authoritative(expression, zone, from, now, CatchUp, j + k).None?
      case Some(t) =>
        Authoritative(expression, zone, from, now, CatchUp, j + k) == Authoritative(expression, zone, t, now, CatchUp, k)
  {
    hide Iterate, Advance;
    IterateAdds(expression, zone, from, j, k);
  }

  /** After `n` runs, all still inside the backlog, `n` minutes of it are gone. */
  lemma {:induction false} BacklogAfter(expression: seq<Field>, zone: Projection, from: int, now: int, n: nat)
    requires Iterate(expression, zone, from, n).Some?
    ensures var b, t := |Backlog(expression, zone, from, now)|, Iterate(expression, zone, from, n).value;
      && from <= t
      && (n <= b ==> |Backlog(expression, zone, t, now)| == b - n && (0 < n ==> t <= now))
      && (n == b + 1 ==> now < t)
    decreases n
  {
    hide NextRun, Due, Backlog;
    if n != 0 {
      BacklogStep(expression, zone, from, now);
      BacklogAfter(expression, zone, NextRun(expression, zone, from).value, now, n - 1);
    }
  }

  /** The last step out of the backlog is the next run after `now`. */
  lemma {:induction false} LeavingTheBacklog(expression: seq<Field>, zone: Projection, from: int, now: int)
    requires from <= now
    requires Iterate(expression, zone, from, |Backlog(expression, zone, from, now)| + 1).Some?
    ensures Iterate(expression, zone, from, |Backlog(expression, zone, from, now)| + 1) == NextRun(expression, zone, now)
    decreases now - from
  {
    hide Due;
    var t := NextRun(expression, zone, from).value;
    BacklogStep(expression, zone, from, now);
    if t <= now {
      LeavingTheBacklog(expression, zone, t, now);
    } else {
      NextRunIsNext(expression, zone, from);
      NextRunIsNext(expression, zone, now);
      assert IsNext(expression, zone, now, Some(t)) by {
        assert InWindow(t, from) && Due(expression, zone, t);
        assert NextMinute(from) <= NextMinute(now);
      }
    }
  }

  /** One advance leaves the backlog exactly when it holds at most 32 minutes, and then lands on the next run. */
  lemma AdvanceLeavesBacklog(expression: seq<Field>, zone: Projection, from: int, now: int)
    requires from <= now && Advance(expression, zone, from, now).Some?
    ensures var b, t := |Backlog(expression, zone, from, now)|, Advance(expression, zone, from, now);
      && (now < t.value <==> b <= 32)
      && (b <= 32 ==> t == NextRun(expression, zone, now))
  {
    hide NextRun, Due, Backlog;
    var b := |Backlog(expression, zone, from, now)|;
    BacklogAfter(expression, zone, from, now, Min(b + 1, MAX_ADVANCE_STEPS + 1));
    if b <= MAX_ADVANCE_STEPS {
      LeavingTheBacklog(expression, zone, from, now);
    }
  }

  /** `k` advances in a row with the same `now`. */
  ghost function Advances(expression: seq<Field>, zone: Projection, from: int, now: int, k: nat): Option<int>
    decreases k
  {
    if k == 0 then Some(from)
    else
      match Advance(expression, zone, from, now)
      case None => None
      case Some(t) => Advances(expression, zone, t, now, k - 1)
  }

  /** How many advances a backlog of `b` minutes takes: `(b + 1) / 33`, rounded up. */
  function Calls(b: nat): nat {
    (b + 33) / 33
  }

  /** Repeated advances pass `now` in exactly `Calls(b)` calls, and arrive at the next run after `now`. */
  lemma {:induction false} RepeatedAdvances(expression: seq<Field>, zone: Projection, from: int, now: int, k: nat)
    requires from <= now
    requires Advances(expression, zone, from, now, Calls(|Backlog(expression, zone, from, now)|)).Some?
    requires 1 <= k <= Calls(|Backlog(expression, zone, from, now)|)
    ensures Advances(expression, zone, from, now, k).Some?
    ensures now < Advances(expression, zone, from, now, k).value <==> k == Calls(|Backlog(expression, zone, from, now)|)
    ensures k == Calls(|Backlog(expression, zone, from, now)|) ==>
      Advances(expression, zone, from, now, k) == NextRun(expression, zone, now)
    decreases k
  {
    hide NextRun, Due, Backlog, Iterate;
    var b := |Backlog(expression, zone, from, now)|;
    AdvanceLeavesBacklog(expression, zone, from, now);
    if MAX_ADVANCE_STEPS < b {
      var t := Advance(expression, zone, from, now).value;
      BacklogAfter(expression, zone, from, now, MAX_ADVANCE_STEPS + 1);
      assert Calls(b) == Calls(|Backlog(expression, zone, t, now)|) + 1;
      if k > 1 {
        RepeatedAdvances(expression, zone, t, now, k - 1);
      }
    }
  }

  lemma {:induction false} IterateGrows(expression: seq<Field>, zone: Projection, from: int, n: nat)
    requires 1 <= n && Iterate(expression, zone, from, n).Some?
    ensures from < Iterate(expression, zone, from, n).value
    decreases n
  {
    hide NextRun;
    NextRunIsNext(expression, zone, from);
    var t := NextRun(expression, zone, from).value;
    if n > 1 {
      IterateGrows(expression, zone, t, n - 1);
    }
  }

  /** Whatever the policy, the cursor moves strictly forward or is cleared. */
  lemma AuthoritativeGrows(expression: seq<Field>, zone: Projection, from: int, now: int, misfire: Misfire,
                           enqueuedCount: int)
    requires Authoritative(expression, zone, from, now, misfire, enqueuedCount).Some?
    ensures from < Authoritative(expression, zone, from, now, misfire, enqueuedCount).value
  {
    hide NextRun, Backlog;
    var n := if misfire.CatchUp? then Min(MAX_ADVANCE_STEPS, Max(1, enqueuedCount))
             else Min(|Backlog(expression, zone, from, now)| + 1, MAX_ADVANCE_STEPS + 1);
    IterateGrows(expression, zone, from, n);
  }

  // ---------------------------------------------------------------- a backlog one advance does not leave

  const EVERY_MINUTE: seq<Field> := [[Star], [Star], [Star], [Star], [Star]]

  /** A projection such as every time zone has: each instant has wall-clock fields. */
  ghost predicate Total(zone: Projection) {
    forall t :: zone(t).Some?
  }

  lemma EveryMinuteRuns(zone: Projection, from: int)
    requires from % MINUTE == 0 && Total(zone)
    ensures NextRun(EVERY_MINUTE, zone, from) == Some(from + MINUTE)
  {
    assert Due(EVERY_MINUTE, zone, from + MINUTE);
    NextRunIsNext(EVERY_MINUTE, zone, from);
    assert IsNext(EVERY_MINUTE, zone, from, Some(from + MINUTE));
  }

  lemma {:induction false} EveryMinuteIterates(zone: Projection, from: int, n: nat)
    requires from % MINUTE == 0 && Total(zone)
    ensures Iterate(EVERY_MINUTE, zone, from, n) == Some(from + n * MINUTE)
    ensures |Backlog(EVERY_MINUTE, zone, from, from + n * MINUTE)| == n
    decreases n
  {
    hide NextRun, Due;
    EveryMinuteRuns(zone, from);
    BacklogStep(EVERY_MINUTE, zone, from, from + n * MINUTE);
    if n > 0 {
      EveryMinuteIterates(zone, from + MINUTE, n - 1);
    }
  }

  /**
   The misfire table promises a cursor past the whole backlog.  A rule that is due every minute and 33
   minutes behind is a counterexample in every time zone: one advance stops at `now` itself.
   */
  lemma BacklogOutlastsOneAdvance(zone: Projection, from: int)
    requires Total(zone) && from % MINUTE == 0
    ensures Advance(EVERY_MINUTE, zone, from, from + 33 * MINUTE) == Some(from + 33 * MINUTE)
  {
    hide NextRun, Due, Iterate, Backlog;
    EveryMinuteIterates(zone, from, 33);
  }
}
