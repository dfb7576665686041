/** Coordinated Universal Time as a projection, and the rule for 29 February under it. */
module Utc {
  import opened Wrappers
  import opened Cron

  const DAY: int := 24 * 60 * MINUTE

  /** The year of a 400-year era, counted from March, that day `n` of the era is in. */
  function YearOfEra(n: int): int {
    (n - n / 1_460 + n / 36_524 - n / 146_096) / 365
  }

  /** The day of that year, counted from 1 March. */
  function DayOfYear(n: int): int {
    n - (365 * YearOfEra(n) + YearOfEra(n) / 4 - YearOfEra(n) / 100)
  }

  /** Day and month in the Gregorian calendar; the months from March have 31, 30, 31, 30, 31 days, twice, and so on. */
  function Civil(daysSince1970: int): (int, int) {
    var dayOfYear := DayOfYear((daysSince1970 + 719_468) % 146_097);
    var m := (5 * dayOfYear + 2) / 153;
    (dayOfYear - (153 * m + 2) / 5 + 1, if m < 10 then m + 3 else m - 9)
  }

  /** 1 January 1970 was a Thursday. */
  function Universal(t: int): Option<Wall> {
    var (day, month) := Civil(t / DAY);
    Some(Wall(t / MINUTE % 60, t / (60 * MINUTE) % 24, day, month, (t / DAY + 4) % 7))
  }

  /** Midnight on 29 February: `0 0 29 2 *`. */
  const LEAP_DAY: seq<Field> := [[Single(Some(0))], [Single(Some(0))], [Single(Some(29))], [Single(Some(2))], [Star]]

  /** 1 March 2021, and 29 February 2024, both at midnight. */
  const MARCH_2021 := 18_687 * DAY
  const LEAP_DAY_2024 := 19_782 * DAY

  lemma LeapDayAllows(w: Wall)
    ensures RuleAllows(LEAP_DAY, w) <==> w.minute == 0 && w.hour == 0 && w.day == 29 && w.month == 2
  {
    SingleAllows(0, 0, 59, w.minute);
    SingleAllows(0, 0, 23, w.hour);
    SingleAllows(29, 1, 31, w.day);
    SingleAllows(2, 1, 12, w.month);
  }

  /** 29 February is day 365 of a year counted from March; the year from March 2021 has no such day. */
  lemma NoLeapDay(later: nat)
    requires later <= 367
    ensures Civil(18_687 + later) != (29, 2)
  {
    var n := (18_687 + later + 719_468) % 146_097;
    assert n == 7_670 + later;
    assert n / 36_524 == 0 && n / 146_096 == 0 && n / 1_460 == 5;
  }

  lemma NotDueAfterMarch2021(t: int)
    requires InWindow(t, MARCH_2021)
    ensures !Due(LEAP_DAY, Universal, t)
  {
    var later := t / DAY - 18_687;
    NoLeapDay(later);
    hide Civil, RuleAllows;
    LeapDayAllows(Universal(t).value);
  }

  lemma LeapDayIsCivil()
    ensures Civil(19_782) == (29, 2)
  {
    assert (19_782 + 719_468) % 146_097 == 8_765 && YearOfEra(8_765) == 23 && DayOfYear(8_765) == 365;
  }

  lemma MidnightClock(day: int)
    ensures day * DAY / DAY == day && day * DAY / MINUTE % 60 == 0 && day * DAY / (60 * MINUTE) % 24 == 0
  {
    assert day * DAY / MINUTE == 1_440 * day && day * DAY / (60 * MINUTE) == 24 * day;
  }

  lemma LeapDayIsDue()
    ensures Due(LEAP_DAY, Universal, LEAP_DAY_2024)
  {
    hide Civil, RuleAllows;
    LeapDayIsCivil();
    MidnightClock(19_782);
    LeapDayAllows(Universal(LEAP_DAY_2024).value);
  }

  /** From March 2021 the rule has no next run; a minute before the leap day of 2024 it has. */
  lemma LeapDayRuns(march: int, leapDay: int)
    requires march == MARCH_2021 && leapDay == LEAP_DAY_2024
    ensures NextRun(LEAP_DAY, Universal, march) == None
    ensures NextRun(LEAP_DAY, Universal, leapDay - MINUTE) == Some(leapDay)
  {
    hide Due, NextRun, Universal, InWindow;
    forall u | InWindow(u, march) ensures !Due(LEAP_DAY, Universal, u) {
      NotDueAfterMarch2021(u);
    }
    NextRunIsNext(LEAP_DAY, Universal, march);
    assert IsNext(LEAP_DAY, Universal, march, None);
    LeapDayIsDue();
    DueIsNext(leapDay);
  }

  /** A due minute is the next run from the minute before it. */
  lemma DueIsNext(t: int)
    requires t % MINUTE == 0 && Due(LEAP_DAY, Universal, t)
    ensures NextRun(LEAP_DAY, Universal, t - MINUTE) == Some(t)
  {
    hide Due, NextRun;
    NextRunIsNext(LEAP_DAY, Universal, t - MINUTE);
    assert InWindow(t, t - MINUTE);
    assert IsNext(LEAP_DAY, Universal, t - MINUTE, Some(t));
  }
}
