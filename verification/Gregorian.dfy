/** The calendar that times are read in: months of 28 to 31 days, leap years by the rule of 4, 100 and 400. */
module Gregorian {
  import opened Clock
  import opened Months

  const NANOS_PER_DAY := 86_400_000_000_000

  /** The days from 0001-01-01 to 1970-01-01, where time 0 lies. */
  const EPOCH_DAY := 719162

  predicate IsLeap(year: int) { year % 4 == 0 && (year % 100 != 0 || year % 400 == 0) }

  function DaysIn(m: Month): int {
    if m.month == 2 then (if IsLeap(m.year) then 29 else 28)
    else if m.month in {4, 6, 9, 11} then 30
    else 31
  }

  /** The days of a common year before each of its months. */
  function DaysOfYearBefore(month: nat): int
    requires 1 <= month <= 12
  {
    [0, 31, 59, 90, 120, 151, 181, 212, 243, 273, 304, 334][month - 1]
  }

  /** The days from 0001-01-01 to the first of a month. */
  function DaysBefore(m: Month): int
    requires IsMonth(m)
  {
    var past := m.year - 1;
    365 * past + past / 4 - past / 100 + past / 400 + DaysOfYearBefore(m.month)
      + (if m.month > 2 && IsLeap(m.year) then 1 else 0)
  }

  lemma {:induction false} Quotients(year: int)
    ensures year / 4 == (year - 1) / 4 + (if year % 4 == 0 then 1 else 0)
    ensures year / 100 == (year - 1) / 100 + (if year % 100 == 0 then 1 else 0)
    ensures year / 400 == (year - 1) / 400 + (if year % 400 == 0 then 1 else 0)
  {
  }

  lemma {:induction false} Multiples(year: int)
    ensures year % 100 == 0 ==> year % 4 == 0
    ensures year % 400 == 0 ==> year % 100 == 0
  {
    if year % 100 == 0 { assert year == 4 * (25 * (year / 100)); }
    if year % 400 == 0 { assert year == 100 * (4 * (year / 400)); }
  }

  lemma {:induction false} LeapDays(year: int)
    ensures year / 4 - year / 100 + year / 400
         == (year - 1) / 4 - (year - 1) / 100 + (year - 1) / 400 + (if IsLeap(year) then 1 else 0)
  {
    Quotients(year);
    Multiples(year);
  }

  /** Months follow each other, each with its own number of days. */
  lemma {:induction false} DaysAdd(m: Month)
    requires IsMonth(m)
    ensures DaysBefore(Next(m)) == DaysBefore(m) + DaysIn(m)
  {
    if m.month == 12 { LeapDays(m.year); }
  }

  function Previous(m: Month): Month {
    if m.month <= 1 then Month(m.year - 1, 12) else Month(m.year, m.month - 1)
  }

  /** The month of a day at or after the first of another. */
  function MonthAfter(m: Month, day: int): (r: Month)
    requires IsMonth(m) && DaysBefore(m) <= day
    ensures IsMonth(r) && DaysBefore(r) <= day < DaysBefore(Next(r))
    decreases day - DaysBefore(m)
  {
    DaysAdd(m);
    if day < DaysBefore(Next(m)) then m else MonthAfter(Next(m), day)
  }

  /** The month of a day before the end of another. */
  function MonthUpTo(m: Month, day: int): (r: Month)
    requires IsMonth(m) && day < DaysBefore(Next(m))
    ensures IsMonth(r) && DaysBefore(r) <= day < DaysBefore(Next(r))
    decreases DaysBefore(Next(m)) - day
  {
    DaysAdd(m);
    if DaysBefore(m) <= day then m else MonthUpTo(Previous(m), day)
  }

  function MonthOfDay(day: int): (r: Month)
    ensures IsMonth(r) && DaysBefore(r) <= day < DaysBefore(Next(r))
  {
    var first := Month(1, 1);
    if day >= 0 then MonthAfter(first, day) else MonthUpTo(first, day)
  }

  /** The first of a month on the wall. */
  function Begins(m: Month): int {
    if IsMonth(m) then (DaysBefore(m) - EPOCH_DAY) * NANOS_PER_DAY else 0
  }

  function MonthOfTime(t: int): Month { MonthOfDay(t / NANOS_PER_DAY + EPOCH_DAY) }

  function Civil(): Calendar { Calendar(Begins, MonthOfTime) }

  lemma {:induction false} InDays(first: int, next: int, t: int)
    requires first <= t / NANOS_PER_DAY < next
    ensures first * NANOS_PER_DAY <= t < next * NANOS_PER_DAY
  {
  }

  lemma {:induction false} TimeInMonth(t: int)
    ensures Holds(Civil(), t)
  {
    var day := t / NANOS_PER_DAY;
    var m := MonthOfDay(day + EPOCH_DAY);
    InDays(DaysBefore(m) - EPOCH_DAY, DaysBefore(Next(m)) - EPOCH_DAY, t);
    NextIndex(m);
  }

  lemma {:induction false} CivilMonth(m: Month)
    requires IsMonth(m)
    ensures LongEnough(Civil(), m)
  {
    DaysAdd(m);
    NextIndex(m);
    assert 28 * NANOS_PER_DAY == LEAST_MONTH;
  }

  /** The calendar's months follow each other as the range of a report needs them to. */
  lemma {:induction false} CivilFollows()
    ensures Follows(Civil())
  {
    forall t ensures Holds(Civil(), t) { TimeInMonth(t); }
    forall m | IsMonth(m) ensures LongEnough(Civil(), m) { CivilMonth(m); }
  }

  /** Time 0 opens January 1970. */
  lemma {:induction false} CivilDates()
    ensures Civil().begins(Month(1970, 1)) == 0
    ensures Civil().begins(Month(1900, 3)) == -25_508 * 86_400_000_000_000
    ensures Civil().begins(Month(2000, 3)) == 11_017 * 86_400_000_000_000
    ensures Civil().begins(Month(2024, 12)) == 20_058 * 86_400_000_000_000
  {
  }
}
