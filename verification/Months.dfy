/** The months of a time range. */
module Months {
  import opened Clock

  datatype Month = Month(year: int, month: nat)

  predicate IsMonth(m: Month) { 1 <= m.month <= 12 }

  /** Months in calendar order. */
  function Index(m: Month): int { 12 * m.year + m.month }

  /** The first of a month plus one month. */
  function Next(m: Month): Month {
    if m.month == 12 then Month(m.year + 1, 1) else Month(m.year, m.month + 1)
  }

  const LEAST_MONTH := 28 * 24 * 60 * NANOS_PER_MINUTE

  /** When each month begins on the wall, and the month of each time on the wall. */
  datatype Calendar = Calendar(begins: Month -> int, monthOf: int -> Month)

  predicate LongEnough(cal: Calendar, m: Month) {
    cal.begins(m) + LEAST_MONTH <= cal.begins(Next(m))
  }

  predicate Holds(cal: Calendar, t: int) {
    var m := cal.monthOf(t);
    IsMonth(m) && cal.begins(m) <= t < cal.begins(Next(m))
  }

  /** Months follow each other without gaps, each at least 28 days long. */
  ghost predicate Follows(cal: Calendar) {
    && (forall m {:trigger LongEnough(cal, m)} :: IsMonth(m) ==> LongEnough(cal, m))
    && (forall t {:trigger Holds(cal, t)} :: Holds(cal, t))
  }

  lemma {:induction false} SameIndex(m: Month, n: Month)
    requires IsMonth(m) && IsMonth(n) && Index(m) == Index(n)
    ensures m == n
  {
  }

  lemma {:induction false} NextIndex(m: Month)
    requires IsMonth(m)
    ensures IsMonth(Next(m)) && Index(Next(m)) == Index(m) + 1
  {
  }

  /** A later month begins at least 28 days later. */
  lemma {:induction false} LaterBegins(cal: Calendar, m: Month, n: Month)
    requires Follows(cal) && IsMonth(m) && IsMonth(n) && Index(m) < Index(n)
    ensures cal.begins(m) + LEAST_MONTH <= cal.begins(n)
    decreases Index(n) - Index(m)
  {
    NextIndex(m);
    assert LongEnough(cal, m);
    if Index(m) + 1 == Index(n) {
      SameIndex(Next(m), n);
    } else {
      LaterBegins(cal, Next(m), n);
    }
  }

  /** Later times lie in no earlier month. */
  lemma {:induction false} MonthsAscend(cal: Calendar, s: int, t: int)
    requires Follows(cal) && s <= t
    ensures Index(cal.monthOf(s)) <= Index(cal.monthOf(t))
  {
    var m, n := cal.monthOf(s), cal.monthOf(t);
    assert Holds(cal, s) && Holds(cal, t);
    NextIndex(n);
    if Index(n) < Index(m) {
      if Index(n) + 1 == Index(m) { SameIndex(Next(n), m); } else { LaterBegins(cal, Next(n), m); }
    }
  }

  /** A time lies in a month or after it exactly when the month has begun. */
  lemma {:induction false} MonthReached(cal: Calendar, m: Month, t: int)
    requires Follows(cal) && IsMonth(m)
    ensures Index(m) <= Index(cal.monthOf(t)) <==> cal.begins(m) <= t
  {
    var n := cal.monthOf(t);
    assert Holds(cal, t);
    NextIndex(n);
    if Index(m) < Index(n) {
      LaterBegins(cal, m, n);
    } else if Index(m) == Index(n) {
      SameIndex(m, n);
    } else if Index(m) == Index(n) + 1 {
      SameIndex(m, Next(n));
    } else {
      LaterBegins(cal, Next(n), m);
    }
  }

  /** Both ends are read in zones less than a day from UTC. */
  predicate Zoned(start: Instant, end: Instant) {
    -1440 < start.offset < 1440 && -1440 < end.offset < 1440
  }

  /** The first of a month as an instant, in the zone of a time. */
  function FirstOf(cal: Calendar, m: Month, zone: Instant): int {
    cal.begins(m) - zone.offset * NANOS_PER_MINUTE
  }

  /** Two firsts of months, each in its own zone, compare as their months do, and those of one month
      as their zones do. */
  lemma {:induction false} FirstsCompare(cal: Calendar, m: Month, n: Month, start: Instant, end: Instant)
    requires Follows(cal) && IsMonth(m) && IsMonth(n) && Zoned(start, end)
    ensures FirstOf(cal, m, start) <= FirstOf(cal, n, end) <==>
      Index(m) < Index(n) || (Index(m) == Index(n) && start.offset >= end.offset)
  {
    if Index(m) < Index(n) {
      LaterBegins(cal, m, n);
    } else if Index(m) > Index(n) {
      LaterBegins(cal, n, m);
    } else {
      SameIndex(m, n);
    }
  }

  /** The index of the last listed month: that of `end`, or the one before if the zone of `end` is
      further east than that of `start`. */
  function LastIndex(cal: Calendar, start: Instant, end: Instant): int {
    Index(cal.monthOf(Wall(end))) - (if start.offset < end.offset then 1 else 0)
  }

  /** The listed months are consecutive from a first one on. */
  ghost predicate Consecutive(months: seq<Month>, first: int) {
    forall i :: 0 <= i < |months| ==> IsMonth(months[i]) && Index(months[i]) == first + i
  }

  lemma {:induction false} ConsecutiveHas(months: seq<Month>, first: int, m: Month)
    requires Consecutive(months, first) && IsMonth(m)
    ensures m in months <==> first <= Index(m) < first + |months|
  {
    if first <= Index(m) < first + |months| {
      SameIndex(months[Index(m) - first], m);
    }
  }

  /** Exactly the months from that of `start` to the last one are listed. */
  ghost predicate Lists(cal: Calendar, start: Instant, end: Instant, months: seq<Month>) {
    forall m :: IsMonth(m) ==>
      (m in months <==> Index(cal.monthOf(Wall(start))) <= Index(m) <= LastIndex(cal, start, end))
  }

  /** Every month from that of `start` to the last, once, in order, and none for a reversed range. */
  method MonthsInRange(cal: Calendar, start: Instant, end: Instant) returns (months: seq<Month>)
    requires Follows(cal) && Zoned(start, end)
    ensures end.nanos < start.nanos ==> months == []
    ensures Consecutive(months, Index(cal.monthOf(Wall(start))))
    ensures end.nanos >= start.nanos ==> Lists(cal, start, end, months)
  {
    months := [];
    if end.nanos < start.nanos {
      return;
    }
    ghost var first := Index(cal.monthOf(Wall(start)));
    assert Holds(cal, Wall(start)) && Holds(cal, Wall(end));
    var cursor, last := cal.monthOf(Wall(start)), cal.monthOf(Wall(end));
    FirstsCompare(cal, cursor, last, start, end);
    while FirstOf(cal, cursor, start) <= FirstOf(cal, last, end)
      invariant IsMonth(cursor) && Index(cursor) == first + |months| && Consecutive(months, first)
      invariant FirstOf(cal, cursor, start) <= FirstOf(cal, last, end) <==> Index(cursor) <= LastIndex(cal, start, end)
      invariant months != [] ==> Index(cursor) <= LastIndex(cal, start, end) + 1
      decreases LastIndex(cal, start, end) - Index(cursor)
    {
      NextIndex(cursor);
      months := months + [cursor];
      cursor := Next(cursor);
      FirstsCompare(cal, cursor, last, start, end);
    }
    forall m | IsMonth(m) ensures m in months <==> first <= Index(m) <= LastIndex(cal, start, end) {
      ConsecutiveHas(months, first, m);
    }
  }

  // ----- what is listed -----

  /** The month of `end` is listed exactly when its zone is not further east than that of `start` and
      it does not lie before the month of `start`, each read in its own zone. */
  lemma {:induction false} EndMonthListed(cal: Calendar, start: Instant, end: Instant, months: seq<Month>)
    requires Follows(cal) && Zoned(start, end) && Lists(cal, start, end, months)
    ensures cal.monthOf(Wall(end)) in months <==>
      && end.offset <= start.offset
      && Index(cal.monthOf(Wall(start))) <= Index(cal.monthOf(Wall(end)))
  {
    assert Holds(cal, Wall(end));
  }

  /** The same moment on another's wall. */
  function InZone(t: Instant, zone: Instant): Instant { Instant(t.nanos, zone.offset) }

  /** A time of the range, read in the zone of `start`. */
  predicate InRange(start: Instant, end: Instant, t: Instant) {
    start.nanos <= t.nanos <= end.nanos && t.offset == start.offset
  }

  predicate CoversEnd(cal: Calendar, start: Instant, end: Instant) {
    var here, there := Index(cal.monthOf(Wall(InZone(end, start)))), Index(cal.monthOf(Wall(end)));
    if start.offset < end.offset then here < there else here == there
  }

  lemma {:induction false} LastCovers(cal: Calendar, start: Instant, end: Instant)
    requires Follows(cal)
    ensures CoversEnd(cal, start, end) <==> Index(cal.monthOf(Wall(InZone(end, start)))) <= LastIndex(cal, start, end)
  {
    if end.offset <= start.offset { MonthsAscend(cal, Wall(end), Wall(InZone(end, start))); }
  }

  /** Every time of the range, read in the zone of `start`, has its month listed exactly when the end
      shows one month in both zones and its own is not further east, or its own is further east and
      shows a later month. */
  lemma {:induction false} MonthsCover(cal: Calendar, start: Instant, end: Instant, months: seq<Month>)
    requires Follows(cal) && Zoned(start, end) && start.nanos <= end.nanos && Lists(cal, start, end, months)
    ensures (forall t :: InRange(start, end, t) ==> cal.monthOf(Wall(t)) in months)
       <==> CoversEnd(cal, start, end)
  {
    var last := InZone(end, start);
    LastCovers(cal, start, end);
    assert InRange(start, end, last) && Holds(cal, Wall(last));
    MonthsAscend(cal, Wall(start), Wall(last));
    forall t | InRange(start, end, t) && CoversEnd(cal, start, end)
      ensures cal.monthOf(Wall(t)) in months
    {
      assert Holds(cal, Wall(t));
      MonthsAscend(cal, Wall(start), Wall(t));
      MonthsAscend(cal, Wall(t), Wall(last));
    }
  }

  /** Half an hour into a month at +08:00, and half an hour later at +00:00, where it is the month before:
      nothing is listed. */
  lemma {:induction false} NothingListed(cal: Calendar, m: Month, months: seq<Month>)
    requires Follows(cal) && IsMonth(m)
    requires var start := Instant(cal.begins(m) + (30 - 480) * NANOS_PER_MINUTE, 480);
      Lists(cal, start, Instant(start.nanos + 30 * NANOS_PER_MINUTE, 0), months)
    ensures forall n :: IsMonth(n) ==> n !in months
  {
    var start := Instant(cal.begins(m) + (30 - 480) * NANOS_PER_MINUTE, 480);
    var end := Instant(start.nanos + 30 * NANOS_PER_MINUTE, 0);
    MonthReached(cal, m, Wall(start));
    assert Holds(cal, Wall(end));
    if Index(cal.monthOf(Wall(end))) >= Index(m) { MonthReached(cal, m, Wall(end)); }
  }
}
