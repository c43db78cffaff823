/**
 The periods a table can be partitioned by, and the date functions bootstrap.sql applies to
 NOW(), to a row's clock and to a partition's suffix.

 A moment is local to the session: a count of seconds from 0000-01-01 00:00:00. An instant is
 what the `clock` column holds, seconds from 1970-01-01 00:00:00 UTC.
 */
module Periods {
  import opened Calendar

  const DAY := 86400

  /** Days from 0000-01-01 to 1970-01-01. */
  const EPOCH := 719528

  /** The session zone's offset east of UTC: any constant of less than a day. */
  type Offset = seconds: int | -DAY < seconds < DAY witness 0

  const ZONE: Offset

  function ToLocal(instant: int): int {
    instant + ZONE + EPOCH * DAY
  }

  function ToInstant(moment: int): int {
    moment - ZONE - EPOCH * DAY
  }

  /** Instants whose local year has four digits, 1000 to 9999. */
  type Instant = t: int | 365243 * DAY <= ToLocal(t) < 3652425 * DAY witness 0

  datatype Granularity = Day | Month | Year

  function PeriodOfDay(g: Granularity, n: nat): nat {
    match g
    case Day => n
    case Month => MonthOf(n)
    case Year => MonthOf(n) / 12
  }

  function FirstDay(g: Granularity, period: nat): nat {
    match g
    case Day => period
    case Month => MonthStart(period)
    case Year => YearStart(period)
  }

  /** The number of the period that contains a moment. */
  function PeriodOf(g: Granularity, moment: nat): nat {
    PeriodOfDay(g, moment / DAY)
  }

  function PeriodStart(g: Granularity, period: nat): nat {
    FirstDay(g, period) * DAY
  }

  /** DATE_TRUNC. */
  function DateTrunc(g: Granularity, moment: nat): nat {
    DayNumber(FirstOf(g, DateOf(moment / DAY))) * DAY
  }

  function FirstOf(g: Granularity, date: Date): (first: Date)
    requires ValidDate(date)
    ensures ValidDate(first)
  {
    match g
    case Day => date
    case Month => date.(d := 1)
    case Year => date.(m := 1, d := 1)
  }

  /** The same day of month k, or the last one if month k is shorter. */
  function Clamped(date: Date, k: nat): (clamped: Date)
    requires ValidDate(date)
    ensures ValidDate(clamped)
  {
    var last := MonthDays(k / 12, k % 12 + 1);
    Date(k / 12, k % 12 + 1, if date.d < last then date.d else last)
  }

  /** Day n, i intervals of '1 <period>' later. */
  function ShiftDay(g: Granularity, n: nat, i: int): nat
    requires PeriodOfDay(g, n) + i >= 0
  {
    match g
    case Day => n + i
    case Month => DayNumber(Clamped(DateOf(n), MonthOf(n) + i))
    case Year => DayNumber(Clamped(DateOf(n), MonthOf(n) + 12 * i))
  }

  /** moment + i * INTERVAL '1 <period>', which keeps the time of day. */
  function AddInterval(g: Granularity, moment: nat, i: int): nat
    requires PeriodOf(g, moment) + i >= 0
  {
    ShiftDay(g, moment / DAY, i) * DAY + moment % DAY
  }

  lemma {:induction false} FirstDayGrows(g: Granularity, p: nat, q: nat)
    requires p <= q
    ensures FirstDay(g, q) >= FirstDay(g, p) + q - p
    ensures g.Month? ==> FirstDay(g, q) >= FirstDay(g, p) + 28 * (q - p)
    ensures g.Year? ==> FirstDay(g, q) >= FirstDay(g, p) + 365 * (q - p)
  {
    hide MonthStart, YearStart, Leap;
    match g {
      case Day =>
      case Month => MonthStartGrows(p, q);
      case Year =>
        if p < q {
          FirstDayGrows(g, p, q - 1);
          YearLength(q - 1);
        }
    }
  }

  lemma DayInYear(n: nat)
    ensures YearStart(MonthOf(n) / 12) <= n < YearStart(MonthOf(n) / 12 + 1)
  {
    hide MonthStart;
    var k := MonthOf(n);
    Twelfths(k, k / 12, k % 12);
    MonthStartGrows(12 * (k / 12), k);
    MonthStartGrows(k + 1, 12 * (k / 12 + 1));
  }

  lemma DayInPeriod(g: Granularity, n: nat)
    ensures FirstDay(g, PeriodOfDay(g, n)) <= n < FirstDay(g, PeriodOfDay(g, n) + 1)
  {
    hide MonthStart, YearStart;
    DayInYear(n);
  }

  lemma PeriodOfDayUnique(g: Granularity, n: nat, p: nat)
    requires FirstDay(g, p) <= n < FirstDay(g, p + 1)
    ensures PeriodOfDay(g, n) == p
  {
    hide FirstDay, PeriodOfDay;
    var q := PeriodOfDay(g, n);
    DayInPeriod(g, n);
    if p < q {
      FirstDayGrows(g, p + 1, q);
    } else if q < p {
      FirstDayGrows(g, q + 1, p);
    }
  }

  /** A moment lies in exactly one period. */
  lemma PeriodContains(g: Granularity, moment: nat, p: nat)
    ensures PeriodStart(g, p) <= moment < PeriodStart(g, p + 1) <==> p == PeriodOf(g, moment)
  {
    hide FirstDay, PeriodOfDay;
    DayInPeriod(g, moment / DAY);
    if PeriodStart(g, p) <= moment < PeriodStart(g, p + 1) {
      PeriodOfDayUnique(g, moment / DAY, p);
    }
  }

  lemma PeriodStartGrows(g: Granularity, p: nat, q: nat)
    ensures p < q <==> PeriodStart(g, p) < PeriodStart(g, q)
  {
    hide FirstDay;
    if p < q {
      FirstDayGrows(g, p, q);
    } else {
      FirstDayGrows(g, q, p);
    }
  }

  lemma DayOfMoment(n: nat, time: nat)
    requires time < DAY
    ensures (n * DAY + time) / DAY == n
  {
  }

  lemma ClampedInMonth(date: Date, k: nat)
    requires ValidDate(date)
    ensures MonthOf(DayNumber(Clamped(date, k))) == k
  {
    hide MonthDays, MonthStart, DayNumber;
    DateOfDayNumber(Clamped(date, k));
    Twelfths(k, k / 12, k % 12);
  }

  lemma ShiftDayShiftsPeriod(g: Granularity, n: nat, i: int)
    requires PeriodOfDay(g, n) + i >= 0
    ensures PeriodOfDay(g, ShiftDay(g, n, i)) == PeriodOfDay(g, n) + i
  {
    hide MonthDays, MonthStart, DayNumber, Clamped;
    if !g.Day? {
      var k, months := MonthOf(n), if g.Year? then 12 * i else i;
      ClampedInMonth(DateOf(n), k + months);
      if g.Year? {
        Twelfths(k, k / 12, k % 12);
        Twelfths(k + months, k / 12 + i, k % 12);
      }
    }
  }

  /** Adding i intervals moves on by exactly i periods, clamped days included. */
  lemma IntervalShiftsPeriod(g: Granularity, moment: nat, i: int)
    requires PeriodOf(g, moment) + i >= 0
    ensures PeriodOf(g, AddInterval(g, moment, i)) == PeriodOf(g, moment) + i
  {
    hide PeriodOfDay, ShiftDay;
    ShiftDayShiftsPeriod(g, moment / DAY, i);
    DayOfMoment(ShiftDay(g, moment / DAY, i), moment % DAY);
  }

  /** It keeps the time of day, and of months and years the day as well, or takes the month's last if that is
      less. */
  lemma IntervalClamps(g: Granularity, moment: nat, i: int)
    requires PeriodOf(g, moment) + i >= 0
    ensures var later := AddInterval(g, moment, i);
      && later % DAY == moment % DAY
      && (g.Day? ==> later == moment + i * DAY)
      && (!g.Day? ==>
            var was, date := DateOf(moment / DAY), DateOf(later / DAY);
            date.d == if was.d < MonthDays(date.y, date.m) then was.d else MonthDays(date.y, date.m))
  {
    hide MonthDays, MonthStart, DateOf, PeriodOfDay;
    var n := ShiftDay(g, moment / DAY, i);
    DayOfMoment(n, moment % DAY);
    if !g.Day? {
      DateOfDayNumber(Clamped(DateOf(moment / DAY), MonthOf(moment / DAY) + if g.Month? then i else 12 * i));
    }
  }

  /** The first date of a period, whose fields TO_CHAR prints. */
  function FirstDate(g: Granularity, period: nat): (date: Date)
    ensures ValidDate(date)
  {
    match g
    case Day => DateOf(period)
    case Month => Date(period / 12, period % 12 + 1, 1)
    case Year => Date(period, 1, 1)
  }

  lemma FirstDateOfPeriod(g: Granularity, period: nat)
    ensures DayNumber(FirstDate(g, period)) == FirstDay(g, period)
    ensures PeriodOfDay(g, FirstDay(g, period)) == period
    ensures DateOf(FirstDay(g, period)) == FirstDate(g, period)
  {
    hide MonthDays, MonthStart, DateOf;
    var date := FirstDate(g, period);
    DateOfDayNumber(date);
    Twelfths(period, period / 12, period % 12);
    Twelfths(12 * period, period, 0);
  }

  /** Truncating a date gives the first date of its period. */
  lemma FirstOfIsFirstDate(g: Granularity, n: nat)
    ensures FirstOf(g, DateOf(n)) == FirstDate(g, PeriodOfDay(g, n))
  {
    hide MonthDays, MonthStart;
    var k := MonthOf(n);
    Twelfths(k, DateOf(n).y, DateOf(n).m - 1);
  }

  lemma TruncStartsPeriod(g: Granularity, moment: nat)
    ensures DateTrunc(g, moment) == PeriodStart(g, PeriodOf(g, moment))
  {
    hide FirstOf, FirstDate, DayNumber, FirstDay, PeriodOfDay;
    FirstOfIsFirstDate(g, moment / DAY);
    FirstDateOfPeriod(g, PeriodOf(g, moment));
  }

  /** One interval after the first day of a period is the first day of the next. */
  lemma ShiftFirstDay(g: Granularity, period: nat)
    ensures PeriodOfDay(g, FirstDay(g, period)) == period
    ensures ShiftDay(g, FirstDay(g, period), 1) == FirstDay(g, period + 1)
  {
    FirstDateOfPeriod(g, period);
    if !g.Day? {
      hide MonthDays, MonthStart, PeriodOfDay, FirstDay, DayNumber;
      var date := FirstDate(g, period);
      ClampFirst(g, period);
      FirstDateOfPeriod(g, period + 1);
    }
  }

  lemma ClampFirst(g: Granularity, period: nat)
    requires !g.Day?
    ensures var date := FirstDate(g, period);
      Clamped(date, MonthIndex(date) + if g.Year? then 12 else 1) == FirstDate(g, period + 1)
  {
    hide MonthDays;
    if g.Month? {
      Twelfths(period, period / 12, period % 12);
    } else {
      Twelfths(12 * period + 12, period + 1, 0);
    }
  }

  lemma IntervalFromStart(g: Granularity, period: nat)
    ensures PeriodOf(g, PeriodStart(g, period)) == period
    ensures AddInterval(g, PeriodStart(g, period), 1) == PeriodStart(g, period + 1)
  {
    hide FirstDay, PeriodOfDay, ShiftDay;
    DayOfMoment(FirstDay(g, period), 0);
    ShiftFirstDay(g, period);
  }
}
