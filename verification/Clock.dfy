/** The clock's seconds against the calendar: POSIX's definition of seconds since the Epoch. */
module Clock {
  import opened Options
  import opened Calendar
  import opened Periods
  import opened Suffixes
  import opened Tables

  /** Days of a common year before month m. */
  function DaysBefore(m: nat): nat
    requires 1 <= m <= 12
  {
    [0, 31, 59, 90, 120, 151, 181, 212, 243, 273, 304, 334][m - 1]
  }

  predicate LongYear(y: nat) {
    (y % 4 == 0 && y % 100 != 0) || y % 400 == 0
  }

  /** tm_yday, the days since January 1. */
  function YearDay(date: Date): int
    requires 1 <= date.m <= 12
  {
    DaysBefore(date.m) + (if date.m > 2 && LongYear(date.y) then 1 else 0) + date.d - 1
  }

  /** Seconds Since the Epoch, section 4.16 of POSIX.1-2017, without leap seconds. */
  function SecondsSinceEpoch(date: Date, second: nat): int
    requires 1 <= date.m <= 12 && date.y >= 1970
  {
    second + 86400 * YearDay(date) + 31536000 * (date.y - 1970)
    + 86400 * ((date.y - 1969) / 4 - (date.y - 1901) / 100 + (date.y - 1601) / 400)
  }

  lemma FirstMonthsAre(y: nat, m: nat)
    requires 1 <= m <= 12
    ensures FirstMonths(y, m - 1) == DaysBefore(m) + if m > 2 && LongYear(y) then 1 else 0
  {
    hide Leap, LongYear;
    assert Leap(y) == LongYear(y) by { SameLeap(y); }
    assert FirstMonths(y, 0) == 0 && FirstMonths(y, 1) == 31;
    assert FirstMonths(y, 2) == 31 + MonthDays(y, 2);
    assert FirstMonths(y, 3) == FirstMonths(y, 2) + 31;
    assert FirstMonths(y, 4) == FirstMonths(y, 3) + 30;
    assert FirstMonths(y, 5) == FirstMonths(y, 4) + 31;
    assert FirstMonths(y, 6) == FirstMonths(y, 5) + 30;
    assert FirstMonths(y, 7) == FirstMonths(y, 6) + 31;
    assert FirstMonths(y, 8) == FirstMonths(y, 7) + 31;
    assert FirstMonths(y, 9) == FirstMonths(y, 8) + 30;
    assert FirstMonths(y, 10) == FirstMonths(y, 9) + 31;
    assert FirstMonths(y, 11) == FirstMonths(y, 10) + 30;
  }

  lemma SameLeap(y: nat)
    ensures Leap(y) == LongYear(y)
  {
    CenturiesAreFourths(y);
  }

  lemma LeapDaysSince(y: nat)
    requires y >= 1970
    ensures LeapDays(y) == 478 + (y - 1969) / 4 - (y - 1901) / 100 + (y - 1601) / 400
  {
    assert (y + 3) / 4 == (y - 1969) / 4 + 493;
    assert (y + 99) / 100 == (y - 1901) / 100 + 20;
    assert (y + 399) / 400 == (y - 1601) / 400 + 5;
  }

  /** A second of a date in the session's zone is the instant that POSIX gives it there. */
  lemma InstantIsPosix(date: Date, second: nat)
    requires ValidDate(date) && date.y >= 1970 && second < 86400
    ensures ToInstant(DayNumber(date) * 86400 + second) + ZONE == SecondsSinceEpoch(date, second)
  {
    hide MonthStart, DaysBefore, LongYear, Leap, LeapDays, FirstMonths;
    MonthWithinYear(date.y, date.m - 1);
    FirstMonthsAre(date.y, date.m);
    YearStartClosedForm(date.y);
    LeapDaysSince(date.y);
  }

  /** So the router prints the date that POSIX gives the row's clock. */
  lemma RouteIsPosix(table: string, g: Granularity, date: Date, second: nat, clock: Instant)
    requires ValidDate(date) && date.y >= 1970 && second < 86400
    requires clock + ZONE == SecondsSinceEpoch(date, second)
    ensures RouteName(table, g, clock) == table + "_" + Printed(g, date)
  {
    hide SecondsSinceEpoch, DateOf, Printed, DayNumber, MonthDays;
    InstantIsPosix(date, second);
    assert ToLocal(clock) == DayNumber(date) * 86400 + second;
    DayOfMoment(DayNumber(date), second);
    DateOfDayNumber(date);
  }

  /** And the CHECK of the period of a date begins with the first second of its first date. */
  lemma CheckIsPosix(g: Granularity, date: Date)
    requires ValidDate(date) && date.y >= 1970
    ensures var p := PeriodOfDay(g, DayNumber(date));
      ClockCheck(g, p).lo + ZONE == SecondsSinceEpoch(FirstOf(g, date), 0)
    ensures var p := PeriodOfDay(g, DayNumber(date));
      ClockCheck(g, p).HalfOpen? && ClockCheck(g, p).hi == ClockCheck(g, p + 1).lo
  {
    hide SecondsSinceEpoch, DateOf, DayNumber, MonthDays, FirstDay, PeriodOfDay, FirstDate;
    DateOfDayNumber(date);
    FirstOfIsFirstDate(g, DayNumber(date));
    FirstDateOfPeriod(g, PeriodOfDay(g, DayNumber(date)));
    InstantIsPosix(FirstOf(g, date), 0);
  }

  /** The names that the script's comments use. */
  lemma NamesOfOneDay()
    ensures var date := Date(2016, 10, 17);
      && "history_" + Printed(Day, date) == "history_2016_10_17"
      && "history_" + Printed(Month, date) == "history_2016_10"
      && "history_" + Printed(Year, date) == "history_2016"
    ensures TimeFormatBy("day") == Some(Day)
    ensures TimeFormatBy("month") == Some(Month) && TimeFormatBy("year") == Some(Year)
    ensures TriggerName("history", "") == "history_insert"
  {
    assert FourDigits(2016) == "2016" && TwoDigits(10) == "10" && TwoDigits(17) == "17";
  }

  /** The first second of that day. */
  lemma SecondsOfOneDay()
    ensures SecondsSinceEpoch(Date(2016, 10, 17), 0) == 1476662400
  {
  }
}
