/**
 Partition names: the printer that TO_CHAR is, the suffix parser of zbx_drop_old_partitions,
 and the order in which the zbx_partitions view lists names.
 */
module Suffixes {
  import opened Options
  import opened Calendar
  import opened Periods

  /** zbx_time_format_by; None is the RAISE branch. */
  function TimeFormatBy(partitionBy: string): Option<Granularity> {
    if partitionBy == "day" then Some(Day)
    else if partitionBy == "month" then Some(Month)
    else if partitionBy == "year" then Some(Year)
    else None
  }

  function Digit(n: nat): (c: char)
    ensures IsDigit(c) && DigitValue(c) == n % 10
  {
    ('0' as int + n % 10) as char
  }

  predicate IsDigit(c: char) {
    '0' <= c <= '9'
  }

  function DigitValue(c: char): nat
    requires IsDigit(c)
  {
    c as int - '0' as int
  }

  function TwoDigits(n: nat): (s: string)
    ensures |s| == 2 && AllDigits(s)
  {
    [Digit(n / 10), Digit(n % 10)]
  }

  function FourDigits(n: nat): string {
    TwoDigits(n / 100) + TwoDigits(n % 100)
  }

  /** A date in the format of zbx_time_format_by. */
  function Printed(g: Granularity, date: Date): string
    decreases Width(g)
  {
    match g
    case Day => Printed(Month, date) + "_" + TwoDigits(date.d)
    case Month => Printed(Year, date) + "_" + TwoDigits(date.m)
    case Year => FourDigits(date.y)
  }

  /** TO_CHAR(moment, zbx_time_format_by(g)). */
  function ToChar(g: Granularity, moment: nat): string {
    Printed(g, DateOf(moment / DAY))
  }

  /** Periods whose year has four digits. */
  predicate Printable(g: Granularity, period: int) {
    match g
    case Day => 365243 <= period < 3652425
    case Month => 12000 <= period < 120000
    case Year => 1000 <= period < 10000
  }

  function Suffix(g: Granularity, period: nat): string {
    Printed(g, FirstDate(g, period))
  }

  function PartitionName(table: string, g: Granularity, period: nat): string {
    table + "_" + Suffix(g, period)
  }

  predicate AllDigits(s: string) {
    forall i | 0 <= i < |s| :: IsDigit(s[i])
  }

  /** The text between the ends of one of the patterns \d{4}, \d{4}_\d{2}, \d{4}_\d{2}_\d{2}. */
  predicate LooksLike(s: string, g: Granularity)
    decreases Width(g)
  {
    match g
    case Year => |s| == 4 && AllDigits(s)
    case Month => |s| == 7 && LooksLike(s[..4], Year) && s[4] == '_' && AllDigits(s[5..])
    case Day => |s| == 10 && LooksLike(s[..7], Month) && s[7] == '_' && AllDigits(s[8..])
  }

  function Width(g: Granularity): nat {
    match g
    case Day => 10
    case Month => 7
    case Year => 4
  }

  function Last(s: string, n: nat): string {
    if n <= |s| then s[|s| - n..] else s
  }

  /** The granularity's pattern, anchored with $, matches in the name. */
  predicate Matches(name: string, g: Granularity) {
    LooksLike(Last(name, Width(g)), g)
  }

  function Number(digits: string): nat
    requires AllDigits(digits)
  {
    if digits == [] then 0 else 10 * Number(digits[..|digits| - 1]) + DigitValue(digits[|digits| - 1])
  }

  /** The date that TO_TIMESTAMP reads from matched text. */
  function DateIn(s: string, g: Granularity): Date
    requires LooksLike(s, g)
    decreases Width(g)
  {
    match g
    case Year => Date(Number(s), 1, 1)
    case Month => DateIn(s[..4], Year).(m := Number(s[5..]))
    case Day => DateIn(s[..7], Month).(d := Number(s[8..]))
  }

  /** The upper bound zbx_drop_old_partitions reads off a name; None where it raises, because no
      pattern matches or the date does not exist. */
  function ParseBound(name: string): Option<nat> {
    if Matches(name, Day) then BoundIn(name, Day)
    else if Matches(name, Month) then BoundIn(name, Month)
    else if Matches(name, Year) then BoundIn(name, Year)
    else None
  }

  function BoundIn(name: string, g: Granularity): Option<nat>
    requires Matches(name, g)
  {
    var date := DateIn(Last(name, Width(g)), g);
    if ValidDate(date) then Some(AddInterval(g, DayNumber(date) * DAY, 1)) else None
  }

  lemma NumberOfTwoDigits(n: nat)
    requires n < 100
    ensures |TwoDigits(n)| == 2 && Number(TwoDigits(n)) == n
  {
    var s := TwoDigits(n);
    assert s[..1] == [Digit(n / 10)] && s[..1][..0] == [];
    assert Number(s[..1]) == n / 10;
  }

  lemma NumberOfFourDigits(n: nat)
    requires n < 10000
    ensures |FourDigits(n)| == 4 && Number(FourDigits(n)) == n
  {
    var s := FourDigits(n);
    assert s[..2] == TwoDigits(n / 100);
    NumberOfTwoDigits(n / 100);
    assert s[..3] == s[..2] + [s[2]] && s[..3][..2] == s[..2];
    assert Number(s[..3]) == 10 * (n / 100) + n % 100 / 10;
    assert s == s[..3] + [s[3]] && s[..|s| - 1] == s[..3];
  }

  /** A moment's printed suffix is that of its period. */
  lemma ToCharNamesPeriod(g: Granularity, moment: nat)
    ensures ToChar(g, moment) == Suffix(g, PeriodOf(g, moment))
  {
    var date := DateOf(moment / DAY);
    FirstOfIsFirstDate(g, moment / DAY);
    assert Printed(g, FirstOf(g, date)) == Printed(g, date);
  }

  lemma DayWithinYears(n: nat)
    requires 365243 <= n < 3652425
    ensures 1000 <= MonthOf(n) / 12 < 10000
  {
    hide YearStart;
    var y := MonthOf(n) / 12;
    DayInYear(n);
    YearStartClosedForm(y);
    YearStartClosedForm(y + 1);
    if y < 1000 {
      LeapDaysGrow(y + 1, 1000);
    } else if y >= 10000 {
      LeapDaysGrow(10000, y);
    }
  }

  lemma PrintableYear(g: Granularity, period: nat)
    requires Printable(g, period)
    ensures 1000 <= FirstDate(g, period).y < 10000
  {
    hide MonthDays, MonthStart;
    if g.Day? {
      DayWithinYears(period);
    }
  }

  lemma PrintablePositive(g: Granularity, period: int)
    requires Printable(g, period)
    ensures period > 0
  {
  }

  lemma DayIsPrintable(g: Granularity, n: nat)
    requires 365243 <= n < 3652425
    ensures Printable(g, PeriodOfDay(g, n))
  {
    hide MonthStart;
    DayWithinYears(n);
  }

  lemma DateOfPrinted(g: Granularity, date: Date)
    requires ValidDate(date) && date.y < 10000
    ensures LooksLike(Printed(g, date), g)
    ensures DateIn(Printed(g, date), g) == FirstOf(g, date)
    decreases Width(g)
  {
    var s := Printed(g, date);
    match g {
      case Year => NumberOfFourDigits(date.y);
      case Month =>
        DateOfPrinted(Year, date);
        NumberOfTwoDigits(date.m);
        assert s[..4] == Printed(Year, date) && s[5..] == TwoDigits(date.m);
      case Day =>
        DateOfPrinted(Month, date);
        NumberOfTwoDigits(date.d);
        assert s[..7] == Printed(Month, date) && s[8..] == TwoDigits(date.d);
    }
  }

  /** Printer and parser agree: whatever the table is called, one pattern matches, that of the
      granularity printed, and the bound it yields is the start of the next period. */
  lemma ParseOfPrinted(table: string, g: Granularity, period: nat)
    requires Printable(g, period)
    ensures forall h :: Matches(PartitionName(table, g, period), h) <==> h == g
    ensures ParseBound(PartitionName(table, g, period)) == Some(PeriodStart(g, period + 1))
  {
    var s := Suffix(g, period);
    var name := PartitionName(table, g, period);
    PrintableYear(g, period);
    DateOfPrinted(g, FirstDate(g, period));
    forall h
      ensures Matches(name, h) <==> h == g
    {
      OnePatternMatches(table, s, g, h);
    }
    assert Last(name, Width(g)) == s;
    assert FirstOf(g, FirstDate(g, period)) == FirstDate(g, period);
    FirstDateOfPeriod(g, period);
    IntervalFromStart(g, period);
  }

  lemma OnePatternMatches(table: string, s: string, g: Granularity, h: Granularity)
    requires LooksLike(s, g)
    ensures Matches(table + "_" + s, h) <==> h == g
  {
    var name := table + "_" + s;
    if Width(h) <= Width(g) {
      assert Last(name, Width(h)) == s[Width(g) - Width(h)..];
    } else {
      var last := Last(name, Width(h));
      if |last| == Width(h) {
        assert g.Year? ==> last[Width(h) - 3] == s[1];
        assert g.Month? ==> last[..7][..4][2] == '_';
      }
    }
  }
}
