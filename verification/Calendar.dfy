/**
 The proleptic Gregorian calendar of PostgreSQL's date functions, in day numbers counted from
 1 January of year 0.
 */
module Calendar {

  predicate Leap(y: nat) {
    y % 4 == 0 && (y % 100 != 0 || y % 400 == 0)
  }

  function MonthDays(y: nat, m: nat): (days: nat)
    requires 1 <= m <= 12
    ensures 28 <= days <= 31
  {
    if m == 2 then (if Leap(y) then 29 else 28)
    else if m == 4 || m == 6 || m == 9 || m == 11 then 30
    else 31
  }

  /** Length of month k, where k counts months from January of year 0. */
  function Length(k: nat): (days: nat)
    ensures 28 <= days <= 31
  {
    MonthDays(k / 12, k % 12 + 1)
  }

  /** Day number of the first day of month k. */
  function MonthStart(k: nat): nat {
    if k == 0 then 0 else MonthStart(k - 1) + Length(k - 1)
  }

  function YearStart(y: nat): nat {
    MonthStart(12 * y)
  }

  datatype Date = Date(y: nat, m: nat, d: nat)

  predicate ValidDate(date: Date) {
    1 <= date.m <= 12 && 1 <= date.d <= MonthDays(date.y, date.m)
  }

  function MonthIndex(date: Date): nat
    requires ValidDate(date)
  {
    12 * date.y + date.m - 1
  }

  function DayNumber(date: Date): nat
    requires ValidDate(date)
  {
    MonthStart(MonthIndex(date)) + date.d - 1
  }

  /** The month that contains day n. */
  function MonthOf(n: nat): (k: nat)
    ensures MonthStart(k) <= n < MonthStart(k + 1)
  {
    if n == 0 then
      0
    else
      hide Length;
      var k := MonthOf(n - 1);
      if n < MonthStart(k + 1) then k else k + 1
  }

  lemma Twelfths(k: nat, y: nat, m: nat)
    requires m < 12
    ensures k == 12 * y + m <==> k / 12 == y && k % 12 == m
  {
  }

  lemma DateAt(k: nat, d: nat)
    requires d < Length(k)
    ensures var date := Date(k / 12, k % 12 + 1, d + 1);
      ValidDate(date) && MonthIndex(date) == k && DayNumber(date) == MonthStart(k) + d
  {
    hide MonthDays, MonthStart;
    Twelfths(k, k / 12, k % 12);
  }

  function DateOf(n: nat): (date: Date)
    ensures ValidDate(date)
    ensures MonthIndex(date) == MonthOf(n)
    ensures DayNumber(date) == n
  {
    var k := MonthOf(n);
    DateAt(k, n - MonthStart(k));
    Date(k / 12, k % 12 + 1, n - MonthStart(k) + 1)
  }

  lemma {:induction false} MonthStartGrows(j: nat, k: nat)
    requires j <= k
    ensures MonthStart(k) >= MonthStart(j) + 28 * (k - j)
  {
    if j < k {
      MonthStartGrows(j, k - 1);
    }
  }

  lemma MonthOfUnique(n: nat, k: nat)
    requires MonthStart(k) <= n < MonthStart(k + 1)
    ensures MonthOf(n) == k
  {
    hide MonthStart;
    var j := MonthOf(n);
    if j < k {
      MonthStartGrows(j + 1, k);
    } else if k < j {
      MonthStartGrows(k + 1, j);
    }
  }

  lemma DateInMonth(date: Date)
    requires ValidDate(date)
    ensures MonthStart(MonthIndex(date)) <= DayNumber(date) < MonthStart(MonthIndex(date) + 1)
  {
    hide MonthDays;
    Twelfths(MonthIndex(date), date.y, date.m - 1);
  }

  /** A day number is the number of exactly one date. */
  lemma DateOfDayNumber(date: Date)
    requires ValidDate(date)
    ensures MonthOf(DayNumber(date)) == MonthIndex(date)
    ensures DateOf(DayNumber(date)) == date
  {
    hide MonthDays, MonthStart;
    var j := MonthIndex(date);
    Twelfths(j, date.y, date.m - 1);
    DateInMonth(date);
    MonthOfUnique(DayNumber(date), j);
  }

  /** Length of the first m months of year y. */
  function FirstMonths(y: nat, m: nat): nat
    requires m <= 12
  {
    if m == 0 then 0 else FirstMonths(y, m - 1) + MonthDays(y, m)
  }

  lemma {:induction false} MonthWithinYear(y: nat, m: nat)
    requires m <= 12
    ensures MonthStart(12 * y + m) == YearStart(y) + FirstMonths(y, m)
  {
    hide MonthDays;
    if m > 0 {
      MonthWithinYear(y, m - 1);
      Twelfths(12 * y + m - 1, y, m - 1);
    }
  }

  lemma TwelveMonths(y: nat)
    ensures FirstMonths(y, 12) == if Leap(y) then 366 else 365
  {
    hide Leap;
    assert FirstMonths(y, 1) == 31;
    assert FirstMonths(y, 2) == if Leap(y) then 60 else 59;
    assert FirstMonths(y, 4) == FirstMonths(y, 2) + 61;
    assert FirstMonths(y, 6) == FirstMonths(y, 4) + 61;
    assert FirstMonths(y, 8) == FirstMonths(y, 6) + 62;
    assert FirstMonths(y, 10) == FirstMonths(y, 8) + 61;
  }

  lemma YearLength(y: nat)
    ensures YearStart(y + 1) == YearStart(y) + if Leap(y) then 366 else 365
  {
    hide MonthStart, Leap;
    MonthWithinYear(y, 12);
    TwelveMonths(y);
    assert YearStart(y + 1) == MonthStart(12 * y + 12);
  }

  /** Leap days before year y: every fourth year, but not hundredth unless four-hundredth. */
  function LeapDays(y: nat): nat {
    (y + 3) / 4 - (y + 99) / 100 + (y + 399) / 400
  }

  lemma Fourth(y: nat)
    ensures (y + 4) / 4 == (y + 3) / 4 + if y % 4 == 0 then 1 else 0
  {
  }

  lemma Hundredth(y: nat)
    ensures (y + 100) / 100 == (y + 99) / 100 + if y % 100 == 0 then 1 else 0
  {
  }

  lemma FourHundredth(y: nat)
    ensures (y + 400) / 400 == (y + 399) / 400 + if y % 400 == 0 then 1 else 0
  {
  }

  lemma CenturiesAreFourths(y: nat)
    ensures y % 100 == 0 ==> y % 4 == 0
    ensures y % 400 == 0 ==> y % 100 == 0
  {
    if y % 100 == 0 {
      FourTimes(25 * (y / 100));
    }
    if y % 400 == 0 {
      HundredTimes(4 * (y / 400));
    }
  }

  lemma FourTimes(k: nat)
    ensures (4 * k) % 4 == 0
  {
  }

  lemma HundredTimes(k: nat)
    ensures (100 * k) % 100 == 0
  {
  }

  lemma LeapDaysStep(y: nat)
    ensures LeapDays(y + 1) == LeapDays(y) + if Leap(y) then 1 else 0
  {
    Fourth(y);
    Hundredth(y);
    FourHundredth(y);
    CenturiesAreFourths(y);
  }

  lemma {:induction false} LeapDaysGrow(y: nat, z: nat)
    requires y <= z
    ensures LeapDays(y) <= LeapDays(z)
  {
    hide Leap;
    if y < z {
      LeapDaysGrow(y, z - 1);
      LeapDaysStep(z - 1);
    }
  }

  lemma {:induction false} YearStartClosedForm(y: nat)
    ensures YearStart(y) == 365 * y + LeapDays(y)
  {
    if y > 0 {
      hide YearStart, LeapDays, Leap;
      YearStartClosedForm(y - 1);
      YearLength(y - 1);
      LeapDaysStep(y - 1);
    }
  }
}
