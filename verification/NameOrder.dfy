/**
 The order of the catalogue's names (byte by byte), the listing of a set of names in that order,
 and its agreement with time for partitions of one granularity.
 */
module NameOrder {
  import opened Options
  import opened Identifiers
  import opened Calendar
  import opened Periods
  import opened Suffixes

  predicate Before(a: string, b: string) {
    b != [] && (a == [] || a[0] < b[0] || (a[0] == b[0] && Before(a[1..], b[1..])))
  }

  lemma {:induction false} BeforeIsTotal(a: string, b: string)
    ensures Before(a, b) || a == b || Before(b, a)
    ensures !(Before(a, b) && Before(b, a))
    ensures !Before(a, a)
  {
    if a != [] {
      BeforeIsTotal(a[1..], if b == [] then [] else b[1..]);
      if b != [] && a[0] == b[0] && a[1..] == b[1..] {
        assert a == [a[0]] + a[1..] == b;
      }
    }
  }

  lemma {:induction false} BeforeIsTransitive(a: string, b: string, c: string)
    requires Before(a, b) && Before(b, c)
    ensures Before(a, c)
  {
    if a != [] && a[0] == b[0] == c[0] {
      BeforeIsTransitive(a[1..], b[1..], c[1..]);
    }
  }

  predicate IsLeast(least: string, names: set<string>) {
    least in names && forall name | name in names :: name == least || Before(least, name)
  }

  lemma LeastExists(names: set<string>)
    requires names != {}
    ensures exists least :: IsLeast(least, names)
  {
    var name :| name in names;
    var others := names - {name};
    if others == {} {
      assert names == {name};
      assert IsLeast(name, names);
    } else {
      LeastExists(others);
      var least :| IsLeast(least, others);
      BeforeIsTotal(name, least);
      if Before(least, name) {
        assert IsLeast(least, names);
      } else {
        forall other | other in names && other != name
          ensures Before(name, other)
        {
          if other != least {
            BeforeIsTransitive(name, least, other);
          }
        }
        assert IsLeast(name, names);
      }
    }
  }

  ghost function Least(names: set<string>): (least: string)
    requires names != {}
    ensures IsLeast(least, names)
  {
    LeastExists(names);
    var least :| IsLeast(least, names);
    least
  }

  /** The names in order. */
  ghost function Sorted(names: set<string>): seq<string> {
    if names == {} then [] else [Least(names)] + Sorted(names - {Least(names)})
  }

  predicate Ascending(listing: seq<string>) {
    forall i, j | 0 <= i < j < |listing| :: Before(listing[i], listing[j])
  }

  lemma {:induction false} SortedLists(names: set<string>)
    ensures Ascending(Sorted(names))
    ensures forall name :: name in Sorted(names) <==> name in names
  {
    if names != {} {
      SortedLists(names - {Least(names)});
    }
  }

  /** There is one way to list a set of names in order. */
  lemma {:induction false} SortedUnique(names: set<string>, listing: seq<string>)
    requires Ascending(listing) && forall name :: name in listing <==> name in names
    ensures listing == Sorted(names)
  {
    if listing != [] {
      var first, rest := listing[0], listing[1..];
      assert first in names;
      BeforeIsTotal(first, Least(names));
      assert first == Least(names);
      BeforeIsTotal(first, first);
      SortedUnique(names - {first}, rest);
    } else {
      assert names == {};
    }
  }

  lemma {:induction false} BeforeAppend(a: string, b: string, x: string, y: string)
    requires |a| == |b|
    ensures Before(a + x, b + y) <==> Before(a, b) || (a == b && Before(x, y))
  {
    if a == [] {
      assert a + x == x && b + y == y;
    } else {
      BeforeAppend(a[1..], b[1..], x, y);
      assert (a + x)[1..] == a[1..] + x && (b + y)[1..] == b[1..] + y;
      assert a == b <==> a[0] == b[0] && a[1..] == b[1..];
    }
  }

  lemma Tenths(m: nat, n: nat)
    requires m < 100 && n < 100
    ensures m < n <==> m / 10 < n / 10 || (m / 10 == n / 10 && m % 10 < n % 10)
    ensures m / 10 < 10 && n / 10 < 10
  {
  }

  lemma DigitOrder(m: nat, n: nat)
    requires m < 10 && n < 10
    ensures Digit(m) < Digit(n) <==> m < n
    ensures Digit(m) == Digit(n) <==> m == n
  {
  }

  lemma TwoDigitsOrder(m: nat, n: nat)
    requires m < 100 && n < 100
    ensures Before(TwoDigits(m), TwoDigits(n)) <==> m < n
    ensures TwoDigits(m) == TwoDigits(n) ==> m == n
  {
    Tenths(m, n);
    DigitOrder(m / 10, n / 10);
    DigitOrder(m % 10, n % 10);
    hide Digit;
    var a, b := TwoDigits(m), TwoDigits(n);
    assert Before(a[1..], b[1..]) <==> a[1] < b[1];
  }

  lemma FourDigitsOrder(m: nat, n: nat)
    requires m < 10000 && n < 10000
    ensures Before(FourDigits(m), FourDigits(n)) <==> m < n
    ensures FourDigits(m) == FourDigits(n) ==> m == n
  {
    hide TwoDigits;
    TwoDigitsOrder(m / 100, n / 100);
    TwoDigitsOrder(m % 100, n % 100);
    BeforeAppend(TwoDigits(m / 100), TwoDigits(n / 100), TwoDigits(m % 100), TwoDigits(n % 100));
    assert FourDigits(m)[..2] == TwoDigits(m / 100) && FourDigits(m)[2..] == TwoDigits(m % 100);
    assert FourDigits(n)[..2] == TwoDigits(n / 100) && FourDigits(n)[2..] == TwoDigits(n % 100);
  }

  lemma FieldOrder(a: string, b: string, m: nat, n: nat)
    requires |a| == |b| && m < 100 && n < 100
    ensures Before(a + "_" + TwoDigits(m), b + "_" + TwoDigits(n)) <==> Before(a, b) || (a == b && m < n)
    ensures a + "_" + TwoDigits(m) == b + "_" + TwoDigits(n) ==> a == b && m == n
  {
    BeforeAppend(a + "_", b + "_", TwoDigits(m), TwoDigits(n));
    BeforeAppend(a, b, "_", "_");
    BeforeIsTotal("_", "_");
    TwoDigitsOrder(m, n);
    var x, y := a + "_" + TwoDigits(m), b + "_" + TwoDigits(n);
    assert x[..|a|] == a && y[..|b|] == b;
    assert x[|a| + 1..] == TwoDigits(m) && y[|b| + 1..] == TwoDigits(n);
  }

  predicate Earlier(a: Date, b: Date) {
    a.y < b.y || (a.y == b.y && (a.m < b.m || (a.m == b.m && a.d < b.d)))
  }

  lemma PrintedOrder(g: Granularity, a: Date, b: Date)
    requires ValidDate(a) && ValidDate(b) && a.y < 10000 && b.y < 10000
    ensures Before(Printed(g, a), Printed(g, b)) <==> Earlier(FirstOf(g, a), FirstOf(g, b))
    ensures Printed(g, a) == Printed(g, b) ==> FirstOf(g, a) == FirstOf(g, b)
    decreases Width(g)
  {
    match g {
      case Year => FourDigitsOrder(a.y, b.y);
      case Month =>
        FourDigitsOrder(a.y, b.y);
        FieldOrder(FourDigits(a.y), FourDigits(b.y), a.m, b.m);
      case Day =>
        PrintedOrder(Month, a, b);
        FieldOrder(Printed(Month, a), Printed(Month, b), a.d, b.d);
    }
  }

  lemma EarlierDates(a: Date, b: Date)
    requires ValidDate(a) && ValidDate(b)
    ensures Earlier(a, b) <==> DayNumber(a) < DayNumber(b)
  {
    hide MonthDays, MonthStart;
    var j, k := MonthIndex(a), MonthIndex(b);
    DateInMonth(a);
    DateInMonth(b);
    if j < k {
      MonthStartGrows(j + 1, k);
    } else if k < j {
      MonthStartGrows(k + 1, j);
    }
  }

  /** Within one granularity names sort in the order of their periods. */
  lemma NameOrderIsTimeOrder(table: string, g: Granularity, p: nat, q: nat)
    requires Printable(g, p) && Printable(g, q)
    ensures Before(PartitionName(table, g, p), PartitionName(table, g, q)) <==> p < q
  {
    var a, b := FirstDate(g, p), FirstDate(g, q);
    PrintableYear(g, p);
    PrintableYear(g, q);
    BeforeAppend(table + "_", table + "_", Suffix(g, p), Suffix(g, q));
    BeforeIsTotal(table + "_", table + "_");
    assert FirstOf(g, a) == a && FirstOf(g, b) == b;
    PrintedOrder(g, a, b);
    EarlierDates(a, b);
    FirstDateOfPeriod(g, p);
    FirstDateOfPeriod(g, q);
    if p < q {
      FirstDayGrows(g, p, q);
    } else {
      FirstDayGrows(g, q, p);
    }
  }

  lemma OneBound(name: string, table: string, g: Granularity, p: nat)
    requires Printable(g, p) && name == PartitionName(table, g, p)
    ensures ParseBound(name) == Some(PeriodStart(g, p + 1))
  {
    ParseOfPrinted(table, g, p);
  }

  lemma SameStart(g: Granularity, p: nat, q: nat)
    requires PeriodStart(g, p) == PeriodStart(g, q)
    ensures p == q
  {
    PeriodStartGrows(g, p, q);
    PeriodStartGrows(g, q, p);
  }

  lemma OneGranularity(name: string, table: string, g: Granularity, p: nat)
    requires Printable(g, p) && name == PartitionName(table, g, p)
    ensures forall h :: Matches(name, h) <==> h == g
  {
    ParseOfPrinted(table, g, p);
  }

  lemma SameSuffix(a: string, b: string, x: string)
    requires a + x == b + x
    ensures a == b
  {
    assert |a| == |b|;
    assert a == (a + x)[..|a|] && b == (b + x)[..|a|];
  }

  /** A name belongs to one table, one granularity and one period. */
  lemma NameDetermines(table: string, g: Granularity, p: nat, other: string, h: Granularity, q: nat)
    requires Printable(g, p) && Printable(h, q)
    requires PartitionName(table, g, p) == PartitionName(other, h, q)
    ensures table == other && g == h && p == q
  {
    var name := PartitionName(table, g, p);
    assert g == h by {
      OneGranularity(name, table, g, p);
      OneGranularity(name, other, h, q);
      assert Matches(name, g);
    }
    assert PeriodStart(g, p + 1) == PeriodStart(h, q + 1) by {
      OneBound(name, table, g, p);
      OneBound(name, other, h, q);
    }
    SameStart(g, p + 1, q + 1);
    SameSuffix(table + "_", other + "_", Suffix(g, p));
    SameSuffix(table, other, "_");
  }

  lemma PrintedIsSmall(g: Granularity, date: Date)
    ensures forall c | c in Printed(g, date) :: IsDigit(c) || c == '_'
    decreases Width(g)
  {
    match g {
      case Year =>
      case Month => PrintedIsSmall(Year, date);
      case Day => PrintedIsSmall(Month, date);
    }
  }

  /** A child can be named without quotes wherever its parent can. */
  lemma ChildIsRead(table: TableName, g: Granularity, p: nat)
    ensures OwnName(PartitionName(table, g, p))
    ensures var name := PartitionName(table, g, p);
      AsChild(name) == Name(name) && InSchema(name) == Name(name)
  {
    hide Printed, Lower, AsChild, InSchema, FirstDate;
    var name := PartitionName(table, g, p);
    PrintedIsSmall(g, FirstDate(g, p));
    SameLower(table);
    SameLower(name);
    var suffix := Suffix(g, p);
    assert name == table + "_" + suffix;
    forall i | 0 <= i < |name|
      ensures WordChar(name[i]) && !('A' <= name[i] <= 'Z')
    {
      if i > |table| {
        assert name[i] == suffix[i - |table| - 1];
        assert name[i] in suffix;
      }
    }
    PlainIsRead(name);
  }
}
