/** The nightly script zbx_partitions.py: what one run does and what a sequence of runs keeps. */
module Maintenance {
  import opened Options
  import opened Identifiers
  import opened Calendar
  import opened Periods
  import opened Suffixes
  import opened NameOrder
  import opened Tables
  import opened Operations
  import opened Soundness

  /** get_days; a month is 365 / 12 in integers. */
  function GetDays(g: Granularity): nat {
    match g
    case Day => 1
    case Month => 365 / 12
    case Year => 365
  }

  /** Now, less count times the days of a period; both are local. */
  function Cutoff(g: Granularity, count: nat, now: int): int {
    now - GetDays(g) * count * DAY
  }

  /** One table's share of a run of the script without `init`. */
  function Maintained(t: Table, g: Granularity, count: nat, now: Instant): Option<Table> {
    WithoutExpired(Provisioned(t, g, Current(g, now), count), ToLocal(now), Cutoff(g, count, ToLocal(now)))
  }

  /** One table's share of a run with `init`. */
  function Initialized(t: Table, g: Granularity, count: nat, now: Instant): Option<Table>
    requires Current(g, now) > 0
  {
    Enabled(Provisioned(t, g, Current(g, now), count), g, TriggerName(t.name, ""), Current(g, now))
  }

  /** The retention of count periods, in days, never reaches back further than count periods. */
  predicate RetentionCovers(g: Granularity, count: nat) {
    g.Month? ==> count >= 4
  }

  /** A lower bound of a month's length by its place in the year. */
  function Shortest(m: nat): nat
    requires m < 12
  {
    if m == 1 then 28 else if m == 3 || m == 5 || m == 8 || m == 10 then 30 else 31
  }

  lemma LengthAtLeast(k: nat)
    ensures Length(k) >= Shortest(k % 12)
    ensures (k + 1) % 12 == if k % 12 == 11 then 0 else k % 12 + 1
    ensures MonthStart(k + 1) == MonthStart(k) + Length(k)
  {
    hide Leap;
  }

  lemma FourToSevenMonths(k: nat)
    ensures MonthStart(k + 4) >= MonthStart(k) + 120
    ensures MonthStart(k + 5) >= MonthStart(k) + 150
    ensures MonthStart(k + 6) >= MonthStart(k) + 180
    ensures MonthStart(k + 7) >= MonthStart(k) + 210
  {
    hide MonthStart, Length;
    LengthAtLeast(k);
    LengthAtLeast(k + 1);
    LengthAtLeast(k + 2);
    LengthAtLeast(k + 3);
    LengthAtLeast(k + 4);
    LengthAtLeast(k + 5);
    LengthAtLeast(k + 6);
  }

  lemma {:induction false} MonthsAverageThirty(k: nat, n: nat)
    requires n >= 4
    ensures MonthStart(k + n) >= MonthStart(k) + 30 * n
    decreases n
  {
    hide MonthStart;
    FourToSevenMonths(k);
    if n >= 8 {
      MonthsAverageThirty(k + 4, n - 4);
    }
  }

  lemma RetentionReach(g: Granularity, p: nat, n: nat)
    requires RetentionCovers(g, n)
    ensures PeriodStart(g, p + n) >= PeriodStart(g, p) + GetDays(g) * n * DAY
  {
    hide MonthStart, YearStart;
    match g
    case Day =>
    case Month => MonthsAverageThirty(p, n);
    case Year => FirstDayGrows(g, p, p + n);
  }

  /** Up to three months can be shorter than thirty days each, from February 2001 for example. */
  lemma FewMonthsFallShort(n: nat)
    requires 1 <= n < 4
    ensures MonthStart(24013 + n) < MonthStart(24013) + 30 * n
  {
    hide MonthStart;
    assert Length(24013) == 28 && Length(24014) == 31 && Length(24015) == 30;
    LengthAtLeast(24013);
    LengthAtLeast(24014);
    LengthAtLeast(24015);
  }

  /** So the retention reaches back at most count periods, whenever it is, exactly if it does not
      count one to three months. */
  lemma RetentionReachExactly(g: Granularity, n: nat)
    requires n > 0
    ensures RetentionCovers(g, n) <==>
      forall p: nat :: PeriodStart(g, p + n) >= PeriodStart(g, p) + GetDays(g) * n * DAY
  {
    hide MonthStart, YearStart;
    if RetentionCovers(g, n) {
      forall p: nat
        ensures PeriodStart(g, p + n) >= PeriodStart(g, p) + GetDays(g) * n * DAY
      {
        RetentionReach(g, p, n);
      }
    } else {
      FewMonthsFallShort(n);
      assert PeriodStart(g, 24013 + n) < PeriodStart(g, 24013) + GetDays(g) * n * DAY;
    }
  }

  /** And with one day more for a period it would not, not even for four periods. */
  lemma DaysAreGreatest(g: Granularity)
    ensures exists p: nat :: PeriodStart(g, p + 4) < PeriodStart(g, p) + (GetDays(g) + 1) * 4 * DAY
  {
    hide MonthStart, YearStart;
    var p: nat := if g.Year? then 2001 else 24013;
    assert PeriodStart(g, p + 4) < PeriodStart(g, p) + (GetDays(g) + 1) * 4 * DAY by {
      if g.Month? {
        assert Length(24013) + Length(24014) + Length(24015) + Length(24016) == 120;
        LengthAtLeast(24013);
        LengthAtLeast(24014);
        LengthAtLeast(24015);
        LengthAtLeast(24016);
      } else if g.Year? {
        YearStartClosedForm(2001);
        YearStartClosedForm(2005);
      }
    }
  }

  /** By how many periods the retention can reach further. */
  function Slack(g: Granularity, n: nat): nat {
    if RetentionCovers(g, n) then 0 else 1
  }

  lemma TwoToFourMonths(k: nat)
    ensures MonthStart(k + 2) >= MonthStart(k) + 59
    ensures MonthStart(k + 3) >= MonthStart(k) + 89
    ensures MonthStart(k + 4) >= MonthStart(k) + 120
  {
    hide MonthStart, Length;
    LengthAtLeast(k);
    LengthAtLeast(k + 1);
    LengthAtLeast(k + 2);
    LengthAtLeast(k + 3);
  }

  lemma RetentionReachesSlack(g: Granularity, p: nat, n: nat)
    requires n > 0
    ensures PeriodStart(g, p + n + Slack(g, n)) >= PeriodStart(g, p) + GetDays(g) * n * DAY
  {
    hide MonthStart, YearStart;
    if RetentionCovers(g, n) {
      RetentionReach(g, p, n);
    } else {
      TwoToFourMonths(p);
    }
  }

  ghost predicate InWindow(table: string, child: string, g: Granularity, lo: int, p: nat, hi: int) {
    lo <= p < hi && Printable(g, p) && child == PartitionName(table, g, p)
  }

  /** The name is that of a period from lo up to, not including, hi. */
  ghost predicate Belongs(table: string, child: string, g: Granularity, lo: int, hi: int) {
    exists p: nat :: InWindow(table, child, g, lo, p, hi)
  }

  ghost predicate Windowed(t: Table, g: Granularity, lo: int, hi: int) {
    forall child | child in t.children :: Belongs(t.name, child, g, lo, hi)
  }

  lemma {:induction false} WindowSize(table: string, g: Granularity, names: set<string>, lo: int, hi: int)
    requires lo <= hi
    requires forall name | name in names :: Belongs(table, name, g, lo, hi)
    ensures |names| <= hi - lo
    decreases hi - lo
  {
    hide PartitionName, Printable;
    if lo == hi || hi <= 0 {
      assert names == {};
    } else {
      var last := PartitionName(table, g, hi - 1);
      forall name | name in names - {last}
        ensures Belongs(table, name, g, lo, hi - 1)
      {
        var p: nat :| InWindow(table, name, g, lo, p, hi);
        assert InWindow(table, name, g, lo, p, hi - 1);
      }
      WindowSize(table, g, names - {last}, lo, hi - 1);
      assert |names| <= |names - {last}| + 1;
    }
  }

  lemma ExpiredAt(table: string, g: Granularity, p: nat, now: int, cutoff: int)
    requires Printable(g, p)
    ensures ParseBound(PartitionName(table, g, p)).Some?
    ensures Expired(PartitionName(table, g, p), now, cutoff)
        <==> PeriodStart(g, p + 1) <= now && PeriodStart(g, p + 1) <= cutoff
  {
    hide PartitionName, PeriodStart, Printable, ParseBound;
    ParseOfPrinted(table, g, p);
  }

  lemma ProvisioningWidens(t: Table, g: Granularity, p: nat, n: nat, lo: int, hi: int)
    requires Windowed(t, g, lo, hi) && lo <= p && hi <= p + n
    requires n > 0 && Printable(g, p) && Printable(g, p + n - 1)
    ensures Windowed(Provisioned(t, g, p, n), g, lo, p + n)
  {
    hide PartitionName, Printable, Fresh;
    forall child | child in Provisioned(t, g, p, n).children
      ensures Belongs(t.name, child, g, lo, p + n)
    {
      if child in t.children {
        var q: nat :| InWindow(t.name, child, g, lo, q, hi);
        assert InWindow(t.name, child, g, lo, q, p + n);
      } else {
        FreshNames(t.name, g, p, n, child);
        var q: nat :| p <= q < p + n && child == PartitionName(t.name, g, q);
        assert Printable(g, q) by {
          PrintableWithin(g, p, q, p + n - 1);
        }
        assert InWindow(t.name, child, g, lo, q, p + n);
      }
    }
  }

  lemma PrintableWithin(g: Granularity, lo: int, p: int, hi: int)
    requires Printable(g, lo) && Printable(g, hi) && lo <= p <= hi
    ensures Printable(g, p)
  {
  }

  lemma KeptIsRecent(table: string, child: string, g: Granularity, n: nat, now: Instant, hi: int)
    requires Belongs(table, child, g, 0, hi) && n > 0
    ensures ParseBound(child).Some?
    ensures !Expired(child, ToLocal(now), Cutoff(g, n, ToLocal(now))) ==>
      Belongs(table, child, g, Current(g, now) - n - Slack(g, n), hi)
  {
    hide PartitionName, PeriodOf, PeriodStart, ParseBound, Printable, Cutoff, Expired, Slack;
    var p, moment := Current(g, now), ToLocal(now);
    var first := p - n - Slack(g, n);
    var q: nat :| InWindow(table, child, g, 0, q, hi);
    ExpiredAt(table, g, q, moment, Cutoff(g, n, moment));
    if q < first {
      BeforeCutoff(g, q, first, n, now);
    } else {
      assert InWindow(table, child, g, first, q, hi);
    }
  }

  /** What a run in period p leaves lies within count periods before, or one more where the retention
      reaches further, and count from p on. */
  lemma MaintainedWindow(t: Table, g: Granularity, n: nat, now: Instant, hi: int)
    requires Windowed(t, g, 0, hi) && hi <= Current(g, now) + n
    requires n > 0 && Printable(g, Current(g, now) + n - 1)
    ensures Maintained(t, g, n, now).Some? && Maintained(t, g, n, now).value.name == t.name
    ensures Windowed(Maintained(t, g, n, now).value, g, Current(g, now) - n - Slack(g, n), Current(g, now) + n)
  {
    hide PeriodOf, ParseBound, Printable, Expired, Provisioned, Belongs, Cutoff, Slack;
    var p := Current(g, now);
    NameKept(t, g, p, n);
    RouteNameIs(t.name, g, now);
    ProvisioningWidens(t, g, p, n, 0, hi);
    forall child | child in Provisioned(t, g, p, n).children
      ensures ParseBound(child).Some?
      ensures !Expired(child, ToLocal(now), Cutoff(g, n, ToLocal(now))) ==>
        Belongs(t.name, child, g, p - n - Slack(g, n), p + n)
    {
      KeptIsRecent(t.name, child, g, n, now, p + n);
    }
  }

  lemma NameKept(t: Table, g: Granularity, p: nat, n: nat)
    ensures Provisioned(t, g, p, n).name == t.name
  {
  }

  /** A period before these ended before the cutoff. */
  lemma BeforeCutoff(g: Granularity, q: nat, first: nat, n: nat, now: Instant)
    requires n > 0 && q < first && first + n + Slack(g, n) == Current(g, now)
    ensures PeriodStart(g, q + 1) <= Cutoff(g, n, ToLocal(now)) <= ToLocal(now)
  {
    hide PeriodStart, PeriodOf, GetDays, Slack;
    PeriodContains(g, ToLocal(now), Current(g, now));
    RetentionReachesSlack(g, first, n);
    PeriodStartGrows(g, first, q + 1);
    DaysNotNegative(g, n);
  }

  lemma DaysNotNegative(g: Granularity, n: nat)
    ensures GetDays(g) * n * DAY >= 0
  {
  }

  datatype Event =
    | Arrive(at: Instant, row: Row)
    | Maintain(at: Instant)

  /** A run that raises is not committed. */
  ghost function Happen(t: Table, g: Granularity, n: nat, event: Event): Table {
    match event
    case Arrive(_, row) => Inserted(t, row)
    case Maintain(at) =>
      var maintained := Maintained(t, g, n, at);
      if maintained.Some? then maintained.value else t
  }

  ghost function Play(t: Table, g: Granularity, n: nat, events: seq<Event>): Table
    decreases |events|
  {
    if events == [] then t else Play(Happen(t, g, n, events[0]), g, n, events[1..])
  }

  /** Time does not go back, and stays in four-digit years. */
  predicate Ordered(g: Granularity, n: nat, now: Instant, events: seq<Event>)
    decreases |events|
  {
    events != [] ==>
      && now <= events[0].at && Printable(g, Current(g, events[0].at) + n - 1)
      && Ordered(g, n, events[0].at, events[1..])
  }

  /** Everything happens before the end of what the latest run, in period last, provisioned, and
      every row's clock lies in the period in which it arrives. */
  predicate Timely(g: Granularity, n: nat, last: nat, events: seq<Event>)
    decreases |events|
  {
    events != [] ==>
      var event := events[0];
      var p := Current(g, event.at);
      && p < last + n
      && (event.Arrive? ==> Current(g, event.row.clock) == p)
      && Timely(g, n, if event.Maintain? then p else last, events[1..])
  }

  lemma TimeAdvances(g: Granularity, a: Instant, b: Instant)
    requires a <= b
    ensures Current(g, a) <= Current(g, b)
  {
    hide PeriodOf, PeriodStart;
    Horizon(g, Current(g, a), ToLocal(a));
    Horizon(g, Current(g, a), ToLocal(b));
  }

  lemma HappenKeepsWindow(t: Table, g: Granularity, n: nat, event: Event, hi: int)
    requires Windowed(t, g, 0, hi) && hi <= Current(g, event.at) + n && n > 0
    requires Printable(g, Current(g, event.at) + n - 1)
    ensures Windowed(Happen(t, g, n, event), g, 0, Current(g, event.at) + n)
  {
    hide Belongs, PeriodOf, Printable, Destination, Maintained;
    match event
    case Arrive(at, row) =>
      forall child | child in t.children
        ensures Belongs(t.name, child, g, 0, Current(g, at) + n)
      {
        BelongsWider(t.name, child, g, 0, hi, Current(g, at) + n);
      }
    case Maintain(at) => RunKeepsWindow(t, g, n, at, hi);
  }

  lemma BelongsWider(table: string, child: string, g: Granularity, lo: int, hi: int, wider: int)
    requires Belongs(table, child, g, lo, hi) && hi <= wider
    ensures Belongs(table, child, g, lo, wider)
  {
    hide PartitionName, Printable;
    var p: nat :| InWindow(table, child, g, lo, p, hi);
    assert InWindow(table, child, g, lo, p, wider);
  }

  /** After every run of the script but the first, a table has at most twice as many partitions as
      are configured, and one more with a configuration of one to three months. */
  lemma {:induction false} PartitionsAreBounded(t: Table, g: Granularity, n: nat, now: Instant, events: seq<Event>)
    requires n > 0 && Windowed(t, g, 0, Current(g, now) + n) && Ordered(g, n, now, events)
    ensures events != [] && events[|events| - 1].Maintain? ==>
      |Play(t, g, n, events).children| <= 2 * n + Slack(g, n)
    decreases |events|
  {
    hide Windowed, PeriodOf, Printable, Slack, Happen, Maintained;
    if events != [] {
      var event := events[0];
      var t', p := Happen(t, g, n, event), Current(g, event.at);
      TimeAdvances(g, now, event.at);
      HappenKeepsWindow(t, g, n, event, Current(g, now) + n);
      PartitionsAreBounded(t', g, n, event.at, events[1..]);
      if event.Maintain? && events[1..] == [] {
        assert Play(t, g, n, events) == t';
        MaintainedCount(t, g, n, event.at, Current(g, now) + n);
        assert Happen(t, g, n, event) == Maintained(t, g, n, event.at).value by { HappenMaintains(t, g, n, event); }
      }
    }
  }

  lemma HappenMaintains(t: Table, g: Granularity, n: nat, event: Event)
    requires event.Maintain? && Maintained(t, g, n, event.at).Some?
    ensures Happen(t, g, n, event) == Maintained(t, g, n, event.at).value
  {
  }

  lemma MaintainedCount(t: Table, g: Granularity, n: nat, now: Instant, hi: int)
    requires Windowed(t, g, 0, hi) && hi <= Current(g, now) + n
    requires n > 0 && Printable(g, Current(g, now) + n - 1)
    ensures Maintained(t, g, n, now).Some?
    ensures |Maintained(t, g, n, now).value.children| <= 2 * n + Slack(g, n)
  {
    hide Belongs, PeriodOf, Printable, Slack, Maintained;
    MaintainedWindow(t, g, n, now, hi);
    var t' := Maintained(t, g, n, now).value;
    WindowSize(t'.name, g, t'.children.Keys, Current(g, now) - n - Slack(g, n), Current(g, now) + n);
  }

  /** The period's partition is there as zbx_provision_partitions makes it. */
  ghost predicate Open(t: Table, g: Granularity, p: nat) {
    var child := PartitionName(t.name, g, p);
    child in t.children && !t.children[child].first && t.children[child].checks == map[CLOCK := ClockCheck(g, p)]
  }

  ghost predicate Covering(t: Table, g: Granularity, n: nat, last: nat, trigger: string) {
    && t.parent == [] && t.triggers == map[trigger := g]
    && Windowed(t, g, 0, last + n)
    && forall p: nat | last <= p < last + n :: Open(t, g, p)
  }

  lemma ArrivalFindsPartition(t: Table, g: Granularity, row: Row, trigger: string)
    requires t.triggers == map[trigger := g] && Open(t, g, Current(g, row.clock))
    ensures Destination(t, row) == Some(PartitionName(t.name, g, Current(g, row.clock)))
  {
    hide PartitionName, RouteName, PeriodOf, ClockCheck;
    RouteNameIs(t.name, g, row.clock);
    CheckIsPeriod(g, Current(g, row.clock), row.clock);
    SortedUnique(t.triggers.Keys, [trigger]);
    assert Target(t, row, [trigger]) == Some(PartitionName(t.name, g, Current(g, row.clock)));
  }

  lemma ArrivalKeepsCover(t: Table, g: Granularity, n: nat, last: nat, trigger: string, row: Row)
    requires Covering(t, g, n, last, trigger) && last <= Current(g, row.clock) < last + n
    ensures Covering(Inserted(t, row), g, n, last, trigger)
  {
    hide Belongs, PartitionName, PeriodOf, ClockCheck, Destination;
    ArrivalFindsPartition(t, g, row, trigger);
    var t' := Inserted(t, row);
    forall p: nat | last <= p < last + n
      ensures Open(t', g, p)
    {
      assert Open(t, g, p);
    }
  }

  lemma ProvisionedIsOpen(t: Table, g: Granularity, p: nat, n: nat, q: nat, hi: int)
    requires Windowed(t, g, 0, hi) && p <= q < p + n && Printable(g, p) && Printable(g, p + n - 1)
    requires hi <= q || Open(t, g, q)
    ensures Open(Provisioned(t, g, p, n), g, q)
  {
    hide PartitionName, ClockCheck, Printable;
    var child := PartitionName(t.name, g, q);
    FreshAt(t.name, g, p, n, q);
    if child in t.children && hi <= q {
      var r: nat :| InWindow(t.name, child, g, 0, r, hi);
      PrintableWithin(g, p, q, p + n - 1);
      NameDetermines(t.name, g, q, t.name, g, r);
    }
  }

  lemma RunKeepsWindow(t: Table, g: Granularity, n: nat, now: Instant, hi: int)
    requires Windowed(t, g, 0, hi) && hi <= Current(g, now) + n && n > 0
    requires Printable(g, Current(g, now) + n - 1)
    ensures Maintained(t, g, n, now).Some?
    ensures var t' := Maintained(t, g, n, now).value;
      && t'.name == t.name && t'.parent == t.parent && t'.triggers == t.triggers
      && Windowed(t', g, 0, Current(g, now) + n)
  {
    hide PeriodOf, ParseBound, Printable, Cutoff, Expired, Provisioned, Windowed, WithoutExpired;
    var p, provisioned := Current(g, now), Provisioned(t, g, Current(g, now), n);
    KeptRest(t, g, p, n);
    RouteNameIs(t.name, g, now);
    ProvisioningWidens(t, g, p, n, 0, hi);
    DroppingKeepsWindow(provisioned, g, p + n, ToLocal(now), Cutoff(g, n, ToLocal(now)));
  }

  lemma DroppingKeepsWindow(t: Table, g: Granularity, hi: int, now: int, cutoff: int)
    requires Windowed(t, g, 0, hi)
    ensures WithoutExpired(t, now, cutoff).Some?
    ensures var t' := WithoutExpired(t, now, cutoff).value;
      && t'.name == t.name && t'.parent == t.parent && t'.triggers == t.triggers
      && Windowed(t', g, 0, hi)
  {
    hide ParseBound, Expired, Belongs;
    forall child | child in t.children
      ensures ParseBound(child).Some?
    {
      Parses(t.name, child, g, hi);
    }
  }

  lemma RunKeepsOpen(t: Table, g: Granularity, n: nat, now: Instant, hi: int, q: nat)
    requires Windowed(t, g, 0, hi) && Maintained(t, g, n, now).Some?
    requires Current(g, now) <= q < Current(g, now) + n && Printable(g, Current(g, now) + n - 1)
    requires hi <= q || Open(t, g, q)
    ensures Open(Maintained(t, g, n, now).value, g, q)
  {
    hide PeriodOf, Printable, Cutoff, Provisioned, Windowed, Open, WithoutExpired;
    var p := Current(g, now);
    RouteNameIs(t.name, g, now);
    PrintableWithin(g, p, q, p + n - 1);
    ProvisionedIsOpen(t, g, p, n, q, hi);
    CurrentIsKept(Provisioned(t, g, p, n), Maintained(t, g, n, now).value, g, q, now, Cutoff(g, n, ToLocal(now)));
  }

  lemma RunKeepsCover(t: Table, g: Granularity, n: nat, last: nat, trigger: string, now: Instant)
    requires Covering(t, g, n, last, trigger) && last <= Current(g, now) < last + n
    requires Printable(g, Current(g, now) + n - 1)
    ensures Maintained(t, g, n, now).Some?
    ensures Covering(Maintained(t, g, n, now).value, g, n, Current(g, now), trigger)
  {
    hide PeriodOf, Printable, Maintained, Windowed, Open;
    var p := Current(g, now);
    RunKeepsWindow(t, g, n, now, last + n);
    forall q: nat | p <= q < p + n
      ensures Open(Maintained(t, g, n, now).value, g, q)
    {
      RunKeepsOpen(t, g, n, now, last + n, q);
    }
  }

  lemma KeptRest(t: Table, g: Granularity, p: nat, n: nat)
    ensures var t' := Provisioned(t, g, p, n);
      t'.name == t.name && t'.parent == t.parent && t'.triggers == t.triggers
  {
  }

  lemma Parses(table: string, child: string, g: Granularity, hi: int)
    requires Belongs(table, child, g, 0, hi)
    ensures ParseBound(child).Some?
  {
    hide PartitionName, PeriodStart, ParseBound, Printable;
    var p: nat :| InWindow(table, child, g, 0, p, hi);
    ParseOfPrinted(table, g, p);
  }

  /** The partition of the current period or of a later one is never dropped. */
  lemma CurrentIsKept(t: Table, t': Table, g: Granularity, q: nat, now: Instant, cutoff: int)
    requires WithoutExpired(t, ToLocal(now), cutoff) == Some(t')
    requires Current(g, now) <= q && Printable(g, q) && Open(t, g, q)
    ensures Open(t', g, q)
  {
    hide PartitionName, PeriodOf, PeriodStart, ParseBound, Printable, Expired, ClockCheck;
    ExpiredAt(t.name, g, q, ToLocal(now), cutoff);
    Horizon(g, q + 1, ToLocal(now));
  }

  lemma {:induction false} CoverLasts(
    t: Table, g: Granularity, n: nat, last: nat, trigger: string, now: Instant, events: seq<Event>, k: nat)
    requires Covering(t, g, n, last, trigger) && last <= Current(g, now)
    requires Ordered(g, n, now, events) && Timely(g, n, last, events) && k <= |events|
    ensures var u := Play(t, g, n, events[..k]);
      && u.name == t.name && u.parent == []
      && (k < |events| && events[k].Arrive? ==>
            Destination(u, events[k].row) == Some(PartitionName(t.name, g, Current(g, events[k].at))))
    decreases |events|
  {
    hide PeriodOf, Printable, Windowed, Open, Destination, Maintained, PartitionName;
    if events != [] {
      var event := events[0];
      TimeAdvances(g, now, event.at);
      if k == 0 {
        if event.Arrive? {
          assert Open(t, g, Current(g, event.at));
          ArrivalFindsPartition(t, g, event.row, trigger);
        }
      } else {
        assert events[..k][1..] == events[1..][..k - 1];
        NextCovers(t, g, n, last, trigger, event);
        var next := if event.Maintain? then Current(g, event.at) else last;
        CoverLasts(Happen(t, g, n, event), g, n, next, trigger, event.at, events[1..], k - 1);
      }
    }
  }

  lemma NextCovers(t: Table, g: Granularity, n: nat, last: nat, trigger: string, event: Event)
    requires Covering(t, g, n, last, trigger) && last <= Current(g, event.at) < last + n
    requires Printable(g, Current(g, event.at) + n - 1)
    requires event.Arrive? ==> Current(g, event.row.clock) == Current(g, event.at)
    ensures var next := if event.Maintain? then Current(g, event.at) else last;
      Covering(Happen(t, g, n, event), g, n, next, trigger) && Happen(t, g, n, event).name == t.name
  {
    hide PeriodOf, Printable, Windowed, Open, Destination, Maintained, Covering;
    if event.Arrive? {
      ArrivalKeepsCover(t, g, n, last, trigger, event.row);
    } else {
      RunKeepsCover(t, g, n, last, trigger, event.at);
      KeptName(t, g, n, event.at);
    }
  }

  lemma KeptName(t: Table, g: Granularity, n: nat, now: Instant)
    ensures Maintained(t, g, n, now).Some? ==> Maintained(t, g, n, now).value.name == t.name
  {
  }

  /** Between initialization and the end of what has been provisioned, each row that arrives in the
      period of its clock goes to that period's child: the parent is empty all the time, over any
      number of runs. */
  lemma ParentStaysEmpty(
    t: Table, g: Granularity, n: nat, last: nat, trigger: string, now: Instant, events: seq<Event>)
    requires Covering(t, g, n, last, trigger) && last <= Current(g, now)
    requires Ordered(g, n, now, events) && Timely(g, n, last, events)
    ensures forall k: nat | k <= |events| :: Play(t, g, n, events[..k]).parent == []
    ensures forall k: nat | k < |events| && events[k].Arrive? ::
      Destination(Play(t, g, n, events[..k]), events[k].row) ==
      Some(PartitionName(t.name, g, Current(g, events[k].at)))
  {
    hide Covering, Ordered, Timely, PeriodOf, PartitionName, Destination, Play;
    forall k: nat | k <= |events|
      ensures Play(t, g, n, events[..k]).parent == []
      ensures k < |events| && events[k].Arrive? ==>
        Destination(Play(t, g, n, events[..k]), events[k].row) ==
        Some(PartitionName(t.name, g, Current(g, events[k].at)))
    {
      CoverLasts(t, g, n, last, trigger, now, events, k);
    }
  }

  /** The table after its initialization in period p. */
  function Begun(t: Table, g: Granularity, p: nat, n: nat): Table
    requires p > 0
  {
    Table(t.name, [], Fresh(t.name, g, p, n)[PartitionName(t.name, g, p - 1) := Partition(t.parent, map[], true)],
          map[TriggerName(t.name, "") := g])
  }

  lemma InitializedIs(t: Table, g: Granularity, n: nat, now: Instant)
    requires n > 0 && Printable(g, Current(g, now) - 1) && Printable(g, Current(g, now) + n - 1)
    requires t.children == map[] && t.triggers.Keys <= {TriggerName(t.name, "")}
    ensures Initialized(t, g, n, now) == Some(Begun(t, g, Current(g, now), n))
  {
    hide PartitionName, PeriodOf, ClockCheck, Fresh, Printable, TriggerName;
    var p, trigger := Current(g, now), TriggerName(t.name, "");
    RouteNameIs(t.name, g, now);
    PrintablePositive(g, p - 1);
    FreshAt(t.name, g, p, n, p);
    FirstIsNew(t.name, g, p, n);
    var made := Provisioned(t, g, p, n);
    assert made.children == Fresh(t.name, g, p, n);
    assert made.triggers[trigger := g] == map[trigger := g];
  }

  lemma BegunIsWindowed(t: Table, g: Granularity, p: nat, n: nat)
    requires n > 0 && p > 0 && Printable(g, p - 1) && Printable(g, p) && Printable(g, p + n - 1)
    ensures Windowed(Begun(t, g, p, n), g, 0, p + n)
  {
    hide PartitionName, Fresh, Printable, Belongs, TriggerName;
    var empty := Table(t.name, [], map[], map[]);
    ProvisioningWidens(empty, g, p, n, 0, p);
    NameBelongs(t.name, g, 0, p - 1, p + n);
    assert Provisioned(empty, g, p, n).children == Fresh(t.name, g, p, n);
  }

  lemma BegunCovers(t: Table, g: Granularity, p: nat, n: nat)
    requires n > 0 && p > 0 && Printable(g, p - 1) && Printable(g, p) && Printable(g, p + n - 1)
    ensures Covering(Begun(t, g, p, n), g, n, p, TriggerName(t.name, ""))
  {
    hide PartitionName, Fresh, Printable, Open, Windowed, TriggerName, OwnName;
    BegunIsWindowed(t, g, p, n);
    forall q: nat | p <= q < p + n
      ensures Open(Begun(t, g, p, n), g, q)
    {
      FreshIsOpen(t, Begun(t, g, p, n), g, p, n, q, Partition(t.parent, map[], true));
    }
  }

  /** Initialization leaves the parent's rows in the first partition and covers count periods. */
  lemma InitializedCovers(t: Table, g: Granularity, n: nat, now: Instant)
    requires n > 0 && Printable(g, Current(g, now) - 1) && Printable(g, Current(g, now) + n - 1)
    requires t.children == map[] && t.triggers.Keys <= {TriggerName(t.name, "")}
    ensures Initialized(t, g, n, now).Some?
    ensures var t', first := Initialized(t, g, n, now).value, PartitionName(t.name, g, Current(g, now) - 1);
      && Covering(t', g, n, Current(g, now), TriggerName(t.name, ""))
      && first in t'.children && t'.children[first] == Partition(t.parent, map[], true)
  {
    hide PartitionName, PeriodOf, Fresh, Printable, Covering, Initialized, TriggerName, OwnName;
    RouteNameIs(t.name, g, now);
    PrintablePositive(g, Current(g, now) - 1);
    InitializedIs(t, g, n, now);
    BegunCovers(t, g, Current(g, now), n);
  }

  lemma NameBelongs(table: string, g: Granularity, lo: int, p: nat, hi: int)
    requires lo <= p < hi && Printable(g, p)
    ensures Belongs(table, PartitionName(table, g, p), g, lo, hi)
  {
    hide PartitionName, Printable;
    assert InWindow(table, PartitionName(table, g, p), g, lo, p, hi);
  }

  lemma FirstIsNew(table: string, g: Granularity, p: nat, n: nat)
    requires p > 0 && n > 0 && Printable(g, p - 1) && Printable(g, p + n - 1)
    ensures PartitionName(table, g, p - 1) !in Fresh(table, g, p, n)
  {
    hide PartitionName, Printable, Fresh;
    var first := PartitionName(table, g, p - 1);
    FreshNames(table, g, p, n, first);
    if first in Fresh(table, g, p, n) {
      var q: nat :| p <= q < p + n && first == PartitionName(table, g, q);
      PrintableWithin(g, p - 1, q, p + n - 1);
      NameDetermines(table, g, p - 1, table, g, q);
    }
  }

  lemma FreshIsOpen(t: Table, t': Table, g: Granularity, p: nat, n: nat, q: nat, first: Partition)
    requires p > 0 && p <= q < p + n && Printable(g, p - 1) && Printable(g, p) && Printable(g, p + n - 1)
    requires t'.name == t.name
    requires t'.children == Fresh(t.name, g, p, n)[PartitionName(t.name, g, p - 1) := first]
    ensures Open(t', g, q)
  {
    hide PartitionName, ClockCheck, Fresh, Printable;
    FreshAt(t.name, g, p, n, q);
    PrintableWithin(g, p - 1, q, p + n - 1);
    NameDiffers(t.name, g, p - 1, q);
  }

  lemma NameDiffers(table: string, g: Granularity, p: nat, q: nat)
    requires Printable(g, p) && Printable(g, q) && p != q
    ensures PartitionName(table, g, p) != PartitionName(table, g, q)
  {
    if PartitionName(table, g, p) == PartitionName(table, g, q) {
      NameDetermines(table, g, p, table, g, q);
    }
  }
}
