/** The bound on the number of partitions is exact: a retention of one to three months exceeds it. */
module Bounds {
  import opened Options
  import opened Identifiers
  import opened Calendar
  import opened Periods
  import opened Suffixes
  import opened Tables
  import opened Operations
  import opened Soundness
  import opened Maintenance

  /** January 2001, with the short February after it. */
  const JANUARY: nat := 24012

  lemma EarlyInCentury(k: nat)
    requires JANUARY <= k <= JANUARY + 12
    ensures 365243 <= MonthStart(k) < 3652425
  {
    hide MonthStart;
    assert YearStart(2001) == MonthStart(JANUARY) && YearStart(2002) == MonthStart(JANUARY + 12);
    YearStartClosedForm(2001);
    YearStartClosedForm(2002);
    MonthStartGrows(JANUARY, k);
    MonthStartGrows(k, JANUARY + 12);
  }

  /** The first moment of the month k months later. */
  function FirstMoment(k: nat): Instant
    requires k <= 12
  {
    EarlyInCentury(JANUARY + k);
    ToInstant(PeriodStart(Month, JANUARY + k))
  }

  lemma FirstMomentIs(k: nat)
    requires k <= 12
    ensures ToLocal(FirstMoment(k)) == PeriodStart(Month, JANUARY + k)
    ensures Current(Month, FirstMoment(k)) == JANUARY + k
  {
    hide PeriodOf, PeriodStart;
    PeriodStartGrows(Month, JANUARY + k, JANUARY + k + 1);
    PeriodContains(Month, ToLocal(FirstMoment(k)), JANUARY + k);
  }

  /** Runs of the script in the first moments of the months from the k-th to the n + 1st. */
  function MonthlyRuns(k: nat, n: nat): (events: seq<Event>)
    requires k <= n + 2 && n < 4
    ensures |events| == n + 2 - k && forall i | 0 <= i < |events| :: events[i] == Maintain(FirstMoment(k + i))
    decreases n + 2 - k
  {
    if k == n + 2 then [] else [Maintain(FirstMoment(k))] + MonthlyRuns(k + 1, n)
  }

  /** A table with the partitions of so many months from January on. */
  function Accumulated(table: TableName, count: nat): Table {
    Table(table, [], Fresh(table, Month, JANUARY, count), map[])
  }

  lemma {:induction false} FreshCount(table: string, g: Granularity, p: nat, n: nat)
    requires n > 0 ==> Printable(g, p) && Printable(g, p + n - 1)
    ensures |Fresh(table, g, p, n)| == n
  {
    hide PartitionName, EmptyPartition;
    if n > 0 {
      PrintableWithin(g, p, if n > 1 then p + n - 2 else p, p + n - 1);
      FreshCount(table, g, p, n - 1);
      if n > 1 {
        FreshIsNew(table, g, p, n - 1);
      }
    }
  }

  lemma FreshIs(table: string, p: nat, n: nat, child: string)
    requires JANUARY <= p && p + n <= JANUARY + 12
    ensures child in Fresh(table, Month, p, n) <==>
      exists q: nat :: p <= q < p + n && child == PartitionName(table, Month, q)
    ensures forall q: nat | p <= q < p + n && child == PartitionName(table, Month, q) ::
      child in Fresh(table, Month, p, n) && Fresh(table, Month, p, n)[child] == EmptyPartition(Month, q)
  {
    hide PartitionName, EmptyPartition, Fresh;
    FreshNames(table, Month, p, n, child);
    forall q: nat | p <= q < p + n && child == PartitionName(table, Month, q)
      ensures child in Fresh(table, Month, p, n) && Fresh(table, Month, p, n)[child] == EmptyPartition(Month, q)
    {
      FreshAt(table, Month, p, n, q);
    }
  }

  /** Months provisioned in addition to those that are there. */
  lemma FreshJoin(table: string, count: nat, k: nat, n: nat)
    requires k <= count <= k + n <= 12
    ensures Fresh(table, Month, JANUARY + k, n) + Fresh(table, Month, JANUARY, count) ==
      Fresh(table, Month, JANUARY, k + n)
  {
    hide PartitionName, EmptyPartition, Fresh;
    var later, earlier, all := Fresh(table, Month, JANUARY + k, n), Fresh(table, Month, JANUARY, count),
      Fresh(table, Month, JANUARY, k + n);
    forall child: string
      ensures child in later + earlier <==> child in all
      ensures child in all ==> (later + earlier)[child] == all[child]
    {
      FreshIs(table, JANUARY + k, n, child);
      FreshIs(table, JANUARY, count, child);
      FreshIs(table, JANUARY, k + n, child);
    }
    assert later + earlier == all;
  }

  /** Up to the last of these runs even January ended after the cutoff. */
  lemma NoneExpired(table: string, n: nat, k: nat, child: string)
    requires 1 <= n < 4 && k <= n + 1 && child in Fresh(table, Month, JANUARY, k + n)
    ensures ParseBound(child).Some?
    ensures var now := ToLocal(FirstMoment(k)); !Expired(child, now, Cutoff(Month, n, now))
  {
    hide PartitionName, ParseBound, MonthStart, Fresh;
    FreshIs(table, JANUARY, k + n, child);
    var q: nat :| JANUARY <= q < JANUARY + k + n && child == PartitionName(table, Month, q);
    FirstMomentIs(k);
    var now := ToLocal(FirstMoment(k));
    ExpiredAt(table, Month, q, now, Cutoff(Month, n, now));
    FewMonthsFallShort(n);
    MonthStartGrows(JANUARY + 1, q + 1);
    MonthStartGrows(JANUARY + k, JANUARY + 1 + n);
  }

  /** One of these runs. */
  lemma RunAccumulates(table: TableName, count: nat, n: nat, k: nat)
    requires 1 <= n < 4 && k <= n + 1 && count == if k == 0 then 0 else k + n - 1
    ensures Maintained(Accumulated(table, count), Month, n, FirstMoment(k)) == Some(Accumulated(table, k + n))
  {
    hide Fresh, PeriodOf, ParseBound, Expired, Cutoff, FirstMoment, OwnName;
    var t, now := Accumulated(table, count), FirstMoment(k);
    FirstMomentIs(k);
    FreshJoin(table, count, k, n);
    assert Provisioned(t, Month, JANUARY + k, n) == Accumulated(table, k + n);
    forall child | child in Accumulated(table, k + n).children
      ensures ParseBound(child).Some? && !Expired(child, ToLocal(now), Cutoff(Month, n, ToLocal(now)))
    {
      NoneExpired(table, n, k, child);
    }
    KeepsAll(Accumulated(table, k + n), ToLocal(now), Cutoff(Month, n, ToLocal(now)));
  }

  lemma KeepsAll(t: Table, now: int, cutoff: int)
    requires forall child | child in t.children :: ParseBound(child).Some? && !Expired(child, now, cutoff)
    ensures WithoutExpired(t, now, cutoff) == Some(t)
  {
    hide ParseBound, Expired;
    assert WithoutExpired(t, now, cutoff).value.children == t.children;
  }

  lemma {:induction false} RunsAccumulate(table: TableName, count: nat, n: nat, k: nat)
    requires 1 <= n < 4 && k <= n + 2 && count == if k == 0 then 0 else k + n - 1
    ensures Play(Accumulated(table, count), Month, n, MonthlyRuns(k, n)) == Accumulated(table, 2 * n + 1)
    decreases n + 2 - k
  {
    hide Accumulated, Maintained, FirstMoment;
    if k < n + 2 {
      RunAccumulates(table, count, n, k);
      RunsAccumulate(table, k + n, n, k + 1);
      assert MonthlyRuns(k, n)[1..] == MonthlyRuns(k + 1, n);
    }
  }

  lemma {:induction false} RunsAreOrdered(n: nat, k: nat, now: Instant)
    requires 1 <= n < 4 && k <= n + 2 && now <= FirstMoment(k)
    ensures Ordered(Month, n, now, MonthlyRuns(k, n))
    decreases n + 2 - k
  {
    hide FirstMoment, PeriodOf;
    if k < n + 2 {
      FirstMomentIs(k);
      FirstMomentIs(k + 1);
      hide PeriodStart;
      PeriodStartGrows(Month, JANUARY + k, JANUARY + k + 1);
      RunsAreOrdered(n, k + 1, FirstMoment(k));
      assert MonthlyRuns(k, n)[1..] == MonthlyRuns(k + 1, n);
    }
  }

  /** Monthly runs from 1 January 2001 on, on a table without partitions, leave more than twice the
      configured partitions. */
  lemma FewMonthsExceed(table: TableName, n: nat)
    requires 1 <= n < 4
    ensures var t, now, events := Table(table, [], map[], map[]), FirstMoment(0), MonthlyRuns(0, n);
      && Windowed(t, Month, 0, Current(Month, now) + n) && Ordered(Month, n, now, events)
      && |Play(t, Month, n, events).children| == 2 * n + 1
  {
    hide FirstMoment, PeriodOf, MonthlyRuns, Play, Ordered, OwnName;
    RunsAreOrdered(n, 0, FirstMoment(0));
    RunsAccumulate(table, 0, n, 0);
    FreshCount(table, Month, JANUARY, 2 * n + 1);
  }

  /** After the last of the events, if it is a run, there are at most twice the configured partitions. */
  ghost predicate Bounded(t: Table, g: Granularity, n: nat, now: Instant, events: seq<Event>) {
    Windowed(t, g, 0, Current(g, now) + n) && Ordered(g, n, now, events)
    && events != [] && events[|events| - 1].Maintain? ==>
      |Play(t, g, n, events).children| <= 2 * n
  }

  lemma CoveredIsBounded(g: Granularity, n: nat, t: Table, now: Instant, events: seq<Event>)
    requires n > 0 && RetentionCovers(g, n)
    ensures Bounded(t, g, n, now, events)
  {
    hide Windowed, Ordered, PeriodOf, Play;
    if Windowed(t, g, 0, Current(g, now) + n) && Ordered(g, n, now, events) {
      PartitionsAreBounded(t, g, n, now, events);
    }
  }

  lemma FewMonthsUnbounded(table: TableName, n: nat)
    requires 1 <= n < 4
    ensures !Bounded(Table(table, [], map[], map[]), Month, n, FirstMoment(0), MonthlyRuns(0, n))
  {
    hide Windowed, Ordered, PeriodOf, Play, FirstMoment;
    FewMonthsExceed(table, n);
  }

  /** Every run stays within twice the configured partitions exactly if they are not one to three
      months. */
  lemma BoundedExactly(g: Granularity, n: nat)
    requires n > 0
    ensures RetentionCovers(g, n) <==>
      forall t: Table, now: Instant, events: seq<Event> :: Bounded(t, g, n, now, events)
  {
    hide Bounded, OwnName;
    if RetentionCovers(g, n) {
      forall t: Table, now: Instant, events: seq<Event>
        ensures Bounded(t, g, n, now, events)
      {
        CoveredIsBounded(g, n, t, now, events);
      }
    } else {
      SmallLetters("trends");
      FewMonthsUnbounded("trends", n);
    }
  }
}
