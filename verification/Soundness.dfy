/**
 What every reachable table satisfies: each child is named after a period, only holds rows that
 its CHECKs admit, and, unless it is the unchecked first partition, only clocks of that period.
 */
module Soundness {
  import opened Options
  import opened Identifiers
  import opened Periods
  import opened Suffixes
  import opened NameOrder
  import opened Tables
  import opened Operations
  import opened Conservation

  /** The CHECK on clock admits nothing outside the period. */
  predicate Within(check: Check, g: Granularity, p: nat) {
    && ClockCheck(g, p).lo <= check.lo
    && if check.HalfOpen? then check.hi <= ClockCheck(g, p).hi else check.hi < ClockCheck(g, p).hi
  }

  ghost predicate SoundChild(table: string, child: string, partition: Partition, g: Granularity, p: nat) {
    && Printable(g, p) && child == PartitionName(table, g, p)
    && (!partition.first ==> CLOCK in partition.checks && Within(partition.checks[CLOCK], g, p))
    && forall row | row in partition.rows :: Admits(partition, row)
  }

  ghost predicate Sound(t: Table) {
    forall child | child in t.children ::
      exists g, p: nat :: SoundChild(t.name, child, t.children[child], g, p)
  }

  /** The router computes the name of the partition for the clock's period. */
  lemma RouteNameIs(table: string, g: Granularity, clock: Instant)
    ensures Printable(g, Current(g, clock))
    ensures RouteName(table, g, clock) == PartitionName(table, g, Current(g, clock))
  {
    DayIsPrintable(g, ToLocal(clock) / DAY);
    ToCharNamesPeriod(g, ToLocal(clock));
  }

  /** A period's CHECK admits the clocks of that period and no others. */
  lemma CheckIsPeriod(g: Granularity, p: nat, clock: Instant)
    ensures Passes(ClockCheck(g, p), Some(clock)) <==> p == Current(g, clock)
  {
    hide PeriodStart, PeriodOf;
    PeriodContains(g, ToLocal(clock), p);
  }

  /** The router names a provisioned partition exactly if that partition's CHECK on clock passes,
      whatever granularity either was set up with. */
  lemma RouterAgreesWithCheck(table: string, g: Granularity, clock: Instant, h: Granularity, p: nat)
    requires Printable(h, p)
    ensures RouteName(table, g, clock) == PartitionName(table, h, p) <==>
      g == h && Passes(ClockCheck(h, p), Some(clock))
  {
    hide RouteName, PartitionName, PeriodOf, ClockCheck, Passes;
    RouteNameIs(table, g, clock);
    CheckIsPeriod(h, p, clock);
    if RouteName(table, g, clock) == PartitionName(table, h, p) {
      NameDetermines(table, g, Current(g, clock), table, h, p);
    }
  }

  /** The partitions of one call of zbx_provision_partitions: each one's CHECK follows from its
      name, and together they take every clock from the first one's start to the last one's end,
      each clock once. */
  lemma ProvisionedTile(table: string, g: Granularity, p: nat, n: nat, clock: Instant)
    requires n > 0 && Printable(g, p) && Printable(g, p + n - 1)
    ensures forall q: nat | p <= q < p + n ::
      PartitionName(table, g, q) in Fresh(table, g, p, n)
      && Fresh(table, g, p, n)[PartitionName(table, g, q)] == EmptyPartition(g, q)
    ensures ClockCheck(g, p).lo <= clock < ClockCheck(g, p + n - 1).hi <==> p <= Current(g, clock) < p + n
    ensures forall q: nat, r: nat ::
      Passes(ClockCheck(g, q), Some(clock)) && Passes(ClockCheck(g, r), Some(clock)) ==> q == r
  {
    hide PartitionName, PeriodOf, PeriodStart, EmptyPartition, Printable;
    forall q: nat | p <= q < p + n
      ensures PartitionName(table, g, q) in Fresh(table, g, p, n)
        && Fresh(table, g, p, n)[PartitionName(table, g, q)] == EmptyPartition(g, q)
    {
      FreshAt(table, g, p, n, q);
    }
    forall q: nat
      ensures Passes(ClockCheck(g, q), Some(clock)) <==> q == Current(g, clock)
    {
      CheckIsPeriod(g, q, clock);
    }
    Horizon(g, p, ToLocal(clock));
    Horizon(g, p + n, ToLocal(clock));
  }

  /** A moment is in period p or later exactly from the start of p on. */
  lemma Horizon(g: Granularity, p: nat, moment: nat)
    ensures p <= PeriodOf(g, moment) <==> PeriodStart(g, p) <= moment
  {
    hide PeriodStart, PeriodOf;
    var q := PeriodOf(g, moment);
    PeriodContains(g, moment, q);
    PeriodStartGrows(g, q, p);
    PeriodStartGrows(g, q + 1, p);
    PeriodStartGrows(g, p, q);
  }

  lemma {:induction false} FreshAt(table: string, g: Granularity, p: nat, n: nat, q: nat)
    requires p <= q < p + n && Printable(g, p) && Printable(g, p + n - 1)
    ensures PartitionName(table, g, q) in Fresh(table, g, p, n)
    ensures Fresh(table, g, p, n)[PartitionName(table, g, q)] == EmptyPartition(g, q)
  {
    hide PartitionName, EmptyPartition;
    if q < p + n - 1 {
      FreshAt(table, g, p, n - 1, q);
      FreshIsNew(table, g, p, n - 1);
    }
  }

  lemma {:induction false} FreshAreSound(table: string, g: Granularity, p: nat, n: nat, child: string)
    requires n > 0 ==> Printable(g, p) && Printable(g, p + n - 1)
    requires child in Fresh(table, g, p, n)
    ensures exists q: nat :: SoundChild(table, child, Fresh(table, g, p, n)[child], g, q)
  {
    hide PartitionName, PeriodStart;
    if child == PartitionName(table, g, p + n - 1) {
      assert SoundChild(table, child, Fresh(table, g, p, n)[child], g, p + n - 1);
    } else {
      FreshAreSound(table, g, p, n - 1, child);
    }
  }

  lemma {:induction false} ValuesOf(rows: seq<Row>, column: string, row: Row)
    ensures row in rows && Value(row, column).Some? ==> Value(row, column).value in Values(rows, column)
    ensures forall value | value in Values(rows, column) ::
      exists row | row in rows :: Value(row, column) == Some(value)
  {
    hide Value;
    if rows != [] {
      ValuesOf(rows[..|rows| - 1], column, row);
    }
  }

  /** The new CHECK admits the rows there, and on clock stays within the old one. */
  lemma ConstrainedIsSound(table: string, child: string, partition: Partition, column: string, g: Granularity, p: nat)
    requires SoundChild(table, child, partition, g, p) && Constrained(partition, column).Some?
    ensures SoundChild(table, child, Constrained(partition, column).value, g, p)
  {
    hide PartitionName, PeriodStart, Values, MinMax, Printable;
    var constrained := Constrained(partition, column).value;
    var check := constrained.checks[column];
    forall row | row in constrained.rows
      ensures Admits(constrained, row)
    {
      ValuesOf(partition.rows, column, row);
    }
    if column == CLOCK && !partition.first {
      ValuesOf(partition.rows, CLOCK, Row(0, map[], ""));
      var least :| least in partition.rows && Value(least, CLOCK) == Some(check.lo);
      var greatest :| greatest in partition.rows && Value(greatest, CLOCK) == Some(check.hi);
      assert Admits(partition, least) && Admits(partition, greatest);
    }
  }

  lemma InsertKeepsSound(t: Table, row: Row)
    requires Sound(t)
    ensures Sound(Inserted(t, row))
  {
    hide PartitionName, Destination, Within, Printable;
    var t' := Inserted(t, row);
    forall child | child in t'.children
      ensures exists g, p: nat :: SoundChild(t'.name, child, t'.children[child], g, p)
    {
      var g, p: nat :| SoundChild(t.name, child, t.children[child], g, p);
      assert SoundChild(t'.name, child, t'.children[child], g, p);
    }
  }

  lemma {:induction false} InsertAllKeepsSound(t: Table, rows: seq<Row>)
    requires Sound(t)
    ensures Sound(AllInserted(t, rows))
  {
    hide Sound, Inserted, SameShape;
    if rows != [] {
      InsertAllKeepsSound(t, rows[..|rows| - 1]);
      InsertKeepsSound(AllInserted(t, rows[..|rows| - 1]), rows[|rows| - 1]);
    }
  }

  lemma {:induction false} CopyingBackKeepsSound(t: Table, listing: seq<string>)
    requires Sound(t) && Ascending(listing) && forall child | child in listing :: child in t.children
    ensures Sound(CopiedBack(t, listing)) && CopiedBack(t, listing).name == t.name
    decreases |listing|
  {
    hide SoundChild, AllInserted, Before;
    if listing != [] {
      assert listing[0..] == listing;
      CopiedBackStep(t, listing, 0);
      InsertAllKeepsSound(t, t.children[listing[0]].rows);
      CopyingBackKeepsSound(CopiedOut(t, listing[0]), listing[1..]);
    }
  }

  lemma ProvisioningKeepsSound(t: Table, g: Granularity, p: nat, n: nat)
    requires Sound(t) && n > 0 && Printable(g, p) && Printable(g, p + n - 1)
    ensures Sound(Provisioned(t, g, p, n))
  {
    hide SoundChild, Fresh, Printable;
    var t' := Provisioned(t, g, p, n);
    forall child | child in t'.children
      ensures exists h, q: nat :: SoundChild(t'.name, child, t'.children[child], h, q)
    {
      if child !in t.children {
        FreshAreSound(t.name, g, p, n, child);
      }
    }
  }

  lemma EnablingKeepsSound(t: Table, g: Granularity, trigger: string, p: nat)
    requires Sound(t) && p > 0 && Printable(g, p - 1) && Enabled(t, g, trigger, p).Some?
    ensures Sound(Enabled(t, g, trigger, p).value)
  {
    hide PartitionName, Within, Printable;
    var t' := Enabled(t, g, trigger, p).value;
    var first := PartitionName(t.name, g, p - 1);
    assert SoundChild(t.name, first, t'.children[first], g, p - 1);
  }

  lemma ConstrainingKeepsSound(t: Table, child: string, column: string)
    requires Sound(t) && child in t.children && Constrained(t.children[child], column).Some?
    ensures Sound(t.(children := t.children[child := Constrained(t.children[child], column).value]))
  {
    hide SoundChild, Constrained;
    var g, p: nat :| SoundChild(t.name, child, t.children[child], g, p);
    ConstrainedIsSound(t.name, child, t.children[child], column, g, p);
  }

  lemma ApplyKeepsSound(t: Table, op: Operation)
    requires Supported(op) && Sound(t)
    ensures Sound(Apply(t, op)) && Apply(t, op).name == t.name
  {
    hide PeriodOf, PartitionName, TimeFormatBy, Sound, Constrained, Inserted, CopiedBack, Alone, AsChild, AsColumn;
    match op
    case Insert(row) => InsertKeepsSound(t, row);
    case Provision(partitionBy, count, now) =>
      var g := TimeFormatBy(partitionBy);
      if g.Some? && count > 0 {
        RouteNameIs(t.name, g.value, now);
        ProvisioningKeepsSound(t, g.value, Current(g.value, now), count);
      }
    case Enable(partitionBy, trigger, now) =>
      var g := TimeFormatBy(partitionBy);
      if g.Some? && Enabled(t, g.value, TriggerName(t.name, trigger), Current(g.value, now)).Some? {
        EnablingKeepsSound(t, g.value, TriggerName(t.name, trigger), Current(g.value, now));
      }
    case Constrain(child, column) =>
      if WithConstraint(t, child, column).Some? {
        ConstrainingKeepsSound(t, AsChild(child).value, AsColumn(column).value);
      }
    case DropOld(cutoff, now) => DroppingKeepsSound(t, ToLocal(now), ToLocal(cutoff));
    case Deprovision(trigger) =>
      if WithoutPartitions(t, trigger).Some? {
        var left := t.(triggers := t.triggers - {Alone(TriggerName(t.name, trigger)).value});
        SortedLists(t.children.Keys);
        TriggersDoNotMatter(t, left);
        CopyingBackKeepsSound(left, Sorted(t.children.Keys));
      }
  }

  lemma TriggersDoNotMatter(t: Table, t': Table)
    requires Sound(t) && t'.name == t.name && t'.children == t.children
    ensures Sound(t')
  {
  }

  lemma DroppingKeepsSound(t: Table, now: int, cutoff: int)
    requires Sound(t)
    ensures WithoutExpired(t, now, cutoff).Some? ==> Sound(WithoutExpired(t, now, cutoff).value)
  {
    hide SoundChild, ParseBound;
  }

  lemma {:induction false} RunKeepsSound(t: Table, ops: seq<Operation>)
    requires Sound(t) && AllSupported(ops)
    ensures Sound(Run(t, ops)) && Run(t, ops).name == t.name
  {
    hide Sound, Supported, Apply;
    if ops != [] {
      RunKeepsSound(t, ops[..|ops| - 1]);
      ApplyKeepsSound(Run(t, ops[..|ops| - 1]), ops[|ops| - 1]);
    }
  }

  lemma BoundOfChild(t: Table, child: string, g: Granularity, p: nat)
    requires child in t.children && SoundChild(t.name, child, t.children[child], g, p)
    ensures ParseBound(child) == Some(PeriodStart(g, p + 1))
    ensures !t.children[child].first ==>
      forall row | row in t.children[child].rows :: Current(g, row.clock) == p
  {
    hide PartitionName, PeriodOf, PeriodStart, ParseBound, Printable;
    ParseOfPrinted(t.name, g, p);
    forall row | row in t.children[child].rows && !t.children[child].first
      ensures Current(g, row.clock) == p
    {
      CheckIsPeriod(g, p, row.clock);
    }
  }

  /** zbx_drop_old_partitions never raises on a sound table. It drops exactly the partitions whose
      period ended by NOW() and by the cutoff, and no partition with a CHECK on clock takes a row
      of the cutoff's moment or later with it. */
  lemma DropsExactlyExpired(t: Table, now: Instant, cutoff: int)
    requires Sound(t)
    ensures WithoutExpired(t, ToLocal(now), ToLocal(cutoff)).Some?
    ensures var kept := WithoutExpired(t, ToLocal(now), ToLocal(cutoff)).value.children;
      forall child, g, p: nat | child in t.children && SoundChild(t.name, child, t.children[child], g, p) ::
        && (child in kept <==> ToLocal(now) < PeriodStart(g, p + 1) || ToLocal(cutoff) < PeriodStart(g, p + 1))
        && (child in kept ==> kept[child] == t.children[child])
    ensures var kept := WithoutExpired(t, ToLocal(now), ToLocal(cutoff)).value.children;
      forall child | child in t.children && child !in kept && !t.children[child].first ::
        forall row | row in t.children[child].rows :: row.clock < cutoff
  {
    hide SoundChild, PeriodOf, PeriodStart, ParseBound;
    forall child, g, p: nat | child in t.children && SoundChild(t.name, child, t.children[child], g, p)
      ensures ParseBound(child) == Some(PeriodStart(g, p + 1))
    {
      BoundOfChild(t, child, g, p);
    }
    forall child, row | child in t.children && Expired(child, ToLocal(now), ToLocal(cutoff))
                        && !t.children[child].first && row in t.children[child].rows
      ensures row.clock < cutoff
    {
      var g, p: nat :| SoundChild(t.name, child, t.children[child], g, p);
      BoundOfChild(t, child, g, p);
      PeriodContains(g, ToLocal(row.clock), p);
    }
  }

  /** All children have one granularity. */
  ghost predicate AllOf(t: Table, g: Granularity) {
    forall child | child in t.children :: exists p: nat :: SoundChild(t.name, child, t.children[child], g, p)
  }

  /** When DROP TRIGGER leaves no trigger, deprovisioning a table of one granularity appends every
      child's rows to the parent, the checked partitions in the order of time, and leaves no child. */
  lemma DeprovisionInTimeOrder(t: Table, g: Granularity, trigger: string)
    requires AllOf(t, g)
    requires var dropped := Alone(TriggerName(t.name, trigger)); dropped.Name? && t.triggers.Keys <= {dropped.value}
    ensures WithoutPartitions(t, trigger) == Some(Table(t.name, t.parent + InNameOrder(t.children), map[], map[]))
    ensures ListedInTimeOrder(t)
  {
    hide SoundChild, Deprovisioned, Before, InNameOrder, Recaptures, Contents, Alone;
    var dropped := Alone(TriggerName(t.name, trigger)).value;
    var left := t.(triggers := t.triggers - {dropped});
    assert left.triggers == map[];
    NoTriggerNoRecapture(left);
    DeprovisionConserves(t, dropped);
    var listing := Sorted(t.children.Keys);
    SortedLists(t.children.Keys);
    forall i, j | 0 <= i < j < |listing|
      ensures PeriodsAscend(t.children[listing[i]], t.children[listing[j]])
    {
      ChildrenAscend(t, g, listing[i], listing[j]);
    }
  }

  /** Every row of the one partition is earlier than every row of the other, if both are checked. */
  predicate PeriodsAscend(a: Partition, b: Partition) {
    !a.first && !b.first ==> forall r, s | r in a.rows && s in b.rows :: r.clock < s.clock
  }

  /** The listing of the children by name is one by time. */
  ghost predicate ListedInTimeOrder(t: Table) {
    var listing := Sorted(t.children.Keys);
    forall i, j | 0 <= i < j < |listing| :: listing[i] in t.children && listing[j] in t.children
      && PeriodsAscend(t.children[listing[i]], t.children[listing[j]])
  }

  lemma ChildrenAscend(t: Table, g: Granularity, a: string, b: string)
    requires AllOf(t, g) && a in t.children && b in t.children && Before(a, b)
    ensures PeriodsAscend(t.children[a], t.children[b])
  {
    hide PartitionName, PeriodOf, PeriodStart, Before, ParseBound;
    var p: nat :| SoundChild(t.name, a, t.children[a], g, p);
    var q: nat :| SoundChild(t.name, b, t.children[b], g, q);
    NameOrderIsTimeOrder(t.name, g, p, q);
    BoundOfChild(t, a, g, p);
    BoundOfChild(t, b, g, q);
    forall r, s | r in t.children[a].rows && s in t.children[b].rows && !t.children[a].first && !t.children[b].first
      ensures r.clock < s.clock
    {
      Horizon(g, q, ToLocal(r.clock));
      Horizon(g, q, ToLocal(s.clock));
    }
  }
}
