/**
 A partitioned table as a value, and what each function of bootstrap.sql makes of it.

 None stands for a call that raises: PostgreSQL then undoes all the call did.
 */
module Tables {
  import opened Options
  import opened Identifiers
  import opened Periods
  import opened Suffixes
  import opened NameOrder

  /** A row: its clock, its numeric id columns that are not NULL, and everything else. */
  datatype Row = Row(clock: Instant, ids: map<string, int>, rest: string)

  const CLOCK := "clock"

  function Value(row: Row, column: string): Option<int> {
    if column == CLOCK then Some(row.clock)
    else if column in row.ids then Some(row.ids[column])
    else None
  }

  /** CHECK (column >= lo AND column < hi), or the same with <= hi. */
  datatype Check = HalfOpen(lo: int, hi: int) | Closed(lo: int, hi: int)

  /** A CHECK is only violated by a value: NULL passes. */
  predicate Passes(check: Check, value: Option<int>) {
    value.Some? ==>
      check.lo <= value.value && if check.HalfOpen? then value.value < check.hi else value.value <= check.hi
  }

  /** A child table with at most one CHECK per column, as the constraint's name has the column's.
      `first` marks the child that zbx_enable_partitions creates, which has no CHECK on clock. */
  datatype Partition = Partition(rows: seq<Row>, checks: map<string, Check>, first: bool)

  predicate Admits(partition: Partition, row: Row) {
    forall column | column in partition.checks :: Passes(partition.checks[column], Value(row, column))
  }

  /** A parent table, its children by name, and its insert triggers by name, each with the
      granularity of its time_format argument. */
  datatype Table = Table(
    name: TableName, parent: seq<Row>, children: map<string, Partition>, triggers: map<string, Granularity>)

  /** The name that zbx_route_insert_by_clock computes. */
  function RouteName(table: string, g: Granularity, clock: Instant): string {
    table + "_" + ToChar(g, ToLocal(clock))
  }

  /** The child that takes the row: that of the first trigger, in name order, whose child exists
      and whose CHECKs the row passes. None: every trigger hands the row back to the parent. */
  function Target(t: Table, row: Row, order: seq<string>): (target: Option<string>)
    requires forall trigger | trigger in order :: trigger in t.triggers
    ensures target.Some? ==> target.value in t.children && Admits(t.children[target.value], row)
  {
    if order == [] then
      None
    else
      var child := RouteName(t.name, t.triggers[order[0]], row.clock);
      if child in t.children && Admits(t.children[child], row) then Some(child)
      else Target(t, row, order[1..])
  }

  ghost function Destination(t: Table, row: Row): (target: Option<string>)
    ensures target.Some? ==> target.value in t.children && Admits(t.children[target.value], row)
  {
    SortedLists(t.triggers.Keys);
    Target(t, row, Sorted(t.triggers.Keys))
  }

  function Appended(partition: Partition, row: Row): Partition {
    partition.(rows := partition.rows + [row])
  }

  /** Same name, triggers, children and CHECKs: only rows may differ. */
  ghost predicate SameShape(t: Table, t': Table) {
    && t'.name == t.name && t'.triggers == t.triggers && t'.children.Keys == t.children.Keys
    && forall child | child in t.children ::
         && t'.children[child].checks == t.children[child].checks
         && t'.children[child].first == t.children[child].first
  }

  /** INSERT INTO the parent. */
  ghost function Inserted(t: Table, row: Row): (t': Table)
    ensures SameShape(t, t')
  {
    match Destination(t, row)
    case None => t.(parent := t.parent + [row])
    case Some(child) => t.(children := t.children[child := Appended(t.children[child], row)])
  }

  /** CHECK (clock >= start AND clock < end) of a period. */
  function ClockCheck(g: Granularity, period: nat): Check {
    HalfOpen(ToInstant(PeriodStart(g, period)), ToInstant(PeriodStart(g, period + 1)))
  }

  function EmptyPartition(g: Granularity, period: nat): Partition {
    Partition([], map[CLOCK := ClockCheck(g, period)], false)
  }

  /** Empty partitions for the n periods from p on. */
  function Fresh(table: string, g: Granularity, p: nat, n: nat): map<string, Partition> {
    if n == 0 then map[]
    else Fresh(table, g, p, n - 1)[PartitionName(table, g, p + n - 1) := EmptyPartition(g, p + n - 1)]
  }

  lemma {:induction false} FreshNames(table: string, g: Granularity, p: nat, n: nat, name: string)
    ensures name in Fresh(table, g, p, n) <==> exists q: nat :: p <= q < p + n && name == PartitionName(table, g, q)
  {
    hide PartitionName, EmptyPartition;
    if n > 0 {
      FreshNames(table, g, p, n - 1, name);
    }
  }

  lemma FreshIsNew(table: string, g: Granularity, p: nat, n: nat)
    requires Printable(g, p) && Printable(g, p + n)
    ensures PartitionName(table, g, p + n) !in Fresh(table, g, p, n)
  {
    hide PartitionName;
    var name := PartitionName(table, g, p + n);
    FreshNames(table, g, p, n, name);
    if name in Fresh(table, g, p, n) {
      var q: nat :| p <= q < p + n && name == PartitionName(table, g, q);
      NameDetermines(table, g, p + n, table, g, q);
    }
  }

  /** zbx_provision_partitions in period p: children that exist stay as they are. */
  function Provisioned(t: Table, g: Granularity, p: nat, n: nat): Table {
    t.(children := Fresh(t.name, g, p, n) + t.children)
  }

  lemma NothingProvisioned(t: Table, g: Granularity, p: nat)
    ensures Provisioned(t, g, p, 0) == t
  {
    assert Provisioned(t, g, p, 0).children == t.children;
  }

  /** One turn of the loop of zbx_provision_partitions. */
  lemma ProvisionedStep(t: Table, g: Granularity, p: nat, n: nat)
    requires Printable(g, p) && Printable(g, p + n)
    ensures var u, child := Provisioned(t, g, p, n), PartitionName(t.name, g, p + n);
      Provisioned(t, g, p, n + 1)
      == if child in u.children then u
         else u.(children := u.children[child := EmptyPartition(g, p + n)])
  {
    hide PartitionName, EmptyPartition;
    var child := PartitionName(t.name, g, p + n);
    FreshIsNew(t.name, g, p, n);
    var made := Fresh(t.name, g, p, n);
    assert made[child := EmptyPartition(g, p + n)] + t.children
        == if child in t.children then made + t.children
           else (made + t.children)[child := EmptyPartition(g, p + n)];
  }

  /** zbx_enable_partitions in period p. */
  function Enabled(t: Table, g: Granularity, trigger: string, p: nat): Option<Table>
    requires p > 0
  {
    var first := PartitionName(t.name, g, p - 1);
    if PartitionName(t.name, g, p) !in t.children || first in t.children then
      None
    else
      Some(t.(triggers := t.triggers[trigger := g],
              parent := [],
              children := t.children[first := Partition(t.parent, map[], true)]))
  }

  /** The default trigger name stands for the empty one. */
  function TriggerName(table: string, trigger: string): string {
    if trigger == "" then table + "_insert" else trigger
  }

  /** The values of a column that are not NULL. */
  function Values(rows: seq<Row>, column: string): seq<int> {
    if rows == [] then
      []
    else
      var value := Value(rows[|rows| - 1], column);
      Values(rows[..|rows| - 1], column) + if value.Some? then [value.value] else []
  }

  predicate Spans(check: Check, values: seq<int>) {
    && check.Closed? && check.lo in values && check.hi in values
    && forall value | value in values :: check.lo <= value <= check.hi
  }

  /** SELECT MIN(column), MAX(column). */
  function MinMax(values: seq<int>): (check: Check)
    requires values != []
    ensures Spans(check, values)
  {
    var last := values[|values| - 1];
    if |values| == 1 then
      Closed(last, last)
    else
      var rest := MinMax(values[..|values| - 1]);
      assert values == values[..|values| - 1] + [last];
      Closed(if last < rest.lo then last else rest.lo, if last > rest.hi then last else rest.hi)
  }

  /** zbx_constrain_partition: without a value MIN and MAX are NULL, and so is the statement. */
  function Constrained(partition: Partition, column: string): Option<Partition> {
    var values := Values(partition.rows, column);
    if values == [] then None
    else Some(partition.(checks := partition.checks[column := MinMax(values)]))
  }

  /** zbx_constrain_partition with the texts that it is called with. */
  function WithConstraint(t: Table, child: string, column: string): Option<Table> {
    var name, key := AsChild(child), AsColumn(column);
    if !name.Name? || !key.Name? || name.value !in t.children then
      None
    else
      var constrained := Constrained(t.children[name.value], key.value);
      if constrained.None? then None else Some(t.(children := t.children[name.value := constrained.value]))
  }

  /** Whether a cutoff and a clock, both local, leave the partition that ends at bound to go. */
  predicate Expired(name: string, now: int, cutoff: int) {
    var bound := ParseBound(name);
    bound.Some? && bound.value <= now && bound.value <= cutoff
  }

  /** zbx_drop_old_partitions; now and cutoff are local. */
  function WithoutExpired(t: Table, now: int, cutoff: int): Option<Table> {
    if exists name | name in t.children :: ParseBound(name).None? then
      None
    else
      Some(t.(children := map name | name in t.children && !Expired(name, now, cutoff) :: t.children[name]))
  }

  /** INSERT INTO the parent SELECT ... rows, one row after the other. */
  ghost function AllInserted(t: Table, rows: seq<Row>): (t': Table)
    ensures SameShape(t, t')
  {
    if rows == [] then t
    else Inserted(AllInserted(t, rows[..|rows| - 1]), rows[|rows| - 1])
  }

  /** The child's rows are copied into the parent and the child is dropped. */
  ghost function CopiedOut(t: Table, child: string): (t': Table)
    requires child in t.children
    ensures t'.name == t.name && t'.triggers == t.triggers
    ensures t'.children.Keys == t.children.Keys - {child}
  {
    var copied := AllInserted(t, t.children[child].rows);
    copied.(children := copied.children - {child})
  }

  /** The loop of zbx_deprovision_partitions over the children listed. */
  ghost function CopiedBack(t: Table, listing: seq<string>): Table
    requires Ascending(listing) && forall child | child in listing :: child in t.children
    decreases |listing|
  {
    if listing == [] then
      t
    else
      assert forall child | child in listing[1..] :: child != listing[0] by {
        BeforeIsTotal(listing[0], listing[0]);
      }
      CopiedBack(CopiedOut(t, listing[0]), listing[1..])
  }

  lemma NothingToCopyBack(t: Table)
    ensures CopiedBack(t, []) == t
  {
  }

  predicate Waiting(t: Table, listing: seq<string>, k: nat) {
    && k <= |listing| && Ascending(listing[k..])
    && forall child | child in listing[k..] :: child in t.children
  }

  /** One turn of the loop of zbx_deprovision_partitions. */
  lemma CopiedBackStep(t: Table, listing: seq<string>, k: nat)
    requires k < |listing| && Waiting(t, listing, k)
    ensures listing[k] in t.children
    ensures Waiting(CopiedOut(t, listing[k]), listing, k + 1)
    ensures CopiedBack(t, listing[k..]) == CopiedBack(CopiedOut(t, listing[k]), listing[k + 1..])
  {
    hide CopiedOut;
    assert listing[k..][0] == listing[k] && listing[k..][1..] == listing[k + 1..];
    BeforeIsTotal(listing[k], listing[k]);
  }

  /** The loop of zbx_deprovision_partitions after DROP TRIGGER: triggers of another name stay and
      go on routing. */
  ghost function Deprovisioned(t: Table, trigger: string): Table {
    SortedLists(t.children.Keys);
    CopiedBack(t.(triggers := t.triggers - {trigger}), Sorted(t.children.Keys))
  }

  /** zbx_deprovision_partitions with the text that it is called with. CREATE TRIGGER takes the name
      as it is, DROP TRIGGER as a part of the statement; one that cannot be a name raises, and a
      name that no trigger has is passed over. */
  ghost function WithoutPartitions(t: Table, trigger: string): Option<Table> {
    var dropped := Alone(TriggerName(t.name, trigger));
    if dropped.Name? then Some(Deprovisioned(t, dropped.value)) else None
  }
}
