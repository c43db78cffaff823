/** The functions of bootstrap.sql as updates of the database's catalogue. */
module Database {
  import opened Options
  import opened Identifiers
  import opened Periods
  import opened Suffixes
  import opened NameOrder
  import opened Tables
  import opened Soundness

  /** A set of names in order, as the zbx_partitions view and the firing of triggers take it. */
  method Listed(names: set<string>) returns (listing: seq<string>)
    ensures listing == Sorted(names)
  {
    listing := [];
    var left := names;
    while left != {}
      invariant forall name :: name in names <==> name in listing || name in left
      invariant forall i, name | 0 <= i < |listing| && name in left :: Before(listing[i], name)
      invariant Ascending(listing)
      decreases left
    {
      LeastExists(left);
      var least :| IsLeast(least, left);
      listing, left := listing + [least], left - {least};
    }
    SortedUnique(names, listing);
  }

  lemma NowIsPrintable(g: Granularity, now: Instant)
    ensures Printable(g, PeriodOf(g, ToLocal(now)))
  {
    DayIsPrintable(g, ToLocal(now) / DAY);
  }

  lemma ShiftedName(table: string, g: Granularity, moment: nat, i: int)
    requires PeriodOf(g, moment) + i >= 0
    ensures table + "_" + ToChar(g, AddInterval(g, moment, i)) == PartitionName(table, g, PeriodOf(g, moment) + i)
    ensures DateTrunc(g, AddInterval(g, moment, i)) == PeriodStart(g, PeriodOf(g, moment) + i)
  {
    hide AddInterval, PeriodOf, ToChar, Suffix, DateTrunc, PeriodStart;
    var shifted := AddInterval(g, moment, i);
    IntervalShiftsPeriod(g, moment, i);
    ToCharNamesPeriod(g, shifted);
    TruncStartsPeriod(g, shifted);
  }

  /** What the i-th turn of the loop computes from NOW() is the next partition of the period. */
  lemma NextPartition(t: Table, g: Granularity, moment: nat, i: nat, count: nat)
    requires i < count
    requires Printable(g, PeriodOf(g, moment)) && Printable(g, PeriodOf(g, moment) + count - 1)
    ensures PeriodOf(g, moment) + i >= 0
    ensures var p, u := PeriodOf(g, moment), Provisioned(t, g, PeriodOf(g, moment), i);
      var child := t.name + "_" + ToChar(g, AddInterval(g, moment, i));
      var check := HalfOpen(ToInstant(DateTrunc(g, AddInterval(g, moment, i))),
                            ToInstant(DateTrunc(g, AddInterval(g, moment, i + 1))));
      Provisioned(t, g, p, i + 1)
      == if child in u.children then u
         else u.(children := u.children[child := Partition([], map[CLOCK := check], false)])
  {
    hide Provisioned, PartitionName, ToChar, AddInterval, DateTrunc, PeriodOf, PeriodStart;
    ShiftedName(t.name, g, moment, i);
    ShiftedName(t.name, g, moment, i + 1);
    ProvisionedStep(t, g, PeriodOf(g, moment), i);
  }

  lemma PartitionNameIs(table: string, g: Granularity, period: nat)
    ensures PartitionName(table, g, period) == table + "_" + Suffix(g, period)
  {
  }

  /** The text names one of the tables. */
  predicate Found(name: Reading, tables: map<TableName, Table>) {
    name.Name? && name.value in tables
  }

  /** The child belongs to one table at most, as its name does to one relation. */
  predicate OneOwner(tables: map<TableName, Table>, child: Reading) {
    child.Name? ==>
      forall a, b | a in tables && b in tables
                    && child.value in tables[a].children && child.value in tables[b].children :: a == b
  }

  /** Tables in any state that runs can reach never share a child. */
  lemma SoundHaveOneOwner(tables: map<TableName, Table>, child: Reading)
    requires forall name | name in tables :: tables[name].name == name && Sound(tables[name])
    ensures OneOwner(tables, child)
  {
    hide PartitionName, Printable, Within, Admits, OwnName;
    if child.Name? {
      forall a, b | a in tables && b in tables
                    && child.value in tables[a].children && child.value in tables[b].children
        ensures a == b
      {
        var g, p: nat :| SoundChild(a, child.value, tables[a].children[child.value], g, p);
        var h, q: nat :| SoundChild(b, child.value, tables[b].children[child.value], h, q);
        NameDetermines(a, g, p, b, h, q);
      }
    }
  }

  class Database {
    var tables: map<TableName, Table>

    ghost predicate Valid()
      reads this
    {
      forall name | name in tables :: tables[name].name == name
    }

    constructor (names: set<TableName>)
      ensures Valid()
      ensures tables == map name | name in names :: Table(name, [], map[], map[])
    {
      tables := map name | name in names :: Table(name, [], map[], map[]);
    }

    /** INSERT INTO the table, through its triggers. */
    method Insert(name: string, row: Row)
      requires Valid() && name in tables
      modifies this
      ensures Valid()
      ensures tables == old(tables)[name := Inserted(old(tables[name]), row)]
    {
      hide RouteName, Sorted, OwnName;
      var t := tables[name];
      var order := Listed(t.triggers.Keys);
      SortedLists(t.triggers.Keys);
      var k := 0;
      while k < |order|
        invariant k <= |order| && tables == old(tables)
        invariant Destination(t, row) == Target(t, row, order[k..])
      {
        var child := RouteName(name, t.triggers[order[k]], row.clock);
        if child in t.children && Admits(t.children[child], row) {
          tables := tables[name := t.(children := t.children[child := Appended(t.children[child], row)])];
          return;
        }
        k := k + 1;
      }
      tables := tables[name := t.(parent := t.parent + [row])];
    }

    /** zbx_provision_partitions. */
    method Provision(name: string, partitionBy: string, count: int, now: Instant) returns (ok: bool)
      requires Valid()
      requires var g := TimeFormatBy(partitionBy);
        g.Some? && count > 0 ==>
          Printable(g.value, PeriodOf(g.value, ToLocal(now)) + count - 1) && Prefixing(name) != Other
      modifies this
      ensures Valid()
      ensures ok <==> TimeFormatBy(partitionBy).Some? && (Found(Prefixing(name), old(tables)) || count <= 0)
      ensures var g := TimeFormatBy(partitionBy);
        tables == if ok && count > 0
                  then var table := Prefixing(name).value;
                       old(tables)[table := Provisioned(old(tables[table]), g.value,
                                                        PeriodOf(g.value, ToLocal(now)), count)]
                  else old(tables)
    {
      hide Prefixing;
      var format := TimeFormatBy(partitionBy);
      ok := format.Some? && (Found(Prefixing(name), tables) || count <= 0);
      if ok && count > 0 {
        NowIsPrintable(format.value, now);
        CreatePartitions(Prefixing(name).value, format.value, count, ToLocal(now));
      }
    }

    /** CREATE TABLE and ADD CONSTRAINT, unless the child exists. */
    method CreateMissing(name: string, child: string, start: int, end: int)
      requires Valid() && name in tables
      modifies this
      ensures Valid()
      ensures var t := old(tables[name]);
        tables == old(tables)[name :=
          if child in t.children then t
          else t.(children := t.children[child := Partition([], map[CLOCK := HalfOpen(start, end)], false)])]
    {
      var t := tables[name];
      if child !in t.children {
        var partition := Partition([], map[CLOCK := HalfOpen(start, end)], false);
        tables := tables[name := t.(children := t.children[child := partition])];
      }
    }

    /** The loop of zbx_provision_partitions, for the moment NOW(). */
    method CreatePartitions(name: string, g: Granularity, count: nat, moment: nat)
      requires Valid() && name in tables
      requires Printable(g, PeriodOf(g, moment)) && Printable(g, PeriodOf(g, moment) + count - 1)
      modifies this
      ensures Valid()
      ensures tables == old(tables)[name := Provisioned(old(tables[name]), g, PeriodOf(g, moment), count)]
    {
      hide Provisioned, PartitionName, ToChar, AddInterval, DateTrunc, PeriodOf, PeriodStart, Printable, ToInstant;
      ghost var t0, p := tables[name], PeriodOf(g, moment);
      var i := 0;
      NothingProvisioned(t0, g, p);
      while i < count
        invariant 0 <= i <= count && Valid()
        invariant tables == old(tables)[name := Provisioned(t0, g, p, i)]
      {
        NextPartition(t0, g, moment, i, count);
        var start := ToInstant(DateTrunc(g, AddInterval(g, moment, i)));
        var end := ToInstant(DateTrunc(g, AddInterval(g, moment, i + 1)));
        var child := name + "_" + ToChar(g, AddInterval(g, moment, i));
        CreateMissing(name, child, start, end);
        i := i + 1;
      }
    }

    /** zbx_enable_partitions. The default name of the trigger begins with the text for the table. */
    method Enable(name: string, partitionBy: string, trigger: string, now: Instant) returns (ok: bool)
      requires Valid()
      requires var g := TimeFormatBy(partitionBy);
        g.Some? ==> Printable(g.value, PeriodOf(g.value, ToLocal(now)) - 1) && Prefixing(name) != Other
      modifies this
      ensures Valid()
      ensures ok <==> var g := TimeFormatBy(partitionBy);
        && g.Some? && Found(Prefixing(name), old(tables))
        && Enabled(old(tables[Prefixing(name).value]), g.value, TriggerName(name, trigger),
                   PeriodOf(g.value, ToLocal(now))).Some?
      ensures var g := TimeFormatBy(partitionBy);
        tables == if ok
                  then var table := Prefixing(name).value;
                       old(tables)[table := Enabled(old(tables[table]), g.value, TriggerName(name, trigger),
                                                    PeriodOf(g.value, ToLocal(now))).value]
                  else old(tables)
    {
      hide PeriodOf, Printable, Prefixing, Enabled;
      var format := TimeFormatBy(partitionBy);
      ok := format.Some? && Found(Prefixing(name), tables);
      if ok {
        NowIsPrintable(format.value, now);
        PrintablePositive(format.value, PeriodOf(format.value, ToLocal(now)) - 1);
        ok := EnableTable(Prefixing(name).value, format.value, TriggerName(name, trigger), ToLocal(now));
      }
    }

    /** The same for a table and a trigger by their own names, at the moment NOW(). */
    method EnableTable(name: string, g: Granularity, trigger: string, moment: nat) returns (ok: bool)
      requires Valid() && name in tables && PeriodOf(g, moment) > 0
      modifies this
      ensures Valid()
      ensures ok <==> Enabled(old(tables[name]), g, trigger, PeriodOf(g, moment)).Some?
      ensures tables == if ok
        then old(tables)[name := Enabled(old(tables[name]), g, trigger, PeriodOf(g, moment)).value]
        else old(tables)
    {
      hide PartitionName, ToChar, AddInterval, DateTrunc, PeriodOf, PeriodStart;
      assert tables[name].name == name;
      var t := tables[name];
      ToCharNamesPeriod(g, moment);
      PartitionNameIs(name, g, PeriodOf(g, moment));
      if name + "_" + ToChar(g, moment) !in t.children {
        return false;
      }
      ShiftedName(name, g, moment, -1);
      var first := name + "_" + ToChar(g, AddInterval(g, moment, -1));
      if first in t.children {
        return false;
      }
      var routed := t.(triggers := t.triggers[trigger := g]);
      var moved := routed.(children := routed.children[first := Partition(t.parent, map[], true)]);
      Replace(name, moved.(parent := []));
      ok := true;
    }

    method Replace(name: string, t: Table)
      requires Valid() && name in tables && t.name == name
      modifies this
      ensures Valid() && tables == old(tables)[name := t]
    {
      tables := tables[name := t];
    }

    /** zbx_constrain_partition. */
    method Constrain(child: string, column: string) returns (ok: bool)
      requires Valid() && AsChild(child) != Other && AsColumn(column) != Other && OneOwner(tables, AsChild(child))
      modifies this
      ensures Valid()
      ensures ok <==> exists name | name in old(tables) :: WithConstraint(old(tables[name]), child, column).Some?
      ensures forall name | name in old(tables) && WithConstraint(old(tables[name]), child, column).Some? ::
        tables == old(tables)[name := WithConstraint(old(tables[name]), child, column).value]
      ensures !ok ==> tables == old(tables)
    {
      hide AsChild, AsColumn, OwnName;
      var table, key := AsChild(child), AsColumn(column);
      if !table.Name? || !key.Name? || forall name | name in tables :: table.value !in tables[name].children {
        return false;
      }
      var name :| name in tables && table.value in tables[name].children;
      var t := tables[name];
      var partition := t.children[table.value];
      var values := Values(partition.rows, key.value);
      if values == [] {
        return false;
      }
      partition := partition.(checks := partition.checks - {key.value});
      partition := partition.(checks := partition.checks[key.value := MinMax(values)]);
      assert partition.checks == t.children[table.value].checks[key.value := MinMax(values)];
      assert WithConstraint(t, child, column) == Some(t.(children := t.children[table.value := partition]));
      tables := tables[name := t.(children := t.children[table.value := partition])];
      ok := true;
    }

    /** zbx_drop_old_partitions. */
    method DropOld(name: string, cutoff: int, now: Instant) returns (ok: bool)
      requires Valid()
      modifies this
      ensures Valid()
      ensures ok <==> name in old(tables) ==>
        WithoutExpired(old(tables[name]), ToLocal(now), ToLocal(cutoff)).Some?
      ensures tables == if ok && name in old(tables)
        then old(tables)[name := WithoutExpired(old(tables[name]), ToLocal(now), ToLocal(cutoff)).value]
        else old(tables)
    {
      hide ParseBound, ToLocal, Sorted, Ascending, OwnName;
      if name !in tables {
        return true;
      }
      var before := tables;
      ghost var t := tables[name];
      ghost var dropped: set<string> := {};
      var listing := Listed(tables[name].children.Keys);
      SortedLists(t.children.Keys);
      assert t.children - {} == t.children;
      for k := 0 to |listing|
        invariant dropped == set child | child in listing[..k] && Expired(child, ToLocal(now), ToLocal(cutoff))
        invariant tables == before[name := t.(children := t.children - dropped)]
        invariant forall child | child in listing[..k] :: ParseBound(child).Some?
      {
        var child := listing[k];
        assert listing[..k + 1] == listing[..k] + [child];
        var bound := ParseBound(child);
        if bound.None? {
          tables := before;
          return false;
        }
        if ToLocal(now) < bound.value {
          // the current partition and later ones are protected
        } else if bound.value <= ToLocal(cutoff) {
          assert (t.children - dropped) - {child} == t.children - (dropped + {child});
          tables := tables[name := tables[name].(children := tables[name].children - {child})];
          dropped := dropped + {child};
        }
      }
      assert listing[..|listing|] == listing;
      assert t.children - dropped == WithoutExpired(t, ToLocal(now), ToLocal(cutoff)).value.children;
      ok := true;
    }

    /** zbx_deprovision_partitions. The trigger is dropped from the table that the name stands for,
        but only children of a table called exactly so are found. */
    method Deprovision(name: string, trigger: string) returns (ok: bool)
      requires Valid() && Alone(TriggerName(name, trigger)) != Other && InSchema(name) != Other
      modifies this
      ensures Valid()
      ensures ok <==> Alone(TriggerName(name, trigger)).Name? && Found(InSchema(name), old(tables))
      ensures tables == if !ok then old(tables)
        else var table, dropped := InSchema(name).value, Alone(TriggerName(name, trigger)).value;
             if table == name then old(tables)[name := Deprovisioned(old(tables[name]), dropped)]
             else var t := old(tables[table]); old(tables)[table := t.(triggers := t.triggers - {dropped})]
      ensures ok && InSchema(name) == Name(name) ==>
        WithoutPartitions(old(tables[name]), trigger) == Some(tables[name])
    {
      hide Alone, InSchema, Deprovisioned;
      var table, dropped := InSchema(name), Alone(TriggerName(name, trigger));
      if !dropped.Name? || !Found(table, tables) {
        return false;
      }
      if name == table.value {
        CopyAllBack(name, dropped.value);
      } else {
        DropTrigger(table.value, dropped.value);
      }
      ok := true;
    }

    method DropTrigger(name: string, trigger: string)
      requires Valid() && name in tables
      modifies this
      ensures Valid()
      ensures var t := old(tables[name]); tables == old(tables)[name := t.(triggers := t.triggers - {trigger})]
    {
      var t := tables[name];
      tables := tables[name := t.(triggers := t.triggers - {trigger})];
    }

    method CopyAllBack(name: string, trigger: string)
      requires Valid() && name in tables
      modifies this
      ensures Valid()
      ensures tables == old(tables)[name := Deprovisioned(old(tables[name]), trigger)]
    {
      hide CopiedOut, CopiedBack, Sorted, Ascending, Before, Valid;
      DropTrigger(name, trigger);
      ghost var start := tables[name];
      var listing := Listed(tables[name].children.Keys);
      SortedLists(start.children.Keys);
      assert listing[0..] == listing;
      var k := 0;
      while k < |listing|
        invariant Valid() && name in tables && Waiting(tables[name], listing, k)
        invariant tables == old(tables)[name := tables[name]]
        invariant CopiedBack(tables[name], listing[k..]) == CopiedBack(start, listing)
      {
        CopiedBackStep(tables[name], listing, k);
        CopyOut(name, listing[k]);
        k := k + 1;
      }
      assert listing[k..] == [];
      NothingToCopyBack(tables[name]);
    }

    /** Copies a child's rows into the parent and drops the child. */
    method CopyOut(name: string, child: string)
      requires Valid() && name in tables && child in tables[name].children
      modifies this
      ensures Valid()
      ensures tables == old(tables)[name := CopiedOut(old(tables[name]), child)]
    {
      hide Inserted, SameShape, OwnName;
      var rows := tables[name].children[child].rows;
      ghost var t := tables[name];
      for j := 0 to |rows|
        invariant Valid() && tables == old(tables)[name := AllInserted(t, rows[..j])]
      {
        Insert(name, rows[j]);
        assert rows[..j + 1][..j] == rows[..j];
      }
      assert rows[..|rows|] == rows;
      tables := tables[name := tables[name].(children := tables[name].children - {child})];
    }
  }
}
