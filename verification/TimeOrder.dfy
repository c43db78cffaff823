/** Undoing the partitioning after any run of calls that partition a table by one kind of period. */
module TimeOrder {
  import opened Identifiers
  import opened Periods
  import opened Suffixes
  import opened NameOrder
  import opened Tables
  import opened Operations
  import opened Conservation
  import opened Soundness
  import opened Balance
  import opened Maintenance
  import opened Nightly

  /** The call partitions by this period, or not at all. */
  predicate Uses(op: Operation, g: Granularity) {
    match op
    case Provision(partitionBy, _, _) => TimeFormatBy(partitionBy).Some? ==> TimeFormatBy(partitionBy).value == g
    case Enable(partitionBy, _, _) => TimeFormatBy(partitionBy).Some? ==> TimeFormatBy(partitionBy).value == g
    case Insert(_) => true
    case Constrain(_, _) => true
    case DropOld(_, _) => true
    case Deprovision(_) => true
  }

  ghost predicate NamedAs(table: string, child: string, g: Granularity, p: nat) {
    Printable(g, p) && child == PartitionName(table, g, p)
  }

  /** Every child is named after a period of this kind. */
  ghost predicate NamedBy(t: Table, g: Granularity) {
    forall child | child in t.children :: exists p: nat :: NamedAs(t.name, child, g, p)
  }

  lemma SoundIsAllOf(t: Table, g: Granularity)
    requires Sound(t) && NamedBy(t, g)
    ensures AllOf(t, g)
  {
    hide PartitionName, Printable;
    forall child | child in t.children
      ensures exists p: nat :: SoundChild(t.name, child, t.children[child], g, p)
    {
      var p: nat :| NamedAs(t.name, child, g, p);
      var h, q: nat :| SoundChild(t.name, child, t.children[child], h, q);
      NameDetermines(t.name, g, p, t.name, h, q);
    }
  }

  lemma WindowedIsNamed(t: Table, g: Granularity, lo: int, hi: int)
    requires Windowed(t, g, lo, hi)
    ensures NamedBy(t, g)
  {
    hide PartitionName, Printable;
    forall child | child in t.children
      ensures exists p: nat :: NamedAs(t.name, child, g, p)
    {
      var p: nat :| InWindow(t.name, child, g, lo, p, hi);
      assert NamedAs(t.name, child, g, p);
    }
  }

  lemma FewerAreNamed(t: Table, t': Table, g: Granularity)
    requires NamedBy(t, g) && t'.name == t.name && t'.children.Keys <= t.children.Keys
    ensures NamedBy(t', g)
  {
    hide NamedAs;
  }

  lemma ProvisioningKeepsNames(t: Table, g: Granularity, p: nat, n: nat)
    requires NamedBy(t, g) && n > 0 && Printable(g, p) && Printable(g, p + n - 1)
    ensures NamedBy(Provisioned(t, g, p, n), g)
  {
    hide PartitionName, Printable, Fresh;
    var t' := Provisioned(t, g, p, n);
    forall child | child in t'.children
      ensures exists q: nat :: NamedAs(t'.name, child, g, q)
    {
      if child !in t.children {
        FreshNames(t.name, g, p, n, child);
        var q: nat :| p <= q < p + n && child == PartitionName(t.name, g, q);
        PrintableWithin(g, p, q, p + n - 1);
        assert NamedAs(t'.name, child, g, q);
      }
    }
  }

  lemma EnablingKeepsNames(t: Table, g: Granularity, trigger: string, p: nat)
    requires NamedBy(t, g) && p > 0 && Printable(g, p - 1) && Enabled(t, g, trigger, p).Some?
    ensures NamedBy(Enabled(t, g, trigger, p).value, g)
  {
    hide PartitionName, Printable;
    assert NamedAs(t.name, PartitionName(t.name, g, p - 1), g, p - 1);
  }

  lemma {:induction false} CopyingBackKeepsNames(t: Table, listing: seq<string>, g: Granularity)
    requires NamedBy(t, g) && Ascending(listing) && forall child | child in listing :: child in t.children
    ensures NamedBy(CopiedBack(t, listing), g)
    decreases |listing|
  {
    hide NamedBy, AllInserted, Before, CopiedOut;
    if listing != [] {
      assert listing[0..] == listing;
      CopiedBackStep(t, listing, 0);
      FewerAreNamed(t, CopiedOut(t, listing[0]), g);
      CopyingBackKeepsNames(CopiedOut(t, listing[0]), listing[1..], g);
    }
  }

  lemma DeprovisioningKeepsNames(t: Table, trigger: string, g: Granularity)
    requires NamedBy(t, g)
    ensures NamedBy(Deprovisioned(t, trigger), g)
  {
    hide NamedBy, CopiedBack;
    SortedLists(t.children.Keys);
    var left := t.(triggers := t.triggers - {trigger});
    FewerAreNamed(t, left, g);
    CopyingBackKeepsNames(left, Sorted(t.children.Keys), g);
  }

  lemma ApplyKeepsNames(t: Table, op: Operation, g: Granularity)
    requires Supported(op) && Uses(op, g) && NamedBy(t, g)
    ensures NamedBy(Apply(t, op), g)
  {
    hide PeriodOf, Printable, TimeFormatBy, NamedBy, Constrained, Destination, Deprovisioned, Provisioned, Enabled,
      Alone, AsChild, AsColumn, Fresh, PartitionName;
    if op.Provision? {
      if TimeFormatBy(op.partitionBy).Some? && op.count > 0 {
        RouteNameIs(t.name, g, op.now);
        ProvisioningKeepsNames(t, g, Current(g, op.now), op.count);
      }
    } else if op.Enable? {
      if TimeFormatBy(op.partitionBy).Some? {
        PrintablePositive(g, Current(g, op.now) - 1);
        if Enabled(t, g, TriggerName(t.name, op.trigger), Current(g, op.now)).Some? {
          EnablingKeepsNames(t, g, TriggerName(t.name, op.trigger), Current(g, op.now));
        }
      }
    } else if op.Deprovision? {
      if WithoutPartitions(t, op.trigger).Some? {
        DeprovisioningKeepsNames(t, Alone(TriggerName(t.name, op.trigger)).value, g);
      }
    } else {
      FewerAreNamed(t, Apply(t, op), g);
    }
  }

  lemma {:induction false} RunKeepsNames(t: Table, ops: seq<Operation>, g: Granularity)
    requires AllSupported(ops) && NamedBy(t, g) && forall op | op in ops :: Uses(op, g)
    ensures NamedBy(Run(t, ops), g)
  {
    hide Supported, Uses, NamedBy, Apply;
    if ops != [] {
      RunKeepsNames(t, ops[..|ops| - 1], g);
      ApplyKeepsNames(Run(t, ops[..|ops| - 1]), ops[|ops| - 1], g);
    }
  }

  /** The table has its rows back: those of the parent and then the children's, the checked ones in the
      order of time, and no child or trigger is left. */
  ghost predicate Restored(t: Table, t': Table) {
    && t' == Table(t.name, t.parent + InNameOrder(t.children), map[], map[])
    && multiset(t'.parent) == Contents(t)
    && ListedInTimeOrder(t)
  }

  lemma AllOfIsRestored(t: Table, g: Granularity, trigger: string)
    requires AllOf(t, g)
    requires var dropped := Alone(TriggerName(t.name, trigger)); dropped.Name? && t.triggers.Keys <= {dropped.value}
    ensures WithoutPartitions(t, trigger).Some? && Restored(t, WithoutPartitions(t, trigger).value)
  {
    hide AllOf, Alone, TriggerName, ListedInTimeOrder, Contents, InNameOrder, WithoutPartitions, OwnName;
    DeprovisionInTimeOrder(t, g, trigger);
    ParentHasAll(t);
  }

  lemma ParentHasAll(t: Table)
    ensures multiset(t.parent + InNameOrder(t.children)) == Contents(t)
  {
    hide Stored;
    SortedLists(t.children.Keys);
    StoredInOrder(t.children, Sorted(t.children.Keys));
  }

  /** After every run that uses one kind of period and one trigger, which DROP TRIGGER finds, the table
      gets its rows back in the order of time. */
  lemma RunIsRestored(t: Table, ops: seq<Operation>, g: Granularity, trigger: string)
    requires Sound(t) && NamedBy(t, g) && AllSupported(ops) && forall op | op in ops :: Uses(op, g)
    requires var name := TriggerName(t.name, trigger);
      && Alone(name) == Name(name) && t.triggers.Keys <= {name}
      && forall op | op in ops :: Names(op, t.name, name)
    ensures var u := Run(t, ops);
      WithoutPartitions(u, trigger).Some? && Restored(u, WithoutPartitions(u, trigger).value)
  {
    hide Sound, NamedBy, Uses, Names, Alone, TriggerName, AllOf, Restored, Contents;
    RunKeepsSound(t, ops);
    RunKeepsNames(t, ops, g);
    OneTriggerConserves(t, ops, TriggerName(t.name, trigger));
    SoundIsAllOf(Run(t, ops), g);
    AllOfIsRestored(Run(t, ops), g, trigger);
  }

  lemma {:induction false} CallsUse(g: Granularity, n: nat, events: seq<Event>, table: string, trigger: string)
    ensures forall op | op in AllCalls(g, n, events) :: Uses(op, g) && Names(op, table, trigger)
  {
    hide TriggerName;
    if events != [] {
      CallsUse(g, n, events[1..], table, trigger);
    }
  }

  /** In particular after initialization and any number of nights. */
  lemma NightsAreRestored(t: Table, g: Granularity, n: nat, now: Instant, events: seq<Event>)
    requires n > 0 && Printable(g, Current(g, now) - 1) && Printable(g, Current(g, now) + n - 1)
    requires t.children == map[] && t.triggers.Keys <= {TriggerName(t.name, "")} && Ordered(g, n, now, events)
    ensures Initialized(t, g, n, now).Some?
    ensures var u := Play(Initialized(t, g, n, now).value, g, n, events);
      WithoutPartitions(u, "").Some? && Restored(u, WithoutPartitions(u, "").value)
  {
    hide PeriodOf, Printable, Ordered, Sound, NamedBy, Restored, Windowed, Open, AllSupported, TriggerName, Alone,
      OwnName, PartitionName;
    PrintablePositive(g, Current(g, now) - 1);
    InitializedCovers(t, g, n, now);
    InitializedIsSound(t, g, n, now);
    var u, calls := Initialized(t, g, n, now).value, AllCalls(g, n, events);
    assert u.name == t.name;
    WindowedIsNamed(u, g, 0, Current(g, now) + n);
    PlayIsRun(u, g, n, now, events);
    CallsUse(g, n, events, u.name, TriggerName(u.name, ""));
    DefaultIsDroppable(u.name);
    RunIsRestored(u, calls, g, "");
  }

  lemma InitializedIsSound(t: Table, g: Granularity, n: nat, now: Instant)
    requires n > 0 && Printable(g, Current(g, now) - 1) && Printable(g, Current(g, now) + n - 1)
    requires t.children == map[] && Initialized(t, g, n, now).Some?
    ensures Sound(Initialized(t, g, n, now).value) && Initialized(t, g, n, now).value.name == t.name
  {
    hide PeriodOf, Printable, SoundChild, TriggerName, OwnName, Fresh, PartitionName;
    RouteNameIs(t.name, g, now);
    ProvisioningKeepsSound(t, g, Current(g, now), n);
    EnablingKeepsSound(Provisioned(t, g, Current(g, now), n), g, TriggerName(t.name, ""), Current(g, now));
  }
}
