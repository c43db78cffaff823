/**
 What each function of bootstrap.sql does to the rows of a table. Only two can lose one:
 zbx_drop_old_partitions, and zbx_deprovision_partitions when a trigger is left behind.
 */
module Conservation {
  import opened Identifiers
  import opened Periods
  import opened Suffixes
  import opened NameOrder
  import opened Tables

  /** The rows of a set of children. */
  ghost function Stored(children: map<string, Partition>): multiset<Row> {
    if children == map[] then
      multiset{}
    else
      var child :| child in children;
      multiset(children[child].rows) + Stored(children - {child})
  }

  ghost function Contents(t: Table): multiset<Row> {
    multiset(t.parent) + Stored(t.children)
  }

  lemma {:induction false} StoredWithout(children: map<string, Partition>, child: string)
    requires child in children
    ensures Stored(children) == multiset(children[child].rows) + Stored(children - {child})
    decreases |children|
  {
    var other :| other in children
      && Stored(children) == multiset(children[other].rows) + Stored(children - {other});
    if other != child {
      StoredWithout(children - {other}, child);
      StoredWithout(children - {child}, other);
      assert children - {other} - {child} == children - {child} - {other};
    }
  }

  lemma NothingStored()
    ensures Stored(map[]) == multiset{}
  {
  }

  lemma StoredUpdated(children: map<string, Partition>, child: string, partition: Partition)
    ensures Stored(children[child := partition]) == multiset(partition.rows) + Stored(children - {child})
  {
    hide Stored;
    StoredWithout(children[child := partition], child);
    assert children[child := partition] - {child} == children - {child};
  }

  lemma WithoutKey(m: map<string, Partition>, n: map<string, Partition>, key: string)
    requires key in m
    ensures key in n ==> m - {key} + n == m + n
    ensures key !in n ==> (m + n)[key] == m[key] && m + n - {key} == m - {key} + n
  {
  }

  lemma {:induction false} StoredEmpty(empty: map<string, Partition>, children: map<string, Partition>)
    requires forall child | child in empty :: empty[child].rows == []
    ensures Stored(empty + children) == Stored(children)
    decreases |empty|
  {
    hide Stored;
    if empty == map[] {
      assert empty + children == children;
    } else {
      var child :| child in empty;
      WithoutKey(empty, children, child);
      StoredEmpty(empty - {child}, children);
      if child !in children {
        StoredWithout(empty + children, child);
      }
    }
  }

  function Only(children: map<string, Partition>, names: set<string>): map<string, Partition> {
    map child | child in children && child in names :: children[child]
  }

  lemma {:induction false} StoredSplit(children: map<string, Partition>, names: set<string>)
    ensures Stored(children) == Stored(children - names) + Stored(Only(children, names))
    decreases names
  {
    hide Stored;
    NothingStored();
    if names == {} {
      assert children - names == children && Only(children, names) == map[];
    } else {
      var name :| name in names;
      var rest := names - {name};
      StoredSplit(children, rest);
      if name in children {
        StoredWithout(children - rest, name);
        assert children - rest - {name} == children - names;
        StoredWithout(Only(children, names), name);
        assert Only(children, names) - {name} == Only(children, rest);
      } else {
        assert children - rest == children - names && Only(children, names) == Only(children, rest);
      }
    }
  }

  lemma InsertAdds(t: Table, row: Row)
    ensures Contents(Inserted(t, row)) == Contents(t) + multiset{row}
  {
    hide Destination, Stored;
    match Destination(t, row)
    case None =>
    case Some(child) =>
      StoredWithout(t.children, child);
      StoredUpdated(t.children, child, Appended(t.children[child], row));
  }

  lemma {:induction false} InsertAllAdds(t: Table, rows: seq<Row>)
    ensures Contents(AllInserted(t, rows)) == Contents(t) + multiset(rows)
  {
    hide Contents, Inserted;
    if rows != [] {
      var init, last := rows[..|rows| - 1], rows[|rows| - 1];
      InsertAllAdds(t, init);
      InsertAdds(AllInserted(t, init), last);
      assert rows == init + [last];
    }
  }

  lemma ProvisioningKeeps(t: Table, g: Granularity, p: nat, n: nat)
    ensures Contents(Provisioned(t, g, p, n)) == Contents(t)
  {
    hide Stored;
    FreshAreEmpty(t.name, g, p, n);
    StoredEmpty(Fresh(t.name, g, p, n), t.children);
  }

  lemma {:induction false} FreshAreEmpty(table: string, g: Granularity, p: nat, n: nat)
    ensures forall child | child in Fresh(table, g, p, n) :: Fresh(table, g, p, n)[child].rows == []
  {
    hide PartitionName;
    if n > 0 {
      FreshAreEmpty(table, g, p, n - 1);
    }
  }

  lemma EnablingKeeps(t: Table, g: Granularity, trigger: string, p: nat)
    requires p > 0 && Enabled(t, g, trigger, p).Some?
    ensures Contents(Enabled(t, g, trigger, p).value) == Contents(t)
  {
    hide Stored, PartitionName;
    var first := PartitionName(t.name, g, p - 1);
    StoredUpdated(t.children, first, Partition(t.parent, map[], true));
    assert t.children - {first} == t.children;
  }

  lemma ConstrainingKeeps(t: Table, child: string, column: string)
    requires child in t.children && Constrained(t.children[child], column).Some?
    ensures Contents(t.(children := t.children[child := Constrained(t.children[child], column).value])) == Contents(t)
  {
    hide Stored;
    StoredWithout(t.children, child);
    StoredUpdated(t.children, child, Constrained(t.children[child], column).value);
  }

  /** The children that zbx_drop_old_partitions drops. */
  function ExpiredNames(t: Table, now: int, cutoff: int): set<string> {
    set child | child in t.children && Expired(child, now, cutoff)
  }

  lemma DroppingLoses(t: Table, now: int, cutoff: int)
    requires WithoutExpired(t, now, cutoff).Some?
    ensures Contents(WithoutExpired(t, now, cutoff).value) + Stored(Only(t.children, ExpiredNames(t, now, cutoff)))
         == Contents(t)
  {
    hide Stored, Expired;
    StoredSplit(t.children, ExpiredNames(t, now, cutoff));
    assert WithoutExpired(t, now, cutoff).value.children == t.children - ExpiredNames(t, now, cutoff);
  }

  /** Copying this row of the child into the parent would fire a trigger that puts it into this
      child or into one that is still to be dropped. */
  ghost predicate Recaptured(t: Table, child: string, row: Row) {
    exists trigger | trigger in t.triggers ::
      Takes(t, RouteName(t.name, t.triggers[trigger], row.clock), child, row)
  }

  ghost predicate Takes(t: Table, target: string, child: string, row: Row) {
    target in t.children && !Before(target, child) && Admits(t.children[target], row)
  }

  ghost predicate Recaptures(t: Table) {
    exists child, row :: child in t.children && row in t.children[child].rows && Recaptured(t, child, row)
  }

  ghost predicate Lists(t: Table, listing: seq<string>) {
    Ascending(listing) && forall child :: child in listing <==> child in t.children
  }

  lemma {:induction false} TargetTakes(t: Table, row: Row, order: seq<string>, least: string)
    requires forall trigger | trigger in order :: trigger in t.triggers
    requires forall child | child in t.children :: !Before(child, least)
    ensures Target(t, row, order).None? <==>
      forall trigger | trigger in order :: !Takes(t, RouteName(t.name, t.triggers[trigger], row.clock), least, row)
  {
    hide RouteName, Admits, Before;
    if order != [] {
      TargetTakes(t, row, order[1..], least);
    }
  }

  /** While the least child is copied, a row goes to a child exactly if it is recaptured. */
  lemma DestinationOfLeast(t: Table, t': Table, row: Row, least: string)
    requires SameShape(t, t')
    requires forall child | child in t.children :: !Before(child, least)
    ensures Destination(t', row).None? <==> !Recaptured(t, least, row)
  {
    hide RouteName, Before;
    SortedLists(t.triggers.Keys);
    TargetTakes(t', row, Sorted(t.triggers.Keys), least);
  }

  lemma {:induction false} TargetNamed(t: Table, row: Row, order: seq<string>)
    requires forall trigger | trigger in order :: trigger in t.triggers
    requires Target(t, row, order).Some?
    ensures exists trigger | trigger in order ::
      Target(t, row, order).value == RouteName(t.name, t.triggers[trigger], row.clock)
  {
    hide RouteName, Admits;
    if RouteName(t.name, t.triggers[order[0]], row.clock) != Target(t, row, order).value {
      TargetNamed(t, row, order[1..]);
    }
  }

  /** The child holds the row, was given rows, and catches the row again whenever it is copied. */
  ghost predicate Caught(t: Table, t': Table, row: Row, child: string) {
    && child in t.children && child in t'.children
    && row in t'.children[child].rows
    && |t'.children[child].rows| > |t.children[child].rows|
    && exists trigger | trigger in t.triggers ::
         child == RouteName(t.name, t.triggers[trigger], row.clock) && Admits(t.children[child], row)
  }

  lemma {:induction false} CopyingGrows(t: Table, rows: seq<Row>, child: string)
    requires child in t.children
    ensures t.children[child].rows <= AllInserted(t, rows).children[child].rows
  {
    hide Destination, Admits;
    if rows != [] {
      CopyingGrows(t, rows[..|rows| - 1], child);
    }
  }

  lemma InsertCatches(t: Table, t': Table, row: Row, least: string)
    requires SameShape(t, t') && Recaptured(t, least, row)
    requires forall child | child in t.children :: !Before(child, least)
    requires forall child | child in t.children :: t.children[child].rows <= t'.children[child].rows
    ensures exists child :: Caught(t, Inserted(t', row), row, child)
  {
    hide RouteName, Before;
    DestinationOfLeast(t, t', row, least);
    SortedLists(t.triggers.Keys);
    TargetNamed(t', row, Sorted(t.triggers.Keys));
    var child := Destination(t', row).value;
    assert Inserted(t', row).children[child].rows == t'.children[child].rows + [row];
    assert Caught(t, Inserted(t', row), row, child);
  }

  lemma {:induction false} CopyingCatches(t: Table, rows: seq<Row>, row: Row, least: string)
    requires row in rows && Recaptured(t, least, row)
    requires forall child | child in t.children :: !Before(child, least)
    ensures exists child :: Caught(t, AllInserted(t, rows), row, child)
  {
    hide RouteName, Recaptured, Before, Admits;
    var init, last := rows[..|rows| - 1], rows[|rows| - 1];
    var t' := AllInserted(t, init);
    forall child | child in t.children
      ensures t.children[child].rows <= t'.children[child].rows <= AllInserted(t, rows).children[child].rows
    {
      CopyingGrows(t, init, child);
      assert Inserted(t', last) == AllInserted(t, rows);
    }
    if row == last {
      InsertCatches(t, t', row, least);
    } else {
      CopyingCatches(t, init, row, least);
      var child :| Caught(t, t', row, child);
      assert Caught(t, AllInserted(t, rows), row, child);
    }
  }

  lemma {:induction false} CopyingReachesParent(t: Table, rows: seq<Row>, least: string)
    requires forall row | row in rows :: !Recaptured(t, least, row)
    requires forall child | child in t.children :: !Before(child, least)
    ensures AllInserted(t, rows) == t.(parent := t.parent + rows)
  {
    hide Recaptured, Before, Destination;
    if rows == [] {
      assert t.parent + rows == t.parent;
    } else {
      var init, last := rows[..|rows| - 1], rows[|rows| - 1];
      CopyingReachesParent(t, init, least);
      DestinationOfLeast(t, AllInserted(t, init), last, least);
      assert t.parent + init + [last] == t.parent + rows;
    }
  }

  lemma CopyOutBalance(t: Table, child: string)
    requires child in t.children
    ensures Contents(CopiedOut(t, child)) + multiset(AllInserted(t, t.children[child].rows).children[child].rows)
         == Contents(t) + multiset(t.children[child].rows)
  {
    hide Stored;
    InsertAllAdds(t, t.children[child].rows);
    StoredWithout(AllInserted(t, t.children[child].rows).children, child);
  }

  /** The rows of the children listed, child by child. */
  function InOrder(children: map<string, Partition>, listing: seq<string>): seq<Row>
    requires forall child | child in listing :: child in children
  {
    if listing == [] then [] else children[listing[0]].rows + InOrder(children, listing[1..])
  }

  ghost function InNameOrder(children: map<string, Partition>): seq<Row> {
    SortedLists(children.Keys);
    InOrder(children, Sorted(children.Keys))
  }

  lemma ListsRest(t: Table, listing: seq<string>)
    requires Lists(t, listing) && listing != []
    ensures Waiting(t, listing, 0)
    ensures forall child | child in t.children :: !Before(child, listing[0])
    ensures Lists(CopiedOut(t, listing[0]), listing[1..])
    ensures CopiedBack(t, listing) == CopiedBack(CopiedOut(t, listing[0]), listing[1..])
  {
    hide CopiedOut, Before;
    assert listing[0..] == listing;
    CopiedBackStep(t, listing, 0);
    forall child | child in listing
      ensures !Before(child, listing[0])
    {
      BeforeIsTotal(child, listing[0]);
    }
    forall child | child in listing[1..]
      ensures child != listing[0]
    {
      BeforeIsTotal(child, listing[0]);
    }
  }

  lemma {:induction false} InOrderOf(
    children: map<string, Partition>, fewer: map<string, Partition>, listing: seq<string>)
    requires forall child | child in listing :: child in children && child in fewer && fewer[child] == children[child]
    ensures InOrder(fewer, listing) == InOrder(children, listing)
  {
    if listing != [] {
      InOrderOf(children, fewer, listing[1..]);
    }
  }

  lemma CopyOutToParent(t: Table, least: string)
    requires least in t.children && forall row | row in t.children[least].rows :: !Recaptured(t, least, row)
    requires forall child | child in t.children :: !Before(child, least)
    ensures CopiedOut(t, least)
         == t.(parent := t.parent + t.children[least].rows, children := t.children - {least})
  {
    hide Recaptured, Before;
    CopyingReachesParent(t, t.children[least].rows, least);
  }

  lemma {:induction false} CopyingBackKeeps(t: Table, listing: seq<string>)
    requires Lists(t, listing) && !Recaptures(t)
    ensures CopiedBack(t, listing) == t.(parent := t.parent + InOrder(t.children, listing), children := map[])
    decreases |listing|
  {
    hide Recaptured, Before, Inserted, SameShape, AllInserted, CopiedOut;
    if listing == [] {
      assert t.parent + [] == t.parent && t.children == map[];
    } else {
      var least := listing[0];
      var t' := CopiedOut(t, least);
      ListsRest(t, listing);
      CopyOutToParent(t, least);
      forall child, row | child in t'.children && row in t'.children[child].rows
        ensures !Recaptured(t', child, row)
      {
        FewerRecapture(t, t', child, row);
      }
      CopyingBackKeeps(t', listing[1..]);
      InOrderOf(t.children, t'.children, listing[1..]);
      assert t.parent + t.children[least].rows + InOrder(t'.children, listing[1..])
          == t.parent + InOrder(t.children, listing);
    }
  }

  lemma FewerRecapture(t: Table, t': Table, child: string, row: Row)
    requires t'.name == t.name && t'.triggers == t.triggers
    requires forall other | other in t'.children ::
      other in t.children && t'.children[other].checks == t.children[other].checks
    requires !Recaptured(t, child, row)
    ensures !Recaptured(t', child, row)
  {
    hide RouteName, Before;
    assert forall trigger | trigger in t'.triggers ::
      Takes(t', RouteName(t'.name, t'.triggers[trigger], row.clock), child, row) ==>
      Takes(t, RouteName(t.name, t.triggers[trigger], row.clock), child, row);
  }

  lemma CopyOutNeverGains(t: Table, least: string)
    requires least in t.children
    ensures |Contents(CopiedOut(t, least))| <= |Contents(t)|
    ensures |AllInserted(t, t.children[least].rows).children[least].rows| > |t.children[least].rows| ==>
      |Contents(CopiedOut(t, least))| < |Contents(t)|
  {
    hide Contents, CopiedOut, AllInserted;
    var before, after := t.children[least].rows, AllInserted(t, t.children[least].rows).children[least].rows;
    CopyOutBalance(t, least);
    CopyingGrows(t, before, least);
    assert |Contents(CopiedOut(t, least)) + multiset(after)| == |Contents(CopiedOut(t, least))| + |after|;
    assert |Contents(t) + multiset(before)| == |Contents(t)| + |before|;
  }

  /** Copying a child's row that is recaptured loses it, or leaves it to be recaptured again. */
  lemma LeastLosesOrDefers(t: Table, least: string, row: Row)
    requires least in t.children && forall other | other in t.children :: !Before(other, least)
    requires row in t.children[least].rows && Recaptured(t, least, row)
    ensures Recaptures(CopiedOut(t, least)) || |Contents(CopiedOut(t, least))| < |Contents(t)|
  {
    hide RouteName, Before, Recaptured, Recaptures, Contents, AllInserted, CopiedOut;
    var rows := t.children[least].rows;
    var copied := AllInserted(t, rows);
    CopyingCatches(t, rows, row, least);
    var target :| Caught(t, copied, row, target);
    if target == least {
      CopyOutNeverGains(t, least);
    } else {
      BeforeIsTotal(target, target);
      CopiedOutKeepsOthers(t, least, target);
      StillRecaptured(t, CopiedOut(t, least), target, target, row);
    }
  }

  lemma CopiedOutKeepsOthers(t: Table, least: string, child: string)
    requires least in t.children && child in t.children && child != least
    ensures child in CopiedOut(t, least).children
    ensures CopiedOut(t, least).children[child] == AllInserted(t, t.children[least].rows).children[child]
    ensures CopiedOut(t, least).children[child].checks == t.children[child].checks
    ensures t.children[child].rows <= CopiedOut(t, least).children[child].rows
  {
    CopyingGrows(t, t.children[least].rows, child);
  }

  lemma OthersDefer(t: Table, least: string, child: string, row: Row)
    requires least in t.children && child in t.children && Before(least, child)
    requires row in t.children[child].rows && Recaptured(t, child, row)
    ensures Recaptures(CopiedOut(t, least))
  {
    hide RouteName, Before, Recaptures, CopiedOut;
    var trigger :| trigger in t.triggers && Takes(t, RouteName(t.name, t.triggers[trigger], row.clock), child, row);
    var target := RouteName(t.name, t.triggers[trigger], row.clock);
    BeforeIsTotal(least, child);
    CopiedOutKeepsOthers(t, least, child);
    CopiedOutKeepsOthers(t, least, target);
    StillRecaptured(t, CopiedOut(t, least), target, child, row);
  }

  lemma CopyOutLosesOrDefers(t: Table, least: string)
    requires least in t.children && forall other | other in t.children :: !Before(other, least)
    requires Recaptures(t)
    ensures Recaptures(CopiedOut(t, least)) || |Contents(CopiedOut(t, least))| < |Contents(t)|
  {
    hide Recaptured, Before, Contents, CopiedOut;
    var child, row :| child in t.children && row in t.children[child].rows && Recaptured(t, child, row);
    if child == least {
      LeastLosesOrDefers(t, least, row);
    } else {
      BeforeIsTotal(least, child);
      OthersDefer(t, least, child, row);
    }
  }

  lemma StillRecaptured(t: Table, t': Table, target: string, child: string, row: Row)
    requires t'.name == t.name && t'.triggers == t.triggers
    requires exists trigger | trigger in t.triggers :: target == RouteName(t.name, t.triggers[trigger], row.clock)
    requires target in t'.children && !Before(target, child) && Admits(t'.children[target], row)
    requires child in t'.children && row in t'.children[child].rows
    ensures Recaptures(t')
  {
    hide RouteName, Before, Admits;
    assert Takes(t', target, child, row);
    assert Recaptured(t', child, row);
  }

  lemma {:induction false} CopyingBackLoses(t: Table, listing: seq<string>)
    requires Lists(t, listing)
    ensures |Contents(CopiedBack(t, listing))| <= |Contents(t)|
    ensures Recaptures(t) ==> |Contents(CopiedBack(t, listing))| < |Contents(t)|
    decreases |listing|
  {
    hide Recaptured, Recaptures, Before, Contents, CopiedOut;
    if listing == [] {
      assert t.children == map[];
      NothingToRecapture(t);
    } else {
      var least := listing[0];
      ListsRest(t, listing);
      CopyOutNeverGains(t, least);
      CopyingBackLoses(CopiedOut(t, least), listing[1..]);
      if Recaptures(t) {
        CopyOutLosesOrDefers(t, least);
      }
    }
  }

  lemma NothingToRecapture(t: Table)
    requires t.children == map[]
    ensures !Recaptures(t)
  {
  }

  /** zbx_deprovision_partitions keeps every row exactly if no trigger that it leaves in place
      recaptures one; then it appends the children's rows to the parent in the order of the
      children's names and leaves no child. */
  lemma DeprovisionConserves(t: Table, trigger: string)
    ensures var left := t.(triggers := t.triggers - {trigger});
      Contents(Deprovisioned(t, trigger)) == Contents(t) <==> !Recaptures(left)
    ensures var left := t.(triggers := t.triggers - {trigger});
      !Recaptures(left) ==>
        Deprovisioned(t, trigger) == left.(parent := t.parent + InNameOrder(t.children), children := map[])
  {
    hide Recaptures, CopiedBack, Sorted;
    var left := t.(triggers := t.triggers - {trigger});
    var listing := Sorted(t.children.Keys);
    SortedLists(t.children.Keys);
    CopyingBackLoses(left, listing);
    assert Contents(left) == Contents(t);
    if !Recaptures(left) {
      CopyingBackKeeps(left, listing);
      StoredInOrder(t.children, listing);
      NothingStored();
    }
  }

  lemma {:induction false} StoredInOrder(children: map<string, Partition>, listing: seq<string>)
    requires Ascending(listing) && forall child :: child in listing <==> child in children
    ensures multiset(InOrder(children, listing)) == Stored(children)
    decreases |listing|
  {
    hide Before, Stored;
    NothingStored();
    if listing == [] {
      assert children == map[];
    } else {
      var least, rest := listing[0], listing[1..];
      forall child | child in rest
        ensures child != least
      {
        BeforeIsTotal(child, least);
      }
      StoredWithout(children, least);
      StoredInOrder(children - {least}, rest);
      InOrderOf(children, children - {least}, rest);
    }
  }

  /** Deprovisioning with another trigger still installed can lose a row: the trigger puts the
      copy into the very child that is then dropped. */
  lemma LeftoverTriggerLoses(table: TableName, dropped: string, left: string, row: Row, g: Granularity)
    requires dropped != left
    ensures var child := RouteName(table, g, row.clock);
      var t := Table(table, [], map[child := Partition([row], map[], true)], map[left := g]);
      Contents(t) == multiset{row} && Contents(Deprovisioned(t, dropped)) != Contents(t)
  {
    hide RouteName, Deprovisioned;
    var child := RouteName(table, g, row.clock);
    var partition := Partition([row], map[], true);
    var t := Table(table, [], map[child := partition], map[left := g]);
    var t' := t.(triggers := t.triggers - {dropped});
    assert t'.triggers == t.triggers;
    BeforeIsTotal(child, child);
    assert left in t'.triggers && Takes(t', RouteName(table, t'.triggers[left], row.clock), child, row);
    assert Recaptured(t', child, row) && Recaptures(t');
    DeprovisionConserves(t, dropped);
    var none: map<string, Partition> := map[];
    StoredUpdated(none, child, partition);
    NothingStored();
    assert none - {child} == none;
  }

  /** However the triggers are, deprovisioning never makes rows up, and loses some if one is
      recaptured. */
  lemma DeprovisionShrinks(t: Table, trigger: string)
    ensures |Contents(Deprovisioned(t, trigger))| <= |Contents(t)|
    ensures Recaptures(t.(triggers := t.triggers - {trigger})) ==>
      |Contents(Deprovisioned(t, trigger))| < |Contents(t)|
  {
    hide Recaptures, CopiedBack, Sorted;
    var left := t.(triggers := t.triggers - {trigger});
    SortedLists(t.children.Keys);
    CopyingBackLoses(left, Sorted(t.children.Keys));
    assert Contents(left) == Contents(t);
  }

  lemma NoTriggerNoRecapture(t: Table)
    requires t.triggers == map[]
    ensures !Recaptures(t)
  {
  }
}
