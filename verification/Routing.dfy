/** Where an inserted row goes, with any number of triggers on the table. */
module Routing {
  import opened Options
  import opened Periods
  import opened Suffixes
  import opened NameOrder
  import opened Tables
  import opened Operations
  import opened Soundness

  /** The trigger's child exists and takes the row. */
  ghost predicate TakenBy(t: Table, row: Row, trigger: string) {
    trigger in t.triggers &&
    var child := RouteName(t.name, t.triggers[trigger], row.clock);
    child in t.children && Admits(t.children[child], row)
  }

  /** The k-th trigger is the first that takes the row. */
  ghost predicate FirstTaker(t: Table, row: Row, order: seq<string>, k: nat) {
    && k < |order| && TakenBy(t, row, order[k])
    && forall j | 0 <= j < k :: !TakenBy(t, row, order[j])
  }

  lemma {:induction false} TargetIsFirst(t: Table, row: Row, order: seq<string>) returns (k: nat)
    requires forall trigger | trigger in order :: trigger in t.triggers
    ensures Target(t, row, order).None? <==> forall trigger | trigger in order :: !TakenBy(t, row, trigger)
    ensures Target(t, row, order).Some? ==> FirstTaker(t, row, order, k)
    ensures Target(t, row, order).Some? ==>
      Target(t, row, order).value == RouteName(t.name, t.triggers[order[k]], row.clock)
  {
    hide RouteName, Admits;
    k := 0;
    if order != [] && !TakenBy(t, row, order[0]) {
      k := TargetIsFirst(t, row, order[1..]);
      k := k + 1;
    }
  }

  /** A row goes to the child of the first trigger by name that takes it, and to the parent if none does. */
  lemma DestinationIsFirst(t: Table, row: Row)
    ensures Destination(t, row).None? <==> forall trigger | trigger in t.triggers :: !TakenBy(t, row, trigger)
    ensures Destination(t, row).Some? ==> exists trigger ::
      && TakenBy(t, row, trigger) && (forall other | TakenBy(t, row, other) :: !Before(other, trigger))
      && Destination(t, row).value == RouteName(t.name, t.triggers[trigger], row.clock)
  {
    hide RouteName, TakenBy, Before;
    var order := Sorted(t.triggers.Keys);
    SortedLists(t.triggers.Keys);
    var k := TargetIsFirst(t, row, order);
    if Destination(t, row).Some? {
      forall other | TakenBy(t, row, other)
        ensures !Before(other, order[k])
      {
        TakersListed(t, row, other);
        var j :| 0 <= j < |order| && order[j] == other;
        BeforeIsTotal(other, order[k]);
      }
    }
  }

  lemma TakersListed(t: Table, row: Row, trigger: string)
    requires TakenBy(t, row, trigger)
    ensures trigger in t.triggers
  {
  }

  /** Once enabled, with no other trigger, the table has the partition of the current period, and rows of
      that period go there, unless a CHECK of it rejects them. */
  lemma EnabledRoutes(t: Table, g: Granularity, trigger: string, now: Instant, row: Row)
    requires Current(g, now) > 0 && Enabled(t, g, trigger, Current(g, now)).Some? && t.triggers.Keys <= {trigger}
    requires Current(g, row.clock) == Current(g, now)
    ensures var t', child := Enabled(t, g, trigger, Current(g, now)).value, PartitionName(t.name, g, Current(g, now));
      && child in t.children && t'.children[child] == t.children[child]
      && Destination(t', row) == if Admits(t.children[child], row) then Some(child) else None
  {
    hide PartitionName, RouteName, PeriodOf, Admits;
    var t' := Enabled(t, g, trigger, Current(g, now)).value;
    RouteNameIs(t.name, g, row.clock);
    SortedUnique({trigger}, [trigger]);
    assert t'.triggers.Keys == {trigger};
    assert Target(t', row, [trigger][1..]) == None;
  }

  /** Triggers of other names go on taking what they took. */
  lemma EnablingKeepsTakers(t: Table, g: Granularity, trigger: string, p: nat, row: Row, other: string)
    requires p > 0 && Enabled(t, g, trigger, p).Some? && other != trigger && TakenBy(t, row, other)
    ensures TakenBy(Enabled(t, g, trigger, p).value, row, other)
  {
    hide PartitionName, RouteName, Admits;
  }
}
