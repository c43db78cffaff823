/** The script as it runs every night on the whole database, with rows arriving in between. */
module Cron {
  import opened Options
  import opened Periods
  import opened Suffixes
  import opened Tables
  import opened Operations
  import opened Conservation
  import opened Soundness
  import opened Balance
  import opened Maintenance
  import opened Nightly
  import opened Script

  datatype Happening =
    | Arrival(name: string, at: Instant, row: Row)
    | Night(at: Instant)

  /** What of it concerns one of the configured tables. */
  function EventsOf(name: string, happenings: seq<Happening>): seq<Event> {
    if happenings == [] then
      []
    else
      var rest := EventsOf(name, happenings[1..]);
      match happenings[0]
      case Night(at) => [Maintain(at)] + rest
      case Arrival(other, at, row) => if other == name then [Arrive(at, row)] + rest else rest
  }

  /** The rows that arrive for a table. */
  function RowsFor(name: string, happenings: seq<Happening>): seq<Row> {
    if happenings == [] then
      []
    else
      var rest := RowsFor(name, happenings[1..]);
      if happenings[0].Arrival? && happenings[0].name == name then [happenings[0].row] + rest else rest
  }

  /** Time does not go back, and stays in four-digit years. */
  predicate Paced(config: Config, now: Instant, happenings: seq<Happening>)
    decreases |happenings|
  {
    happenings != [] ==>
      && now <= happenings[0].at && Runnable(config, happenings[0].at)
      && Paced(config, happenings[0].at, happenings[1..])
  }

  predicate Configured(config: Config, names: set<string>) {
    forall name | name in config :: name in names && TimeFormatBy(config[name].partitionBy).Some?
  }

  function PeriodFor(config: Config, name: string): Granularity
    requires name in config && TimeFormatBy(config[name].partitionBy).Some?
  {
    TimeFormatBy(config[name].partitionBy).value
  }

  /** The configured tables have the partitions that earlier runs can have made. */
  ghost predicate Kept(tables: map<string, Table>, config: Config, now: Instant)
    requires Configured(config, tables.Keys)
  {
    forall name | name in config ::
      var g := PeriodFor(config, name);
      Windowed(tables[name], g, 0, Current(g, now) + config[name].count)
  }

  lemma {:induction false} EventsAreOrdered(config: Config, name: string, now: Instant, happenings: seq<Happening>)
    requires name in config && TimeFormatBy(config[name].partitionBy).Some? && Paced(config, now, happenings)
    ensures Ordered(PeriodFor(config, name), config[name].count, now, EventsOf(name, happenings))
    decreases |happenings|
  {
    hide PeriodOf, Printable, TimeFormatBy;
    if happenings != [] {
      var at := happenings[0].at;
      EventsAreOrdered(config, name, at, happenings[1..]);
      OrderedEarlier(PeriodFor(config, name), config[name].count, now, at, EventsOf(name, happenings[1..]));
      assert Feasible(config[name], at);
    }
  }

  lemma OrderedEarlier(g: Granularity, n: nat, now: Instant, later: Instant, events: seq<Event>)
    requires now <= later && Ordered(g, n, later, events)
    ensures Ordered(g, n, now, events)
  {
  }

  lemma WindowWaits(t: Table, g: Granularity, n: nat, now: Instant, later: Instant)
    requires now <= later && Windowed(t, g, 0, Current(g, now) + n)
    ensures Windowed(t, g, 0, Current(g, later) + n)
  {
    hide Belongs, PeriodOf;
    TimeAdvances(g, now, later);
    forall child | child in t.children
      ensures Belongs(t.name, child, g, 0, Current(g, later) + n)
    {
      BelongsWider(t.name, child, g, 0, Current(g, now) + n, Current(g, later) + n);
    }
  }

  lemma NightSucceeds(t: Table, plan: Plan, now: Instant, at: Instant)
    requires now <= at && Feasible(plan, at) && TimeFormatBy(plan.partitionBy).Some?
    requires var g := TimeFormatBy(plan.partitionBy).value; Windowed(t, g, 0, Current(g, now) + plan.count)
    ensures var g := TimeFormatBy(plan.partitionBy).value;
      && AfterScript(t, plan, false, at) == Some(Happen(t, g, plan.count, Maintain(at)))
      && Windowed(Happen(t, g, plan.count, Maintain(at)), g, 0, Current(g, at) + plan.count)
  {
    hide Windowed, PeriodOf, Printable, Maintained, AfterScript;
    var g := TimeFormatBy(plan.partitionBy).value;
    EventGoesOn(t, g, plan.count, now, Maintain(at));
    ScriptShare(t, g, plan.count, false, at, plan.partitionBy);
  }

  lemma AllSucceed(tables: map<string, Table>, config: Config, now: Instant, at: Instant)
    requires Configured(config, tables.Keys) && Kept(tables, config, now) && now <= at && Runnable(config, at)
    ensures forall name | name in config ::
      AfterScript(tables[name], config[name], false, at) ==
      Some(Happen(tables[name], PeriodFor(config, name), config[name].count, Maintain(at)))
    ensures forall name | name in config ::
      var g := PeriodFor(config, name);
      Windowed(Happen(tables[name], g, config[name].count, Maintain(at)), g, 0, Current(g, at) + config[name].count)
  {
    hide Windowed, PeriodOf, Feasible, TimeFormatBy, AfterScript, Happen;
    forall name | name in config
      ensures AfterScript(tables[name], config[name], false, at) ==
        Some(Happen(tables[name], PeriodFor(config, name), config[name].count, Maintain(at)))
      ensures var g := PeriodFor(config, name);
        Windowed(Happen(tables[name], g, config[name].count, Maintain(at)), g, 0, Current(g, at) + config[name].count)
    {
      NightSucceeds(tables[name], config[name], now, at);
    }
  }

  method RunNight(db: Database.Database, config: Config, now: Instant, at: Instant)
    requires db.Valid() && Configured(config, db.tables.Keys) && Kept(db.tables, config, now)
    requires now <= at && Runnable(config, at)
    modifies db
    ensures db.Valid() && db.tables.Keys == old(db.tables).Keys
    ensures forall name | name in config ::
      db.tables[name] == Happen(old(db.tables)[name], PeriodFor(config, name), config[name].count, Maintain(at))
    ensures forall name | name in db.tables && name !in config :: db.tables[name] == old(db.tables)[name]
    ensures Kept(db.tables, config, at)
  {
    hide Windowed, PeriodOf, Feasible, TimeFormatBy, AfterScript, Happen;
    AllSucceed(db.tables, config, now, at);
    var ok := RunScript(db, config, false, at);
  }

  lemma ArrivalKept(tables: map<string, Table>, config: Config, now: Instant, at: Instant, name: string, row: Row)
    requires Configured(config, tables.Keys) && Kept(tables, config, now) && now <= at && Runnable(config, at)
    requires name in tables
    ensures Kept(tables[name := Inserted(tables[name], row)], config, at)
  {
    hide Windowed, PeriodOf, TimeFormatBy, Inserted, Printable;
    var after := tables[name := Inserted(tables[name], row)];
    forall other | other in config
      ensures var g := PeriodFor(config, other); Windowed(after[other], g, 0, Current(g, at) + config[other].count)
    {
      var g, n := PeriodFor(config, other), config[other].count;
      assert Feasible(config[other], at);
      if other == name {
        HappenKeepsWindow(tables[name], g, n, Arrive(at, row), Current(g, now) + n) by { TimeAdvances(g, now, at); }
      } else {
        WindowWaits(tables[other], g, n, now, at);
      }
    }
  }

  method RunArrival(db: Database.Database, config: Config, now: Instant, at: Instant, name: string, row: Row)
    requires db.Valid() && Configured(config, db.tables.Keys) && Kept(db.tables, config, now)
    requires now <= at && Runnable(config, at) && name in db.tables
    modifies db
    ensures db.Valid() && db.tables == old(db.tables)[name := Inserted(old(db.tables)[name], row)]
    ensures name in config ==>
      db.tables[name] == Happen(old(db.tables)[name], PeriodFor(config, name), config[name].count, Arrive(at, row))
    ensures Kept(db.tables, config, at)
  {
    hide Windowed, PeriodOf, Runnable, Inserted, Kept, PeriodFor, TimeFormatBy;
    ArrivalKept(db.tables, config, now, at, name, row);
    db.Insert(name, row);
  }

  /** Rows that are inserted one after the other. */
  ghost function AllArrived(t: Table, rows: seq<Row>): Table
    decreases |rows|
  {
    if rows == [] then t else AllArrived(Inserted(t, rows[0]), rows[1..])
  }

  /** What one happening makes of a configured table. */
  ghost function After(t: Table, g: Granularity, n: nat, name: string, happening: Happening): Table {
    match happening
    case Night(at) => Happen(t, g, n, Maintain(at))
    case Arrival(other, at, row) => if other == name then Happen(t, g, n, Arrive(at, row)) else t
  }

  lemma PlayOne(t: Table, g: Granularity, n: nat, name: string, happenings: seq<Happening>)
    requires happenings != []
    ensures Play(t, g, n, EventsOf(name, happenings)) ==
      Play(After(t, g, n, name, happenings[0]), g, n, EventsOf(name, happenings[1..]))
  {
    hide Happen;
    var events, rest := EventsOf(name, happenings), EventsOf(name, happenings[1..]);
    assert events != rest ==> events[1..] == rest;
  }

  lemma PlayNone(t: Table, g: Granularity, n: nat, name: string)
    ensures Play(t, g, n, EventsOf(name, [])) == t
  {
  }

  /** Each configured table's state is what its own events make of it; no run fails. Other tables only
      get the rows that arrive for them. */
  method RunNights(db: Database.Database, config: Config, now: Instant, happenings: seq<Happening>)
    requires db.Valid() && Configured(config, db.tables.Keys) && Kept(db.tables, config, now)
    requires Paced(config, now, happenings)
    requires forall k | 0 <= k < |happenings| && happenings[k].Arrival? :: happenings[k].name in db.tables
    modifies db
    ensures db.Valid() && db.tables.Keys == old(db.tables).Keys
    ensures forall name | name in config ::
      db.tables[name] ==
        Play(old(db.tables)[name], PeriodFor(config, name), config[name].count, EventsOf(name, happenings))
    ensures forall name | name in db.tables && name !in config ::
      db.tables[name] == AllArrived(old(db.tables)[name], RowsFor(name, happenings))
    decreases |happenings|
  {
    hide Windowed, PeriodOf, Runnable, Inserted, Kept, PeriodFor, TimeFormatBy, Happen, Play, EventsOf;
    if happenings == [] {
      forall name | name in config {
        PlayNone(db.tables[name], PeriodFor(config, name), config[name].count, name);
      }
      return;
    }
    forall name | name in config {
      PlayOne(db.tables[name], PeriodFor(config, name), config[name].count, name, happenings);
    }
    var at := happenings[0].at;
    if happenings[0].Night? {
      RunNight(db, config, now, at);
    } else {
      RunArrival(db, config, now, at, happenings[0].name, happenings[0].row);
    }
    RunNights(db, config, at, happenings[1..]);
  }

  /** What RunNights makes of a configured table that is sound: it is sound, its rows are those there at
      first and those arrived without the ones dropped, these were older than the retention or in a
      first partition, and right after a night the partitions are bounded. */
  lemma NightsKeep(t: Table, config: Config, name: string, now: Instant, happenings: seq<Happening>)
    requires name in config && TimeFormatBy(config[name].partitionBy).Some? && config[name].count > 0
    requires Sound(t) && Paced(config, now, happenings)
    requires Windowed(t, PeriodFor(config, name), 0, Current(PeriodFor(config, name), now) + config[name].count)
    ensures var g, n, events := PeriodFor(config, name), config[name].count, EventsOf(name, happenings);
      var t', calls := Play(t, g, n, events), AllCalls(g, n, events);
      && AllSupported(calls) && Sound(t')
      && Contents(t') + AllLost(t, calls) == Contents(t) + multiset(RowsFor(name, happenings))
      && (forall row | row in AllLost(t, calls) :: OldOrFirst(t, g, n, now, events, row))
      && (events != [] && events[|events| - 1].Maintain? ==> |t'.children| <= 2 * n + Slack(g, n))
  {
    hide Sound, Windowed, PeriodOf, Play, Ordered, Paced, Contents, AllLost, AllCalls, AllSupported, OldOrFirst,
      PeriodFor, TimeFormatBy, Slack;
    var g, n, events := PeriodFor(config, name), config[name].count, EventsOf(name, happenings);
    EventsAreOrdered(config, name, now, happenings);
    NightlyRuns(t, g, n, now, events);
    PartitionsAreBounded(t, g, n, now, events);
    GivenIsArrived(g, n, name, happenings);
  }

  lemma {:induction false} GivenAppend(a: seq<Operation>, b: seq<Operation>)
    ensures AllGiven(a + b) == AllGiven(a) + AllGiven(b)
    decreases |b|
  {
    hide Given;
    if b == [] {
      assert a + b == a;
    } else {
      var init, last := b[..|b| - 1], b[|b| - 1];
      GivenAppend(a, init);
      assert (a + b)[..|a + b| - 1] == a + init && (a + b)[|a + b| - 1] == last;
      assert AllGiven(a) + (AllGiven(init) + Given(last)) == AllGiven(a) + AllGiven(init) + Given(last);
    }
  }

  lemma GivenByCalls(g: Granularity, n: nat, event: Event)
    ensures AllGiven(Calls(g, n, event)) == if event.Arrive? then multiset{event.row} else multiset{}
  {
    hide By;
    var calls := Calls(g, n, event);
    assert AllGiven(calls[..0]) == multiset{};
    if event.Maintain? {
      assert calls[..1] == [calls[0]] && calls[..1][..0] == [];
      assert AllGiven(calls[..1]) == multiset{};
    }
  }

  lemma {:induction false} GivenIsArrived(g: Granularity, n: nat, name: string, happenings: seq<Happening>)
    ensures AllGiven(AllCalls(g, n, EventsOf(name, happenings))) == multiset(RowsFor(name, happenings))
  {
    hide Calls;
    if happenings != [] {
      GivenIsArrived(g, n, name, happenings[1..]);
      var events, rest := EventsOf(name, happenings), EventsOf(name, happenings[1..]);
      if events != rest {
        assert events[1..] == rest;
        GivenAppend(Calls(g, n, events[0]), AllCalls(g, n, rest));
        GivenByCalls(g, n, events[0]);
      }
      assert RowsFor(name, happenings) != RowsFor(name, happenings[1..]) ==>
        RowsFor(name, happenings) == [happenings[0].row] + RowsFor(name, happenings[1..]);
    }
  }
}
