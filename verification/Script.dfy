/** A run of zbx_partitions.py over all its tables, in one transaction. */
module Script {
  import opened Options
  import opened Identifiers
  import opened Periods
  import opened Suffixes
  import opened Tables
  import opened Operations
  import opened Maintenance
  import Database

  /** How a table is partitioned and how many partitions are provisioned ahead. */
  datatype Plan = Plan(partitionBy: string, count: nat)

  type Config = map<string, Plan>

  const TABLES: Config := map[
    "history" := Plan("day", 7),
    "history_uint" := Plan("day", 7),
    "history_str" := Plan("day", 7),
    "history_log" := Plan("day", 7),
    "history_text" := Plan("day", 7),
    "trends" := Plan("month", 12),
    "trends_uint" := Plan("month", 12)
  ]

  predicate Feasible(plan: Plan, now: Instant) {
    var g := TimeFormatBy(plan.partitionBy);
    plan.count > 0 && (g.Some? ==>
      Printable(g.value, Current(g.value, now) - 1) && Printable(g.value, Current(g.value, now) + plan.count - 1))
  }

  /** Tables are called as statements call them, and no partition leaves four-digit years. */
  predicate Runnable(config: Config, now: Instant) {
    forall name | name in config :: OwnName(name) && Feasible(config[name], now)
  }

  lemma ConfiguredNames()
    ensures forall name | name in TABLES :: OwnName(name)
    ensures TABLES.Keys ==
      {"history", "history_uint", "history_str", "history_log", "history_text", "trends", "trends_uint"}
  {
    hide OwnName;
    forall name | name in TABLES
      ensures OwnName(name)
    {
      SmallLetters(name);
    }
  }

  /** A table's share of the first loop: its partitions are provisioned. */
  function AfterProvision(t: Table, plan: Plan, now: Instant): Option<Table> {
    var g := TimeFormatBy(plan.partitionBy);
    if g.None? then None else Some(Provisioned(t, g.value, Current(g.value, now), plan.count))
  }

  /** A table's share of the second loop: its trigger is enabled or its old partitions dropped. */
  function AfterFinish(t: Table, plan: Plan, init: bool, now: Instant): Option<Table>
    requires Feasible(plan, now)
  {
    var g := TimeFormatBy(plan.partitionBy);
    if g.None? then None
    else if init then Enabled(t, g.value, TriggerName(t.name, ""), Current(g.value, now))
    else WithoutExpired(t, ToLocal(now), Cutoff(g.value, plan.count, ToLocal(now)))
  }

  /** The table after its share of a run. */
  function AfterScript(t: Table, plan: Plan, init: bool, now: Instant): Option<Table>
    requires Feasible(plan, now)
  {
    var provisioned := AfterProvision(t, plan, now);
    if provisioned.None? then None else AfterFinish(provisioned.value, plan, init, now)
  }

  lemma ScriptShare(t: Table, g: Granularity, count: nat, init: bool, now: Instant, partitionBy: string)
    requires Feasible(Plan(partitionBy, count), now) && TimeFormatBy(partitionBy) == Some(g)
    ensures Current(g, now) > 0
    ensures AfterScript(t, Plan(partitionBy, count), init, now)
         == if init then Initialized(t, g, count, now) else Maintained(t, g, count, now)
  {
    hide PartitionName, PeriodOf, Fresh, WithoutExpired;
  }

  method ProvisionAll(db: Database.Database, config: Config, now: Instant) returns (ok: bool)
    requires db.Valid() && Runnable(config, now)
    modifies db
    ensures db.Valid() && db.tables.Keys == old(db.tables).Keys
    ensures ok <==> forall name | name in config ::
      name in old(db.tables) && AfterProvision(old(db.tables)[name], config[name], now).Some?
    ensures ok ==> forall name | name in config ::
      AfterProvision(old(db.tables)[name], config[name], now) == Some(db.tables[name])
    ensures forall name | name in old(db.tables) && name !in config :: db.tables[name] == old(db.tables)[name]
  {
    hide Provisioned, PeriodOf, Printable, Prefixing, InSchema, OwnName;
    var left := config.Keys;
    while left != {}
      invariant left <= config.Keys && db.Valid() && db.tables.Keys == old(db.tables).Keys
      invariant forall name | name in config && name !in left ::
        name in db.tables && AfterProvision(old(db.tables)[name], config[name], now) == Some(db.tables[name])
      invariant forall name | name in db.tables && (name !in config || name in left) ::
        db.tables[name] == old(db.tables)[name]
      decreases left
    {
      var name :| name in left;
      TableIsRead(name);
      ok := db.Provision(name, config[name].partitionBy, config[name].count, now);
      if !ok {
        return;
      }
      left := left - {name};
    }
    ok := true;
  }

  method Finish(db: Database.Database, name: string, plan: Plan, init: bool, now: Instant) returns (ok: bool)
    requires db.Valid() && name in db.tables && Feasible(plan, now) && TimeFormatBy(plan.partitionBy).Some?
    modifies db
    ensures db.Valid()
    ensures ok <==> AfterFinish(old(db.tables)[name], plan, init, now).Some?
    ensures db.tables == if ok then old(db.tables)[name := AfterFinish(old(db.tables)[name], plan, init, now).value]
                         else old(db.tables)
  {
    hide PartitionName, PeriodOf, WithoutExpired, Enabled, Prefixing, InSchema, OwnName;
    TableIsRead(name);
    if init {
      ok := db.Enable(name, plan.partitionBy, "", now);
    } else {
      var g := TimeFormatBy(plan.partitionBy).value;
      ok := db.DropOld(name, now - GetDays(g) * plan.count * DAY, now);
    }
  }

  method FinishAll(db: Database.Database, config: Config, init: bool, now: Instant) returns (ok: bool)
    requires db.Valid() && forall name | name in config ::
      name in db.tables && Feasible(config[name], now) && TimeFormatBy(config[name].partitionBy).Some?
    modifies db
    ensures db.Valid() && db.tables.Keys == old(db.tables).Keys
    ensures ok <==> forall name | name in config ::
      AfterFinish(old(db.tables)[name], config[name], init, now).Some?
    ensures ok ==> forall name | name in config ::
      AfterFinish(old(db.tables)[name], config[name], init, now) == Some(db.tables[name])
    ensures forall name | name in old(db.tables) && name !in config :: db.tables[name] == old(db.tables)[name]
  {
    hide AfterFinish, Feasible, TimeFormatBy, Database.Database.Valid, OwnName;
    var left := config.Keys;
    while left != {}
      invariant left <= config.Keys && db.Valid() && db.tables.Keys == old(db.tables).Keys
      invariant forall name | name in config && name !in left ::
        AfterFinish(old(db.tables)[name], config[name], init, now) == Some(db.tables[name])
      invariant forall name | name in db.tables && (name !in config || name in left) ::
        db.tables[name] == old(db.tables)[name]
      decreases left
    {
      var name :| name in left;
      ok := Finish(db, name, config[name], init, now);
      if !ok {
        return;
      }
      left := left - {name};
    }
    ok := true;
  }

  /** Every configured table takes its whole share, whatever the order of the tables, or nothing
      is committed. */
  method RunScript(db: Database.Database, config: Config, init: bool, now: Instant) returns (ok: bool)
    requires db.Valid() && Runnable(config, now)
    modifies db
    ensures db.Valid()
    ensures ok <==> forall name | name in config ::
      name in old(db.tables) && AfterScript(old(db.tables)[name], config[name], init, now).Some?
    ensures ok ==> db.tables.Keys == old(db.tables).Keys
    ensures ok ==> forall name | name in config ::
      AfterScript(old(db.tables)[name], config[name], init, now) == Some(db.tables[name])
    ensures forall name | name in old(db.tables) && (!ok || name !in config) ::
      name in db.tables && db.tables[name] == old(db.tables)[name]
    ensures !ok ==> db.tables == old(db.tables)
  {
    hide Provisioned, AfterFinish, Feasible;
    var before := db.tables;
    ok := ProvisionAll(db, config, now);
    if ok {
      ok := FinishAll(db, config, init, now);
    }
    if !ok {
      db.tables := before;
    }
  }

  /** With the configured counts the bound is 14 daily or 24 monthly partitions. */
  lemma ConfiguredBounds(name: string, t: Table, g: Granularity, now: Instant, events: seq<Event>)
    requires name in TABLES && TimeFormatBy(TABLES[name].partitionBy) == Some(g)
    requires Windowed(t, g, 0, Current(g, now) + TABLES[name].count)
    requires Ordered(g, TABLES[name].count, now, events) && events != [] && events[|events| - 1].Maintain?
    ensures g == (if name[0] == 'h' then Day else Month)
    ensures 2 * TABLES[name].count == if g == Day then 14 else 24
    ensures |Play(t, g, TABLES[name].count, events).children| <= if g == Day then 14 else 24
  {
    hide Windowed, Ordered, PeriodOf, Play;
    PartitionsAreBounded(t, g, TABLES[name].count, now, events);
  }
}
