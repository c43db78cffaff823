/** Calls of bootstrap.sql's functions on one table, and runs of such calls. */
module Operations {
  import opened Identifiers
  import opened Periods
  import opened Suffixes
  import opened Tables

  datatype Operation =
    | Insert(row: Row)
    | Provision(partitionBy: string, count: int, now: Instant)
    | Enable(partitionBy: string, trigger: string, now: Instant)
    | Constrain(child: string, column: string)
    | DropOld(cutoff: int, now: Instant)
    | Deprovision(trigger: string)

  /** The period of NOW(). */
  function Current(g: Granularity, now: Instant): nat {
    PeriodOf(g, ToLocal(now))
  }

  /** Every partition that the call names has a four-digit year, and every text that it is given for
      a name ends in the statement where it stands. */
  predicate Supported(op: Operation) {
    match op
    case Provision(partitionBy, count, now) =>
      var g := TimeFormatBy(partitionBy);
      g.Some? && count > 0 ==> Printable(g.value, Current(g.value, now) + count - 1)
    case Enable(partitionBy, _, now) =>
      var g := TimeFormatBy(partitionBy);
      g.Some? ==> Printable(g.value, Current(g.value, now) - 1)
    case Constrain(child, column) => AsChild(child) != Other && AsColumn(column) != Other
    case Deprovision(trigger) => trigger != "" ==> Alone(trigger) != Other
    case Insert(_) => true
    case DropOld(_, _) => true
  }

  /** The table after the call; one that raises changes nothing. */
  ghost function Apply(t: Table, op: Operation): Table
    requires Supported(op)
  {
    match op
    case Insert(row) => Inserted(t, row)
    case Provision(partitionBy, count, now) =>
      var g := TimeFormatBy(partitionBy);
      if g.Some? && count > 0 then Provisioned(t, g.value, Current(g.value, now), count) else t
    case Enable(partitionBy, trigger, now) =>
      var g := TimeFormatBy(partitionBy);
      if g.None? then t
      else
        var enabled := Enabled(t, g.value, TriggerName(t.name, trigger), Current(g.value, now));
        if enabled.Some? then enabled.value else t
    case Constrain(child, column) =>
      var constrained := WithConstraint(t, child, column);
      if constrained.Some? then constrained.value else t
    case DropOld(cutoff, now) =>
      var kept := WithoutExpired(t, ToLocal(now), ToLocal(cutoff));
      if kept.Some? then kept.value else t
    case Deprovision(trigger) =>
      var merged := WithoutPartitions(t, trigger);
      if merged.Some? then merged.value else t
  }

  predicate AllSupported(ops: seq<Operation>) {
    forall op | op in ops :: Supported(op)
  }

  ghost function Run(t: Table, ops: seq<Operation>): Table
    requires AllSupported(ops)
  {
    if ops == [] then t else Apply(Run(t, ops[..|ops| - 1]), ops[|ops| - 1])
  }
}
