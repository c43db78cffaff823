/** The rows of a table over runs of calls, with triggers of any name. */
module Balance {
  import opened Options
  import opened Identifiers
  import opened Periods
  import opened Suffixes
  import opened NameOrder
  import opened Tables
  import opened Operations
  import opened Conservation
  import opened Soundness

  /** The rows a call drops. */
  ghost function Lost(t: Table, op: Operation): multiset<Row> {
    if op.DropOld? && WithoutExpired(t, ToLocal(op.now), ToLocal(op.cutoff)).Some?
    then Stored(Only(t.children, ExpiredNames(t, ToLocal(op.now), ToLocal(op.cutoff))))
    else multiset{}
  }

  /** The rows a call inserts. */
  function Given(op: Operation): multiset<Row> {
    if op.Insert? then multiset{op.row} else multiset{}
  }

  /** The call copies the children back while a trigger that it has left recaptures a row. */
  ghost predicate Recapturing(t: Table, op: Operation) {
    op.Deprovision? &&
    var dropped := Alone(TriggerName(t.name, op.trigger));
    dropped.Name? && Recaptures(t.(triggers := t.triggers - {dropped.value}))
  }

  /** Both sides of a call's balance. */
  ghost predicate Balanced(t: Table, op: Operation)
    requires Supported(op)
  {
    Contents(Apply(t, op)) + Lost(t, op) == Contents(t) + Given(op)
  }

  lemma DeprovisionBalance(t: Table, op: Operation)
    requires Supported(op) && op.Deprovision?
    ensures Balanced(t, op) <==> !Recapturing(t, op)
    ensures |Contents(Apply(t, op))| <= |Contents(t)|
    ensures Recapturing(t, op) ==> |Contents(Apply(t, op))| < |Contents(t)|
  {
    hide Recaptures, Contents, Deprovisioned, Alone;
    var dropped := Alone(TriggerName(t.name, op.trigger));
    assert Contents(Apply(t, op)) + multiset{} == Contents(Apply(t, op)) && Contents(t) + multiset{} == Contents(t);
    if dropped.Name? {
      DeprovisionConserves(t, dropped.value);
      DeprovisionShrinks(t, dropped.value);
    }
  }

  lemma OthersBalance(t: Table, op: Operation)
    requires Supported(op) && !op.Deprovision?
    ensures Balanced(t, op)
  {
    hide PeriodOf, Destination, PartitionName, TimeFormatBy, Contents, Stored,
      Provisioned, Constrained, Enabled, Inserted, WithoutExpired, AsChild, AsColumn;
    if op.Insert? {
      InsertAdds(t, op.row);
    } else if op.Provision? {
      var g := TimeFormatBy(op.partitionBy);
      if g.Some? && op.count > 0 {
        ProvisioningKeeps(t, g.value, Current(g.value, op.now), op.count);
      }
    } else if op.Enable? {
      var g := TimeFormatBy(op.partitionBy);
      if g.Some? && Enabled(t, g.value, TriggerName(t.name, op.trigger), Current(g.value, op.now)).Some? {
        EnablingKeeps(t, g.value, TriggerName(t.name, op.trigger), Current(g.value, op.now));
      }
    } else if op.Constrain? {
      if WithConstraint(t, op.child, op.column).Some? {
        ConstrainingKeeps(t, AsChild(op.child).value, AsColumn(op.column).value);
      }
    } else if WithoutExpired(t, ToLocal(op.now), ToLocal(op.cutoff)).Some? {
      DroppingLoses(t, ToLocal(op.now), ToLocal(op.cutoff));
    }
  }

  /** One call keeps every row that it does not drop, and makes none up, exactly if it does not copy
      children back under a trigger that recaptures a row; then rows are lost. */
  lemma CallConserves(t: Table, op: Operation)
    requires Supported(op)
    ensures Balanced(t, op) <==> !Recapturing(t, op)
    ensures Recapturing(t, op) ==> |Contents(Apply(t, op)) + Lost(t, op)| < |Contents(t) + Given(op)|
  {
    hide Recaptures, Contents, Deprovisioned, Apply;
    if op.Deprovision? {
      DeprovisionBalance(t, op);
      Sizes(Contents(Apply(t, op)), Contents(t));
    } else {
      OthersBalance(t, op);
    }
  }

  lemma Sizes(a: multiset<Row>, b: multiset<Row>)
    ensures |a + multiset{}| == |a| && |b + multiset{}| == |b|
  {
  }

  ghost function AllLost(t: Table, ops: seq<Operation>): multiset<Row>
    requires AllSupported(ops)
  {
    if ops == [] then multiset{}
    else AllLost(t, ops[..|ops| - 1]) + Lost(Run(t, ops[..|ops| - 1]), ops[|ops| - 1])
  }

  function AllGiven(ops: seq<Operation>): multiset<Row> {
    if ops == [] then multiset{} else AllGiven(ops[..|ops| - 1]) + Given(ops[|ops| - 1])
  }

  /** Some call of the run loses rows to a trigger. */
  ghost predicate EverRecapturing(t: Table, ops: seq<Operation>)
    requires AllSupported(ops)
  {
    ops != [] &&
    (EverRecapturing(t, ops[..|ops| - 1]) || Recapturing(Run(t, ops[..|ops| - 1]), ops[|ops| - 1]))
  }

  lemma StepSizes(before: multiset<Row>, lost: multiset<Row>, start: multiset<Row>, given: multiset<Row>,
                  after: multiset<Row>, more: multiset<Row>, row: multiset<Row>)
    requires |before + lost| <= |start + given| && |after + more| <= |before + row|
    ensures |after + (lost + more)| <= |start + (given + row)|
    ensures |before + lost| < |start + given| || |after + more| < |before + row| ==>
      |after + (lost + more)| < |start + (given + row)|
    ensures before + lost == start + given && after + more == before + row ==>
      after + (lost + more) == start + (given + row)
  {
    assert |before + lost| == |before| + |lost| && |start + given| == |start| + |given|;
    assert |after + more| == |after| + |more| && |before + row| == |before| + |row|;
    assert |after + (lost + more)| == |after| + |lost| + |more|;
    assert |start + (given + row)| == |start| + |given| + |row|;
    if before + lost == start + given && after + more == before + row {
      calc {
        after + (lost + more);
        (after + more) + lost;
        (before + row) + lost;
        (before + lost) + row;
        start + (given + row);
      }
    }
  }

  /** Over every run, whatever its triggers are called: the rows in the parent and the children, with
      those that zbx_drop_old_partitions dropped, are those there at first and those inserted exactly
      if no call of the run recaptures. Otherwise there are fewer. */
  lemma {:induction false} RunConserves(t: Table, ops: seq<Operation>)
    requires AllSupported(ops)
    ensures Contents(Run(t, ops)) + AllLost(t, ops) == Contents(t) + AllGiven(ops) <==> !EverRecapturing(t, ops)
    ensures |Contents(Run(t, ops)) + AllLost(t, ops)| <= |Contents(t) + AllGiven(ops)|
    ensures EverRecapturing(t, ops) ==>
      |Contents(Run(t, ops)) + AllLost(t, ops)| < |Contents(t) + AllGiven(ops)|
  {
    hide Supported, Apply, Contents, Lost, Recapturing;
    if ops != [] {
      var init, last := ops[..|ops| - 1], ops[|ops| - 1];
      var before := Run(t, init);
      RunConserves(t, init);
      CallConserves(before, last);
      StepSizes(Contents(before), AllLost(t, init), Contents(t), AllGiven(init),
                Contents(Apply(before, last)), Lost(before, last), Given(last));
    }
  }

  /** The call names no trigger but this one. */
  predicate Names(op: Operation, table: string, trigger: string) {
    op.Enable? || op.Deprovision? ==> TriggerName(table, op.trigger) == trigger
  }

  /** DROP TRIGGER reads the text as the name that CREATE TRIGGER was given, or fails. */
  predicate Droppable(trigger: string) {
    Alone(trigger) == Name(trigger) || Alone(trigger) == Failing
  }

  lemma OneTriggerStays(t: Table, op: Operation, trigger: string)
    requires Supported(op) && t.triggers.Keys <= {trigger} && Names(op, t.name, trigger) && Droppable(trigger)
    ensures Apply(t, op).name == t.name && Apply(t, op).triggers.Keys <= {trigger}
    ensures !Recapturing(t, op)
  {
    hide Printable, PeriodOf, Destination, PartitionName, TimeFormatBy, Recaptures, Contents, Deprovisioned, Fresh,
      Alone, AsChild, AsColumn, Constrained, RouteName;
    if op.Deprovision? && Alone(trigger).Name? {
      NoTriggerNoRecapture(t.(triggers := t.triggers - {trigger}));
      DeprovisionConserves(t, trigger);
    }
  }

  /** A run that uses one trigger name throughout loses nothing but what is dropped, if DROP TRIGGER
      finds the trigger under that name. */
  lemma {:induction false} OneTriggerConserves(t: Table, ops: seq<Operation>, trigger: string)
    requires t.triggers.Keys <= {trigger} && Droppable(trigger)
    requires AllSupported(ops) && forall op | op in ops :: Names(op, t.name, trigger)
    ensures Run(t, ops).name == t.name && Run(t, ops).triggers.Keys <= {trigger}
    ensures !EverRecapturing(t, ops)
    ensures Contents(Run(t, ops)) + AllLost(t, ops) == Contents(t) + AllGiven(ops)
  {
    hide Supported, Names, Droppable, Apply, Contents, Lost, Recapturing;
    if ops != [] {
      var init, last := ops[..|ops| - 1], ops[|ops| - 1];
      OneTriggerConserves(t, init, trigger);
      OneTriggerStays(Run(t, init), last, trigger);
    }
    RunConserves(t, ops);
  }

  /** Some day, 1 September 1998, and its first moment in the session's zone. */
  const TODAY: nat := 729998
  const NOW: Instant := ToInstant(TODAY * DAY)

  /** A table is partitioned by day under the trigger, and a row arrives. */
  function Setup(trigger: string): seq<Operation> {
    [Provision("day", 1, NOW), Enable("day", trigger, NOW), Insert(Row(NOW, map[], ""))]
  }

  lemma SetupIsSupported(table: TableName, trigger: string)
    requires trigger != "" && Alone(trigger) != Other
    ensures forall op | op in Setup(trigger) ::
      Supported(op) && Names(op, table, trigger)
    ensures Supported(Deprovision(trigger)) && Names(Deprovision(trigger), table, trigger)
  {
  }

  function Today(table: TableName): string {
    PartitionName(table, Day, TODAY)
  }

  function Yesterday(table: TableName): string {
    PartitionName(table, Day, TODAY - 1)
  }

  /** The table after each of these calls. */
  function Provided(table: TableName): Table {
    Table(table, [], map[Today(table) := EmptyPartition(Day, TODAY)], map[])
  }

  function Opened(table: TableName, trigger: string): Table {
    Table(table, [], Provided(table).children[Yesterday(table) := Partition([], map[], true)], map[trigger := Day])
  }

  function Arrived(table: TableName, trigger: string): Table {
    var partition := Appended(EmptyPartition(Day, TODAY), Row(NOW, map[], ""));
    Opened(table, trigger).(children := Opened(table, trigger).children[Today(table) := partition])
  }

  lemma RunsInSteps(t: Table, a: Operation, b: Operation, c: Operation)
    requires Supported(a) && Supported(b) && Supported(c)
    ensures Run(t, [a, b, c]) == Apply(Apply(Apply(t, a), b), c)
  {
    hide Apply, Supported;
    assert [a, b, c][..2] == [a, b] && [a, b][..1] == [a] && [a][..0] == [];
    assert Run(t, [a]) == Apply(t, a);
    assert Run(t, [a, b]) == Apply(Apply(t, a), b);
  }

  lemma TodayIsCurrent()
    ensures Current(Day, NOW) == TODAY
    ensures TimeFormatBy("day") == Some(Day)
  {
    hide PeriodOf;
    PeriodContains(Day, ToLocal(NOW), TODAY);
  }

  lemma ProvisionSetsUp(table: TableName)
    ensures Provisioned(Table(table, [], map[], map[]), Day, TODAY, 1) == Provided(table)
  {
    hide PartitionName, EmptyPartition;
    assert Fresh(table, Day, TODAY, 0) == map[];
    assert Fresh(table, Day, TODAY, 1) == Provided(table).children;
  }

  lemma YesterdayDiffers(table: TableName)
    ensures Yesterday(table) != Today(table)
  {
    hide PartitionName;
    if Yesterday(table) == Today(table) {
      NameDetermines(table, Day, TODAY - 1, table, Day, TODAY);
    }
  }

  lemma EnableSetsUp(table: TableName, trigger: string)
    ensures Enabled(Provided(table), Day, trigger, TODAY) == Some(Opened(table, trigger))
  {
    hide PartitionName, EmptyPartition;
    YesterdayDiffers(table);
  }

  lemma InsertSetsUp(table: TableName, trigger: string)
    ensures Inserted(Opened(table, trigger), Row(NOW, map[], "")) == Arrived(table, trigger)
  {
    hide PartitionName, PeriodOf, RouteName, ClockCheck;
    var t, row := Opened(table, trigger), Row(NOW, map[], "");
    TodayIsCurrent();
    YesterdayDiffers(table);
    RouteNameIs(table, Day, NOW);
    CheckIsPeriod(Day, TODAY, NOW);
    SortedUnique({trigger}, [trigger]);
    assert t.triggers.Keys == {trigger};
    assert Target(t, row, [trigger]) == Some(Today(table));
  }

  lemma SetupArrives(table: TableName, trigger: string)
    requires trigger != "" && Alone(trigger) != Other
    ensures forall op | op in Setup(trigger) :: Supported(op)
    ensures Run(Table(table, [], map[], map[]), Setup(trigger)) == Arrived(table, trigger)
  {
    hide Provided, Opened, Arrived, EmptyPartition, PartitionName, Enabled, Provisioned, Inserted, TimeFormatBy,
      PeriodOf;
    TodayIsCurrent();
    SetupIsSupported(table, trigger);
    RunsInSteps(Table(table, [], map[], map[]), Setup(trigger)[0], Setup(trigger)[1], Setup(trigger)[2]);
    ProvisionSetsUp(table);
    EnableSetsUp(table, trigger);
    InsertSetsUp(table, trigger);
    assert Provided(table).name == table by { NamesKept(table); }
  }

  lemma NamesKept(table: TableName)
    ensures Provided(table).name == table
  {
  }

  /** DROP TRIGGER takes another name, so the trigger stays and puts the copied row back. */
  lemma ArrivedIsRecaptured(table: TableName, trigger: string)
    requires trigger != "" && Alone(trigger) != Other && !Droppable(trigger)
    ensures Recapturing(Arrived(table, trigger), Deprovision(trigger))
  {
    hide PartitionName, PeriodOf, RouteName, ClockCheck, Alone, EmptyPartition;
    var t, row := Arrived(table, trigger), Row(NOW, map[], "");
    var left := t.(triggers := t.triggers - {Alone(trigger).value});
    TodayIsCurrent();
    YesterdayDiffers(table);
    RouteNameIs(table, Day, NOW);
    BeforeIsTotal(Today(table), Today(table));
    assert left.triggers == t.triggers;
    assert Takes(left, RouteName(table, left.triggers[trigger], NOW), Today(table), row) by {
      TodayAdmits(table, trigger);
    }
    assert Recaptured(left, Today(table), row);
    assert Recaptures(left);
  }

  lemma TodayAdmits(table: TableName, trigger: string)
    ensures var t := Arrived(table, trigger);
      && Today(table) in t.children && t.children[Today(table)].rows == [Row(NOW, map[], "")]
      && Admits(t.children[Today(table)], Row(NOW, map[], ""))
  {
    hide PartitionName, PeriodOf, ClockCheck;
    TodayIsCurrent();
    CheckIsPeriod(Day, TODAY, NOW);
  }

  /** Enabled and disabled under a name that DROP TRIGGER reads as another one, the table loses the
      row that has arrived. */
  lemma UndroppableLoses(table: TableName, trigger: string)
    requires trigger != "" && Alone(trigger) != Other && !Droppable(trigger)
    ensures var ops := Setup(trigger) + [Deprovision(trigger)];
      && (forall op | op in ops :: Supported(op) && Names(op, table, trigger))
      && var t := Table(table, [], map[], map[]);
         Contents(Run(t, ops)) + AllLost(t, ops) != Contents(t) + AllGiven(ops)
  {
    hide Recapturing, Droppable, Setup, Arrived, Contents, Apply;
    var t, ops := Table(table, [], map[], map[]), Setup(trigger) + [Deprovision(trigger)];
    SetupIsSupported(table, trigger);
    SetupArrives(table, trigger);
    ArrivedIsRecaptured(table, trigger);
    assert ops[..|ops| - 1] == Setup(trigger);
    RunConserves(t, ops);
  }

  /** A table is set up and deprovisioned under the trigger, and its row is lost. */
  ghost predicate Loses(table: TableName, trigger: string) {
    var t, ops := Table(table, [], map[], map[]), Setup(trigger) + [Deprovision(trigger)];
    AllSupported(ops) && Contents(Run(t, ops)) + AllLost(t, ops) != Contents(t) + AllGiven(ops)
  }

  /** For example, under a name with capitals. */
  lemma CapitalsLose(table: TableName)
    ensures Alone("History_Insert") == Name("history_insert") && Loses(table, "History_Insert")
  {
    HistoryInsertIsRead();
    hide Alone, Setup, Contents;
    UndroppableLoses(table, "History_Insert");
  }

  /** And under any name with blanks or comments around it, which CREATE TRIGGER keeps. */
  lemma PaddingLoses(table: TableName, before: string, name: string, after: string)
    requires Ends(before) && Ends(after) && before + after != "" && Plain(name) && !Keyword(Lower(name))
    ensures Loses(table, before + name + after)
  {
    hide Alone, Setup, Contents, Ends, Keyword, Plain;
    var trigger := before + name + after;
    AlonePadded(before, name, after);
    PlainIsRead(name);
    assert |trigger| > |Lower(name)|;
    UndroppableLoses(table, trigger);
  }

  lemma BlankLoses(table: TableName)
    ensures Loses(table, "history_insert ")
  {
    hide Keyword, Lower, Skip, Loses;
    var name := "history_insert";
    assert Lower(name) == name;
    KeywordsEndOtherwise(name);
    NothingLeft();
    assert Ends(" ") by { BlankEnds(); }
    PaddingLoses(table, "", name, " ");
    assert "" + name + " " == "history_insert ";
  }

  lemma BlankEnds()
    ensures Ends(" ")
  {
    assert " "[1..] == [];
  }

  lemma HistoryInsertIsRead()
    ensures Alone("History_Insert") == Name("history_insert")
  {
    hide Keyword, Lower, Alone;
    assert Lower("History_Insert") == "history_insert";
    KeywordsEndOtherwise("history_insert");
    PlainIsRead("History_Insert");
  }

  lemma DefaultIsDroppable(table: TableName)
    ensures Alone(TriggerName(table, "")) == Name(TriggerName(table, ""))
  {
    hide Keyword, Lower, Alone;
    var trigger := table + "_insert";
    SameLower(table);
    SameLower(trigger);
    KeywordsEndOtherwise(trigger);
    PlainIsRead(trigger);
  }

  /** Under its default name the trigger is always found. */
  lemma DefaultConserves(t: Table, ops: seq<Operation>)
    requires t.triggers.Keys <= {TriggerName(t.name, "")}
    requires AllSupported(ops) && forall op | op in ops :: Names(op, t.name, TriggerName(t.name, ""))
    ensures Contents(Run(t, ops)) + AllLost(t, ops) == Contents(t) + AllGiven(ops)
  {
    hide Alone, Contents, TriggerName, Names;
    DefaultIsDroppable(t.name);
    OneTriggerConserves(t, ops, TriggerName(t.name, ""));
  }

  /** With one trigger name throughout, every run keeps every row that is not dropped exactly if
      DROP TRIGGER reads that name as it is, or fails. */
  lemma OneTriggerConservesExactly(table: TableName, trigger: string)
    requires trigger != "" && Alone(trigger) != Other
    ensures Droppable(trigger) <==>
      forall t: Table, ops: seq<Operation> |
        && t.name == table && t.triggers.Keys <= {trigger}
        && (forall op | op in ops :: Supported(op) && Names(op, table, trigger)) ::
        Contents(Run(t, ops)) + AllLost(t, ops) == Contents(t) + AllGiven(ops)
  {
    hide Droppable, Supported, Names, Contents;
    if Droppable(trigger) {
      forall t: Table, ops: seq<Operation> |
        && t.name == table && t.triggers.Keys <= {trigger}
        && (forall op | op in ops :: Supported(op) && Names(op, table, trigger))
        ensures Contents(Run(t, ops)) + AllLost(t, ops) == Contents(t) + AllGiven(ops)
      {
        OneTriggerConserves(t, ops, trigger);
      }
    } else {
      UndroppableLoses(table, trigger);
    }
  }
}
