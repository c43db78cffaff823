/** Nightly maintenance as a run of calls, so that what holds of every run of calls holds of it. */
module Nightly {
  import opened Options
  import opened Periods
  import opened Suffixes
  import opened Tables
  import opened Operations
  import opened Conservation
  import opened Soundness
  import opened Balance
  import opened Maintenance

  /** The name of the period. */
  function By(g: Granularity): (partitionBy: string)
    ensures TimeFormatBy(partitionBy) == Some(g)
  {
    match g
    case Day => "day"
    case Month => "month"
    case Year => "year"
  }

  /** The cutoff as an instant. */
  function CutoffAt(g: Granularity, n: nat, at: Instant): int {
    at - GetDays(g) * n * DAY
  }

  function Calls(g: Granularity, n: nat, event: Event): seq<Operation> {
    match event
    case Arrive(_, row) => [Insert(row)]
    case Maintain(at) => [Provision(By(g), n, at), DropOld(CutoffAt(g, n, at), at)]
  }

  function AllCalls(g: Granularity, n: nat, events: seq<Event>): seq<Operation> {
    if events == [] then [] else Calls(g, n, events[0]) + AllCalls(g, n, events[1..])
  }

  lemma {:induction false} RunAppend(t: Table, a: seq<Operation>, b: seq<Operation>)
    requires AllSupported(a) && AllSupported(b)
    ensures Run(t, a + b) == Run(Run(t, a), b)
    ensures AllLost(t, a + b) == AllLost(t, a) + AllLost(Run(t, a), b)
    decreases |b|
  {
    hide Supported, Apply, Lost;
    if b == [] {
      assert a + b == a;
    } else {
      var init := b[..|b| - 1];
      RunAppend(t, a, init);
      assert (a + b)[..|a + b| - 1] == a + init;
    }
  }

  lemma CallsAreSupported(g: Granularity, n: nat, event: Event)
    requires Printable(g, Current(g, event.at) + n - 1)
    ensures AllSupported(Calls(g, n, event))
  {
    hide By, PeriodOf, Printable;
  }

  lemma RunOfCalls(t: Table, g: Granularity, n: nat, event: Event)
    requires n > 0 && Printable(g, Current(g, event.at) + n - 1)
    requires event.Maintain? ==> Maintained(t, g, n, event.at).Some?
    ensures AllSupported(Calls(g, n, event))
    ensures Run(t, Calls(g, n, event)) == Happen(t, g, n, event)
    ensures AllLost(t, Calls(g, n, event)) == if event.Arrive? then multiset{} else
      Lost(Provisioned(t, g, Current(g, event.at), n), Calls(g, n, event)[1])
  {
    hide By, PeriodOf, Printable, Inserted, Provisioned, WithoutExpired, Stored;
    CallsAreSupported(g, n, event);
    var calls := Calls(g, n, event);
    if event.Maintain? {
      assert calls[..1] == [calls[0]] && calls[..1][..0] == [];
      assert Run(t, calls[..1]) == Apply(t, calls[0]) == Provisioned(t, g, Current(g, event.at), n);
      assert AllLost(t, calls[..1]) == multiset{};
      assert ToLocal(CutoffAt(g, n, event.at)) == Cutoff(g, n, ToLocal(event.at));
    } else {
      assert calls[..0] == [];
    }
  }

  /** The script's runs and the arrivals between them are a run of calls. */
  lemma {:induction false} PlayIsRun(t: Table, g: Granularity, n: nat, now: Instant, events: seq<Event>)
    requires n > 0 && Windowed(t, g, 0, Current(g, now) + n) && Ordered(g, n, now, events)
    ensures AllSupported(AllCalls(g, n, events))
    ensures Run(t, AllCalls(g, n, events)) == Play(t, g, n, events)
    decreases |events|
  {
    hide Windowed, PeriodOf, Printable, Calls, Happen, Supported, Maintained;
    if events != [] {
      var event := events[0];
      EventGoesOn(t, g, n, now, event);
      RunOfCalls(t, g, n, event);
      PlayIsRun(Happen(t, g, n, event), g, n, event.at, events[1..]);
      RunAppend(t, Calls(g, n, event), AllCalls(g, n, events[1..]));
    }
  }

  lemma EventGoesOn(t: Table, g: Granularity, n: nat, now: Instant, event: Event)
    requires n > 0 && Windowed(t, g, 0, Current(g, now) + n)
    requires now <= event.at && Printable(g, Current(g, event.at) + n - 1)
    ensures event.Maintain? ==> Maintained(t, g, n, event.at).Some?
    ensures Windowed(Happen(t, g, n, event), g, 0, Current(g, event.at) + n)
  {
    hide Windowed, PeriodOf, Printable, Happen, Maintained;
    TimeAdvances(g, now, event.at);
    HappenKeepsWindow(t, g, n, event, Current(g, now) + n);
    if event.Maintain? {
      RunKeepsWindow(t, g, n, event.at, Current(g, now) + n);
    }
  }

  lemma {:induction false} NeverRecapturing(t: Table, ops: seq<Operation>)
    requires AllSupported(ops) && forall op | op in ops :: !op.Deprovision?
    ensures !EverRecapturing(t, ops)
  {
    hide Supported, Recaptures;
    if ops != [] {
      NeverRecapturing(t, ops[..|ops| - 1]);
    }
  }

  lemma {:induction false} NoDeprovision(g: Granularity, n: nat, events: seq<Event>)
    ensures forall op | op in AllCalls(g, n, events) :: !op.Deprovision?
  {
    if events != [] {
      NoDeprovision(g, n, events[1..]);
    }
  }

  lemma {:induction false} RowIsStored(children: map<string, Partition>, row: Row)
    requires row in Stored(children)
    ensures exists child :: child in children && row in children[child].rows
    decreases |children|
  {
    if children != map[] {
      var child :| child in children && Stored(children) == multiset(children[child].rows) + Stored(children - {child});
      if row !in children[child].rows {
        RowIsStored(children - {child}, row);
      }
    }
  }

  /** The row is in a first partition, which takes any clock. */
  ghost predicate InFirst(t: Table, row: Row) {
    exists child :: child in t.children && t.children[child].first && row in t.children[child].rows
  }

  /** What one run drops is older than the retention, or from a first partition. */
  lemma LostIsOld(t: Table, g: Granularity, n: nat, at: Instant, row: Row)
    requires Sound(t) && n > 0 && Printable(g, Current(g, at) + n - 1)
    requires row in Lost(Provisioned(t, g, Current(g, at), n), DropOld(CutoffAt(g, n, at), at))
    ensures row.clock < CutoffAt(g, n, at) || InFirst(t, row)
  {
    hide Sound, PeriodOf, Printable, Stored, Expired, ParseBound, CutoffAt, Provisioned, SoundChild;
    var p, cutoff := Current(g, at), CutoffAt(g, n, at);
    var u := Provisioned(t, g, p, n);
    RouteNameIs(t.name, g, at);
    ProvisioningKeepsSound(t, g, p, n);
    DropsExactlyExpired(u, at, cutoff);
    var expired := Only(u.children, ExpiredNames(u, ToLocal(at), ToLocal(cutoff)));
    RowIsStored(expired, row);
    var child :| child in expired && row in expired[child].rows;
    if u.children[child].first {
      FirstIsOld(t, g, p, n, child);
    }
  }

  lemma {:induction false} FreshAreChecked(table: string, g: Granularity, p: nat, n: nat)
    ensures forall child | child in Fresh(table, g, p, n) :: !Fresh(table, g, p, n)[child].first
  {
    hide PartitionName, ClockCheck;
    if n > 0 {
      FreshAreChecked(table, g, p, n - 1);
    }
  }

  lemma FirstIsOld(t: Table, g: Granularity, p: nat, n: nat, child: string)
    requires child in Provisioned(t, g, p, n).children && Provisioned(t, g, p, n).children[child].first
    ensures child in t.children && t.children[child] == Provisioned(t, g, p, n).children[child]
  {
    hide Fresh;
    FreshAreChecked(t.name, g, p, n);
  }

  /** At some time during the events the row was in a first partition. */
  ghost predicate EverInFirst(t: Table, g: Granularity, n: nat, events: seq<Event>, row: Row) {
    exists k: nat :: k <= |events| && InFirst(Play(t, g, n, events[..k]), row)
  }

  lemma EverLater(t: Table, g: Granularity, n: nat, events: seq<Event>, row: Row)
    requires events != [] && EverInFirst(Happen(t, g, n, events[0]), g, n, events[1..], row)
    ensures EverInFirst(t, g, n, events, row)
  {
    hide InFirst, Happen;
    var k: nat :| k <= |events[1..]| && InFirst(Play(Happen(t, g, n, events[0]), g, n, events[1..][..k]), row);
    assert events[..k + 1][1..] == events[1..][..k];
    assert InFirst(Play(t, g, n, events[..k + 1]), row);
  }

  /** When the last of the events happened. */
  function Ending(now: Instant, events: seq<Event>): Instant {
    if events == [] then now else events[|events| - 1].at
  }

  lemma {:induction false} EndsLate(g: Granularity, n: nat, now: Instant, events: seq<Event>)
    requires Ordered(g, n, now, events)
    ensures now <= Ending(now, events)
    decreases |events|
  {
    hide PeriodOf, Printable;
    if events != [] {
      EndsLate(g, n, events[0].at, events[1..]);
    }
  }

  lemma LostSplits(t: Table, g: Granularity, n: nat, now: Instant, events: seq<Event>, row: Row)
    requires n > 0 && Windowed(t, g, 0, Current(g, now) + n) && Ordered(g, n, now, events) && events != []
    requires AllSupported(AllCalls(g, n, events)) && row in AllLost(t, AllCalls(g, n, events))
    ensures var event, next := events[0], Happen(t, g, n, events[0]);
      && Windowed(next, g, 0, Current(g, event.at) + n)
      && AllSupported(AllCalls(g, n, events[1..]))
      && (event.Maintain? ==> Printable(g, Current(g, event.at) + n - 1))
      && (row in AllLost(next, AllCalls(g, n, events[1..])) ||
            (event.Maintain? &&
             row in Lost(Provisioned(t, g, Current(g, event.at), n), DropOld(CutoffAt(g, n, event.at), event.at))))
  {
    hide Windowed, PeriodOf, Printable, Happen, Supported, Maintained, AllLost, Lost, Provisioned, By;
    var event, rest := events[0], events[1..];
    EventGoesOn(t, g, n, now, event);
    RunOfCalls(t, g, n, event);
    PlayIsRun(Happen(t, g, n, event), g, n, event.at, rest);
    RunAppend(t, Calls(g, n, event), AllCalls(g, n, rest));
  }

  lemma HappenIsSound(t: Table, g: Granularity, n: nat, event: Event)
    requires Sound(t) && n > 0 && Printable(g, Current(g, event.at) + n - 1)
    requires event.Maintain? ==> Maintained(t, g, n, event.at).Some?
    ensures Sound(Happen(t, g, n, event))
  {
    hide Sound, PeriodOf, Printable, Happen, Maintained, Calls, Supported;
    RunOfCalls(t, g, n, event);
    RunKeepsSound(t, Calls(g, n, event));
  }

  /** The row is older than the retention at the end, or was in a first partition. */
  ghost predicate OldOrFirst(t: Table, g: Granularity, n: nat, now: Instant, events: seq<Event>, row: Row) {
    row.clock + GetDays(g) * n * DAY < Ending(now, events) || EverInFirst(t, g, n, events, row)
  }

  lemma LaterIsOld(t: Table, g: Granularity, n: nat, now: Instant, events: seq<Event>, row: Row)
    requires events != [] && OldOrFirst(Happen(t, g, n, events[0]), g, n, events[0].at, events[1..], row)
    ensures OldOrFirst(t, g, n, now, events, row)
  {
    hide EverInFirst, Happen;
    if EverInFirst(Happen(t, g, n, events[0]), g, n, events[1..], row) {
      EverLater(t, g, n, events, row);
    }
  }

  lemma NowIsOld(t: Table, g: Granularity, n: nat, now: Instant, events: seq<Event>, row: Row)
    requires events != [] && Ordered(g, n, now, events)
    requires row.clock < CutoffAt(g, n, events[0].at) || InFirst(t, row)
    ensures OldOrFirst(t, g, n, now, events, row)
  {
    hide EverInFirst, InFirst, PeriodOf, Printable;
    EndsLate(g, n, events[0].at, events[1..]);
    if InFirst(t, row) {
      FirstNow(t, g, n, events, row);
    }
  }

  /** Rows within the retention survive: over any number of runs and arrivals, all that is lost is older
      than the latest cutoff, but for rows of a first partition. */
  lemma {:induction false} RetentionSurvives(
    t: Table, g: Granularity, n: nat, now: Instant, events: seq<Event>, row: Row)
    requires Sound(t) && n > 0 && Windowed(t, g, 0, Current(g, now) + n) && Ordered(g, n, now, events)
    requires AllSupported(AllCalls(g, n, events)) && row in AllLost(t, AllCalls(g, n, events))
    ensures OldOrFirst(t, g, n, now, events, row)
    decreases |events|
  {
    hide Sound, Windowed, PeriodOf, Printable, Happen, AllSupported, AllCalls, AllLost, InFirst, Lost, OldOrFirst,
      Maintained, Provisioned;
    if events == [] {
      NothingLost(t, g, n);
    } else {
      var event, next := events[0], Happen(t, g, n, events[0]);
      LostSplits(t, g, n, now, events, row);
      if row in AllLost(next, AllCalls(g, n, events[1..])) {
        EventGoesOn(t, g, n, now, event);
        HappenIsSound(t, g, n, event);
        RetentionSurvives(next, g, n, event.at, events[1..], row);
        LaterIsOld(t, g, n, now, events, row);
      } else {
        LostIsOld(t, g, n, event.at, row);
        NowIsOld(t, g, n, now, events, row);
      }
    }
  }

  lemma FirstNow(t: Table, g: Granularity, n: nat, events: seq<Event>, row: Row)
    requires InFirst(t, row)
    ensures EverInFirst(t, g, n, events, row)
  {
    hide InFirst;
    assert Play(t, g, n, events[..0]) == t;
  }

  lemma NothingLost(t: Table, g: Granularity, n: nat)
    ensures AllSupported(AllCalls(g, n, [])) && AllLost(t, AllCalls(g, n, [])) == multiset{}
  {
  }

  /** What holds of the script's nightly runs with arrivals between them: every table stays sound, the
      rows are those there at first and those arrived without the dropped ones, and of these the ones
      that were in checked partitions are all older than the retention. */
  lemma NightlyRuns(t: Table, g: Granularity, n: nat, now: Instant, events: seq<Event>)
    requires Sound(t) && n > 0 && Windowed(t, g, 0, Current(g, now) + n) && Ordered(g, n, now, events)
    ensures Sound(Play(t, g, n, events))
    ensures AllSupported(AllCalls(g, n, events))
    ensures var calls := AllCalls(g, n, events);
      && Contents(Play(t, g, n, events)) + AllLost(t, calls) == Contents(t) + AllGiven(calls)
      && forall row | row in AllLost(t, calls) :: OldOrFirst(t, g, n, now, events, row)
  {
    hide Sound, Windowed, Ordered, PeriodOf, Contents, AllLost, OldOrFirst, Supported;
    var calls := AllCalls(g, n, events);
    PlayIsRun(t, g, n, now, events);
    RunKeepsSound(t, calls);
    NoDeprovision(g, n, events);
    NeverRecapturing(t, calls);
    RunConserves(t, calls);
    forall row | row in AllLost(t, calls)
      ensures OldOrFirst(t, g, n, now, events, row)
    {
      RetentionSurvives(t, g, n, now, events, row);
    }
  }
}
