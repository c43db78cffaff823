# Verified models of the deployment scripts

This project models the parts of the repository that change state over many runs, and proves what
they keep. `dafny verify dfyconfig.toml` checks all of it.

**Time-partitioned tables.** `bootstrap.sql` manages the partitions of Zabbix's PostgreSQL tables and
`zbx_partitions.py` drives it every night. `Calendar`, `Periods`, `Suffixes` and `NameOrder` are the
dates, their printing and parsing, and the order of names; `Clock` ties the clock to POSIX's seconds
since the Epoch; `Identifiers` is how PostgreSQL reads names in statements, which the functions put
together from texts. `Tables` says what each SQL function makes of a table; `Database` is the catalogue
that the functions update, with their loops. `Operations`, `Conservation`, `Soundness`, `Balance` and
`TimeOrder` are about runs of calls, `Routing` and `Lookup` about where rows go and what lookups read,
`Maintenance`, `Bounds`, `Nightly`, `Script` and `Cron` about runs of the script. Time is one fixed zone
without daylight saving, of any offset, in seconds; instants have local years 1000 to 9999. Each call is
atomic, and a call that raises changes nothing. The first partition, made by enabling, has no CHECK on
the clock and is kept apart from the others throughout.

**The restartable install.** `Install` is `headnode.sh` as a machine in which any step may be its
attempt's last: it loses the shell's variables, and a file that was being written may hold anything.
`mv`, `cp`, `vmadm create`, one database entry and the setup file are atomic. `InstallRuns` is about all
sequences of attempts, `InstallEnds` about what an install leaves behind. Both kinds of behaviour of
writing a database entry that exists (keep and overwrite) are covered, and OPNsense may be deployed or
not.

**Manifests.** `Escape` is the encoder of files into manifests with its three layers (awk and sed
escaping, the sed replacement as POSIX defines it, JSON strings as in section 7 of RFC 8259, of which
`JsonStrings` says what they can write), and `SedChain` and `SedOrder` the chain of substitutions that
fills a template.

**Addresses and interfaces.** `Bits` and `Subnet` are the address arithmetic of `prompt-config.sh`;
`Links` and `LinkCycle` its four procedures that bring interfaces up and down, `AdminNic` the address
of the admin network through them.

**Discovery.** `Discovery` has the client's receive loop and the server's turn; `DiscoveryRuns` lets
any number of both run on a network that delays, reorders and loses datagrams, and `DiscoveryReach`
says where datagrams go and that clients can find servers.

**Indentation.** `Indent` is the recursive, in-place pretty printer of Zabbix templates, on objects,
with its meaning on trees.

Where a promise does not hold of the code, the code is modelled as it is, and a theorem says exactly
when it holds:

- Deprovisioning with an insert trigger left in place can lose rows (`RunConserves`,
  `DeprovisionConserves`, `LeftoverTriggerLoses`). The function's comment warns of other triggers, but it
  can leave its own: `CREATE TRIGGER` quotes the name and `DROP TRIGGER` does not, so a name with
  capitals, or with blanks or comments around it, is dropped under another one, which is passed over
  (`OneTriggerConservesExactly`, `CapitalsLose`, `PaddingLoses`). Default names are read as they are
  (`DefaultConserves`).
- A retention of one to three months, at 30 days each, can reach back further than that many months and
  leave one partition more than twice the count (`RetentionReachExactly`, `BoundedExactly`); the
  configured 12 cannot.
- An install interrupted after the certificate is made and before it is copied to its place never
  finishes again: the copying is skipped when the temporary files exist, and configuring the node
  requires the copy (`FinishableUnlessStuck`, `CanGetStuck`).
- The order of a template's substitutions matters on lines such as `@A@B@` and `@@A@@`, even if every
  placeholder occurs once and no value has an @ (`IrrelevantUnlessTangled`). Values with an @, as every
  e-mail address has one, are harmless unless they bring a placeholder's name between two @ signs
  (`ChainFills`, `WildMatters`).
- An ampersand in a file that is put into a manifest turns into the placeholder
  (`ArrivesSubstituted`).
- Two tags that preserve their address on one physical link do not get it back, and VLAN 0 on a
  physical admin link leaves `admin0` behind (`CycleRestoresMacs`, `CycleRestores`,
  `SharedIsNotRestored`); the prompts yield neither (`PromptedRestores`).
- The discovery client clears four bytes of its buffer, the size of a number, where all of it was
  meant, so a short datagram can be completed by an earlier one (`AcceptedExactly`,
  `ShortIsMistaken`).

## Model

| member | source | states |
|---|---|---|
| Periods.PeriodContains | ansible/roles/zabbix-server-partitioning/files/bootstrap.sql:132-133 | a moment lies in exactly one day, month or year: between its start and the start of the next |
| Periods.IntervalShiftsPeriod | ansible/roles/zabbix-server-partitioning/files/bootstrap.sql:132-134 | adding i intervals to any moment, clamped month ends and leap years included, moves on by exactly i periods |
| Periods.TruncStartsPeriod | ansible/roles/zabbix-server-partitioning/files/bootstrap.sql:132-133 | DATE_TRUNC gives the start of the moment's period |
| Periods.IntervalFromStart | ansible/roles/zabbix-server-partitioning/files/bootstrap.sql:391-396 | one interval after the start of a period is the start of the next |
| Periods.IntervalClamps | ansible/roles/zabbix-server-partitioning/files/bootstrap.sql:132-134 | a step of months or years keeps the time of day and the day of the month, or takes the last day of a shorter month |
| Clock.InstantIsPosix | ansible/roles/zabbix-server-partitioning/files/bootstrap.sql:81-82 | every second of every date from 1970 on is the instant that the formula of section 4.16 of POSIX.1-2017 gives it in the zone |
| Clock.RouteIsPosix | ansible/roles/zabbix-server-partitioning/files/bootstrap.sql:81-86 | so a row whose clock POSIX gives to a date is routed under the year, month and day of that date |
| Clock.CheckIsPosix | ansible/roles/zabbix-server-partitioning/files/bootstrap.sql:132-154 | and the CHECK of the period of a date begins with the first second of the period's first date |
| Clock.NamesOfOneDay | ansible/roles/zabbix-server-partitioning/files/bootstrap.sql:350-357 | the names that the comments use as examples, and the default trigger's name |
| Suffixes.ToCharNamesPeriod | ansible/roles/zabbix-server-partitioning/files/bootstrap.sql:81-82 | the printed suffix of a moment depends on its period only |
| Suffixes.ParseOfPrinted | ansible/roles/zabbix-server-partitioning/files/bootstrap.sql:384-399 | for every table name, format and four-digit year exactly one of the three patterns matches a generated name, and the bound read off it is the start of the next period |
| NameOrder.NameDetermines | ansible/roles/zabbix-server-partitioning/files/bootstrap.sql:134 | a generated name belongs to one table, one granularity and one period |
| NameOrder.NameOrderIsTimeOrder | ansible/roles/zabbix-server-partitioning/files/bootstrap.sql:248-250 | within one granularity names sort in the order of time, both directions |
| NameOrder.SortedUnique | ansible/roles/zabbix-server-partitioning/files/bootstrap.sql:35 | there is one ordered listing of the children |
| NameOrder.ChildIsRead | ansible/roles/zabbix-server-partitioning/files/bootstrap.sql:280-341 | a partition of a table is read as itself wherever a statement names it |
| Soundness.RouterAgreesWithCheck | ansible/roles/zabbix-server-partitioning/files/bootstrap.sql:79-86 | the router names a provisioned partition if and only if granularity and clock CHECK fit, whatever the trigger and the partition were set up with |
| Soundness.CheckIsPeriod | ansible/roles/zabbix-server-partitioning/files/bootstrap.sql:152-154 | the clock CHECK of a period admits the clocks of that period and no others |
| Soundness.ProvisionedTile | ansible/roles/zabbix-server-partitioning/files/bootstrap.sql:130-156 | each partition of a call has the CHECK that follows from its name; together they take the clocks from the first start to the last end, each clock in one period only, so ranges of any calls coincide or are disjoint |
| Database.Listed | ansible/roles/zabbix-server-partitioning/files/bootstrap.sql:22-35 | the names of a set in ascending order |
| Database.Database.constructor | ansible/roles/zabbix-server-partitioning/files/bootstrap.sql:98-100 | tables without partitions, under names that statements can use without quotes |
| Database.Database.Insert | ansible/roles/zabbix-server-partitioning/files/bootstrap.sql:68-95 | the row goes to the child of the first trigger, in name order, whose child exists and admits it, and otherwise to the parent |
| Database.NextPartition | ansible/roles/zabbix-server-partitioning/files/bootstrap.sql:130-137 | what a turn of the loop computes from NOW() is the next period's name and CHECK, and an existing child is left as it is |
| Database.Database.Provision | ansible/roles/zabbix-server-partitioning/files/bootstrap.sql:109-158 | count partitions from the period of NOW() on, for the table that the text names, capitals and blanks before it aside; an unsupported period, a missing table or a text that cannot be a name raises and changes nothing |
| Database.Database.CreatePartitions | ansible/roles/zabbix-server-partitioning/files/bootstrap.sql:130-156 | the loop adds exactly the missing partitions |
| Database.Database.CreateMissing | ansible/roles/zabbix-server-partitioning/files/bootstrap.sql:137-155 | an existing child is not touched |
| Database.Database.Enable | ansible/roles/zabbix-server-partitioning/files/bootstrap.sql:172-234 | the trigger is replaced under exactly the name given, or the default one |
| Database.Database.EnableTable | ansible/roles/zabbix-server-partitioning/files/bootstrap.sql:197-230 | the parent's rows move to a new first partition, or the call raises when today's partition is missing or the first one exists |
| Database.Database.Constrain | ansible/roles/zabbix-server-partitioning/files/bootstrap.sql:319-345 | the child of that name, whatever its table, gets a CHECK on the column with the least and greatest value there; without a value, a child or a readable name the call fails and changes nothing |
| Database.SoundHaveOneOwner | ansible/roles/zabbix-server-partitioning/files/bootstrap.sql:134 | children of different tables have different names in every reachable state |
| Database.Database.DropOld | ansible/roles/zabbix-server-partitioning/files/bootstrap.sql:366-413 | drops the expired children, or none at all when some name has no date suffix |
| Database.Database.Deprovision | ansible/roles/zabbix-server-partitioning/files/bootstrap.sql:259-302 | the trigger that the text names, blanks, comments and capitals aside, goes, or the call raises if it names none; the children's rows are inserted into the parent child by child in name order, through any trigger that is left; a table's name with blanks or capitals finds no child |
| Database.Database.DropTrigger | ansible/roles/zabbix-server-partitioning/files/bootstrap.sql:273-278 | a trigger that is not there is passed over |
| Database.Database.CopyAllBack | ansible/roles/zabbix-server-partitioning/files/bootstrap.sql:280-297 | the loop over the children listed |
| Database.Database.CopyOut | ansible/roles/zabbix-server-partitioning/files/bootstrap.sql:288-293 | one child's rows are inserted and the child is dropped |
| Tables.MinMax | ansible/roles/zabbix-server-partitioning/files/bootstrap.sql:331-332 | both bounds are values of the column and all values lie between them |
| Tables.ProvisionedStep | ansible/roles/zabbix-server-partitioning/files/bootstrap.sql:137-155 | one turn of the provisioning loop |
| Balance.RunConserves | ansible/roles/zabbix-server-partitioning/files/bootstrap.sql:68-413 | over every run of inserts, provision, enable, constrain, drop-old and deprovision, with triggers of any names, the rows in the parent and the children plus those dropped are the rows at first plus those inserted if and only if no deprovision call copies a row that a trigger it leaves routes back; otherwise there are fewer |
| Balance.OneTriggerConservesExactly | ansible/roles/zabbix-server-partitioning/files/bootstrap.sql:209-213 | with one trigger name throughout, all runs keep all rows that are not dropped if and only if DROP TRIGGER reads the text as the name that CREATE TRIGGER was given, or fails; the text must not go on with the statement itself |
| Balance.OneTriggerConserves | ansible/roles/zabbix-server-partitioning/files/bootstrap.sql:68-413 | the balance of a run with one trigger name that DROP TRIGGER finds |
| Balance.UndroppableLoses | ansible/roles/zabbix-server-partitioning/files/bootstrap.sql:272-278 | under any other name a table that is enabled, gets a row and is deprovisioned loses the row |
| Balance.CapitalsLose | ansible/roles/zabbix-server-partitioning/files/bootstrap.sql:275 | for example under History_Insert, which is dropped as history_insert |
| Balance.PaddingLoses | ansible/roles/zabbix-server-partitioning/files/bootstrap.sql:275 | and under any plain name with blanks or comments before or after it, which CREATE TRIGGER keeps |
| Balance.BlankLoses | ansible/roles/zabbix-server-partitioning/files/bootstrap.sql:275 | for example under the default name of history with a blank after it |
| Balance.DefaultConserves | ansible/roles/zabbix-server-partitioning/files/bootstrap.sql:192-195 | under the default name all runs keep all rows that are not dropped |
| Balance.DefaultIsDroppable | ansible/roles/zabbix-server-partitioning/files/bootstrap.sql:268-271 | a table's default trigger name is always read as itself |
| Balance.CallConserves | ansible/roles/zabbix-server-partitioning/files/bootstrap.sql:68-413 | one call of any of the functions keeps every row that it does not drop if and only if it is not such a deprovision call |
| Identifiers.AloneIsSelf | ansible/roles/zabbix-server-partitioning/files/bootstrap.sql:275 | a text is read as the same name if and only if it is a plain identifier without capitals and no key word |
| Identifiers.PlainIsRead | ansible/roles/zabbix-server-partitioning/files/bootstrap.sql:130-156 | how a plain identifier is read in each of the places where the functions put one |
| Identifiers.AlonePadded | ansible/roles/zabbix-server-partitioning/files/bootstrap.sql:275 | blanks and closed comments around a name do not belong to it |
| Identifiers.QuotedIsRead | ansible/roles/zabbix-server-partitioning/files/bootstrap.sql:210-213 | a name that QUOTE_IDENT has put in quotes is read as it is, whatever its characters |
| Identifiers.TableIsRead | ansible/roles/zabbix-server-partitioning/files/bootstrap.sql:139-154 | a table's own name is read as itself |
| Conservation.DeprovisionConserves | ansible/roles/zabbix-server-partitioning/files/bootstrap.sql:280-297 | copying the children back keeps every row if and only if no trigger left in place puts a copied row into a child that is still to be dropped; then the parent ends with the children's rows in name order and no child is left |
| Conservation.LeftoverTriggerLoses | ansible/roles/zabbix-server-partitioning/files/bootstrap.sql:241-242 | another trigger than the dropped one loses the row of a one-row table |
| Conservation.DroppingLoses | ansible/roles/zabbix-server-partitioning/files/bootstrap.sql:366-413 | drop-old loses exactly the rows of the partitions that it drops |
| Conservation.EnablingKeeps | ansible/roles/zabbix-server-partitioning/files/bootstrap.sql:215-230 | moving the parent's rows to the first partition neither loses nor duplicates one |
| Soundness.RunKeepsSound | ansible/roles/zabbix-server-partitioning/files/bootstrap.sql:68-413 | in every reachable table each child is named after a period, holds only rows its CHECKs admit, and, unless it is the first partition, only clocks of that period |
| Lookup.PrunedLookup | ansible/roles/zabbix-server-partitioning/files/bootstrap.sql:304-345 | after any run, constraining included, a lookup that skips the children whose recorded range excludes the key finds the same rows in the same order |
| Lookup.ScanIsAll | ansible/roles/zabbix-server-partitioning/files/bootstrap.sql:304-317 | a lookup finds every row with the key, as often as it is stored, and no other |
| Lookup.AcceptedExactly | ansible/roles/zabbix-server-partitioning/files/bootstrap.sql:319-336 | constraining succeeds if and only if the child exists and a row of it has a value in the column |
| Lookup.ConstrainedExactly | ansible/roles/zabbix-server-partitioning/files/bootstrap.sql:331-341 | the child then takes a row if and only if its CHECKs on other columns pass and the value is NULL or within those stored; lookups skip it for exactly the other keys; rows, other CHECKs and other children stay |
| Lookup.RejectedGoesToParent | ansible/roles/zabbix-server-partitioning/files/bootstrap.sql:68-95 | a later row that the new range rejects goes to the parent, unless another trigger's child takes it |
| Routing.DestinationIsFirst | ansible/roles/zabbix-server-partitioning/files/bootstrap.sql:68-95 | a row goes to the child of the first trigger by name whose child exists and takes it, and to the parent if there is none |
| Routing.EnabledRoutes | ansible/roles/zabbix-server-partitioning/files/bootstrap.sql:197-213 | enabling lets rows of the current period into its partition, unless a CHECK rejects them |
| Routing.EnablingKeepsTakers | ansible/roles/zabbix-server-partitioning/files/bootstrap.sql:209-213 | and triggers of other names go on taking what they took |
| Soundness.ConstrainedIsSound | ansible/roles/zabbix-server-partitioning/files/bootstrap.sql:331-341 | the new CHECK admits the rows there, and on the clock column stays within the old one |
| Soundness.DropsExactlyExpired | ansible/roles/zabbix-server-partitioning/files/bootstrap.sql:366-413 | drop-old never raises on a reachable table, drops exactly the partitions whose period ended by NOW() and by the cutoff, and takes no row of the cutoff's moment or later from a checked partition |
| Soundness.DeprovisionInTimeOrder | ansible/roles/zabbix-server-partitioning/files/bootstrap.sql:248-302 | a table of one granularity, with no trigger but the one that DROP TRIGGER takes, gets its checked partitions' rows back in time order, none is lost or duplicated, and no child is left |
| TimeOrder.RunIsRestored | ansible/roles/zabbix-server-partitioning/files/bootstrap.sql:248-302 | after every run that uses one kind of period and one trigger that DROP TRIGGER finds, deprovisioning gives all rows back, the checked partitions' in time order, and leaves no child and no trigger |
| TimeOrder.NightsAreRestored | ansible/roles/zabbix-server-partitioning/templates/zbx_partitions.py.j2:66-81 | in particular after initialization and any number of nights with arrivals in between |
| TimeOrder.RunKeepsNames | ansible/roles/zabbix-server-partitioning/files/bootstrap.sql:134 | such a run names all children after periods of that kind |
| Maintenance.RetentionReachExactly | ansible/roles/zabbix-server-partitioning/templates/zbx_partitions.py.j2:50-60 | the retention in days reaches back at most count periods, at every moment, if and only if it is not one to three months (30 days each) |
| Maintenance.FewMonthsFallShort | ansible/roles/zabbix-server-partitioning/templates/zbx_partitions.py.j2:50-53 | one to three months from February 2001 on are shorter than 30 days each |
| Maintenance.DaysAreGreatest | ansible/roles/zabbix-server-partitioning/templates/zbx_partitions.py.j2:50-53 | with one day more for a period four of them would not do either |
| Maintenance.MaintainedWindow | ansible/roles/zabbix-server-partitioning/templates/zbx_partitions.py.j2:66-79 | after a run the partitions are those of at most count periods back, one more for one to three months, and count ahead |
| Maintenance.PartitionsAreBounded | ansible/roles/zabbix-server-partitioning/templates/zbx_partitions.py.j2:66-81 | over every run of events with nondecreasing time, after each maintenance there are at most 2 * count partitions, and one more with one to three months |
| Bounds.BoundedExactly | ansible/roles/zabbix-server-partitioning/templates/zbx_partitions.py.j2:66-81 | 2 * count is a bound for all runs if and only if count is not one to three months |
| Bounds.FewMonthsExceed | ansible/roles/zabbix-server-partitioning/templates/zbx_partitions.py.j2:50-53 | with one to three months, monthly runs from 1 January 2001 on leave 2 * count + 1 partitions on a table that had none |
| Script.ConfiguredBounds | ansible/roles/zabbix-server-partitioning/templates/zbx_partitions.py.j2:16-24 | 14 daily or 24 monthly partitions with the configured counts |
| Maintenance.InitializedCovers | ansible/roles/zabbix-server-partitioning/templates/zbx_partitions.py.j2:66-73 | initialization empties the parent into the first partition and opens count periods |
| Maintenance.ParentStaysEmpty | ansible/roles/zabbix-server-partitioning/templates/zbx_partitions.py.j2:66-81 | if every run comes before the end of what the one before provisioned, and rows arrive in the period of their clock, then at every point of the events the parent is empty and the next row goes to its period's child |
| Nightly.PlayIsRun | ansible/roles/zabbix-server-partitioning/templates/zbx_partitions.py.j2:66-79 | the script's runs with arrivals in between are a run of calls of the SQL functions |
| Nightly.NightlyRuns | ansible/roles/zabbix-server-partitioning/templates/zbx_partitions.py.j2:66-81 | so over any number of nights the table stays sound and its rows balance, and every row lost is older than the last cutoff or was in a first partition |
| Nightly.RetentionSurvives | ansible/roles/zabbix-server-partitioning/templates/zbx_partitions.py.j2:75-79 | rows within the retention survive all runs, but for those of a first partition |
| Maintenance.RunKeepsCover | ansible/roles/zabbix-server-partitioning/templates/zbx_partitions.py.j2:66-81 | a maintenance run drops no partition of the current period or a later one and leaves count periods open |
| Script.ProvisionAll | ansible/roles/zabbix-server-partitioning/templates/zbx_partitions.py.j2:66-68 | the first loop, whatever the order of the tables |
| Script.FinishAll | ansible/roles/zabbix-server-partitioning/templates/zbx_partitions.py.j2:70-79 | the second loop |
| Script.RunScript | ansible/roles/zabbix-server-partitioning/templates/zbx_partitions.py.j2:63-83 | every configured table takes its whole share, or nothing is committed; other tables are not touched |
| Script.ScriptShare | ansible/roles/zabbix-server-partitioning/templates/zbx_partitions.py.j2:66-79 | a table's share is one initialization or one maintenance run |
| Script.ConfiguredNames | ansible/roles/zabbix-server-partitioning/templates/zbx_partitions.py.j2:16-24 | the configured tables, which statements read as they are written |
| Cron.RunNight | ansible/roles/zabbix-server-partitioning/templates/zbx_partitions.py.j2:63-83 | one night: every configured table takes its share, and no run fails on tables as earlier runs leave them |
| Cron.RunArrival | ansible/roles/zabbix-server-partitioning/files/bootstrap.sql:68-95 | a row that arrives between two nights |
| Cron.RunNights | ansible/roles/zabbix-server-partitioning/templates/zbx_partitions.py.j2:63-83 | nights and arrivals on the whole database, in any order in time: each configured table's state is what its own events make of it, other tables only get their rows |
| Cron.NightsKeep | ansible/roles/zabbix-server-partitioning/templates/zbx_partitions.py.j2:63-83 | each configured table is then sound, balanced and bounded, and has lost only rows older than the retention or of a first partition |
| Install.StepIsSafe | ansible/templates/usb/scripts/headnode.sh.j2:879-930 | every step, and every way an attempt can break off in it, keeps what has been handed out equal to what the temporary files hold, until the setup file exists |
| Install.PasswordStepIsBacked | ansible/templates/usb/scripts/headnode.sh.j2:770-796 | get_password returns only values that the store holds |
| Install.MergedKeeps | ansible/templates/usb/scripts/headnode.sh.j2:786-791 | merging one new password leaves every other one as it was |
| Install.CertStepIsBacked | ansible/templates/usb/scripts/headnode.sh.j2:133-172 | certificate and key are handed out together or not at all |
| Install.LateStepIsSettled | ansible/templates/usb/scripts/headnode.sh.j2:174-183 | the clean-up begins only after the setup file exists, when nothing more is handed out |
| Install.CrashIsBacked | ansible/templates/usb/scripts/headnode.sh.j2:770-933 | an attempt that breaks off, a half-written file included, loses nothing that has been handed out |
| InstallRuns.InstallAgrees | ansible/templates/usb/scripts/headnode.sh.j2:879-930 | after every sequence of attempts broken off anywhere all places agree; once the setup file exists, the node, every virtual machine and the configuration database have all of their secrets, with one value each |
| InstallRuns.StepIsComplete | ansible/templates/usb/scripts/headnode.sh.j2:424-546 | no virtual machine is created and no entry written with a secret missing |
| InstallRuns.RunRemembers | ansible/templates/usb/scripts/headnode.sh.j2:770-796 | what get_password has returned for a name once it returns in every later call of any attempt |
| InstallRuns.StepGains | ansible/templates/usb/scripts/headnode.sh.j2:770-796 | until the setup file exists the temporary files never lose a secret |
| InstallRuns.ResetDiscardsNothing | ansible/templates/usb/scripts/headnode.sh.j2:780-784 | in every reachable state with a store that is not JSON no password has been told to anyone |
| InstallRuns.FinishableUnlessStuck | ansible/templates/usb/scripts/headnode.sh.j2:133-188 | between attempts the install can still be finished if and only if it is not the case that both temporary certificate files are there and the installed certificate is not |
| InstallRuns.AttemptFinishes | ansible/templates/usb/scripts/headnode.sh.j2:879-930 | an uninterrupted attempt that is not stuck reaches the setup file |
| InstallEnds.AttemptEnds | ansible/templates/usb/scripts/headnode.sh.j2:879-930 | and then ends with store, certificate and key deleted from the temporary files |
| InstallEnds.FilesAreGone | ansible/templates/usb/scripts/headnode.sh.j2:174-183 | over all runs, once the setup file exists and no attempt is running, no secret is left in a temporary file, unless an attempt broke off after it had written the setup file |
| InstallEnds.SecretsAreInPlace | ansible/templates/usb/scripts/headnode.sh.j2:424-546 | once the setup file exists one value of each secret, not an empty one, is in every place that is to have it and in no other, listed by place and name |
| InstallEnds.RunGrows | ansible/templates/usb/scripts/headnode.sh.j2:424-546 | no attempt changes a virtual machine that exists, or makes one or writes an entry that is not meant |
| InstallRuns.StaysHalted | ansible/templates/usb/scripts/headnode.sh.j2:133-188 | once stuck, every attempt fails |
| InstallRuns.CanGetStuck | ansible/templates/usb/scripts/headnode.sh.j2:154-168 | one interruption between making the certificate and copying it is enough |
| Escape.ReplacementEach | ansible/templates/usb/scripts/headnode.sh.j2:126-131 | escaping record by record does the same to every character of the text with its last line ended |
| Escape.ArrivesUnchanged | ansible/templates/usb/scripts/headnode.sh.j2:126-131 | for every text, escaping, sed's replacement and JSON decoding give the text with its last line ended if and only if it has no backslash, ampersand, vertical bar or control character other than newline, and no quote unless quotes are escaped |
| Escape.ArrivesSubstituted | ansible/templates/usb/scripts/headnode.sh.j2:402-416 | exactly what becomes of any text without backslashes: the placeholder for each ampersand, or a refused manifest |
| Escape.RestoredHasNoSlash | ansible/templates/usb/scripts/headnode.sh.j2:126-131 | no text with a backslash arrives as it was |
| JsonStrings.DecodesExactly | ansible/templates/usb/scripts/headnode.sh.j2:402-416 | the JSON layer: a string stands for a text if and only if it writes each of its characters in one of the ways of section 7 of RFC 8259 |
| JsonStrings.GuardedIsItself | ansible/templates/usb/scripts/headnode.sh.j2:402-416 | the sed layer: with a backslash before backslashes, ampersands and bars, and newlines as \n, every text would be put in as it is |
| SedChain.SubstituteFuses | ansible/templates/usb/scripts/headnode.sh.j2:271-350 | a substitution of the leftmost placeholder in the text is one among the pieces between its @ signs |
| SedChain.OnlyTheFirst | ansible/templates/usb/scripts/headnode.sh.j2:271-350 | a command of the script replaces the first match only |
| SedChain.ChainFills | ansible/templates/usb/scripts/headnode.sh.j2:271-350 | on a line whose placeholders are not tangled, a chain equals filling in all placeholders at once; a value may have an @ if its own pieces, joined to their neighbours on that line, form no name, and of options that are not on the line nothing is asked but that sed accepts them |
| SedChain.OrderIrrelevant | ansible/templates/usb/scripts/headnode.sh.j2:271-350 | so any two orders of the same options give the same line |
| SedChain.FusedFill | ansible/templates/usb/scripts/headnode.sh.j2:271-350 | a further placeholder, substituted after others have been filled in, is filled in as if at once with them |
| SedOrder.IrrelevantUnlessTangled | ansible/templates/usb/scripts/headnode.sh.j2:271-350 | with each placeholder at most once on the line, the order is irrelevant for all pairs of options, with values that may have an @ but no name among their pieces, if and only if no two placeholders share an @ and none stands between two bare @ signs |
| SedOrder.WildMatters | ansible/templates/usb/scripts/headnode.sh.j2:271-350 | a value with another placeholder's name among its pieces, whatever the others are, makes the order matter on some line where nothing is tangled |
| SedOrder.AddressIsTame | ansible/templates/usb/scripts/headnode.sh.j2:331 | e-mail addresses whose sides do not look like names are such values |
| SedOrder.DefaultSenderIsTame | ansible/templates/usb/scripts/headnode.sh.j2:892 | the default sender is one |
| SedOrder.OrderMatters | ansible/templates/usb/scripts/headnode.sh.j2:271-350 | on every other line two options whose order matters |
| Subnet.Prompt.IpToNum | ansible/templates/usb/scripts/prompt-config.sh.j2:148-162 | the number of an address |
| Subnet.Prompt.NumToIp | ansible/templates/usb/scripts/prompt-config.sh.j2:164-177 | the address with that number |
| Subnet.NumberDetermines | ansible/templates/usb/scripts/prompt-config.sh.j2:148-177 | only one address has a number, so the two conversions undo each other |
| Subnet.NumberOrders | ansible/templates/usb/scripts/prompt-config.sh.j2:148-177 | numbers order as the fields do, and the next number is the next address |
| Subnet.Prompt.IpNetmaskToNetwork | ansible/templates/usb/scripts/prompt-config.sh.j2:204-217 | the globals that it sets |
| Subnet.BlockEnds | ansible/templates/usb/scripts/prompt-config.sh.j2:204-217 | with a contiguous mask (section 3.1 of RFC 4632) network and broadcast are the ends of the aligned block of the address |
| Subnet.Prompt.IpFromSubnet | ansible/templates/usb/scripts/prompt-config.sh.j2:220-241 | true for "none"; otherwise, with a contiguous mask, if and only if the address is in the block and is neither end |
| Subnet.Prompt.CalcExtDefaultRange | ansible/templates/usb/scripts/prompt-config.sh.j2:289-330 | the range that it offers |
| Subnet.WidestIsLongest | ansible/templates/usb/scripts/prompt-config.sh.j2:285-330 | for two host addresses, equal ones included, the range avoids both and the ends of the block, and no other such range is longer |
| Bits.AndHighOnes | ansible/templates/usb/scripts/prompt-config.sh.j2:212 | & with ones above h zeros takes the remainder by 2^h away |
| Bits.AndLowOnes | ansible/templates/usb/scripts/prompt-config.sh.j2:215 | & with h ones keeps that remainder |
| Links.Prompt.constructor | ansible/templates/usb/scripts/prompt-config.sh.j2:54-74 | the variables at the start |
| Links.Prompt.NicsUp | ansible/templates/usb/scripts/prompt-config.sh.j2:1080-1163 | etherstubs, admin0 and the tags' interfaces, with the addresses that are preserved |
| Links.Prompt.NicsDown | ansible/templates/usb/scripts/prompt-config.sh.j2:1165-1193 | the same undone in the order of the script |
| Links.Prompt.NicsUpOpnsense | ansible/templates/usb/scripts/prompt-config.sh.j2:1195-1255 | OPNsense's interface, which may take over the physical address |
| Links.Prompt.NicsDownOpnsense | ansible/templates/usb/scripts/prompt-config.sh.j2:1257-1273 | and its removal |
| LinkCycle.UpInterfaces | ansible/templates/usb/scripts/prompt-config.sh.j2:1080-1163 | a running node has its etherstubs, admin0, an interface for every tag on the tag's link, and what was there before |
| LinkCycle.OpnsenseUpIs | ansible/templates/usb/scripts/prompt-config.sh.j2:1195-1255 | OPNsense's interface is on the link of its tag, whose own address is replaced only if OPNsense takes it over |
| AdminNic.UpFollows | ansible/templates/usb/scripts/prompt-config.sh.j2:1133-1139 | admin_nic, the address of one physical link, is that link's address after interfaces come up, over any tags, several that preserve on that link included, and stays if none does |
| AdminNic.UpKeeps | ansible/templates/usb/scripts/prompt-config.sh.j2:1133-1139 | admin_nic that is no physical link's stays |
| AdminNic.WrittenIsRenamed | ansible/templates/usb/scripts/prompt-config.sh.j2:2848-2864 | with prompted answers the admin_nic that is written is the address that its link gets when the node starts |
| LinkCycle.CycleRestores | ansible/templates/usb/scripts/prompt-config.sh.j2:1080-1273 | after OPNsense up, up, down, OPNsense down no command has failed, so no etherstub was deleted under an interface, the etherstubs are those of before, and so are the interfaces if and only if there is no VLAN 0 on a physical admin link |
| LinkCycle.CycleRestoresMacs | ansible/templates/usb/scripts/prompt-config.sh.j2:1124-1141 | with new addresses every physical address is restored if and only if no two tags that preserve theirs share a link that OPNsense does not give back |
| LinkCycle.CycleMacs | ansible/templates/usb/scripts/prompt-config.sh.j2:1124-1185 | what each link's address is afterwards in every case |
| LinkCycle.SharedIsNotRestored | ansible/templates/usb/scripts/prompt-config.sh.j2:1080-1273 | a node with both faults: two tags on one link and VLAN 0 |
| LinkCycle.PromptedRestores | ansible/templates/usb/scripts/prompt-config.sh.j2:872-894 | with answers as the prompts yield them everything is restored |
| LinkCycle.AgainIsNothing | ansible/templates/usb/scripts/prompt-config.sh.j2:1082-1197 | a repeated call of any of the four changes nothing |
| Discovery.Client.Store | ansible/files/sources/cfgdb_discovery.c:84-88 | four bytes are cleared, the datagram is copied, the rest of the buffer stays |
| Discovery.Client.Listen | ansible/files/sources/cfgdb_discovery.c:79-105 | the address of the first accepted datagram, after at most six and before a timeout |
| Discovery.AcceptedExactly | ansible/files/sources/cfgdb_discovery.c:84-99 | a datagram of at least 12 bytes is accepted if and only if it begins like a reply; a shorter one exactly when old bytes complete it |
| Discovery.ShortIsMistaken | ansible/files/sources/cfgdb_discovery.c:84-99 | two datagrams, neither beginning like a reply, of which the second is accepted |
| Discovery.FoundIsFirstReply | ansible/files/sources/cfgdb_discovery.c:75-105 | if no datagram is shorter than 12 bytes, the client finds exactly the sender of the first reply within its bound, whatever its buffer held |
| Discovery.ListensToSix | ansible/files/sources/cfgdb_discovery.c:79-82 | that bound is six |
| Discovery.Server.Serve | ansible/roles/esdc-cfgdb/files/cfgdb_disco_server.py:34-42 | a discovery is answered with the kept reply, made on first use; anything else is ignored |
| DiscoveryRuns.StepDescends | ansible/roles/esdc-cfgdb/files/cfgdb_disco_server.py:34-42 | every step of any client or server uses up some of what can still happen; replies cause nothing |
| DiscoveryRuns.RunIsFinite | ansible/files/sources/cfgdb_discovery.c:71-105 | a run of any number of clients and servers on a lossy network has a bounded number of steps |
| DiscoveryRuns.QuietIsDone | ansible/files/sources/cfgdb_discovery.c:75-110 | and where it stops nothing is on its way and every client has ended |
| DiscoveryRuns.OneReplyEach | ansible/roles/esdc-cfgdb/files/cfgdb_disco_server.py:34-42 | over a run each server sends exactly one datagram per discovery that it takes |
| DiscoveryReach.BroadcastReaches | ansible/files/sources/cfgdb_discovery.c:71-75 | a broadcast is one discovery for each host |
| DiscoveryReach.TakeServes | ansible/roles/esdc-cfgdb/files/cfgdb_disco_server.py:34-42 | the machine's server step sends what the server's turn sends, to the host that asked |
| DiscoveryReach.RepliesGoToAskers | ansible/roles/esdc-cfgdb/files/cfgdb_disco_server.py:42 | over all runs every reply is on its way to a host that has sent a discovery |
| DiscoveryReach.ClientCanFind | ansible/files/sources/cfgdb_discovery.c:71-105 | from any state a client that has not started can end with the address of any server |
| DiscoveryRuns.ReplyIsKept | ansible/roles/esdc-cfgdb/files/cfgdb_disco_server.py:38-42 | a server's first reply is what it sends ever after |
| DiscoveryRuns.PrintedIsServer | ansible/files/sources/cfgdb_discovery.c:98-104 | if only servers send what begins like a reply and nothing is shorter than that, every printed address is a server's |
| DiscoveryRuns.HearingFinds | ansible/files/sources/cfgdb_discovery.c:82-105 | the machine's steps come to what the receive loop returns |
| Indent.Element.Indent | ansible/roles/esdc-mon/library/zabbix_template.py:102-119 | the tree in place becomes the indented one |
| Indent.Element.IndentChildren | ansible/roles/esdc-mon/library/zabbix_template.py:113-114 | the loop over the children |
| Indent.Element.RefillLast | ansible/roles/esdc-mon/library/zabbix_template.py:115-116 | the loop variable, now the last child, gets its tail again |
| Indent.Element.constructor | ansible/roles/esdc-mon/library/zabbix_template.py:102 | an element over disjoint subtrees |
| Indent.IndentedIsPretty | ansible/roles/esdc-mon/library/zabbix_template.py:102-119 | the same as one pass in which each tail is indented by its depth, or by one less for a last child |
| Indent.IndentKeepsMeaning | ansible/roles/esdc-mon/library/zabbix_template.py:102-119 | shape, all text and tails that are not blank and the texts of leaves are kept, and a second time changes nothing |
| Indent.IndentIsNormalForm | ansible/roles/esdc-mon/library/zabbix_template.py:102-119 | two trees are indented alike if and only if they differ in blank text only; a root without children at level 0 stays as it is, and is indented like no other tree |
| Indent.LineIs | ansible/roles/esdc-mon/library/zabbix_template.py:107-108 | a line break and two blanks for each level |
| Indent.TwoLeaves | ansible/roles/esdc-mon/library/zabbix_template.py:107-119 | an element with two leaves, for example |
| Indent.VisibleIsNoSpace | ansible/roles/esdc-mon/library/zabbix_template.py:109-112 | text with a visible character is not blank |

## Left out

- Zones with daylight saving, 32-bit overflow of the CHECK bounds, and years outside 1000 to 9999.
- Several schemas, truncation of long identifiers, and relations with a partition's name that are not
  children of the table.
- Unique indexes, which children copy from the parent: an insert that one of them rejects also goes
  back to the parent, as after a failing CHECK.
- The planner: pruning is skipping a child whose recorded range excludes the key.
- Tables whose own names need quotes: statements that name a table without quotes cannot reach them.
- Texts for a name that go on with the statement (`x ON public.history; --`), leave a quote or a comment
  open in it, or are written with U&: what they do depends on more than the name. The reading `Other`
  says which they are, and a call with one is not `Supported`, or not allowed by the method.
- Folding of capitals beyond ASCII in single-byte encodings: such capitals stay.
- An invalid period name raises in get_days as it does in zbx_time_format_by before that; one error
  path stands for both.
- The text format of the script's cutoff and the database connection.
- The OPNsense API key and secret, which are new in every attempt.
- Waiting for the deployment of a virtual machine, services and images: an attempt may break off at
  every step instead.
- A failing `json --merge` (a full disk), and a password generator that fails: passwords that are
  generated are not empty. Any other value may be generated, and the same value more than once.
- SSH keys, images and the other entries of the configuration database, which hold no generated secret.
- The flags of a sed command that a vertical bar in a value would start, and surrogate pairs in JSON.
- The custom filters and the template language that make config.xml before it is escaped.
- The text of dotted addresses: an address is its four fields. Masks that are not contiguous have only
  the general definitions of Network and Broadcast.
- Subnet.Prompt.CalcExtDefaultRange: is called nowhere in the script; for addresses that are not hosts
  of the subnet only its result is stated.
- IP addresses, routes, DHCP and plumbing of interfaces; tags placed on etherstubs; changed answers
  between bringing interfaces up and down.
- The VLAN and the address of a virtual interface, of which only name and link are kept. The order of a
  shell's associative array is any order, the same going up and down.
- LinkCycle.CycleRestores: asks that the names the procedures make are free before, as a fresh boot
  leaves them.
- The cdr2mask and mask2cdr tables, prompts, pager and command wrappers: no property beyond one body.
- The contents of the datacenter name in a discovery reply, which the server obtains by a command, and
  errors of sockets, which end the programs.
- The XML parser: a tree is its elements with text and tails.
