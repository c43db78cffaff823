/** How installs end: with every secret in its place, and with the temporary files gone. */
module InstallEnds {
  import opened Options
  import opened Install
  import opened InstallRuns

  /** The temporary files are deleted. */
  predicate Gone(d: Disk) {
    d.store.Absent? && d.certTmp.None? && d.keyTmp.None?
  }

  /** And the one that a password is written to before it is moved is not there either. */
  predicate Cleared(d: Disk) {
    Gone(d) && d.storeTmp.Absent?
  }

  /** The passwords that the attempt has yet to ask for, from this one on. */
  function NextPassword(pc: Pc): nat {
    if pc.Idle? then 0 else if InPasswords(pc) then pc.i else |Passwords()|
  }

  predicate Missing(d: Disk, from: nat) {
    exists i :: from <= i < |Passwords()| && Passwords()[i] !in KeptPasswords(d.store)
  }

  /** A half-written store is only there while a password is missing, which will write it anew. */
  predicate Pending(s: State) {
    !s.disk.storeTmp.Absent? ==> s.pc.Move? || (!s.disk.setup && Missing(s.disk, NextPassword(s.pc)))
  }

  lemma PasswordStepIsPending(s: State, made: string)
    requires Placed(s) && Ready(s) && InPasswords(s.pc) && !s.disk.setup && Pending(s)
    ensures Pending(PasswordStep(s, made))
  {
    hide Passwords, KeptCerts, KeptPasswords, Within;
    PasswordsKept(s.disk, Passwords()[s.pc.i]);
    if s.pc.Touch? || (s.pc.Read? && !s.disk.store.Json?) {
      NothingKept(s.disk);
      NothingKept(PasswordStep(s, made).disk);
    }
  }

  lemma CertStepIsPending(s: State, made: string)
    requires Placed(s) && InCerts(s.pc) && Pending(s)
    ensures Pending(CertStep(s, made))
  {
    hide Passwords, LocalNeeds, Chosen, KeptPasswords;
  }

  lemma LateStepIsPending(s: State, deploy: bool, keeps: bool)
    requires Placed(s) && InLate(s.pc) && Pending(s)
    ensures Pending(LateStep(s, deploy, keeps))
  {
    hide Passwords, Vms, CfgdbNeeds, Needs, Chosen, KeptPasswords;
  }

  lemma StepIsPending(s: State, action: Action, deploy: bool, keeps: bool)
    requires Safe(s) && Placed(s) && Pending(s)
    ensures Pending(Step(s, action, deploy, keeps))
  {
    hide Backed, PasswordStep, CertStep, LateStep, Ready, Pending;
    if action.Crash? {
      CrashIsPending(s, action, deploy, keeps);
    } else if InPasswords(s.pc) {
      PasswordStepIsPending(s, action.made);
    } else if InCerts(s.pc) {
      CertStepIsPending(s, action.made);
    } else if InLate(s.pc) {
      LateStepIsPending(s, deploy, keeps);
    } else {
      StartIsPending(s);
    }
  }

  lemma StartIsPending(s: State)
    requires s.pc.Idle? && Pending(s)
    ensures !s.disk.setup ==> Pending(State(s.disk, Read(0), map[]))
  {
    hide Passwords, KeptPasswords;
  }

  lemma CrashIsPending(s: State, action: Action, deploy: bool, keeps: bool)
    requires Placed(s) && Safe(s) && Pending(s) && action.Crash?
    ensures Pending(Step(s, action, deploy, keeps))
  {
    hide Passwords, KeptCerts, KeptPasswords, Within, Agreed, Vms, CfgdbNeeds;
    if InPasswords(s.pc) {
      PasswordsKept(s.disk, Passwords()[s.pc.i]);
    }
  }

  lemma NothingKept(d: Disk)
    requires !d.store.Json?
    ensures KeptPasswords(d.store) == map[]
  {
  }

  /** What the clean-up in hand has deleted. */
  predicate GoneSoFar(s: State) {
    && (s.pc.CleanCert? || s.pc.CleanStore? ==> s.disk.keyTmp.None?)
    && (s.pc.CleanStore? ==> s.disk.certTmp.None?)
  }

  predicate ClearedSoFar(s: State) {
    GoneSoFar(s) && (Cleaning(s.pc) ==> s.disk.storeTmp.Absent?)
  }

  /** The install is over and its temporary files are still there. */
  predicate Left(s: State) {
    s.disk.setup && s.pc.Idle? && !Cleared(s.disk)
  }

  /** Some attempt breaks off between writing the setup file and the end of its clean-up. */
  predicate BrokenOff(s: State, actions: seq<Action>, deploy: bool, keeps: bool)
    requires Placed(s)
    decreases |actions|
  {
    actions != [] &&
    ((actions[0].Crash? && Cleaning(s.pc))
     || BrokenOff(Step(s, actions[0], deploy, keeps), actions[1..], deploy, keeps))
  }

  lemma StepClears(s: State, action: Action, deploy: bool, keeps: bool)
    requires Safe(s) && Placed(s) && Pending(s) && ClearedSoFar(s) && !Left(s)
    ensures var s' := Step(s, action, deploy, keeps);
      ClearedSoFar(s') && (Left(s') ==> action.Crash? && Cleaning(s.pc))
  {
    hide Agreed, Kept, Ready, Passwords, Vms, CfgdbNeeds, Needs, LocalNeeds, Chosen, PasswordStep, CertStep;
    if action.Advance? && InPasswords(s.pc) {
      PasswordStepIsEarly(s, action.made);
    } else if action.Advance? && InCerts(s.pc) {
      CertStepIsEarly(s, action.made);
    } else if action.Advance? && (s.pc.CreateVm? || s.pc.WriteCfgdb?) {
      LateStepIsEarly(s, deploy, keeps);
    }
  }

  lemma {:induction false} LeftIsBrokenOff(s: State, actions: seq<Action>, deploy: bool, keeps: bool)
    requires Safe(s) && Placed(s) && Plausible(s, actions, deploy, keeps)
    requires Pending(s) && ClearedSoFar(s) && !Left(s)
    ensures Left(Play(s, actions, deploy, keeps)) ==> BrokenOff(s, actions, deploy, keeps)
    decreases |actions|
  {
    hide Safe, Placed, Step, Left, ClearedSoFar, Pending, Cleaning;
    if actions != [] {
      var next := Step(s, actions[0], deploy, keeps);
      StepIsSafe(s, actions[0], deploy, keeps);
      StepIsPending(s, actions[0], deploy, keeps);
      StepClears(s, actions[0], deploy, keeps);
      if !Left(next) {
        LeftIsBrokenOff(next, actions[1..], deploy, keeps);
      }
    }
  }

  /** Once the setup file exists and no attempt is running, the temporary files are gone, unless an attempt
      was broken off after it had written that file. */
  lemma FilesAreGone(actions: seq<Action>, deploy: bool, keeps: bool)
    requires Plausible(INITIAL, actions, deploy, keeps) && !BrokenOff(INITIAL, actions, deploy, keeps)
    ensures var s := Play(INITIAL, actions, deploy, keeps); s.disk.setup && s.pc.Idle? ==> Cleared(s.disk)
  {
    hide Play, Plausible, BrokenOff;
    InitialIsSafe();
    LeftIsBrokenOff(INITIAL, actions, deploy, keeps);
  }

  predicate Uninterrupted(actions: seq<Action>) {
    forall i | 0 <= i < |actions| :: actions[i].Advance?
  }

  lemma CleanStepIs(s: State, deploy: bool, keeps: bool)
    requires Placed(s) && Cleaning(s.pc) && GoneSoFar(s) && s.disk.setup
    ensures var next := Step(s, Advance("x"), deploy, keeps);
      && next.disk.setup && GoneSoFar(next) && next.disk.storeTmp == s.disk.storeTmp
      && (s.pc.CleanKey? ==> next.pc.CleanCert?) && (s.pc.CleanCert? ==> next.pc.CleanStore?)
      && (s.pc.CleanStore? ==> next.pc.Idle? && Gone(next.disk))
  {
    hide LateStep, PasswordStep, CertStep, Placed;
    CleanLateStepIs(s, deploy, keeps);
    assert Step(s, Advance("x"), deploy, keeps) == LateStep(s, deploy, keeps);
  }

  lemma CleanLateStepIs(s: State, deploy: bool, keeps: bool)
    requires Placed(s) && Cleaning(s.pc)
    ensures LateStep(s, deploy, keeps) ==
      if s.pc.CleanKey? then s.(disk := s.disk.(keyTmp := None), pc := CleanCert)
      else if s.pc.CleanCert? then s.(disk := s.disk.(certTmp := None), pc := CleanStore)
      else State(s.disk.(store := Absent), Idle, map[])
  {
    hide Vms, CfgdbNeeds, Passwords, Chosen, Needs;
  }

  lemma {:induction false} CleansUp(s: State, deploy: bool, keeps: bool) returns (actions: seq<Action>)
    requires Placed(s) && Cleaning(s.pc) && GoneSoFar(s) && s.disk.setup
    ensures Uninterrupted(actions) && Plausible(s, actions, deploy, keeps)
    ensures var s' := Play(s, actions, deploy, keeps);
      s'.disk.setup && s'.pc.Idle? && Gone(s'.disk) && s'.disk.storeTmp == s.disk.storeTmp
    decreases if s.pc.CleanKey? then 2 else if s.pc.CleanCert? then 1 else 0
  {
    hide Step, Placed, Gone, GoneSoFar;
    CleanStepIs(s, deploy, keeps);
    actions := [Advance("x")];
    if !s.pc.CleanStore? {
      var rest := CleansUp(Step(s, Advance("x"), deploy, keeps), deploy, keeps);
      actions := actions + rest;
      assert actions[1..] == rest;
    }
  }

  /** An attempt that is not stuck, and that nothing interrupts, ends with the setup file and without
      temporary files; Pending holds of all that can be reached. */
  lemma {:induction false} AttemptEnds(s: State, deploy: bool, keeps: bool) returns (actions: seq<Action>)
    requires Underway(s) && Free(s)
    ensures Uninterrupted(actions) && Plausible(s, actions, deploy, keeps)
    ensures var s' := Play(s, actions, deploy, keeps);
      s'.disk.setup && s'.pc.Idle? && Gone(s'.disk) && (Pending(s) ==> Cleared(s'.disk))
    decreases Distance(s.pc)
  {
    hide Ready, Backed, Agreed, Free, Step, Distance, Pending, Gone, GoneSoFar;
    var next, rest := Step(s, Advance("x"), deploy, keeps), [];
    StepIsSafe(s, Advance("x"), deploy, keeps);
    if Pending(s) {
      StepIsPending(s, Advance("x"), deploy, keeps);
    }
    StepAdvances(s, deploy, keeps);
    if next.disk.setup {
      FinishIsNext(s, deploy, keeps);
      rest := CleansUp(next, deploy, keeps);
    } else {
      rest := AttemptEnds(next, deploy, keeps);
    }
    actions := [Advance("x")] + rest;
    assert actions[1..] == rest;
  }

  lemma FinishIsNext(s: State, deploy: bool, keeps: bool)
    requires Underway(s) && Step(s, Advance("x"), deploy, keeps).disk.setup
    ensures var next := Step(s, Advance("x"), deploy, keeps);
      next.pc.CleanKey? && GoneSoFar(next) && (Pending(s) ==> next.disk.storeTmp.Absent?)
  {
    hide Ready, Backed, Passwords, Vms, CfgdbNeeds, PasswordStep, CertStep;
    if InPasswords(s.pc) {
      PasswordStepIsEarly(s, "x");
    } else if InCerts(s.pc) {
      CertStepIsEarly(s, "x");
    } else if s.pc.CreateVm? || s.pc.WriteCfgdb? {
      LateStepIsEarly(s, deploy, keeps);
    }
  }

  /** The place has these secrets with these values and no others, and none is empty. */
  predicate Holds(place: map<string, string>, names: set<string>, truth: map<string, string>) {
    && place.Keys == names
    && forall name | name in names :: name in truth && place[name] == truth[name] && place[name] != ""
  }

  function Machines(deploy: bool): set<string> {
    {"esdc-cfgdb", "esdc-dns", "esdc-img", "esdc-mon", "esdc-mgmt"} + if deploy then {"opnsense"} else {}
  }

  function Entries(): set<string> {
    {"RABBITMQ_PASSWORD", "REDIS_PASSWORD", "PGSQL_ESDC_PASSWORD", "PGSQL_PDNS_PASSWORD",
     "ZABBIX_ADMIN_PASSWORD", "ZABBIX_ESDC_PASSWORD", "SVC_CERT"}
  }

  predicate MachinesHold(vms: map<string, map<string, string>>, truth: map<string, string>, deploy: bool) {
    && vms.Keys == Machines(deploy)
    && Holds(vms["esdc-cfgdb"], {"SVC_CERT", "SVC_KEY"}, truth)
    && Holds(vms["esdc-dns"], {"PGSQL_PDNS_PASSWORD"}, truth)
    && Holds(vms["esdc-img"], {}, truth)
    && Holds(vms["esdc-mon"], {"ZABBIX_ESDC_PASSWORD", "ZABBIX_ADMIN_PASSWORD"}, truth)
    && Holds(vms["esdc-mgmt"], Entries() + {"SVC_KEY", "PGSQL_MGMT_MON_PASSWORD"}, truth)
    && (deploy ==> Holds(vms["opnsense"], {"SVC_CERT", "SVC_KEY"}, truth))
  }

  /** Where the secrets are when an install is over, name by name. */
  predicate InPlace(d: Disk, truth: map<string, string>, deploy: bool) {
    && Holds(d.local, {"RABBITMQ_PASSWORD", "REDIS_PASSWORD"}, truth)
    && Holds(d.cfgdb, Entries(), truth)
    && MachinesHold(d.vms, truth, deploy)
  }

  lemma NeedsAre()
    ensures Needs("esdc-cfgdb") == {"SVC_CERT", "SVC_KEY"} == Needs("opnsense")
    ensures Needs("esdc-dns") == {"PGSQL_PDNS_PASSWORD"} && Needs("esdc-img") == {}
    ensures Needs("esdc-mon") == {"ZABBIX_ESDC_PASSWORD", "ZABBIX_ADMIN_PASSWORD"}
  {
    hide Passwords;
  }

  lemma ManagementNeeds()
    ensures Needs("esdc-mgmt") == Entries() + {"SVC_KEY", "PGSQL_MGMT_MON_PASSWORD"}
  {
    var p := Passwords();
    assert Needs("esdc-mgmt") == {CERT, KEY, p[0], p[1], p[2], p[3], p[4], p[5], p[6]};
  }

  lemma VmHolds(d: Disk, truth: map<string, string>, deploy: bool, vm: string)
    requires Delivered(d, truth, deploy) && vm in d.vms
    ensures Holds(d.vms[vm], Needs(vm), truth)
  {
    hide Needs, Vms, CfgdbNeeds, LocalNeeds, Agreed;
    assert Chosen(truth, Needs(vm)).Keys == Needs(vm);
  }

  lemma VmsAreThere(d: Disk, truth: map<string, string>, deploy: bool)
    requires Delivered(d, truth, deploy)
    ensures Machines(deploy) <= d.vms.Keys
  {
    hide Needs, CfgdbNeeds, LocalNeeds, Agreed;
    var vms := Vms();
    assert vms[0] in d.vms || !deploy;
    assert vms[1] in d.vms && vms[2] in d.vms && vms[3] in d.vms && vms[4] in d.vms && vms[5] in d.vms;
  }

  lemma DatabaseIsFilled(d: Disk, truth: map<string, string>, deploy: bool)
    requires Delivered(d, truth, deploy) && d.cfgdb.Keys <= Entries()
    ensures Holds(d.cfgdb, Entries(), truth)
  {
    hide Needs, Vms, LocalNeeds;
    var names := CfgdbNeeds();
    assert names[0] in d.cfgdb && names[1] in d.cfgdb && names[2] in d.cfgdb && names[3] in d.cfgdb;
    assert names[4] in d.cfgdb && names[5] in d.cfgdb && names[6] in d.cfgdb;
  }

  lemma MachinesAreFilled(d: Disk, truth: map<string, string>, deploy: bool)
    requires Delivered(d, truth, deploy) && d.vms.Keys <= Machines(deploy)
    ensures MachinesHold(d.vms, truth, deploy)
  {
    hide Delivered, Holds, Needs, Entries;
    VmsAreThere(d, truth, deploy);
    NeedsAre();
    ManagementNeeds();
    forall vm | vm in d.vms {
      VmHolds(d, truth, deploy, vm);
    }
  }

  lemma LocalIsFilled(d: Disk, truth: map<string, string>, deploy: bool)
    requires Delivered(d, truth, deploy)
    ensures Holds(d.local, {"RABBITMQ_PASSWORD", "REDIS_PASSWORD"}, truth)
  {
    hide Needs, Vms, CfgdbNeeds, Agreed;
    assert Chosen(truth, LocalNeeds()).Keys == LocalNeeds();
  }

  /** A virtual machine that exists is left as it is, and only what belongs there is added. */
  predicate Grows(d: Disk, d': Disk, deploy: bool) {
    && (forall vm | vm in d.vms :: vm in d'.vms && d'.vms[vm] == d.vms[vm])
    && d.vms.Keys <= d'.vms.Keys <= d.vms.Keys + Machines(deploy)
    && d.cfgdb.Keys <= d'.cfgdb.Keys <= d.cfgdb.Keys + Entries()
  }

  lemma LateStepGrows(s: State, deploy: bool, keeps: bool)
    requires Placed(s) && InLate(s.pc)
    ensures Grows(s.disk, LateStep(s, deploy, keeps).disk, deploy)
  {
    hide Passwords, Needs, Chosen;
    assert s.pc.CreateVm? ==> Vms()[s.pc.j] in Machines(deploy) || (Vms()[s.pc.j] == "opnsense" && !deploy);
    assert s.pc.WriteCfgdb? ==> CfgdbNeeds()[s.pc.k] in Entries();
    hide Vms, CfgdbNeeds, Entries, Machines;
  }

  lemma StepGrows(s: State, action: Action, deploy: bool, keeps: bool)
    requires Placed(s)
    ensures Grows(s.disk, Step(s, action, deploy, keeps).disk, deploy)
  {
    hide Placed, PasswordStep, CertStep, LateStep, Entries, Machines;
    if action.Crash? {
      CrashTouches(s, action.junk, deploy, keeps);
    } else if InPasswords(s.pc) {
      PasswordStepTouches(s, action.made);
    } else if InCerts(s.pc) {
      CertStepTouches(s, action.made);
    } else if InLate(s.pc) {
      LateStepGrows(s, deploy, keeps);
    }
  }

  /** No attempt changes a virtual machine that exists, or makes one or writes an entry that is not meant. */
  lemma {:induction false} RunGrows(s: State, actions: seq<Action>, deploy: bool, keeps: bool)
    requires Placed(s)
    ensures Grows(s.disk, Play(s, actions, deploy, keeps).disk, deploy)
    decreases |actions|
  {
    hide Step, Placed, Entries, Machines;
    if actions != [] {
      StepGrows(s, actions[0], deploy, keeps);
      RunGrows(Step(s, actions[0], deploy, keeps), actions[1..], deploy, keeps);
    }
  }

  lemma DeliveredIsInPlace(d: Disk, truth: map<string, string>, deploy: bool)
    requires Delivered(d, truth, deploy) && Grows(INITIAL.disk, d, deploy)
    ensures InPlace(d, truth, deploy)
  {
    hide Holds, MachinesHold, Entries, Machines, Agreed, Vms, Needs, CfgdbNeeds, LocalNeeds;
    DatabaseIsFilled(d, truth, deploy);
    MachinesAreFilled(d, truth, deploy);
    LocalIsFilled(d, truth, deploy);
  }

  /** Once the setup file exists, one value of every secret, and not an empty one, is in each place that is
      to have it, and in no other. */
  lemma SecretsAreInPlace(actions: seq<Action>, deploy: bool, keeps: bool)
    requires Plausible(INITIAL, actions, deploy, keeps) && Play(INITIAL, actions, deploy, keeps).disk.setup
    ensures exists truth :: InPlace(Play(INITIAL, actions, deploy, keeps).disk, truth, deploy)
  {
    hide Play, Plausible, Delivered, InPlace, Grows;
    InstallAgrees(actions, deploy, keeps);
    RunGrows(INITIAL, actions, deploy, keeps);
    var d := Play(INITIAL, actions, deploy, keeps).disk;
    var truth :| Delivered(d, truth, deploy);
    DeliveredIsInPlace(d, truth, deploy);
  }
}
