/**
 What holds of every sequence of install attempts, wherever each of them breaks off.
 */
module InstallRuns {
  import opened Options
  import opened Install

  function Play(s: State, actions: seq<Action>, deploy: bool, keeps: bool): (s': State)
    requires Placed(s)
    ensures Placed(s')
    decreases |actions|
  {
    if actions == [] then s
    else Play(Step(s, actions[0], deploy, keeps), actions[1..], deploy, keeps)
  }

  /** Passwords are never generated empty. */
  predicate Plausible(s: State, actions: seq<Action>, deploy: bool, keeps: bool)
    requires Placed(s)
    decreases |actions|
  {
    actions != [] ==>
      && Sensible(s, actions[0])
      && Plausible(Step(s, actions[0], deploy, keeps), actions[1..], deploy, keeps)
  }

  lemma {:induction false} PlayIsSafe(s: State, actions: seq<Action>, deploy: bool, keeps: bool)
    requires Safe(s) && Placed(s) && Plausible(s, actions, deploy, keeps)
    ensures Safe(Play(s, actions, deploy, keeps))
    decreases |actions|
  {
    hide Safe, Step;
    if actions != [] {
      StepIsSafe(s, actions[0], deploy, keeps);
      PlayIsSafe(Step(s, actions[0], deploy, keeps), actions[1..], deploy, keeps);
    }
  }

  lemma InitialIsSafe()
    ensures Safe(INITIAL)
  {
  }

  /** Until the setup file exists the temporary files never lose a secret, not even when
      get_password throws away a store that is not JSON. */
  lemma StepGains(s: State, action: Action, deploy: bool, keeps: bool)
    requires Underway(s) && Sensible(s, action)
    ensures Within(Kept(s.disk), Kept(Step(s, action, deploy, keeps).disk))
  {
    hide Agreed, KeptPasswords, KeptCerts, Passwords, Vms, CfgdbNeeds, Chosen, Needs, LocalNeeds;
    var s' := Step(s, action, deploy, keeps);
    if !s.pc.Move? || action.Crash? {
      hide Within;
      if action.Advance? && (s.pc.Read? || s.pc.Touch?) {
        KeptUntouched(s.disk, s'.disk);
      } else {
        CertsKept(s.disk, s'.disk);
      }
    }
  }

  /** A secret that get_password has returned once is what it returns ever after. */
  lemma StepRemembers(s: State, action: Action, deploy: bool, keeps: bool)
    requires Safe(s) && Placed(s) && Sensible(s, action)
    ensures Within(s.disk.answers, Step(s, action, deploy, keeps).disk.answers)
  {
    hide Agreed, Kept, Passwords, PasswordStep, Vms, CfgdbNeeds, Chosen, Needs, LocalNeeds;
    if Underway(s) && InPasswords(s.pc) && action.Advance? {
      PasswordStepRemembers(s, action.made);
    }
  }

  lemma PasswordStepRemembers(s: State, made: string)
    requires Underway(s) && InPasswords(s.pc)
    ensures Within(s.disk.answers, PasswordStep(s, made).disk.answers)
  {
    hide Agreed, Kept, Passwords, Vms, CfgdbNeeds;
    PasswordsKept(s.disk, Passwords()[s.pc.i]);
  }

  lemma {:induction false} RunRemembers(s: State, actions: seq<Action>, deploy: bool, keeps: bool)
    requires Safe(s) && Placed(s) && Plausible(s, actions, deploy, keeps)
    ensures Within(s.disk.answers, Play(s, actions, deploy, keeps).disk.answers)
    decreases |actions|
  {
    hide Safe, Step;
    if actions != [] {
      var next := Step(s, actions[0], deploy, keeps);
      StepIsSafe(s, actions[0], deploy, keeps);
      StepRemembers(s, actions[0], deploy, keeps);
      RunRemembers(next, actions[1..], deploy, keeps);
      WithinTransitive(s.disk.answers, next.disk.answers, Play(next, actions[1..], deploy, keeps).disk.answers);
    }
  }

  /** get_password discards its store only while nobody has been told any password. */
  lemma ResetDiscardsNothing(actions: seq<Action>, deploy: bool, keeps: bool, name: string)
    requires Plausible(INITIAL, actions, deploy, keeps) && name in Passwords()
    requires var s := Play(INITIAL, actions, deploy, keeps); !s.disk.setup && !s.disk.store.Json?
    ensures var d := Play(INITIAL, actions, deploy, keeps).disk;
      && name !in d.answers && name !in d.local && name !in d.cfgdb
      && forall vm | vm in d.vms :: name !in d.vms[vm]
  {
    hide Passwords, Step, Play, Kept;
    InitialIsSafe();
    PlayIsSafe(INITIAL, actions, deploy, keeps);
    PasswordsKept(Play(INITIAL, actions, deploy, keeps).disk, name);
  }

  /** How many passwords the running attempt has asked for. */
  function Asked(pc: Pc): nat {
    if pc.Idle? || Cleaning(pc) || pc.Finish? then 0
    else if InPasswords(pc) then pc.i
    else |Passwords()|
  }

  /** How many virtual machines, and then database entries, have been dealt with. */
  function Deployed(s: State): nat {
    if s.disk.setup || s.pc.WriteCfgdb? || s.pc.Finish? then |Vms()|
    else if s.pc.CreateVm? then s.pc.j
    else 0
  }

  function Written(s: State): nat {
    if s.disk.setup || s.pc.Finish? then |CfgdbNeeds()|
    else if s.pc.WriteCfgdb? then s.pc.k
    else 0
  }

  predicate Wanted(vm: string, deploy: bool) {
    vm != "opnsense" || deploy
  }

  predicate HasPasswords(s: State) {
    forall i | 0 <= i < Asked(s.pc) && i < |Passwords()| :: Passwords()[i] in s.env
  }

  predicate HasCertificate(s: State) {
    s.pc.CopyCert? || s.pc.ConfigureNode? || s.pc.CreateVm? || s.pc.WriteCfgdb? ==> CERT in s.env && KEY in s.env
  }

  predicate VmsComplete(d: Disk) {
    forall vm | vm in d.vms :: d.vms[vm].Keys == Needs(vm)
  }

  predicate VmsDeployed(s: State, deploy: bool) {
    forall j | 0 <= j < Deployed(s) && j < |Vms()| && Wanted(Vms()[j], deploy) :: Vms()[j] in s.disk.vms
  }

  predicate EntriesWritten(s: State) {
    forall k | 0 <= k < Written(s) && k < |CfgdbNeeds()| :: CfgdbNeeds()[k] in s.disk.cfgdb
  }

  predicate NodeConfigured(s: State) {
    s.pc.CreateVm? || s.pc.WriteCfgdb? || s.pc.Finish? || s.disk.setup ==> s.disk.local.Keys == LocalNeeds()
  }

  /** Nothing is handed out in part: what a place needs is known by the time it is set up. */
  predicate Complete(s: State, deploy: bool) {
    && HasPasswords(s) && HasCertificate(s)
    && VmsComplete(s.disk) && VmsDeployed(s, deploy)
    && NodeConfigured(s) && EntriesWritten(s)
  }

  function Secrets(): set<string> {
    {CERT, KEY} + set i | 0 <= i < |Passwords()| :: Passwords()[i]
  }

  lemma NeedsAreSecrets(vm: string)
    ensures Needs(vm) <= Secrets() && LocalNeeds() <= Secrets()
    ensures forall k | 0 <= k < |CfgdbNeeds()| :: CfgdbNeeds()[k] in Secrets()
  {
    var p := Passwords();
    assert p[0] in Secrets() && p[1] in Secrets() && p[2] in Secrets() && p[3] in Secrets();
    assert p[5] in Secrets() && p[6] in Secrets();
  }

  lemma ChosenAll(env: map<string, string>, names: set<string>)
    requires names <= env.Keys
    ensures Chosen(env, names).Keys == names
  {
  }

  lemma SecretsKnown(s: State)
    requires HasPasswords(s) && HasCertificate(s)
    requires s.pc.ConfigureNode? || s.pc.CreateVm? || s.pc.WriteCfgdb?
    ensures Secrets() <= s.env.Keys
  {
    hide Passwords;
  }

  /** No step before create_vm touches a virtual machine or the configuration database. */
  lemma PasswordStepTouches(s: State, made: string)
    requires Placed(s) && InPasswords(s.pc)
    ensures var s' := PasswordStep(s, made);
      && SameWork(s, s') && s'.disk.local == s.disk.local && (InPasswords(s'.pc) || s'.pc.CheckCerts?)
      && (HasPasswords(s) ==> HasPasswords(s'))
  {
    hide Passwords;
  }

  predicate SameWork(s: State, s': State) {
    s'.disk.vms == s.disk.vms && s'.disk.cfgdb == s.disk.cfgdb && s'.disk.setup == s.disk.setup
  }

  lemma CertStepTouches(s: State, made: string)
    requires Placed(s) && InCerts(s.pc)
    ensures var s' := CertStep(s, made);
      && SameWork(s, s') && (InCerts(s'.pc) || s'.pc.Idle? || s'.pc == CreateVm(0))
      && (s'.pc == CreateVm(0) <==> s.pc.ConfigureNode? && s.disk.svcCert.Some?)
      && s'.disk.local == (if s'.pc.CreateVm? then Chosen(s.env, LocalNeeds()) else s.disk.local)
      && (HasPasswords(s) ==> HasPasswords(s'))
      && (HasCertificate(s) ==> HasCertificate(s'))
  {
    hide Passwords, Chosen, LocalNeeds, Placed;
  }

  lemma CrashTouches(s: State, junk: Option<string>, deploy: bool, keeps: bool)
    requires Placed(s)
    ensures var s' := Step(s, Crash(junk), deploy, keeps);
      SameWork(s, s') && s'.disk.local == s.disk.local && s'.pc.Idle?
  {
    hide Passwords, Vms, CfgdbNeeds;
  }

  lemma CreateVmIsComplete(s: State, deploy: bool, keeps: bool)
    requires Placed(s) && s.pc.CreateVm? && !s.disk.setup && Complete(s, deploy)
    ensures Complete(LateStep(s, deploy, keeps), deploy)
  {
    hide Passwords, Vms, CfgdbNeeds, Chosen, Needs, LocalNeeds, Secrets;
    var vm := Vms()[s.pc.j];
    SecretsKnown(s);
    NeedsAreSecrets(vm);
    ChosenAll(s.env, Needs(vm));
  }

  lemma WriteCfgdbIsComplete(s: State, deploy: bool, keeps: bool)
    requires Placed(s) && s.pc.WriteCfgdb? && !s.disk.setup && Complete(s, deploy)
    ensures Complete(LateStep(s, deploy, keeps), deploy)
  {
    hide Passwords, Vms, CfgdbNeeds, Chosen, Needs, LocalNeeds, Secrets;
    SecretsKnown(s);
    NeedsAreSecrets("");
    assert CfgdbNeeds()[s.pc.k] in s.env;
  }

  lemma EndIsComplete(s: State, deploy: bool, keeps: bool)
    requires Placed(s) && (s.pc.Finish? || (Cleaning(s.pc) && s.disk.setup)) && Complete(s, deploy)
    ensures Complete(LateStep(s, deploy, keeps), deploy)
  {
    hide Passwords, Vms, CfgdbNeeds, Chosen, Needs, LocalNeeds;
  }

  /** A step that only moves the attempt on. */
  lemma SameWorkIsComplete(s: State, s': State, deploy: bool)
    requires Complete(s, deploy) && SameWork(s, s') && HasPasswords(s') && HasCertificate(s')
    requires s.pc.CreateVm? || s.pc.WriteCfgdb? || s.pc.Finish? ==> s'.pc.Idle?
    requires s.disk.setup ==> s'.pc.Idle? && s'.disk.local == s.disk.local
    requires !s'.pc.WriteCfgdb? && !s'.pc.Finish? && !Cleaning(s'.pc)
    requires s'.pc.CreateVm? ==> s'.pc.j == 0 && s'.disk.local.Keys == LocalNeeds()
    ensures Complete(s', deploy)
  {
    hide Passwords, Vms, CfgdbNeeds, Needs, LocalNeeds;
  }

  lemma PasswordStepIsComplete(s: State, made: string, deploy: bool)
    requires Placed(s) && InPasswords(s.pc) && !s.disk.setup && Complete(s, deploy)
    ensures Complete(PasswordStep(s, made), deploy)
  {
    hide PasswordStep, VmsComplete, VmsDeployed, EntriesWritten, LocalNeeds, Passwords;
    PasswordStepTouches(s, made);
    SameWorkIsComplete(s, PasswordStep(s, made), deploy);
  }

  lemma CertStepIsComplete(s: State, made: string, deploy: bool)
    requires Placed(s) && InCerts(s.pc) && !s.disk.setup && Complete(s, deploy)
    ensures Complete(CertStep(s, made), deploy)
  {
    hide CertStep, Placed, VmsComplete, VmsDeployed, EntriesWritten, LocalNeeds, Passwords, HasPasswords, Secrets,
      Chosen;
    CertStepTouches(s, made);
    if s.pc.ConfigureNode? {
      SecretsKnown(s);
      NeedsAreSecrets("");
      ChosenAll(s.env, LocalNeeds());
    }
    SameWorkIsComplete(s, CertStep(s, made), deploy);
  }

  lemma CrashIsComplete(s: State, junk: Option<string>, deploy: bool, keeps: bool)
    requires Placed(s) && Complete(s, deploy)
    ensures Complete(Step(s, Crash(junk), deploy, keeps), deploy)
  {
    hide Step, Placed, VmsComplete, VmsDeployed, EntriesWritten, LocalNeeds, Passwords;
    CrashTouches(s, junk, deploy, keeps);
    SameWorkIsComplete(s, Step(s, Crash(junk), deploy, keeps), deploy);
  }

  lemma StepIsComplete(s: State, action: Action, deploy: bool, keeps: bool)
    requires Placed(s) && Safe(s) && Complete(s, deploy)
    ensures Complete(Step(s, action, deploy, keeps), deploy)
  {
    hide Placed, VmsComplete, VmsDeployed, EntriesWritten, LocalNeeds, Passwords, Backed, Agreed, Ready;
    hide PasswordStep, CertStep, LateStep;
    if action.Crash? {
      CrashIsComplete(s, action.junk, deploy, keeps);
    } else if InPasswords(s.pc) {
      PasswordStepIsComplete(s, action.made, deploy);
    } else if InCerts(s.pc) {
      CertStepIsComplete(s, action.made, deploy);
    } else if s.pc.CreateVm? {
      CreateVmIsComplete(s, deploy, keeps);
    } else if s.pc.WriteCfgdb? {
      WriteCfgdbIsComplete(s, deploy, keeps);
    } else if !s.pc.Idle? {
      EndIsComplete(s, deploy, keeps);
    } else if !s.disk.setup {
      SameWorkIsComplete(s, Step(s, action, deploy, keeps), deploy);
    }
  }

  lemma {:induction false} PlayIsComplete(s: State, actions: seq<Action>, deploy: bool, keeps: bool)
    requires Placed(s) && Safe(s) && Complete(s, deploy) && Plausible(s, actions, deploy, keeps)
    ensures Complete(Play(s, actions, deploy, keeps), deploy)
    decreases |actions|
  {
    hide Safe, Step, Complete;
    if actions != [] {
      StepIsSafe(s, actions[0], deploy, keeps);
      StepIsComplete(s, actions[0], deploy, keeps);
      PlayIsComplete(Step(s, actions[0], deploy, keeps), actions[1..], deploy, keeps);
    }
  }

  /** Each place has all of its secrets, and one value of every secret is in all of the places. */
  predicate Delivered(d: Disk, truth: map<string, string>, deploy: bool) {
    && Agreed(d, truth) && NoneEmpty(truth)
    && d.local == Chosen(truth, LocalNeeds()) && LocalNeeds() <= truth.Keys
    && (forall j | 0 <= j < |Vms()| && Wanted(Vms()[j], deploy) :: Vms()[j] in d.vms)
    && (forall vm | vm in d.vms :: d.vms[vm] == Chosen(truth, Needs(vm)) && Needs(vm) <= truth.Keys)
    && (forall k | 0 <= k < |CfgdbNeeds()| :: CfgdbNeeds()[k] in d.cfgdb)
  }

  lemma ChosenIsAll(part: map<string, string>, truth: map<string, string>, names: set<string>)
    requires Within(part, truth) && part.Keys == names
    ensures part == Chosen(truth, names) && names <= truth.Keys
  {
  }

  lemma CompleteIsDelivered(s: State, truth: map<string, string>, deploy: bool)
    requires s.disk.setup && Complete(s, deploy) && Agreed(s.disk, truth) && NoneEmpty(truth)
    ensures Delivered(s.disk, truth, deploy)
  {
    hide Vms, Needs, LocalNeeds, CfgdbNeeds, Passwords, Within, Chosen;
    ChosenIsAll(s.disk.local, truth, LocalNeeds());
    forall vm | vm in s.disk.vms
      ensures s.disk.vms[vm] == Chosen(truth, Needs(vm)) && Needs(vm) <= truth.Keys
    {
      ChosenIsAll(s.disk.vms[vm], truth, Needs(vm));
    }
  }

  /** Whatever attempts there have been, all places agree, and nothing empty has been handed out; and once
      the setup file exists the node, every virtual machine and the configuration database have all of
      their secrets. */
  lemma InstallAgrees(actions: seq<Action>, deploy: bool, keeps: bool)
    requires Plausible(INITIAL, actions, deploy, keeps)
    ensures exists truth :: Agreed(Play(INITIAL, actions, deploy, keeps).disk, truth) && NoneEmpty(truth)
    ensures var d := Play(INITIAL, actions, deploy, keeps).disk;
      d.setup ==> exists truth :: Delivered(d, truth, deploy)
  {
    InitialIsSafe();
    InitialIsComplete(deploy);
    PlayIsSafe(INITIAL, actions, deploy, keeps);
    PlayIsComplete(INITIAL, actions, deploy, keeps);
    SafeIsDelivered(Play(INITIAL, actions, deploy, keeps), deploy);
  }

  lemma InitialIsComplete(deploy: bool)
    ensures Complete(INITIAL, deploy)
  {
  }

  lemma SafeIsDelivered(s: State, deploy: bool)
    requires Safe(s) && Complete(s, deploy)
    ensures exists truth :: Agreed(s.disk, truth) && NoneEmpty(truth)
    ensures s.disk.setup ==> exists truth :: Delivered(s.disk, truth, deploy)
  {
    hide Complete, Delivered, Agreed, Kept;
    KeptIsNotEmpty(s.disk);
    var truth :| Agreed(s.disk, truth) && NoneEmpty(truth);
    if s.disk.setup {
      CompleteIsDelivered(s, truth, deploy);
    }
  }

  /** The certificate was made but an attempt broke off before copying it to its place. */
  predicate Stuck(d: Disk) {
    HasCerts(d) && d.svcCert.None?
  }

  /** What stands between an attempt and its end, if nothing breaks off. */
  function Distance(pc: Pc): nat {
    var v, c, p := |Vms()|, |CfgdbNeeds()|, |Passwords()|;
    match pc
    case Idle => 20 + 4 * p + v + c
    case Read(i) => 15 + 4 * (if i < p then p - i else 0) + v + c
    case Touch(i) => 14 + 4 * (if i < p then p - i else 0) + v + c
    case Generate(i) => 13 + 4 * (if i < p then p - i else 0) + v + c
    case Move(i, _, _) => 12 + 4 * (if i < p then p - i else 0) + v + c
    case CheckCerts => 10 + v + c
    case RemoveKey => 9 + v + c
    case RemoveCert => 8 + v + c
    case WriteKey => 7 + v + c
    case WriteCert => 6 + v + c
    case VerifyCerts => 5 + v + c
    case CopyCert => 4 + v + c
    case ConfigureNode => 3 + v + c
    case CreateVm(j) => 2 + (if j < v then v - j else 0) + c
    case WriteCfgdb(k) => 1 + (if k < c then c - k else 0)
    case Finish => 1
    case CleanKey | CleanCert | CleanStore => 0
  }

  /** An attempt that will get past the certificate. */
  predicate Free(s: State) {
    && (s.pc.Idle? || InPasswords(s.pc) || s.pc.CheckCerts? ==> !Stuck(s.disk))
    && (s.pc.WriteCert? ==> NonEmpty(s.disk.keyTmp))
    && (s.pc.VerifyCerts? ==> HasCerts(s.disk))
    && (s.pc.ConfigureNode? ==> s.disk.svcCert.Some?)
  }

  lemma PasswordStepAdvances(s: State)
    requires Placed(s) && InPasswords(s.pc) && Free(s)
    ensures var s' := PasswordStep(s, "x"); Free(s') && Distance(s'.pc) < Distance(s.pc)
  {
    hide Passwords, Vms, CfgdbNeeds;
  }

  lemma CertStepAdvances(s: State)
    requires Placed(s) && Ready(s) && InCerts(s.pc) && Free(s)
    ensures var s' := CertStep(s, "x"); Free(s') && Distance(s'.pc) < Distance(s.pc)
  {
    hide Passwords, Vms, CfgdbNeeds, Chosen, LocalNeeds, Kept;
  }

  lemma LateStepAdvances(s: State, deploy: bool, keeps: bool)
    requires Placed(s) && (s.pc.CreateVm? || s.pc.WriteCfgdb?)
    ensures var s' := LateStep(s, deploy, keeps); Free(s') && Distance(s'.pc) < Distance(s.pc)
  {
    hide Passwords, Vms, CfgdbNeeds, Chosen, Needs;
  }

  lemma StepAdvances(s: State, deploy: bool, keeps: bool)
    requires Underway(s) && Free(s)
    ensures var s' := Step(s, Advance("x"), deploy, keeps);
      s'.disk.setup || (Free(s') && Distance(s'.pc) < Distance(s.pc))
  {
    hide Backed, Ready, PasswordStep, CertStep, Vms, CfgdbNeeds, Chosen, Needs;
    if InPasswords(s.pc) {
      PasswordStepAdvances(s);
    } else if InCerts(s.pc) {
      CertStepAdvances(s);
    } else if s.pc.CreateVm? || s.pc.WriteCfgdb? {
      LateStepAdvances(s, deploy, keeps);
    }
  }

  /** An attempt that nothing interrupts gets to the setup file. */
  lemma {:induction false} AttemptFinishes(s: State, deploy: bool, keeps: bool) returns (actions: seq<Action>)
    requires Underway(s) && Free(s)
    ensures Plausible(s, actions, deploy, keeps) && Play(s, actions, deploy, keeps).disk.setup
    decreases Distance(s.pc)
  {
    hide Ready, Backed, Agreed, Free, Step, Distance;
    var next := Step(s, Advance("x"), deploy, keeps);
    StepIsSafe(s, Advance("x"), deploy, keeps);
    if next.disk.setup {
      actions := [Advance("x")];
    } else {
      StepAdvances(s, deploy, keeps);
      var rest := AttemptFinishes(next, deploy, keeps);
      actions := [Advance("x")] + rest;
      assert actions[1..] == rest;
    }
  }

  /** A stuck install stays stuck: it fails before configuring the node, attempt after attempt. */
  predicate Halted(s: State) {
    !s.disk.setup && Stuck(s.disk) && (s.pc.Idle? || InPasswords(s.pc) || s.pc.CheckCerts? || s.pc.ConfigureNode?)
  }

  lemma StepStaysHalted(s: State, action: Action, deploy: bool, keeps: bool)
    requires Placed(s) && Halted(s)
    ensures Halted(Step(s, action, deploy, keeps))
  {
    hide Passwords, Vms, CfgdbNeeds, Chosen, LocalNeeds;
  }

  lemma {:induction false} StaysHalted(s: State, actions: seq<Action>, deploy: bool, keeps: bool)
    requires Placed(s) && Halted(s)
    ensures Halted(Play(s, actions, deploy, keeps))
    decreases |actions|
  {
    hide Halted, Step;
    if actions != [] {
      StepStaysHalted(s, actions[0], deploy, keeps);
      StaysHalted(Step(s, actions[0], deploy, keeps), actions[1..], deploy, keeps);
    }
  }

  /** Between two attempts: the install can still be finished exactly when it is not stuck. */
  lemma FinishableUnlessStuck(s: State, deploy: bool, keeps: bool)
    requires Underway(s) && s.pc.Idle?
    ensures (exists actions :: Plausible(s, actions, deploy, keeps) && Play(s, actions, deploy, keeps).disk.setup)
      <==> !Stuck(s.disk)
  {
    hide Step, Ready, Backed, Stuck;
    if Stuck(s.disk) {
      forall actions
        ensures !Play(s, actions, deploy, keeps).disk.setup
      {
        StaysHalted(s, actions, deploy, keeps);
      }
    } else {
      var actions := AttemptFinishes(s, deploy, keeps);
    }
  }

  /** Before the certificate is copied, in an attempt that makes one for the first time. */
  predicate Copying(s: State) {
    && s.disk.svcCert.None?
    && (s.pc.Idle? || InPasswords(s.pc) || (InCerts(s.pc) && !s.pc.ConfigureNode?))
    && (HasCerts(s.disk) <==> s.pc.VerifyCerts? || s.pc.CopyCert?)
    && (s.pc.WriteCert? ==> NonEmpty(s.disk.keyTmp))
  }

  lemma StepCopies(s: State, deploy: bool, keeps: bool)
    requires Underway(s) && Copying(s) && !s.pc.CopyCert?
    ensures var s' := Step(s, Advance("x"), deploy, keeps); Copying(s') && !s'.disk.setup
    ensures Distance(Step(s, Advance("x"), deploy, keeps).pc) < Distance(s.pc)
  {
    hide Backed, Ready, PasswordStep, CertStep, LateStep, Vms, CfgdbNeeds, Passwords, Distance;
    StepAdvances(s, deploy, keeps);
    if InPasswords(s.pc) {
      PasswordStepCopies(s);
    } else if InCerts(s.pc) {
      CertStepCopies(s);
    }
  }

  lemma PasswordStepCopies(s: State)
    requires Placed(s) && InPasswords(s.pc) && Copying(s)
    ensures Copying(PasswordStep(s, "x")) && PasswordStep(s, "x").disk.setup == s.disk.setup
  {
    hide Passwords, Vms, CfgdbNeeds;
  }

  lemma CertStepCopies(s: State)
    requires Placed(s) && Ready(s) && InCerts(s.pc) && Copying(s) && !s.pc.CopyCert?
    ensures Copying(CertStep(s, "x")) && CertStep(s, "x").disk.setup == s.disk.setup
  {
    hide Passwords, Vms, CfgdbNeeds, Chosen, LocalNeeds, Kept;
  }

  /** A single interruption is enough to be stuck for good. */
  lemma {:induction false} InterruptionSticks(s: State, deploy: bool, keeps: bool) returns (actions: seq<Action>)
    requires Underway(s) && Copying(s)
    ensures Plausible(s, actions, deploy, keeps)
    ensures var s' := Play(s, actions, deploy, keeps); s'.pc.Idle? && Stuck(s'.disk)
    decreases Distance(s.pc)
  {
    hide Ready, Backed, Agreed, Distance;
    if s.pc.CopyCert? {
      actions := [Crash(None)];
    } else {
      hide Step, Copying;
      var next := Step(s, Advance("x"), deploy, keeps);
      StepIsSafe(s, Advance("x"), deploy, keeps);
      StepCopies(s, deploy, keeps);
      var rest := InterruptionSticks(next, deploy, keeps);
      actions := [Advance("x")] + rest;
      assert actions[1..] == rest;
    }
  }

  lemma CanGetStuck(deploy: bool, keeps: bool)
    ensures exists actions ::
      Plausible(INITIAL, actions, deploy, keeps) && Stuck(Play(INITIAL, actions, deploy, keeps).disk)
  {
    var actions := InterruptionSticks(INITIAL, deploy, keeps);
  }
}
