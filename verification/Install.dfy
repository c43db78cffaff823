/**
 The restartable part of headnode.sh as a machine whose every step may be its attempt's last.

 What a step leaves on disk survives; the shell's variables do not. Attempts are repeated until
 the setup file exists. Generated secrets are kept in temporary files in between, and handed out
 to the node's configuration, to virtual machines and to the configuration database.
 */
module Install {
  import opened Options

  /** The password store: missing, not JSON (an empty file is not), or an object. */
  datatype File = Absent | Invalid | Json(fields: map<string, string>)

  /** The secrets that get_password makes, in the order the script asks for them. */
  function Passwords(): (names: seq<string>)
    ensures CERT !in names && KEY !in names
  {
    ["RABBITMQ_PASSWORD", "REDIS_PASSWORD", "PGSQL_ESDC_PASSWORD", "PGSQL_PDNS_PASSWORD",
     "PGSQL_MGMT_MON_PASSWORD", "ZABBIX_ESDC_PASSWORD", "ZABBIX_ADMIN_PASSWORD"]
  }

  const CERT := "SVC_CERT"
  const KEY := "SVC_KEY"

  function Vms(): seq<string> {
    ["opnsense", "esdc-cfgdb", "esdc-dns", "esdc-img", "esdc-mon", "esdc-mgmt"]
  }

  /** The secrets in a virtual machine's manifest. */
  function Needs(vm: string): set<string> {
    if vm == "esdc-mgmt" then {CERT, KEY} + set i | 0 <= i < |Passwords()| :: Passwords()[i]
    else if vm == "esdc-mon" then {"ZABBIX_ESDC_PASSWORD", "ZABBIX_ADMIN_PASSWORD"}
    else if vm == "esdc-dns" then {"PGSQL_PDNS_PASSWORD"}
    else if vm == "esdc-cfgdb" || vm == "opnsense" then {CERT, KEY}
    else {}
  }

  /** The secrets in the node's own configuration. */
  function LocalNeeds(): set<string> {
    {"RABBITMQ_PASSWORD", "REDIS_PASSWORD"}
  }

  /** The secrets in the configuration database, in the order they are written. */
  function CfgdbNeeds(): seq<string> {
    ["RABBITMQ_PASSWORD", "REDIS_PASSWORD", "PGSQL_ESDC_PASSWORD", "PGSQL_PDNS_PASSWORD",
     "ZABBIX_ADMIN_PASSWORD", "ZABBIX_ESDC_PASSWORD", CERT]
  }

  /** What survives an attempt. `answers` is history: what get_password has returned so far. */
  datatype Disk = Disk(
    store: File,
    storeTmp: File,
    certTmp: Option<string>,
    keyTmp: Option<string>,
    svcCert: Option<string>,
    local: map<string, string>,
    vms: map<string, map<string, string>>,
    cfgdb: map<string, string>,
    setup: bool,
    answers: map<string, string>)

  /** Where the running attempt is. */
  datatype Pc =
    | Idle
    | Read(i: nat) | Touch(i: nat) | Generate(i: nat) | Move(i: nat, fields: map<string, string>, value: string)
    | CheckCerts | RemoveKey | RemoveCert | WriteKey | WriteCert | VerifyCerts | CopyCert
    | ConfigureNode
    | CreateVm(j: nat)
    | WriteCfgdb(k: nat)
    | Finish | CleanKey | CleanCert | CleanStore

  datatype State = State(disk: Disk, pc: Pc, env: map<string, string>)

  const BARE := Disk(Absent, Absent, None, None, None, map[], map[], map[], false, map[])

  const INITIAL := State(BARE, Idle, map[])

  /** test -s */
  predicate NonEmpty(file: Option<string>) {
    file.Some? && file.value != ""
  }

  predicate HasCerts(d: Disk) {
    NonEmpty(d.certTmp) && NonEmpty(d.keyTmp)
  }

  function Fatal(s: State): State {
    State(s.disk, Idle, map[])
  }

  /** get_password has the value of the i-th password: return it and go on to the next. */
  function Return(s: State, disk: Disk, i: nat, value: string): State
    requires i < |Passwords()|
  {
    State(disk.(answers := disk.answers[Passwords()[i] := value]),
          if i + 1 < |Passwords()| then Read(i + 1) else CheckCerts,
          s.env[Passwords()[i] := value])
  }

  /** One step inside get_password. */
  function PasswordStep(s: State, made: string): (s': State)
    requires s.pc.Read? || s.pc.Touch? || s.pc.Generate? || s.pc.Move?
    requires s.pc.i < |Passwords()|
    ensures Placed(s')
  {
    var d, name := s.disk, Passwords()[s.pc.i];
    match s.pc
    case Read(i) =>
      if !d.store.Json? then s.(disk := d.(store := Absent), pc := Touch(i))
      else if name in d.store.fields && d.store.fields[name] != "" then Return(s, d, i, d.store.fields[name])
      else s.(pc := Generate(i))
    case Touch(i) => s.(disk := d.(store := Invalid), pc := Generate(i))
    case Generate(i) =>
      var fields := (if d.store.Json? then d.store.fields else map[])[name := made];
      s.(disk := d.(storeTmp := Json(fields)), pc := Move(i, fields, made))
    case Move(i, fields, value) => Return(s, d.(store := Json(fields), storeTmp := Absent), i, value)
  }

  /** One step of generate_svc_ssl_cert or configure_erigonesd. */
  function CertStep(s: State, made: string): (s': State)
    requires s.pc.CheckCerts? || s.pc.RemoveKey? || s.pc.RemoveCert? || s.pc.WriteKey? || s.pc.WriteCert?
      || s.pc.VerifyCerts? || s.pc.CopyCert? || s.pc.ConfigureNode?
    ensures Placed(s')
  {
    hide Chosen, LocalNeeds;
    var d := s.disk;
    match s.pc
    case CheckCerts =>
      if HasCerts(d) then Loaded(s).(pc := ConfigureNode) else s.(pc := RemoveKey)
    case RemoveKey => s.(disk := d.(keyTmp := None), pc := RemoveCert)
    case RemoveCert => s.(disk := d.(certTmp := None), pc := WriteKey)
    case WriteKey => s.(disk := d.(keyTmp := Some(made)), pc := WriteCert)
    case WriteCert => s.(disk := d.(certTmp := Some(made)), pc := VerifyCerts)
    case VerifyCerts => if HasCerts(d) then Loaded(s).(pc := CopyCert) else Fatal(s)
    case CopyCert => s.(disk := d.(svcCert := d.certTmp), pc := ConfigureNode)
    case ConfigureNode =>
      if d.svcCert.None? then Fatal(s)
      else s.(disk := d.(local := Chosen(s.env, LocalNeeds())), pc := CreateVm(0))
  }

  /** The certificate and the key are read into variables. */
  function Loaded(s: State): State
    requires HasCerts(s.disk)
  {
    s.(env := s.env[CERT := s.disk.certTmp.value][KEY := s.disk.keyTmp.value])
  }

  /** The values of some variables. */
  function Chosen(env: map<string, string>, names: set<string>): map<string, string> {
    map name | name in names && name in env :: env[name]
  }

  /** One step of create_vm, configure_cfgdb or the end of the script. `deploy` is whether OPNsense
      is to be deployed, `keeps` whether writing an entry that exists leaves it as it is. */
  function LateStep(s: State, deploy: bool, keeps: bool): (s': State)
    requires Placed(s)
    requires s.pc.CreateVm? || s.pc.WriteCfgdb? || s.pc.Finish? || s.pc.CleanKey? || s.pc.CleanCert? || s.pc.CleanStore?
    ensures Placed(s')
  {
    hide Chosen, Needs;
    var d := s.disk;
    match s.pc
    case CreateVm(j) =>
      var vm := Vms()[j];
      var skipped := vm in d.vms || (vm == "opnsense" && !deploy);
      var created := if skipped then d.vms else d.vms[vm := Chosen(s.env, Needs(vm))];
      s.(disk := d.(vms := created), pc := if j + 1 < |Vms()| then CreateVm(j + 1) else WriteCfgdb(0))
    case WriteCfgdb(k) =>
      var name := CfgdbNeeds()[k];
      var value := if name == CERT then d.svcCert else if name in s.env then Some(s.env[name]) else None;
      var written := if value.None? || (keeps && name in d.cfgdb) then d.cfgdb else d.cfgdb[name := value.value];
      s.(disk := d.(cfgdb := written), pc := if k + 1 < |CfgdbNeeds()| then WriteCfgdb(k + 1) else Finish)
    case Finish => s.(disk := d.(setup := true), pc := CleanKey)
    case CleanKey => s.(disk := d.(keyTmp := None), pc := CleanCert)
    case CleanCert => s.(disk := d.(certTmp := None), pc := CleanStore)
    case CleanStore => Fatal(s.(disk := d.(store := Absent)))
  }

  /** One step, or the end of the attempt before it: a crash during a write leaves anything. */
  datatype Action = Advance(made: string) | Crash(junk: Option<string>)

  /** The machine is where its program can be. */
  predicate Placed(s: State) {
    && (s.pc.Read? || s.pc.Touch? || s.pc.Generate? || s.pc.Move? ==> s.pc.i < |Passwords()|)
    && (s.pc.CreateVm? ==> s.pc.j < |Vms()|)
    && (s.pc.WriteCfgdb? ==> s.pc.k < |CfgdbNeeds()|)
    && (s.pc.CreateVm? || s.pc.WriteCfgdb? ==> s.disk.svcCert.Some?)
  }

  function Step(s: State, action: Action, deploy: bool, keeps: bool): (s': State)
    requires Placed(s)
    ensures Placed(s')
  {
    hide PasswordStep, CertStep, LateStep;
    match action
    case Crash(junk) =>
      Fatal(s.(disk := if s.pc.Generate? then s.disk.(storeTmp := Invalid)
                       else if s.pc.WriteKey? then s.disk.(keyTmp := junk)
                       else if s.pc.WriteCert? then s.disk.(certTmp := junk)
                       else s.disk))
    case Advance(made) =>
      if s.pc.Idle? then (if s.disk.setup then s else State(s.disk, Read(0), map[]))
      else if s.pc.Read? || s.pc.Touch? || s.pc.Generate? || s.pc.Move? then PasswordStep(s, made)
      else if s.pc.CreateVm? || s.pc.WriteCfgdb? || s.pc.Finish? || s.pc.CleanKey? || s.pc.CleanCert?
        || s.pc.CleanStore? then LateStep(s, deploy, keeps)
      else CertStep(s, made)
  }

  function KeptPasswords(store: File): (kept: map<string, string>)
    ensures CERT !in kept && KEY !in kept
  {
    if store.Json? then
      map name | name in store.fields && store.fields[name] != "" && name in Passwords() :: store.fields[name]
    else
      map[]
  }

  function KeptCerts(certTmp: Option<string>, keyTmp: Option<string>): map<string, string> {
    if NonEmpty(certTmp) && NonEmpty(keyTmp) then map[CERT := certTmp.value, KEY := keyTmp.value] else map[]
  }

  /** What the temporary files hold: the passwords that are not empty, and the certificate with
      its key once neither file is empty. */
  function Kept(d: Disk): map<string, string> {
    KeptPasswords(d.store) + KeptCerts(d.certTmp, d.keyTmp)
  }

  predicate Within(part: map<string, string>, whole: map<string, string>) {
    forall name | name in part :: name in whole && whole[name] == part[name]
  }

  /** Every place that has been given a secret holds the same value of it. */
  predicate Agreed(d: Disk, truth: map<string, string>) {
    && Within(d.local, truth) && Within(d.cfgdb, truth)
    && forall vm | vm in d.vms :: Within(d.vms[vm], truth)
  }

  predicate NoneEmpty(values: map<string, string>) {
    forall name | name in values :: values[name] != ""
  }

  lemma KeptIsNotEmpty(d: Disk)
    ensures NoneEmpty(Kept(d))
  {
  }

  predicate Cleaning(pc: Pc) {
    pc.CleanKey? || pc.CleanCert? || pc.CleanStore?
  }

  /** Until the setup file exists, all that has been handed out is what the temporary files hold. */
  predicate Backed(s: State) {
    var kept := Kept(s.disk);
    && Agreed(s.disk, kept) && Within(s.env, kept) && Within(s.disk.answers, kept)
    && (s.disk.svcCert.Some? ==> HasCerts(s.disk) && s.disk.svcCert == s.disk.certTmp)
  }

  /** What the steps in hand rely on. */
  predicate Ready(s: State)
    requires Placed(s)
  {
    && (s.pc.Touch? ==> !s.disk.store.Json?)
    && (s.pc.Generate? ==> Passwords()[s.pc.i] !in Kept(s.disk))
    && (s.pc.Move? ==> MoveReady(s))
    && (s.pc.RemoveKey? || s.pc.RemoveCert? ==> !HasCerts(s.disk))
    && (s.pc.WriteKey? || s.pc.WriteCert? ==> s.disk.certTmp.None?)
    && (s.pc.CopyCert? ==> HasCerts(s.disk))
  }

  /** The invariant of the install before its setup file exists. */
  predicate Underway(s: State) {
    && Placed(s) && Ready(s)
    && !s.disk.setup && !Cleaning(s.pc)
    && Backed(s)
  }

  /** And from the setup file on, when nothing more is handed out. */
  ghost predicate Settled(s: State) {
    && s.disk.setup && (s.pc.Idle? || Cleaning(s.pc))
    && exists truth :: Agreed(s.disk, truth) && NoneEmpty(truth)
  }

  /** The new store is the old one and one password that it did not have. */
  predicate MoveReady(s: State)
    requires Placed(s) && s.pc.Move?
  {
    && s.pc.value != "" && Passwords()[s.pc.i] in s.pc.fields && s.pc.fields[Passwords()[s.pc.i]] == s.pc.value
    && Passwords()[s.pc.i] !in Kept(s.disk)
    && Within(Kept(s.disk), Kept(s.disk.(store := Json(s.pc.fields))))
  }

  /** What random_string makes for a password is not empty. */
  predicate Sensible(s: State, action: Action) {
    action.Advance? && s.pc.Generate? ==> action.made != ""
  }

  lemma WithinTransitive(a: map<string, string>, b: map<string, string>, c: map<string, string>)
    requires Within(a, b) && Within(b, c)
    ensures Within(a, c)
  {
  }

  /** Handing out goes on safely when the temporary files only gain values. */
  lemma AgreedGrows(d: Disk, truth: map<string, string>, more: map<string, string>)
    requires Agreed(d, truth) && Within(truth, more)
    ensures Agreed(d, more)
  {
    hide Within;
    WithinTransitive(d.local, truth, more);
    WithinTransitive(d.cfgdb, truth, more);
    forall vm | vm in d.vms
      ensures Within(d.vms[vm], more)
    {
      WithinTransitive(d.vms[vm], truth, more);
    }
  }

  /** A step that keeps what is handed out backed by what the temporary files hold. */
  lemma BackedGrows(s: State, s': State)
    requires Backed(s) && Within(Kept(s.disk), Kept(s'.disk))
    requires s'.disk.local == s.disk.local && s'.disk.vms == s.disk.vms && s'.disk.cfgdb == s.disk.cfgdb
    requires s'.disk.answers == s.disk.answers && s'.env == s.env
    requires s'.disk.svcCert.Some? ==> HasCerts(s'.disk) && s'.disk.svcCert == s'.disk.certTmp
    ensures Backed(s')
  {
    hide Within, Kept;
    var before, after := Kept(s.disk), Kept(s'.disk);
    AgreedGrows(s.disk, before, after);
    WithinTransitive(s.env, before, after);
    WithinTransitive(s.disk.answers, before, after);
  }

  lemma ReturnIsBacked(s: State, disk: Disk, i: nat, value: string)
    requires Backed(s.(disk := disk)) && i < |Passwords()|
    requires Passwords()[i] in Kept(disk) && Kept(disk)[Passwords()[i]] == value
    ensures Backed(Return(s, disk, i, value))
  {
    hide Passwords, KeptPasswords, KeptCerts;
  }

  lemma PasswordsKept(d: Disk, name: string)
    requires name in Passwords()
    ensures name in Kept(d) <==> name in KeptPasswords(d.store)
    ensures name in KeptPasswords(d.store) <==>
      d.store.Json? && name in d.store.fields && d.store.fields[name] != ""
    ensures name in Kept(d) ==> Kept(d)[name] == d.store.fields[name]
  {
    hide Passwords;
  }

  lemma MergedKeeps(store: File, name: string, made: string)
    requires name in Passwords() && made != "" && name !in KeptPasswords(store)
    ensures var fields := (if store.Json? then store.fields else map[])[name := made];
      KeptPasswords(Json(fields)) == KeptPasswords(store)[name := made]
  {
    hide Passwords;
  }

  lemma KeptUntouched(d: Disk, d': Disk)
    requires d'.certTmp == d.certTmp && d'.keyTmp == d.keyTmp
    requires d'.store == d.store || (!d.store.Json? && !d'.store.Json?)
    ensures Within(Kept(d), Kept(d'))
  {
    hide Passwords, KeptCerts;
  }

  predicate InPasswords(pc: Pc) {
    pc.Read? || pc.Touch? || pc.Generate? || pc.Move?
  }

  lemma GenerateIsReady(s: State, made: string)
    requires Placed(s) && Ready(s) && s.pc.Generate? && made != ""
    ensures MoveReady(PasswordStep(s, made))
  {
    hide Passwords, KeptPasswords, KeptCerts;
    PasswordsKept(s.disk, Passwords()[s.pc.i]);
    MergedKeeps(s.disk.store, Passwords()[s.pc.i], made);
  }

  lemma PasswordStepIsReady(s: State, made: string)
    requires Placed(s) && Ready(s) && InPasswords(s.pc) && Sensible(s, Advance(made))
    ensures Ready(PasswordStep(s, made))
  {
    hide Passwords, Kept, MoveReady;
    var name, s' := Passwords()[s.pc.i], PasswordStep(s, made);
    if s.pc.Generate? {
      GenerateIsReady(s, made);
    } else {
      PasswordsKept(s.disk, name);
      PasswordsKept(s'.disk, name);
    }
  }

  lemma PasswordStepIsBacked(s: State, made: string)
    requires Placed(s) && Ready(s) && InPasswords(s.pc) && Backed(s)
    ensures Backed(PasswordStep(s, made))
  {
    hide Passwords, KeptPasswords, KeptCerts, Agreed, Within;
    var d, name, s' := s.disk, Passwords()[s.pc.i], PasswordStep(s, made);
    PasswordsKept(d, name);
    if s.pc.Move? {
      var moved := d.(store := s'.disk.store, storeTmp := Absent);
      PasswordsKept(moved, name);
      BackedGrows(s, s.(disk := moved));
      ReturnIsBacked(s, moved, s.pc.i, s.pc.value);
    } else if s.pc.Read? && name in Kept(d) {
      ReturnIsBacked(s, d, s.pc.i, d.store.fields[name]);
    } else {
      KeptUntouched(d, s'.disk);
      BackedGrows(s, s');
    }
  }

  predicate InCerts(pc: Pc) {
    pc.CheckCerts? || pc.RemoveKey? || pc.RemoveCert? || pc.WriteKey? || pc.WriteCert?
      || pc.VerifyCerts? || pc.CopyCert? || pc.ConfigureNode?
  }

  lemma LoadedIsBacked(s: State)
    requires Backed(s) && HasCerts(s.disk)
    ensures Backed(Loaded(s))
  {
    hide KeptPasswords, Agreed;
    assert Kept(s.disk)[CERT] == s.disk.certTmp.value && Kept(s.disk)[KEY] == s.disk.keyTmp.value;
  }

  lemma WithinMore(a: map<string, string>, b: map<string, string>, c: map<string, string>)
    requires b == map[] || b == c
    requires forall name | name in c :: name !in a
    ensures Within(a + b, a + c)
  {
  }

  lemma CertsKept(d: Disk, d': Disk)
    requires d'.store == d.store
    requires !HasCerts(d) || (d'.certTmp == d.certTmp && d'.keyTmp == d.keyTmp)
    ensures Within(Kept(d), Kept(d'))
  {
    hide KeptPasswords, Within;
    WithinMore(KeptPasswords(d.store), KeptCerts(d.certTmp, d.keyTmp), KeptCerts(d'.certTmp, d'.keyTmp));
  }

  lemma ChosenWithin(env: map<string, string>, names: set<string>, truth: map<string, string>)
    requires Within(env, truth)
    ensures Within(Chosen(env, names), truth)
  {
  }

  lemma CertStepIsReady(s: State, made: string)
    requires Placed(s) && Ready(s) && InCerts(s.pc)
    ensures Ready(CertStep(s, made))
  {
    hide Passwords, Kept, Chosen, LocalNeeds;
  }

  lemma CertStepIsBacked(s: State, made: string)
    requires Placed(s) && Ready(s) && InCerts(s.pc) && Backed(s)
    ensures Backed(CertStep(s, made))
  {
    hide Passwords, KeptPasswords, KeptCerts, Chosen, LocalNeeds;
    ChosenWithin(s.env, LocalNeeds(), Kept(s.disk));
    var s' := CertStep(s, made);
    if (s.pc.CheckCerts? || s.pc.VerifyCerts?) && HasCerts(s.disk) {
      LoadedIsBacked(s);
    } else if !s.pc.ConfigureNode? && !s.pc.VerifyCerts? {
      CertsKept(s.disk, s'.disk);
      BackedGrows(s, s');
    }
  }

  predicate InLate(pc: Pc) {
    pc.CreateVm? || pc.WriteCfgdb? || pc.Finish? || Cleaning(pc)
  }

  lemma LateStepIsReady(s: State, deploy: bool, keeps: bool)
    requires Placed(s) && InLate(s.pc)
    ensures Ready(LateStep(s, deploy, keeps))
  {
    hide Passwords, Vms, Needs, Chosen;
  }

  lemma LateStepIsBacked(s: State, deploy: bool, keeps: bool)
    requires Placed(s) && (s.pc.CreateVm? || s.pc.WriteCfgdb?) && Backed(s)
    ensures Backed(LateStep(s, deploy, keeps))
  {
    hide Passwords, KeptPasswords, Chosen, Needs, Vms, CfgdbNeeds;
    if s.pc.CreateVm? {
      ChosenWithin(s.env, Needs(Vms()[s.pc.j]), Kept(s.disk));
    } else {
      assert Kept(s.disk)[CERT] == s.disk.svcCert.value;
    }
  }

  /** The last steps hand out nothing. */
  lemma LateStepIsSettled(s: State, deploy: bool, keeps: bool)
    requires if s.pc.Finish? then Underway(s) else Cleaning(s.pc) && Settled(s)
    ensures Settled(LateStep(s, deploy, keeps))
  {
    hide Passwords, Kept, Vms, CfgdbNeeds, Within;
    KeptIsNotEmpty(s.disk);
    var truth :| (s.pc.Finish? ==> truth == Kept(s.disk)) && Agreed(s.disk, truth) && NoneEmpty(truth);
    assert Agreed(LateStep(s, deploy, keeps).disk, truth);
  }

  lemma EndedIsBacked(s: State, disk: Disk)
    requires Backed(s.(disk := disk))
    ensures Backed(Fatal(s.(disk := disk)))
  {
    hide Kept;
  }

  lemma CrashIsBacked(s: State, junk: Option<string>, deploy: bool, keeps: bool)
    requires Underway(s)
    ensures Underway(Step(s, Crash(junk), deploy, keeps))
  {
    hide Passwords, KeptPasswords, KeptCerts, Agreed, Vms, CfgdbNeeds, Within;
    var s' := Step(s, Crash(junk), deploy, keeps);
    CertsKept(s.disk, s'.disk);
    BackedGrows(s, s.(disk := s'.disk));
    EndedIsBacked(s, s'.disk);
  }

  ghost predicate Safe(s: State) {
    Underway(s) || Settled(s)
  }

  /** Every step, and every way an attempt can break off, keeps all places in agreement. */
  lemma StepIsSafe(s: State, action: Action, deploy: bool, keeps: bool)
    requires Safe(s) && Sensible(s, action)
    ensures Placed(s) && Safe(Step(s, action, deploy, keeps))
  {
    hide Ready, Backed, Agreed, Kept, PasswordStep, CertStep, LateStep, Passwords, Vms, CfgdbNeeds;
    if Settled(s) {
      SettledStays(s, action, deploy, keeps);
    } else if action.Crash? {
      CrashIsBacked(s, action.junk, deploy, keeps);
    } else if s.pc.Idle? {
      StartIsBacked(s);
    } else if InPasswords(s.pc) {
      PasswordStepIsReady(s, action.made);
      PasswordStepIsBacked(s, action.made);
      PasswordStepIsEarly(s, action.made);
    } else if InCerts(s.pc) {
      CertStepIsReady(s, action.made);
      CertStepIsBacked(s, action.made);
      CertStepIsEarly(s, action.made);
    } else if s.pc.Finish? {
      LateStepIsSettled(s, deploy, keeps);
    } else {
      LateStepIsReady(s, deploy, keeps);
      LateStepIsBacked(s, deploy, keeps);
      LateStepIsEarly(s, deploy, keeps);
    }
  }

  lemma SettledStays(s: State, action: Action, deploy: bool, keeps: bool)
    requires Settled(s) && Placed(s)
    ensures Settled(Step(s, action, deploy, keeps))
  {
    hide Passwords, Kept, Vms, CfgdbNeeds, Agreed;
    if Cleaning(s.pc) && action.Advance? {
      LateStepIsSettled(s, deploy, keeps);
    }
  }

  lemma StartIsBacked(s: State)
    requires Underway(s)
    ensures Underway(State(s.disk, Read(0), map[]))
  {
    hide Kept;
  }

  lemma EarlyPc(pc: Pc)
    ensures InPasswords(pc) || InCerts(pc) || pc.Idle? || pc.CreateVm? ==> !Cleaning(pc)
  {
  }

  lemma PasswordStepIsEarly(s: State, made: string)
    requires Placed(s) && InPasswords(s.pc)
    ensures PasswordStep(s, made).disk.setup == s.disk.setup
    ensures !Cleaning(PasswordStep(s, made).pc)
  {
    hide Passwords, Cleaning;
    assert PasswordStep(s, made).pc.CheckCerts? || InPasswords(PasswordStep(s, made).pc);
    EarlyPc(PasswordStep(s, made).pc);
  }

  lemma CertStepIsEarly(s: State, made: string)
    requires Placed(s) && InCerts(s.pc)
    ensures CertStep(s, made).disk.setup == s.disk.setup
    ensures !Cleaning(CertStep(s, made).pc)
  {
    hide Passwords, Chosen, LocalNeeds, Cleaning, Placed, Vms, CfgdbNeeds;
    EarlyPc(CertStep(s, made).pc);
  }

  lemma LateStepIsEarly(s: State, deploy: bool, keeps: bool)
    requires Placed(s) && (s.pc.CreateVm? || s.pc.WriteCfgdb?)
    ensures var s' := LateStep(s, deploy, keeps); s'.disk.setup == s.disk.setup && !Cleaning(s'.pc)
  {
    hide Passwords, Chosen, Needs, Vms, CfgdbNeeds;
  }
}
