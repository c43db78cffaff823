/** What is left after bringing all interfaces up and down again. */
module LinkCycle {
  import opened Options
  import opened Links

  function VnicName(c: Config, i: nat): string
    requires i < |c.tags|
  {
    c.tags[i] + "0"
  }

  function TagNames(c: Config, n: nat): set<string>
    requires n <= |c.tags|
  {
    set i | 0 <= i < n :: VnicName(c, i)
  }

  predicate TagsDiffer(c: Config) {
    forall i, j | 0 <= i < j < |c.tags| :: c.tags[i] != c.tags[j]
  }

  lemma NamesDiffer(c: Config, i: nat, j: nat)
    requires TagsDiffer(c) && i < |c.tags| && j < |c.tags| && i != j
    ensures VnicName(c, i) != VnicName(c, j)
  {
    assert forall k | 0 <= k < |c.tags| :: VnicName(c, k)[..|c.tags[k]|] == c.tags[k];
    assert forall k | 0 <= k < |c.tags| :: |VnicName(c, k)| == |c.tags[k]| + 1;
  }

  /** The tags' interfaces can be created: their links are physical and their names free. */
  predicate TagsReady(net: Net, c: Config) {
    && TagsDiffer(c)
    && (forall i | 0 <= i < |c.tags| :: Iface(c, c.tags[i]) in net.macs)
    && (forall i | 0 <= i < |c.tags| :: !Exists(net, VnicName(c, i)))
  }

  /** Exactly the first n tags have got their interfaces. */
  predicate TagsAdded(before: Net, after: Net, c: Config, n: nat)
    requires n <= |c.tags|
  {
    && after.failed == before.failed
    && after.stubs == before.stubs
    && after.macs.Keys == before.macs.Keys
    && after.vnics.Keys == before.vnics.Keys + TagNames(c, n)
    && (forall v | v in before.vnics :: after.vnics[v] == before.vnics[v])
    && (forall i | 0 <= i < n :: after.vnics[VnicName(c, i)] == Iface(c, c.tags[i]))
  }

  lemma {:induction false} TagsUpAdds(s: State, c: Config, made: seq<string>, n: nat)
    requires n <= |c.tags| && n <= |made| && TagsReady(s.net, c)
    ensures TagsAdded(s.net, TagsUp(s, c, made, n).net, c, n)
    ensures TagsUp(s, c, made, n).preserve.Keys == s.preserve.Keys
    ensures TagsUp(s, c, made, n).adminActive == s.adminActive
    ensures TagsUp(s, c, made, n).opnsenseUp == s.opnsenseUp
  {
    hide TagUp, Exists, Iface, VnicName, TagsReady, TagsAdded;
    if n == 0 {
      NoneAdded(s.net, c);
    } else {
      TagsUpAdds(s, c, made, n - 1);
      TagUpAdds(s.net, TagsUp(s, c, made, n - 1), c, made[n - 1], n - 1);
    }
  }

  lemma NoneAdded(net: Net, c: Config)
    ensures TagsAdded(net, net, c, 0)
  {
  }

  /** All that one tag changes, when its name is free and its link there. */
  lemma TagUpIs(s: State, c: Config, tag: string, made: string)
    requires Iface(c, tag) in s.net.macs && !Exists(s.net, tag + "0")
    ensures var t, link, kept := TagUp(s, c, tag, made), Iface(c, tag), tag in s.preserve;
      && t.net == s.net.(vnics := s.net.vnics[tag + "0" := link],
                         macs := if kept then s.net.macs[link := made] else s.net.macs)
      && t.preserve == (if kept then s.preserve[tag := Changed(s.net.macs[link], made)] else s.preserve)
      && t == s.(net := t.net, preserve := t.preserve, adminNic := t.adminNic)
  {
  }

  lemma NewName(before: Net, after: Net, c: Config, i: nat)
    requires i < |c.tags| && TagsReady(before, c) && TagsAdded(before, after, c, i)
    ensures !Exists(after, VnicName(c, i)) && Iface(c, c.tags[i]) in after.macs
  {
    forall j | 0 <= j < i
      ensures VnicName(c, j) != VnicName(c, i)
    {
      NamesDiffer(c, j, i);
    }
  }

  lemma TagUpAdds(before: Net, s: State, c: Config, made: string, i: nat)
    requires i < |c.tags| && TagsReady(before, c) && TagsAdded(before, s.net, c, i)
    ensures TagsAdded(before, TagUp(s, c, c.tags[i], made).net, c, i + 1)
    ensures TagUp(s, c, c.tags[i], made).preserve.Keys == s.preserve.Keys
    ensures TagUp(s, c, c.tags[i], made).adminActive == s.adminActive
    ensures TagUp(s, c, c.tags[i], made).opnsenseUp == s.opnsenseUp
  {
    hide TagUp, Exists, Iface;
    NewName(before, s.net, c, i);
    TagUpIs(s, c, c.tags[i], made);
    assert TagNames(c, i + 1) == TagNames(c, i) + {VnicName(c, i)};
    OthersStay(before, c, i);
  }

  lemma OthersStay(before: Net, c: Config, i: nat)
    requires i < |c.tags| && TagsReady(before, c)
    ensures VnicName(c, i) !in before.vnics
    ensures forall j | 0 <= j < i :: VnicName(c, j) != VnicName(c, i)
  {
    forall j | 0 <= j < i
      ensures VnicName(c, j) != VnicName(c, i)
    {
      NamesDiffer(c, j, i);
    }
  }

  /** The last of the first n tags that changes the address of a link, or -1. */
  function LastOn(c: Config, kept: set<string>, link: string, n: nat): (last: int)
    requires n <= |c.tags|
    ensures -1 <= last < n
    ensures last >= 0 ==> c.tags[last] in kept && Iface(c, c.tags[last]) == link
    ensures forall i | last < i < n :: c.tags[i] in kept ==> Iface(c, c.tags[i]) != link
  {
    if n == 0 then -1
    else if c.tags[n - 1] in kept && Iface(c, c.tags[n - 1]) == link then n - 1
    else LastOn(c, kept, link, n - 1)
  }

  /** The address a link then has. */
  function MacAfter(
    macs: map<string, string>, c: Config, kept: set<string>, made: seq<string>, link: string, n: nat): string
    requires link in macs && n <= |c.tags| && n <= |made|
  {
    var last := LastOn(c, kept, link, n);
    if last < 0 then macs[link] else made[last]
  }

  /** Each link has its latest address, and each tag has noted the one before its own. */
  predicate MacsChanged(s: State, t: State, c: Config, made: seq<string>, n: nat)
    requires n <= |c.tags| && n <= |made| && TagsReady(s.net, c)
  {
    var kept := s.preserve.Keys;
    && t.net.macs.Keys == s.net.macs.Keys && t.preserve.Keys == kept
    && (forall link | link in s.net.macs :: t.net.macs[link] == MacAfter(s.net.macs, c, kept, made, link, n))
    && (forall i | 0 <= i < n && c.tags[i] in kept ::
         t.preserve[c.tags[i]] == Changed(MacAfter(s.net.macs, c, kept, made, Iface(c, c.tags[i]), i), made[i]))
  }

  lemma NoneChanged(s: State, c: Config, made: seq<string>)
    requires TagsReady(s.net, c)
    ensures MacsChanged(s, s, c, made, 0)
  {
    hide TagsReady;
  }

  lemma {:induction false} TagsUpChange(s: State, c: Config, made: seq<string>, n: nat)
    requires n <= |c.tags| && n <= |made| && TagsReady(s.net, c)
    ensures MacsChanged(s, TagsUp(s, c, made, n), c, made, n)
  {
    hide TagUp, Exists, Iface, VnicName, TagsAdded, MacsChanged, TagsReady;
    if n == 0 {
      NoneChanged(s, c, made);
    } else {
      TagsUpChange(s, c, made, n - 1);
      TagsUpAdds(s, c, made, n - 1);
      NewName(s.net, TagsUp(s, c, made, n - 1).net, c, n - 1);
      TagUpChanges(s, TagsUp(s, c, made, n - 1), c, made, n - 1);
    }
  }

  lemma TagUpChanges(s: State, t: State, c: Config, made: seq<string>, i: nat)
    requires i < |c.tags| && i < |made| && TagsReady(s.net, c) && MacsChanged(s, t, c, made, i)
    requires !Exists(t.net, VnicName(c, i))
    ensures MacsChanged(s, TagUp(t, c, c.tags[i], made[i]), c, made, i + 1)
  {
    hide TagUp, TagsAdded, Exists, Iface;
    TagUpIs(t, c, c.tags[i], made[i]);
  }

  /** Going down, each link gets back what the last of its tags has noted. */
  lemma {:induction false} TagsDownMacs(s: State, c: Config, n: nat, link: string)
    requires n <= |c.tags| && link in s.net.macs
    requires forall i | 0 <= i < |c.tags| :: Iface(c, c.tags[i]) in s.net.macs
    requires forall i | 0 <= i < |c.tags| && c.tags[i] in s.preserve :: s.preserve[c.tags[i]].Changed?
    ensures var t, last := TagsDown(s, c, n), LastOn(c, s.preserve.Keys, link, n);
      && t.net.macs.Keys == s.net.macs.Keys && t.preserve == s.preserve
      && t.net.macs[link] == if last < 0 then s.net.macs[link] else s.preserve[c.tags[last]].original
  {
    if n > 0 {
      hide TagDown, Iface;
      TagsDownMacs(s, c, n - 1, link);
      TagDownIs(TagsDown(s, c, n - 1), c, c.tags[n - 1]);
    }
  }

  lemma TagDownIs(s: State, c: Config, tag: string)
    requires Iface(c, tag) in s.net.macs && (tag in s.preserve ==> s.preserve[tag].Changed?)
    ensures var t, link := TagDown(s, c, tag), Iface(c, tag);
      && t.net.vnics == s.net.vnics - {tag + "0"} && t.net.stubs == s.net.stubs
      && t.net.macs == (if tag in s.preserve then s.net.macs[link := s.preserve[tag].original] else s.net.macs)
      && t.net.failed == (s.net.failed || tag + "0" !in s.net.vnics)
      && t == s.(net := t.net)
  {
    assert tag + "0" !in s.net.vnics ==> s.net.vnics - {tag + "0"} == s.net.vnics;
  }

  /** And exactly the tags' interfaces go. */
  lemma {:induction false} TagsDownRemoves(s: State, c: Config, n: nat)
    requires n <= |c.tags| && TagsDiffer(c) && TagNames(c, |c.tags|) <= s.net.vnics.Keys
    requires forall i | 0 <= i < |c.tags| :: Iface(c, c.tags[i]) in s.net.macs
    requires forall i | 0 <= i < |c.tags| && c.tags[i] in s.preserve :: s.preserve[c.tags[i]].Changed?
    ensures var t := TagsDown(s, c, n);
      && t.net == s.net.(vnics := s.net.vnics - TagNames(c, n), macs := t.net.macs)
      && t.net.macs.Keys == s.net.macs.Keys
      && t == s.(net := t.net)
  {
    hide TagDown, Iface;
    if n > 0 {
      TagsDownRemoves(s, c, n - 1);
      TagDownIs(TagsDown(s, c, n - 1), c, c.tags[n - 1]);
      forall j | 0 <= j < n - 1
        ensures VnicName(c, j) != VnicName(c, n - 1)
      {
        NamesDiffer(c, j, n - 1);
      }
      assert VnicName(c, n - 1) in TagNames(c, |c.tags|);
      assert TagNames(c, n) == TagNames(c, n - 1) + {VnicName(c, n - 1)};
    } else {
      assert s.net.vnics - TagNames(c, 0) == s.net.vnics;
    }
  }

  function Stubs(c: Config, n: nat): set<string>
    requires n <= |c.etherstubs|
  {
    set i | 0 <= i < n :: c.etherstubs[i]
  }

  predicate StubsDiffer(c: Config) {
    forall i, j | 0 <= i < j < |c.etherstubs| :: c.etherstubs[i] != c.etherstubs[j]
  }

  lemma {:induction false} StubsUpIs(net: Net, c: Config, n: nat)
    requires n <= |c.etherstubs| && StubsDiffer(c)
    requires forall i | 0 <= i < |c.etherstubs| :: !Exists(net, c.etherstubs[i])
    ensures StubsUp(net, c, n) == net.(stubs := net.stubs + Stubs(c, n))
  {
    if n > 0 {
      StubsUpIs(net, c, n - 1);
      assert Stubs(c, n) == Stubs(c, n - 1) + {c.etherstubs[n - 1]};
    }
  }

  lemma {:induction false} StubsDownIs(net: Net, c: Config, n: nat)
    requires n <= |c.etherstubs| && StubsDiffer(c)
    requires forall i | 0 <= i < |c.etherstubs| :: c.etherstubs[i] in net.stubs && c.etherstubs[i] !in net.vnics.Values
    ensures StubsDown(net, c, n) == net.(stubs := net.stubs - Stubs(c, n))
  {
    if n > 0 {
      StubsDownIs(net, c, n - 1);
      assert Stubs(c, n) == Stubs(c, n - 1) + {c.etherstubs[n - 1]};
    }
  }

  predicate AdminCreated(c: Config) {
    c.adminVlan.Some? || c.adminIface == "etherstub"
  }

  function AdminLink(s: State, c: Config): string {
    if c.adminIface == "etherstub" then s.adminNic else c.adminIface
  }

  /** The names that nicsup makes are free, and what it puts interfaces on is there. */
  predicate UpReady(s: State, c: Config) {
    && !s.up && !s.net.failed
    && TagsReady(s.net, c) && StubsDiffer(c)
    && !Exists(s.net, "admin0") && "admin" !in c.tags && "admin0" !in c.etherstubs
    && (forall i | 0 <= i < |c.etherstubs| :: !Exists(s.net, c.etherstubs[i]))
    && (forall i, j | 0 <= i < |c.etherstubs| && 0 <= j < |c.tags| :: c.etherstubs[i] != VnicName(c, j))
    && s.net.vnics.Values <= s.net.macs.Keys + s.net.stubs
    && (c.adminIface == "etherstub" ==> s.adminNic in s.net.stubs || s.adminNic in c.etherstubs)
    && (c.adminIface != "etherstub" && c.adminVlan.Some? ==> c.adminIface in s.net.macs)
  }

  /** nicsup makes admin0 for VLAN 0 on a physical link, and nicsdown leaves it. */
  predicate Leaks(c: Config) {
    AdminCreated(c) && !AdminDeleted(c)
  }

  /** The state when the tags' turn comes. */
  function Begun(s: State, c: Config): State {
    AdminUp(s.(net := StubsUp(s.net, c, |c.etherstubs|)), c)
  }

  function WithAdmin(s: State, c: Config): map<string, string> {
    if AdminCreated(c) then s.net.vnics["admin0" := AdminLink(s, c)] else s.net.vnics
  }

  lemma BegunIs(s: State, c: Config)
    requires UpReady(s, c)
    ensures Begun(s, c).net == s.net.(stubs := s.net.stubs + Stubs(c, |c.etherstubs|), vnics := WithAdmin(s, c))
    ensures AdminCreated(c) ==> Begun(s, c).adminActive == "admin0"
    ensures Begun(s, c).preserve == s.preserve && Begun(s, c).opnsenseUp == s.opnsenseUp
    ensures TagsReady(Begun(s, c).net, c)
  {
    hide VnicName, Iface;
    StubsUpIs(s.net, c, |c.etherstubs|);
    assert "admin0" !in Stubs(c, |c.etherstubs|);
    forall j | 0 <= j < |c.tags|
      ensures VnicName(c, j) != "admin0"
    {
      NotAdmin(c, j);
    }
  }

  lemma NotAdmin(c: Config, j: nat)
    requires j < |c.tags| && "admin" !in c.tags
    ensures VnicName(c, j) != "admin0"
  {
    assert VnicName(c, j)[..|c.tags[j]|] == c.tags[j];
    assert "admin0"[..5] == "admin";
    assert |VnicName(c, j)| == |c.tags[j]| + 1;
  }

  /** What one round of nicsup and nicsdown leaves. */
  predicate Cycled(s: State, t: State, c: Config) {
    && !t.up && !t.net.failed && t.opnsenseUp == s.opnsenseUp
    && t.net.stubs == s.net.stubs
    && t.net.vnics == (if Leaks(c) then WithAdmin(s, c) else s.net.vnics)
    && t.net.macs.Keys == s.net.macs.Keys
  }

  lemma AddedThenRemoved(before: Net, after: Net, c: Config)
    requires TagsReady(before, c) && TagsAdded(before, after, c, |c.tags|)
    ensures TagNames(c, |c.tags|) <= after.vnics.Keys
    ensures after.vnics - TagNames(c, |c.tags|) == before.vnics
    ensures "admin" !in c.tags ==>
      && TagNames(c, |c.tags|) <= (after.vnics - {"admin0"}).Keys
      && (after.vnics - {"admin0"}) - TagNames(c, |c.tags|) == before.vnics - {"admin0"}
  {
    hide Iface;
    if "admin" !in c.tags {
      forall j | 0 <= j < |c.tags|
        ensures VnicName(c, j) != "admin0"
      {
        NotAdmin(c, j);
      }
    }
  }

  /** The running interfaces, before admin0 goes and then the tags'. */
  lemma UpIs(s: State, c: Config, made: seq<string>)
    requires UpReady(s, c) && |made| == |c.tags|
    ensures var u, b := Up(s, c, made), Begun(s, c);
      && u.up && !u.net.failed && u.opnsenseUp == s.opnsenseUp && u.adminActive == b.adminActive
      && TagsReady(b.net, c) && TagsAdded(b.net, u.net, c, |c.tags|) && MacsChanged(b, u, c, made, |c.tags|)
  {
    hide VnicName, Iface, Exists, MacsChanged, TagsAdded, TagsReady;
    BegunIs(s, c);
    TagsUpAdds(Begun(s, c), c, made, |c.tags|);
    TagsUpChange(Begun(s, c), c, made, |c.tags|);
    FlagOnly(Begun(s, c), TagsUp(Begun(s, c), c, made, |c.tags|), c, made);
  }

  lemma FlagOnly(b: State, u: State, c: Config, made: seq<string>)
    requires TagsReady(b.net, c) && |made| == |c.tags| && MacsChanged(b, u, c, made, |c.tags|)
    requires TagsAdded(b.net, u.net, c, |c.tags|)
    ensures MacsChanged(b, u.(up := true), c, made, |c.tags|)
    ensures u.net.failed == b.net.failed
  {
    hide VnicName, Iface, Exists;
  }

  /** The running node has the etherstubs, admin0 for a VLAN or an etherstub, an interface for each tag on
      the tag's link, and what it had before. */
  lemma UpInterfaces(s: State, c: Config, made: seq<string>)
    requires UpReady(s, c) && |made| == |c.tags|
    ensures var u := Up(s, c, made).net;
      && !u.failed && u.stubs == s.net.stubs + (set i | 0 <= i < |c.etherstubs| :: c.etherstubs[i])
      && (forall i | 0 <= i < |c.tags| :: c.tags[i] + "0" in u.vnics && u.vnics[c.tags[i] + "0"] == Iface(c, c.tags[i]))
      && (c.adminVlan.Some? || c.adminIface == "etherstub" ==>
            "admin0" in u.vnics
            && u.vnics["admin0"] == if c.adminIface == "etherstub" then s.adminNic else c.adminIface)
      && (forall v | v in s.net.vnics :: v in u.vnics && u.vnics[v] == s.net.vnics[v])
  {
    hide Iface, Exists, TagsReady, MacsChanged, UpReady;
    BegunIs(s, c);
    UpIs(s, c, made);
    AdminIsOver(s, c);
    hide Up, Begun;
    assert forall i | 0 <= i < |c.tags| :: VnicName(c, i) == c.tags[i] + "0";
  }

  lemma AdminIsOver(s: State, c: Config)
    requires UpReady(s, c)
    ensures forall v | v in s.net.vnics :: v in WithAdmin(s, c) && WithAdmin(s, c)[v] == s.net.vnics[v]
  {
    hide TagsReady, VnicName;
  }

  /** nicsdown without its etherstubs. */
  function Ended(u: State, c: Config): State {
    TagsDown(AdminDown(u, c), c, |c.tags|)
  }

  lemma AdminDownIs(b: State, u: State, c: Config)
    requires TagsReady(b.net, c) && TagsAdded(b.net, u.net, c, |c.tags|)
    requires AdminCreated(c) ==> u.adminActive == "admin0" && "admin0" in b.net.vnics
    ensures AdminDown(u, c) == if AdminDeleted(c) then u.(net := u.net.(vnics := u.net.vnics - {"admin0"})) else u
  {
    hide VnicName, Iface, Exists;
  }

  lemma EndedIs(s: State, c: Config, made: seq<string>)
    requires UpReady(s, c) && |made| == |c.tags|
    ensures var u := Up(s, c, made); var e := Ended(u, c);
      && e.net.vnics == (if Leaks(c) then WithAdmin(s, c) else s.net.vnics)
      && e.net.stubs == s.net.stubs + Stubs(c, |c.etherstubs|) && !e.net.failed
      && e.net.macs.Keys == s.net.macs.Keys && e.opnsenseUp == s.opnsenseUp
  {
    hide VnicName, Iface, Exists;
    var u, b := Up(s, c, made), Begun(s, c);
    BegunIs(s, c);
    UpIs(s, c, made);
    hide Up, Begun;
    AdminDownIs(b, u, c);
    AddedThenRemoved(b.net, u.net, c);
    TagsDownRemoves(AdminDown(u, c), c, |c.tags|);
    assert WithAdmin(s, c) - {"admin0"} == s.net.vnics by { AdminIsNew(s, c); }
  }

  lemma AdminIsNew(s: State, c: Config)
    requires UpReady(s, c)
    ensures WithAdmin(s, c) - {"admin0"} == s.net.vnics
  {
    hide TagsReady, VnicName;
  }

  lemma StubsUnused(s: State, c: Config)
    requires UpReady(s, c)
    ensures var vnics := if Leaks(c) then WithAdmin(s, c) else s.net.vnics;
      forall i | 0 <= i < |c.etherstubs| :: c.etherstubs[i] !in vnics.Values
    ensures s.net.stubs + Stubs(c, |c.etherstubs|) - Stubs(c, |c.etherstubs|) == s.net.stubs
  {
    hide TagsReady, VnicName;
  }

  lemma CycleKeeps(s: State, c: Config, made: seq<string>)
    requires UpReady(s, c) && |made| == |c.tags|
    ensures Cycled(s, Down(Up(s, c, made), c), c)
  {
    hide VnicName, Iface, TagsReady, MacsChanged, TagsAdded;
    var u := Up(s, c, made);
    UpIs(s, c, made);
    EndedIs(s, c, made);
    var e := Ended(u, c);
    hide Up, Begun, Ended;
    StubsUnused(s, c);
    StubsDownIs(e.net, c, |c.etherstubs|);
  }

  lemma {:induction false} StubsDownMacs(net: Net, c: Config, n: nat)
    requires n <= |c.etherstubs|
    ensures StubsDown(net, c, n).macs == net.macs
  {
    if n > 0 {
      StubsDownMacs(net, c, n - 1);
    }
  }

  /** A link ends with the address it had before its last tag changed it. */
  lemma CycleMac(s: State, c: Config, made: seq<string>, link: string)
    requires UpReady(s, c) && |made| == |c.tags| && link in s.net.macs
    ensures var r, last := Down(Up(s, c, made), c), LastOn(c, s.preserve.Keys, link, |c.tags|);
      link in r.net.macs && r.net.macs[link] ==
        if last < 0 then s.net.macs[link] else MacAfter(s.net.macs, c, s.preserve.Keys, made, link, last)
  {
    hide VnicName, Iface, Exists;
    var u, b := Up(s, c, made), Begun(s, c);
    BegunIs(s, c);
    UpIs(s, c, made);
    hide Up, Begun;
    AdminDownIs(b, u, c);
    var d := AdminDown(u, c);
    assert d.net.macs == u.net.macs && d.preserve == u.preserve;
    TagsDownMacs(d, c, |c.tags|, link);
    StubsDownMacs(TagsDown(d, c, |c.tags|).net, c, |c.etherstubs|);
  }

  predicate CycleReady(s: State, c: Config) {
    && UpReady(s, c) && !s.opnsenseUp
    && !Exists(s.net, "opnsense0") && "opnsense" !in c.tags && "opnsense0" !in c.etherstubs
    && Iface(c, "external") in s.net.macs
    && (c.opnsenseMacType.Node? ==> c.opnsenseMac == s.net.macs[Iface(c, "external")])
  }

  /** Two tags that preserve their address share a link that OPNsense's procedures do not restore. */
  predicate Shared(c: Config, kept: set<string>) {
    exists i, j | 0 <= i < j < |c.tags| ::
      && c.tags[i] in kept && c.tags[j] in kept
      && Iface(c, c.tags[i]) == Iface(c, c.tags[j])
      && (c.opnsenseMacType.Node? ==> Iface(c, c.tags[i]) != Iface(c, "external"))
  }

  function Cycle(s: State, c: Config, made: seq<string>, opnsenseMade: string): State
    requires |made| == |c.tags|
  {
    OpnsenseDown(Down(Up(OpnsenseUp(s, c, opnsenseMade), c, made), c), c)
  }

  /** OPNsense's interface is made on the link of its tag, whose own address gives way only to that of the
      node. */
  lemma OpnsenseUpIs(s: State, c: Config, made: string)
    requires CycleReady(s, c)
    ensures var t, link := OpnsenseUp(s, c, made), Iface(c, "external");
      && t.net.vnics == s.net.vnics["opnsense0" := link] && t.net.stubs == s.net.stubs && !t.net.failed
      && t.net.macs == (if c.opnsenseMacType.Node? then s.net.macs[link := made] else s.net.macs)
      && t.preserve.Keys <= s.preserve.Keys + {"opnsense"} && s.preserve.Keys <= t.preserve.Keys
      && t.opnsenseUp && t.up == s.up && t.adminNic == s.adminNic
  {
    hide UpReady, Iface;
    assert !s.net.failed by { assert UpReady(s, c); NotFailed(s, c); }
  }

  lemma NotFailed(s: State, c: Config)
    requires UpReady(s, c)
    ensures !s.net.failed
  {
  }

  lemma NotOpnsense(c: Config, j: nat)
    requires j < |c.tags| && "opnsense" !in c.tags
    ensures VnicName(c, j) != "opnsense0"
  {
    assert VnicName(c, j)[..|c.tags[j]|] == c.tags[j];
    assert "opnsense0"[..8] == "opnsense";
    assert |VnicName(c, j)| == |c.tags[j]| + 1;
  }

  lemma StillReady(s: State, c: Config, made: string)
    requires CycleReady(s, c)
    ensures UpReady(OpnsenseUp(s, c, made), c)
  {
    OpnsenseUpIs(s, c, made);
    hide OpnsenseUp, VnicName, Iface;
    var t := OpnsenseUp(s, c, made);
    assert t.net.macs.Keys == s.net.macs.Keys;
    assert t.net.vnics.Values <= s.net.vnics.Values + {Iface(c, "external")};
    forall j | 0 <= j < |c.tags|
      ensures VnicName(c, j) != "opnsense0"
    {
      NotOpnsense(c, j);
    }
  }

  lemma {:induction false} LastOnSame(c: Config, kept: set<string>, more: set<string>, link: string, n: nat)
    requires n <= |c.tags|
    requires forall i | 0 <= i < |c.tags| :: c.tags[i] in kept <==> c.tags[i] in more
    ensures LastOn(c, kept, link, n) == LastOn(c, more, link, n)
  {
    if n > 0 {
      LastOnSame(c, kept, more, link, n - 1);
    }
  }

  lemma WithoutOpnsense(s: State, c: Config)
    requires CycleReady(s, c)
    ensures (if Leaks(c) then WithAdmin(s, c) else s.net.vnics)["opnsense0" := Iface(c, "external")] - {"opnsense0"} ==
      if Leaks(c) then WithAdmin(s, c) else s.net.vnics
  {
    hide UpReady, Iface;
  }

  /** All four procedures in turn: no command fails, so no etherstub is deleted under an interface,
      and no etherstub is left; all interfaces are as before unless admin0 leaks. */
  lemma CycleRestores(s: State, c: Config, made: seq<string>, opnsenseMade: string)
    requires CycleReady(s, c) && |made| == |c.tags|
    ensures var r := Cycle(s, c, made, opnsenseMade);
      && !r.net.failed && !r.up && !r.opnsenseUp
      && r.net.stubs == s.net.stubs
      && r.net.vnics == (if Leaks(c) then WithAdmin(s, c) else s.net.vnics)
      && (r.net.vnics == s.net.vnics <==> !Leaks(c))
  {
    hide Iface, VnicName, TagsReady;
    var t := OpnsenseUp(s, c, opnsenseMade);
    OpnsenseUpIs(s, c, opnsenseMade);
    StillReady(s, c, opnsenseMade);
    CycleKeeps(t, c, made);
    hide OpnsenseUp, Up, Down;
    WithoutOpnsense(s, c);
    AdminIsNew(s, c);
  }

  /** The link whose address is OPNsense's for a while. */
  predicate Swapped(c: Config, link: string) {
    c.opnsenseMacType.Node? && link == Iface(c, "external")
  }

  lemma CycleMacs(s: State, c: Config, made: seq<string>, opnsenseMade: string, link: string)
    requires CycleReady(s, c) && |made| == |c.tags| && link in s.net.macs
    ensures var r, last := Cycle(s, c, made, opnsenseMade), LastOn(c, s.preserve.Keys, link, |c.tags|);
      && r.net.macs.Keys == s.net.macs.Keys
      && r.net.macs[link] == if last < 0 || Swapped(c, link) then s.net.macs[link]
                             else MacAfter(s.net.macs, c, s.preserve.Keys, made, link, last)
  {
    hide UpReady, Iface, VnicName, TagsReady, Exists;
    var t := OpnsenseUp(s, c, opnsenseMade);
    OpnsenseUpIs(s, c, opnsenseMade);
    StillReady(s, c, opnsenseMade);
    CycleKeeps(t, c, made);
    CycleMac(t, c, made, link);
    hide OpnsenseUp, Up, Down;
    var last := LastOn(c, t.preserve.Keys, link, |c.tags|);
    LastOnSame(c, s.preserve.Keys, t.preserve.Keys, link, |c.tags|);
    if last >= 0 {
      LastOnSame(c, s.preserve.Keys, t.preserve.Keys, link, last);
    }
  }

  /** Every physical address is restored exactly when no two tags that preserve theirs share a link. */
  lemma CycleRestoresMacs(s: State, c: Config, made: seq<string>, opnsenseMade: string)
    requires CycleReady(s, c) && |made| == |c.tags|
    requires forall i | 0 <= i < |made| :: made[i] !in s.net.macs.Values
    ensures Cycle(s, c, made, opnsenseMade).net.macs == s.net.macs <==> !Shared(c, s.preserve.Keys)
  {
    hide CycleReady, Cycle, Iface;
    var r, kept := Cycle(s, c, made, opnsenseMade), s.preserve.Keys;
    assert r.net.macs.Keys == s.net.macs.Keys by { CycleKeys(s, c, made, opnsenseMade); }
    forall link | link in s.net.macs
      ensures r.net.macs[link] == s.net.macs[link] <==> !SharedOn(c, kept, link)
    {
      CycleMacs(s, c, made, opnsenseMade, link);
      LastTwo(c, kept, link);
    }
    if Shared(c, kept) {
      var i, j :| 0 <= i < j < |c.tags|
        && c.tags[i] in kept && c.tags[j] in kept && Iface(c, c.tags[i]) == Iface(c, c.tags[j])
        && (c.opnsenseMacType.Node? ==> Iface(c, c.tags[i]) != Iface(c, "external"));
      assert SharedOn(c, kept, Iface(c, c.tags[i]));
      LinksThere(s, c, i);
    } else {
      assert r.net.macs == s.net.macs;
    }
  }

  predicate SharedOn(c: Config, kept: set<string>, link: string) {
    !Swapped(c, link) && exists i, j | 0 <= i < j < |c.tags| ::
      c.tags[i] in kept && c.tags[j] in kept && Iface(c, c.tags[i]) == link && Iface(c, c.tags[j]) == link
  }

  lemma CycleKeys(s: State, c: Config, made: seq<string>, opnsenseMade: string)
    requires CycleReady(s, c) && |made| == |c.tags|
    ensures Cycle(s, c, made, opnsenseMade).net.macs.Keys == s.net.macs.Keys
  {
    CycleMacs(s, c, made, opnsenseMade, Iface(c, "external"));
  }

  lemma LinksThere(s: State, c: Config, i: nat)
    requires CycleReady(s, c) && i < |c.tags|
    ensures Iface(c, c.tags[i]) in s.net.macs
  {
  }

  lemma LastTwo(c: Config, kept: set<string>, link: string)
    ensures var last := LastOn(c, kept, link, |c.tags|);
      SharedOn(c, kept, link) <==> !Swapped(c, link) && last >= 0 && LastOn(c, kept, link, last) >= 0
  {
    hide Iface, Swapped;
    var last := LastOn(c, kept, link, |c.tags|);
    if last >= 0 {
      var first := LastOn(c, kept, link, last);
    }
  }

  /** The prompt offers to preserve the address of the tag "external" only: then nothing is shared. */
  lemma PromptedRestores(s: State, c: Config, made: seq<string>, opnsenseMade: string)
    requires CycleReady(s, c) && |made| == |c.tags| && s.preserve.Keys <= {"external"}
    requires forall i | 0 <= i < |made| :: made[i] !in s.net.macs.Values
    requires c.adminVlan.Some? ==> 1 <= c.adminVlan.value <= 4095
    ensures var r := Cycle(s, c, made, opnsenseMade);
      r.net == s.net && !r.up && !r.opnsenseUp
  {
    hide Cycle, Iface;
    CycleRestores(s, c, made, opnsenseMade);
    CycleRestoresMacs(s, c, made, opnsenseMade);
    assert TagsDiffer(c);
    assert !Shared(c, s.preserve.Keys);
  }

  /** Calling any of the four again changes nothing. */
  lemma AgainIsNothing(s: State, c: Config, made: seq<string>, more: seq<string>, opnsenseMade: string, again: string)
    requires |made| == |c.tags| == |more|
    ensures Up(Up(s, c, made), c, more) == Up(s, c, made)
    ensures Down(Down(s, c), c) == Down(s, c)
    ensures OpnsenseUp(OpnsenseUp(s, c, opnsenseMade), c, again) == OpnsenseUp(s, c, opnsenseMade)
    ensures OpnsenseDown(OpnsenseDown(s, c), c) == OpnsenseDown(s, c)
  {
  }

  /** Two tags on one link, and VLAN 0 for the admin network. */
  function SharedConfig(): Config {
    Config([], "igb0", Some(0), ["external", "storage"], map["external" := "igb0", "storage" := "igb0"], Auto, "")
  }

  function SharedState(): State {
    State(Net(map[], {}, map["igb0" := "0:1:2:3:4:5"], false), "0:1:2:3:4:5", "",
          map["external" := Wanted, "storage" := Wanted], false, false)
  }

  lemma SharedIsReady()
    ensures CycleReady(SharedState(), SharedConfig())
    ensures Shared(SharedConfig(), SharedState().preserve.Keys) && Leaks(SharedConfig())
  {
    var s, c := SharedState(), SharedConfig();
    assert VnicName(c, 0) == "external0" && VnicName(c, 1) == "storage0";
    assert c.tags[0] == "external" && c.tags[1] == "storage";
    assert "external"[0] == 'e' && "storage"[0] == 's' && "admin"[0] == 'a' && "opnsense"[0] == 'o' && "igb0"[0] == 'i';
    assert Iface(c, c.tags[0]) == Iface(c, c.tags[1]) == "igb0";
  }

  /** There is such a node, and it gets neither its address nor its interfaces back. */
  lemma SharedIsNotRestored(made: seq<string>, opnsenseMade: string)
    requires |made| == 2 && made[0] != "0:1:2:3:4:5" && made[1] != "0:1:2:3:4:5"
    ensures var s := SharedState(); var r := Cycle(s, SharedConfig(), made, opnsenseMade);
      !r.net.failed && r.net.macs != s.net.macs && r.net.vnics != s.net.vnics
  {
    hide CycleReady, Shared, Leaks, Cycle;
    SharedIsReady();
    CycleRestores(SharedState(), SharedConfig(), made, opnsenseMade);
    CycleRestoresMacs(SharedState(), SharedConfig(), made, opnsenseMade);
  }
}
