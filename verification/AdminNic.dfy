/** The address by which the system will find the admin interface. */
module AdminNic {
  import opened Links
  import opened LinkCycle

  /** No two links have one address. */
  predicate Different(macs: map<string, string>) {
    forall a, b | a in macs && b in macs && a != b :: macs[a] != macs[b]
  }

  /** Generated addresses are new and differ from one another. */
  predicate Generated(made: seq<string>, macs: map<string, string>) {
    && (forall i | 0 <= i < |made| :: made[i] !in macs.Values)
    && (forall i, j | 0 <= i < j < |made| :: made[i] != made[j])
  }

  lemma AddressesDiffer(
    macs: map<string, string>, c: Config, kept: set<string>, made: seq<string>, a: string, b: string, n: nat)
    requires Different(macs) && Generated(made, macs) && a in macs && b in macs && a != b
    requires n <= |c.tags| && n <= |made|
    ensures MacAfter(macs, c, kept, made, a, n) != MacAfter(macs, c, kept, made, b, n)
  {
    hide Iface;
    var i, j := LastOn(c, kept, a, n), LastOn(c, kept, b, n);
    if i >= 0 && j >= 0 {
      assert i != j;
    }
  }

  /** admin_nic follows its link through every change. */
  lemma {:induction false} TagsUpFollow(s: State, c: Config, made: seq<string>, n: nat, link: string)
    requires n <= |c.tags| && n <= |made| && TagsReady(s.net, c)
    requires Different(s.net.macs) && Generated(made, s.net.macs)
    requires link in s.net.macs && s.adminNic == s.net.macs[link]
    ensures TagsUp(s, c, made, n).adminNic == MacAfter(s.net.macs, c, s.preserve.Keys, made, link, n)
  {
    hide TagsReady, Different, Generated, MacsChanged, TagsAdded, VnicName, Exists;
    if n > 0 {
      var t, tag := TagsUp(s, c, made, n - 1), c.tags[n - 1];
      TagsUpFollow(s, c, made, n - 1, link);
      TagsUpChange(s, c, made, n - 1);
      TagFollows(s, t, c, made, n - 1, link);
    }
  }

  lemma TagFollows(s: State, t: State, c: Config, made: seq<string>, i: nat, link: string)
    requires i < |c.tags| && i < |made| && TagsReady(s.net, c) && MacsChanged(s, t, c, made, i)
    requires Different(s.net.macs) && Generated(made, s.net.macs) && link in s.net.macs
    requires t.adminNic == MacAfter(s.net.macs, c, s.preserve.Keys, made, link, i)
    ensures TagUp(t, c, c.tags[i], made[i]).adminNic == MacAfter(s.net.macs, c, s.preserve.Keys, made, link, i + 1)
  {
    hide Different, Generated, Exists, Iface, VnicName, CreateVnic;
    var own := Iface(c, c.tags[i]);
    if own != link {
      AddressesDiffer(s.net.macs, c, s.preserve.Keys, made, own, link, i);
    }
  }

  /** Where the admin interface is on no physical link, nothing is followed. */
  lemma {:induction false} TagsUpKeep(s: State, c: Config, made: seq<string>, n: nat)
    requires n <= |c.tags| && n <= |made| && TagsReady(s.net, c)
    requires s.adminNic !in s.net.macs.Values && s.adminNic !in made
    ensures TagsUp(s, c, made, n).adminNic == s.adminNic
  {
    hide TagsReady, MacsChanged, TagsAdded, VnicName, Exists;
    if n > 0 {
      TagsUpKeep(s, c, made, n - 1);
      TagsUpChange(s, c, made, n - 1);
      TagKeeps(s, TagsUp(s, c, made, n - 1), c, made, n - 1);
    }
  }

  lemma TagKeeps(s: State, t: State, c: Config, made: seq<string>, i: nat)
    requires i < |c.tags| && i < |made| && TagsReady(s.net, c) && MacsChanged(s, t, c, made, i)
    requires s.adminNic !in s.net.macs.Values && s.adminNic !in made && t.adminNic == s.adminNic
    ensures TagUp(t, c, c.tags[i], made[i]).adminNic == s.adminNic
  {
    hide Exists, Iface, VnicName, CreateVnic;
    var own := Iface(c, c.tags[i]);
    assert own in t.net.macs && (t.net.macs[own] in s.net.macs.Values || t.net.macs[own] in made);
  }

  /** After nicsup admin_nic is the address that its link has then, with any number of tags on it; where no
      tag that preserves its address is on the link, it is as before. */
  lemma UpFollows(s: State, c: Config, made: seq<string>, link: string)
    requires UpReady(s, c) && |made| == |c.tags|
    requires Different(s.net.macs) && Generated(made, s.net.macs)
    requires link in s.net.macs && s.adminNic == s.net.macs[link]
    ensures var u := Up(s, c, made); link in u.net.macs && u.adminNic == u.net.macs[link]
    ensures (forall i | 0 <= i < |c.tags| && c.tags[i] in s.preserve :: Iface(c, c.tags[i]) != link) ==>
      Up(s, c, made).adminNic == s.adminNic
  {
    hide TagsReady, Different, Generated, TagsAdded, VnicName, Exists, Iface;
    var b := Begun(s, c);
    BegunIs(s, c);
    assert b.adminNic == s.adminNic && b.net.macs == s.net.macs && b.preserve == s.preserve;
    UpIs(s, c, made);
    TagsUpFollow(b, c, made, |c.tags|, link);
  }

  /** The same without a physical link, as on an etherstub. */
  lemma UpKeeps(s: State, c: Config, made: seq<string>)
    requires UpReady(s, c) && |made| == |c.tags|
    requires s.adminNic !in s.net.macs.Values && s.adminNic !in made
    ensures Up(s, c, made).adminNic == s.adminNic
  {
    hide TagsReady, VnicName, Exists, Iface;
    BegunIs(s, c);
    TagsUpKeep(Begun(s, c), c, made, |c.tags|);
  }

  /** What is written as admin_nic in the end: where OPNsense has taken the address, the one it left. */
  function Written(s: State): string {
    if "opnsense" in s.preserve && s.preserve["opnsense"].Changed? && s.preserve["opnsense"].original == s.adminNic
    then s.preserve["opnsense"].generated
    else s.adminNic
  }

  /** The addresses to be changed when the node starts, written as change_mac. */
  predicate Renames(s: State, original: string, generated: string) {
    Changed(original, generated) in s.preserve.Values
  }

  /** Nothing is preserved by the tags. */
  lemma {:induction false} TagsUpIdle(s: State, c: Config, made: seq<string>, n: nat)
    requires n <= |c.tags| && n <= |made| && forall tag | tag in c.tags :: tag !in s.preserve
    ensures var t := TagsUp(s, c, made, n); t.adminNic == s.adminNic && t.preserve == s.preserve
  {
    hide CreateVnic;
    if n > 0 {
      TagsUpIdle(s, c, made, n - 1);
    }
  }

  lemma {:induction false} TagsDownIdle(s: State, c: Config, n: nat)
    requires n <= |c.tags|
    ensures var t := TagsDown(s, c, n); t.adminNic == s.adminNic && t.preserve == s.preserve
  {
    if n > 0 {
      TagsDownIdle(s, c, n - 1);
    }
  }

  lemma CycleKeepsNotes(s: State, c: Config, made: seq<string>, opnsenseMade: string)
    requires |made| == |c.tags|
    ensures var r, u := Cycle(s, c, made, opnsenseMade), Up(OpnsenseUp(s, c, opnsenseMade), c, made);
      r.adminNic == u.adminNic && r.preserve == u.preserve
  {
    hide OpnsenseUp, Up, TagsDown, StubsDown, DeleteVnic;
    var u := Up(OpnsenseUp(s, c, opnsenseMade), c, made);
    TagsDownIdle(AdminDown(u, c), c, |c.tags|);
  }

  /** The answers of the prompts: at most the tag "external" preserves its address, and not if OPNsense is
      to have it. */
  predicate Prompted(s: State, c: Config) {
    && s.preserve.Keys <= {"external"} && s.preserve.Values <= {Wanted}
    && (c.opnsenseMacType.Node? ==> s.preserve == map[])
  }

  lemma NodeRenames(s: State, c: Config, made: seq<string>, opnsenseMade: string)
    requires CycleReady(s, c) && |made| == |c.tags| && Prompted(s, c) && c.opnsenseMacType.Node?
    ensures var u := Up(OpnsenseUp(s, c, opnsenseMade), c, made);
      u.adminNic == s.adminNic && u.preserve == map["opnsense" := Changed(c.opnsenseMac, opnsenseMade)]
  {
    hide TagsReady, VnicName, Exists, Iface, StubsUp, CreateVnic, SetMac;
    var t := OpnsenseUp(s, c, opnsenseMade);
    TagsUpIdle(Begun(t, c), c, made, |c.tags|);
  }

  lemma TagRenames(s: State, c: Config, made: seq<string>, i: nat)
    requires UpReady(s, c) && |made| == |c.tags| && s.preserve.Keys <= {"external"} && i < |c.tags|
    requires c.tags[i] == "external" && "external" in s.preserve
    ensures var u, link := Up(s, c, made), Iface(c, "external");
      link in s.net.macs && u.preserve == map["external" := Changed(s.net.macs[link], made[i])]
      && forall other | other in s.net.macs ::
           other in u.net.macs && u.net.macs[other] == if other == link then made[i] else s.net.macs[other]
  {
    hide TagsAdded, VnicName, Exists, Iface, Up, Begun, LastOn, TagsReady, UpReady;
    assert s.preserve.Keys == {"external"};
    BegunIs(s, c);
    UpIs(s, c, made);
    BegunKeepsMacs(s, c);
    forall other | other in s.net.macs
      ensures LastOn(c, {"external"}, other, |c.tags|) == if other == Iface(c, "external") then i else -1
      ensures LastOn(c, {"external"}, other, i) == -1
    {
      LastOnExternal(c, i, other);
    }
  }

  lemma BegunKeepsMacs(s: State, c: Config)
    requires UpReady(s, c)
    ensures Begun(s, c).net.macs == s.net.macs
    ensures TagsDiffer(c)
    ensures forall i | 0 <= i < |c.tags| :: Iface(c, c.tags[i]) in s.net.macs
  {
    hide Begun, Iface, VnicName;
    BegunIs(s, c);
  }

  lemma LastOnExternal(c: Config, i: nat, link: string)
    requires TagsDiffer(c) && i < |c.tags| && c.tags[i] == "external"
    ensures LastOn(c, {"external"}, link, |c.tags|) == if link == Iface(c, "external") then i else -1
    ensures LastOn(c, {"external"}, link, i) == -1
  {
    hide Iface;
  }

  /** In the end admin_nic is the address that its link will have when the node starts: the generated one if
      the link's address is changed then, and otherwise the one that it has. */
  lemma WrittenIsRenamed(s: State, c: Config, made: seq<string>, opnsenseMade: string, link: string)
    requires CycleReady(s, c) && |made| == |c.tags| && Prompted(s, c)
    requires Different(s.net.macs) && Generated(made, s.net.macs)
    requires link in s.net.macs && s.adminNic == s.net.macs[link]
    ensures var r := Cycle(s, c, made, opnsenseMade);
      && (forall generated | Renames(r, s.net.macs[link], generated) :: Written(r) == generated)
      && ((forall generated :: !Renames(r, s.net.macs[link], generated)) ==> Written(r) == s.net.macs[link])
  {
    hide UpReady, VnicName, Exists, Iface, Cycle, Up, Generated, OpnsenseUp;
    CycleKeepsNotes(s, c, made, opnsenseMade);
    var t, r := OpnsenseUp(s, c, opnsenseMade), Cycle(s, c, made, opnsenseMade);
    if c.opnsenseMacType.Node? {
      NodeRenames(s, c, made, opnsenseMade);
      OneNote(r.preserve, "opnsense", Changed(c.opnsenseMac, opnsenseMade));
      assert r.preserve["opnsense"] == Changed(c.opnsenseMac, opnsenseMade);
      assert Written(r) == if c.opnsenseMac == s.adminNic then opnsenseMade else s.adminNic;
      assert Renames(r, s.net.macs[link], opnsenseMade) <==> c.opnsenseMac == s.net.macs[link];
    } else {
      StillReady(s, c, opnsenseMade);
      PlainOpnsenseUp(s, c, opnsenseMade);
      UpFollows(t, c, made, link);
      if "external" in s.preserve && "external" in c.tags {
        var i :| 0 <= i < |c.tags| && c.tags[i] == "external";
        TagRenames(t, c, made, i);
        OneNote(r.preserve, "external", Changed(s.net.macs[Iface(c, "external")], made[i]));
        assert Iface(c, "external") == link ==> Renames(r, s.net.macs[link], made[i]);
      } else {
        UpIdle(t, c, made);
      }
    }
  }

  lemma OneNote(preserve: map<string, Preserve>, tag: string, note: Preserve)
    requires preserve == map[tag := note]
    ensures preserve.Values == {note}
  {
    assert preserve[tag] == note;
  }

  lemma PlainOpnsenseUp(s: State, c: Config, made: string)
    requires CycleReady(s, c) && !c.opnsenseMacType.Node?
    ensures var t := OpnsenseUp(s, c, made);
      t.preserve == s.preserve && t.adminNic == s.adminNic && t.net.macs == s.net.macs
  {
    hide UpReady, Exists, Iface;
  }

  lemma UpIdle(s: State, c: Config, made: seq<string>)
    requires UpReady(s, c) && |made| == |c.tags| && forall tag | tag in c.tags :: tag !in s.preserve
    ensures var u := Up(s, c, made); u.adminNic == s.adminNic && u.preserve == s.preserve
  {
    hide TagsReady, VnicName, Exists, Iface, StubsUp, CreateVnic;
    TagsUpIdle(Begun(s, c), c, made, |c.tags|);
  }
}
