/** A node's data links, and what nicsup, nicsdown and their OPNsense counterparts do to them. */
module Links {
  import opened Options

  /** `failed` is history: whether any command has failed. A failed command changes nothing. */
  datatype Net = Net(vnics: map<string, string>, stubs: set<string>, macs: map<string, string>, failed: bool)

  /** An entry of nictag_preserve_mac: "1" from the prompt, or the two addresses. */
  datatype Preserve = Wanted | Changed(original: string, generated: string)

  datatype MacType = Auto | Manual | Node

  /** What the prompts have settled. No VLAN is an empty answer. */
  datatype Config = Config(
    etherstubs: seq<string>,
    adminIface: string,
    adminVlan: Option<nat>,
    tags: seq<string>,
    ifaces: map<string, string>,
    opnsenseMacType: MacType,
    opnsenseMac: string)

  datatype State = State(
    net: Net,
    adminNic: string,
    adminActive: string,
    preserve: map<string, Preserve>,
    up: bool,
    opnsenseUp: bool)

  predicate Exists(net: Net, name: string) {
    name in net.vnics || name in net.stubs || name in net.macs
  }

  function Fail(net: Net): Net {
    net.(failed := true)
  }

  function CreateStub(net: Net, stub: string): Net {
    if Exists(net, stub) then Fail(net) else net.(stubs := net.stubs + {stub})
  }

  /** An etherstub in use cannot be deleted. */
  function DeleteStub(net: Net, stub: string): Net {
    if stub !in net.stubs || stub in net.vnics.Values then Fail(net) else net.(stubs := net.stubs - {stub})
  }

  function CreateVnic(net: Net, name: string, link: string): Net {
    if Exists(net, name) || (link !in net.macs && link !in net.stubs) then Fail(net)
    else net.(vnics := net.vnics[name := link])
  }

  function DeleteVnic(net: Net, name: string): Net {
    if name !in net.vnics then Fail(net) else net.(vnics := net.vnics - {name})
  }

  function SetMac(net: Net, link: string, mac: string): Net {
    if link !in net.macs then Fail(net) else net.(macs := net.macs[link := mac])
  }

  function Lookup(m: map<string, string>, key: string): string {
    if key in m then m[key] else ""
  }

  function Iface(c: Config, tag: string): string {
    Lookup(c.ifaces, tag)
  }

  function StubsUp(net: Net, c: Config, n: nat): Net
    requires n <= |c.etherstubs|
  {
    if n == 0 then net else CreateStub(StubsUp(net, c, n - 1), c.etherstubs[n - 1])
  }

  function StubsDown(net: Net, c: Config, n: nat): Net
    requires n <= |c.etherstubs|
  {
    if n == 0 then net else DeleteStub(StubsDown(net, c, n - 1), c.etherstubs[n - 1])
  }

  function AdminUp(s: State, c: Config): State {
    if c.adminVlan.Some? || c.adminIface == "etherstub" then
      var link := if c.adminIface == "etherstub" then s.adminNic else c.adminIface;
      s.(adminActive := "admin0", net := CreateVnic(s.net, "admin0", link))
    else
      s.(adminActive := c.adminIface)
  }

  predicate AdminDeleted(c: Config) {
    (c.adminVlan.Some? && c.adminVlan.value != 0) || c.adminIface == "etherstub"
  }

  function AdminDown(s: State, c: Config): State {
    if AdminDeleted(c) then s.(net := DeleteVnic(s.net, s.adminActive)) else s
  }

  /** The interface of one tag; `made` is a generated address. */
  function TagUp(s: State, c: Config, tag: string, made: string): State {
    var link := Iface(c, tag);
    var t :=
      if tag in s.preserve then
        var mac := Lookup(s.net.macs, link);
        s.(net := SetMac(s.net, link, made),
           preserve := s.preserve[tag := Changed(mac, made)],
           adminNic := if mac == s.adminNic then made else s.adminNic)
      else s;
    t.(net := CreateVnic(t.net, tag + "0", link))
  }

  function TagDown(s: State, c: Config, tag: string): State {
    var net := DeleteVnic(s.net, tag + "0");
    if tag !in s.preserve then s.(net := net)
    else
      var p := s.preserve[tag];
      s.(net := SetMac(net, Iface(c, tag), if p.Changed? then p.original else "1"))
  }

  function TagsUp(s: State, c: Config, made: seq<string>, n: nat): State
    requires n <= |c.tags| && n <= |made|
  {
    if n == 0 then s else TagUp(TagsUp(s, c, made, n - 1), c, c.tags[n - 1], made[n - 1])
  }

  function TagsDown(s: State, c: Config, n: nat): State
    requires n <= |c.tags|
  {
    if n == 0 then s else TagDown(TagsDown(s, c, n - 1), c, c.tags[n - 1])
  }

  function Up(s: State, c: Config, made: seq<string>): State
    requires |made| == |c.tags|
  {
    if s.up then s
    else TagsUp(AdminUp(s.(net := StubsUp(s.net, c, |c.etherstubs|)), c), c, made, |c.tags|).(up := true)
  }

  function Down(s: State, c: Config): State {
    if !s.up then s
    else
      var t := TagsDown(AdminDown(s, c), c, |c.tags|);
      t.(net := StubsDown(t.net, c, |c.etherstubs|), up := false)
  }

  function OpnsenseUp(s: State, c: Config, made: string): State {
    if s.opnsenseUp then s
    else
      var link := Iface(c, "external");
      var t :=
        if c.opnsenseMacType.Node? then
          s.(net := SetMac(s.net, link, made), preserve := s.preserve["opnsense" := Changed(c.opnsenseMac, made)])
        else s;
      t.(net := CreateVnic(t.net, "opnsense0", link), opnsenseUp := true)
  }

  function OpnsenseDown(s: State, c: Config): State {
    if !s.opnsenseUp then s
    else
      var net := DeleteVnic(s.net, "opnsense0");
      s.(net := if c.opnsenseMacType.Node? then SetMac(net, Iface(c, "external"), c.opnsenseMac) else net,
         opnsenseUp := false)
  }

  /** The variables of prompt-config.sh that the four procedures work on. */
  class Prompt {
    const config: Config
    var net: Net
    var adminNic: string
    var adminActive: string
    var preserve: map<string, Preserve>
    var up: bool
    var opnsenseUp: bool

    function Value(): State
      reads this
    {
      State(net, adminNic, adminActive, preserve, up, opnsenseUp)
    }

    constructor (config: Config, net: Net, adminNic: string, preserve: map<string, Preserve>)
      ensures this.config == config && Value() == State(net, adminNic, "", preserve, false, false)
    {
      this.config := config;
      this.net, this.adminNic, this.adminActive := net, adminNic, "";
      this.preserve, up, opnsenseUp := preserve, false, false;
    }

    method NicsUp(made: seq<string>)
      requires |made| == |config.tags|
      modifies this
      ensures Value() == Up(old(Value()), config, made)
    {
      hide CreateStub, CreateVnic, SetMac;
      if up {
        return;
      }
      for i := 0 to |config.etherstubs|
        invariant Value() == old(Value()).(net := StubsUp(old(net), config, i))
      {
        net := CreateStub(net, config.etherstubs[i]);
      }
      var adminLink := config.adminIface;
      if config.adminVlan.Some? || config.adminIface == "etherstub" {
        if config.adminIface == "etherstub" {
          adminLink := adminNic;
        }
        adminActive := "admin0";
        net := CreateVnic(net, adminActive, adminLink);
      } else {
        adminActive := config.adminIface;
      }
      ghost var before := Value();
      for i := 0 to |config.tags|
        invariant Value() == TagsUp(before, config, made, i)
      {
        var tag := config.tags[i];
        var link := Iface(config, tag);
        if tag in preserve {
          var mac := Lookup(net.macs, link);
          net := SetMac(net, link, made[i]);
          preserve := preserve[tag := Changed(mac, made[i])];
          if mac == adminNic {
            adminNic := made[i];
          }
        }
        net := CreateVnic(net, tag + "0", link);
      }
      up := true;
    }

    method NicsDown()
      modifies this
      ensures Value() == Down(old(Value()), config)
    {
      hide DeleteStub, DeleteVnic, SetMac;
      if !up {
        return;
      }
      if (config.adminVlan.Some? && config.adminVlan.value != 0) || config.adminIface == "etherstub" {
        net := DeleteVnic(net, adminActive);
      }
      ghost var before := Value();
      for i := 0 to |config.tags|
        invariant Value() == TagsDown(before, config, i)
      {
        var tag := config.tags[i];
        net := DeleteVnic(net, tag + "0");
        if tag in preserve {
          net := SetMac(net, Iface(config, tag), if preserve[tag].Changed? then preserve[tag].original else "1");
        }
      }
      ghost var middle := net;
      for i := 0 to |config.etherstubs|
        invariant Value() == TagsDown(before, config, |config.tags|).(net := StubsDown(middle, config, i))
      {
        net := DeleteStub(net, config.etherstubs[i]);
      }
      up := false;
    }

    method NicsUpOpnsense(made: string)
      modifies this
      ensures Value() == OpnsenseUp(old(Value()), config, made)
    {
      if opnsenseUp {
        return;
      }
      var link := Iface(config, "external");
      if config.opnsenseMacType.Node? {
        net := SetMac(net, link, made);
        preserve := preserve["opnsense" := Changed(config.opnsenseMac, made)];
      }
      net := CreateVnic(net, "opnsense0", link);
      opnsenseUp := true;
    }

    method NicsDownOpnsense()
      modifies this
      ensures Value() == OpnsenseDown(old(Value()), config)
    {
      if !opnsenseUp {
        return;
      }
      net := DeleteVnic(net, "opnsense0");
      if config.opnsenseMacType.Node? {
        net := SetMac(net, Iface(config, "external"), config.opnsenseMac);
      }
      opnsenseUp := false;
    }
  }
}
