/** Any number of discovery clients and servers on a network that delays, reorders and loses. */
module DiscoveryRuns {
  import opened Options
  import opened Discovery

  /** A client before its broadcast, listening, or ended; a server with the reply it keeps. */
  datatype Node =
    | Waiting
    | Listening(buffer: string, left: nat)
    | Printed(address: Host)
    | GaveUp
    | Serving(kept: Option<string>)

  /** A host is its number; other hosts have higher ones. */
  datatype State = State(nodes: seq<Node>, net: seq<Datagram>)

  datatype Step =
    | Start(client: Host, buffer: string)
    | Take(i: nat, name: string)
    | Timeout(client: Host)
    | Drop(i: nat)

  predicate ToServer(s: State, d: Datagram) {
    d.to < |s.nodes| && s.nodes[d.to].Serving?
  }

  predicate ToListener(s: State, d: Datagram) {
    d.to < |s.nodes| && s.nodes[d.to].Listening?
  }

  predicate Enabled(s: State, step: Step) {
    match step
    case Start(c, buffer) => c < |s.nodes| && s.nodes[c].Waiting? && |buffer| == BUFLEN
    case Take(i, _) => i < |s.net| && (ToServer(s, s.net[i]) || ToListener(s, s.net[i]))
    case Timeout(c) => c < |s.nodes| && s.nodes[c].Listening?
    case Drop(i) => i < |s.net|
  }

  function Broadcast(from: Host, hosts: nat): seq<Datagram> {
    if hosts == 0 then [] else Broadcast(from, hosts - 1) + [Datagram(from, hosts - 1, DISCO)]
  }

  /** What a step puts on the network. */
  function Emitted(s: State, step: Step): seq<Datagram>
    requires Enabled(s, step)
  {
    match step
    case Start(c, _) => Broadcast(c, |s.nodes|)
    case Take(i, name) =>
      var d := s.net[i];
      if !ToServer(s, d) then []
      else
        var (answer, _) := Answer(s.nodes[d.to].kept, d.payload, name);
        if answer.None? then [] else [Datagram(d.to, d.from, answer.value)]
    case Timeout(_) => []
    case Drop(_) => []
  }

  /** A listening client that receives; it takes at most six datagrams. */
  function Heard(node: Node, d: Datagram): Node
    requires node.Listening? && |node.buffer| == BUFLEN
  {
    var buffer := Received(node.buffer, d.payload);
    if Accepted(buffer) then Printed(d.from)
    else if node.left <= 1 then GaveUp
    else Listening(buffer, node.left - 1)
  }

  predicate Sized(s: State) {
    forall h | 0 <= h < |s.nodes| && s.nodes[h].Listening? :: |s.nodes[h].buffer| == BUFLEN
  }

  function NewNodes(s: State, step: Step): (nodes: seq<Node>)
    requires Sized(s) && Enabled(s, step)
    ensures |nodes| == |s.nodes|
  {
    match step
    case Start(c, buffer) => s.nodes[c := Listening(buffer, ITERATIONS)]
    case Take(i, name) =>
      var d := s.net[i];
      if ToServer(s, d) then s.nodes[d.to := Serving(Answer(s.nodes[d.to].kept, d.payload, name).1)]
      else s.nodes[d.to := Heard(s.nodes[d.to], d)]
    case Timeout(c) => s.nodes[c := GaveUp]
    case Drop(_) => s.nodes
  }

  function Without(net: seq<Datagram>, i: nat): seq<Datagram>
    requires i < |net|
  {
    net[..i] + net[i + 1..]
  }

  function Next(s: State, step: Step): (s': State)
    requires Sized(s) && Enabled(s, step)
    ensures Sized(s')
  {
    var left := if step.Take? || step.Drop? then Without(s.net, step.i) else s.net;
    State(NewNodes(s, step), left + Emitted(s, step))
  }

  predicate Runs(s: State, steps: seq<Step>)
    requires Sized(s)
    decreases |steps|
  {
    steps != [] ==> Enabled(s, steps[0]) && Runs(Next(s, steps[0]), steps[1..])
  }

  function After(s: State, steps: seq<Step>): (s': State)
    requires Sized(s) && Runs(s, steps)
    ensures Sized(s')
    decreases |steps|
  {
    if steps == [] then s else After(Next(s, steps[0]), steps[1..])
  }

  /** What a datagram can still cause: a discovery its reply. */
  function Cost(d: Datagram): nat {
    if DISCO <= d.payload then 2 else 1
  }

  function NetCost(net: seq<Datagram>): nat {
    if net == [] then 0 else Cost(net[0]) + NetCost(net[1..])
  }

  function NodeCost(node: Node, hosts: nat): nat {
    if node.Waiting? then 2 * hosts + 2 else if node.Listening? then 1 else 0
  }

  function NodesCost(nodes: seq<Node>, hosts: nat): nat {
    if nodes == [] then 0 else NodeCost(nodes[0], hosts) + NodesCost(nodes[1..], hosts)
  }

  function Measure(s: State): nat {
    NodesCost(s.nodes, |s.nodes|) + NetCost(s.net)
  }

  lemma {:induction false} NetCostAppend(a: seq<Datagram>, b: seq<Datagram>)
    ensures NetCost(a + b) == NetCost(a) + NetCost(b)
  {
    if a == [] {
      assert a + b == b;
    } else {
      NetCostAppend(a[1..], b);
      assert (a + b)[1..] == a[1..] + b;
    }
  }

  lemma {:induction false} NetCostWithout(net: seq<Datagram>, i: nat)
    requires i < |net|
    ensures NetCost(Without(net, i)) == NetCost(net) - Cost(net[i])
  {
    if i == 0 {
      assert Without(net, i) == net[1..];
    } else {
      NetCostWithout(net[1..], i - 1);
      assert Without(net, i) == [net[0]] + Without(net[1..], i - 1);
    }
  }

  lemma {:induction false} BroadcastCost(from: Host, hosts: nat)
    ensures NetCost(Broadcast(from, hosts)) == 2 * hosts
  {
    if hosts > 0 {
      BroadcastCost(from, hosts - 1);
      NetCostAppend(Broadcast(from, hosts - 1), [Datagram(from, hosts - 1, DISCO)]);
    }
  }

  lemma {:induction false} NodesCostUpdate(nodes: seq<Node>, h: nat, node: Node, hosts: nat)
    requires h < |nodes|
    ensures NodesCost(nodes[h := node], hosts) ==
      NodesCost(nodes, hosts) - NodeCost(nodes[h], hosts) + NodeCost(node, hosts)
  {
    if h > 0 {
      NodesCostUpdate(nodes[1..], h - 1, node, hosts);
      assert nodes[h := node][1..] == nodes[1..][h - 1 := node];
    } else {
      assert nodes[h := node][1..] == nodes[1..];
    }
  }

  /** A reply is not a discovery, so nobody answers it. */
  lemma ReplyIsNoDiscovery(payload: string)
    requires REPLY <= payload
    ensures !(DISCO <= payload)
  {
    assert payload[6] == REPLY[6] && REPLY[6] != DISCO[6];
  }

  predicate KeepsReplies(s: State) {
    forall h | 0 <= h < |s.nodes| && s.nodes[h].Serving? && s.nodes[h].kept.Some? :: REPLY <= s.nodes[h].kept.value
  }

  lemma StartDescends(s: State, client: Host, buffer: string)
    requires Sized(s) && Enabled(s, Start(client, buffer))
    ensures Measure(Next(s, Start(client, buffer))) < Measure(s)
  {
    hide Broadcast, NetCost, NodesCost;
    var hosts := |s.nodes|;
    BroadcastCost(client, hosts);
    NetCostAppend(s.net, Broadcast(client, hosts));
    NodesCostUpdate(s.nodes, client, Listening(buffer, ITERATIONS), hosts);
  }

  lemma TakeDescends(s: State, i: nat, name: string)
    requires Sized(s) && Enabled(s, Take(i, name)) && KeepsReplies(s)
    ensures Measure(Next(s, Take(i, name))) < Measure(s)
  {
    hide Emitted, NetCost, NodesCost, Without, Answer, KeepsReplies, Cost;
    var step, d := Take(i, name), s.net[i];
    TakeIsCheap(s, i, name);
    NetCostWithout(s.net, i);
    NetCostAppend(Without(s.net, i), Emitted(s, step));
    NodesCostUpdate(s.nodes, d.to, NewNodes(s, step)[d.to], |s.nodes|);
    TakenNode(s, i, name);
  }

  lemma TakenNode(s: State, i: nat, name: string)
    requires Sized(s) && Enabled(s, Take(i, name))
    ensures var h, nodes := s.net[i].to, NewNodes(s, Take(i, name));
      && h < |s.nodes| && nodes == s.nodes[h := nodes[h]]
      && NodeCost(nodes[h], |s.nodes|) <= NodeCost(s.nodes[h], |s.nodes|)
  {
    hide Answer, Received, Accepted;
  }

  lemma TimeoutDescends(s: State, client: Host)
    requires Sized(s) && Enabled(s, Timeout(client))
    ensures Measure(Next(s, Timeout(client))) < Measure(s)
  {
    hide NetCost, NodesCost;
    NodesCostUpdate(s.nodes, client, GaveUp, |s.nodes|);
    assert s.net + [] == s.net;
  }

  lemma DropDescends(s: State, i: nat)
    requires Sized(s) && Enabled(s, Drop(i))
    ensures Measure(Next(s, Drop(i))) < Measure(s)
  {
    hide NetCost, NodesCost, Without;
    NetCostWithout(s.net, i);
    assert Without(s.net, i) + [] == Without(s.net, i);
  }

  lemma StepKeepsReplies(s: State, step: Step)
    requires Sized(s) && Enabled(s, step) && KeepsReplies(s)
    ensures KeepsReplies(Next(s, step))
  {
    hide Emitted, Without, Received, Accepted;
  }

  /** Every step uses up some of what can still happen. */
  lemma StepDescends(s: State, step: Step)
    requires Sized(s) && Enabled(s, step) && KeepsReplies(s)
    ensures Measure(Next(s, step)) < Measure(s) && KeepsReplies(Next(s, step))
  {
    hide Sized, Enabled, KeepsReplies, Measure, Next;
    StepKeepsReplies(s, step);
    match step
    case Start(client, buffer) => StartDescends(s, client, buffer);
    case Take(i, name) => TakeDescends(s, i, name);
    case Timeout(client) => TimeoutDescends(s, client);
    case Drop(i) => DropDescends(s, i);
  }

  lemma TakeIsCheap(s: State, i: nat, name: string)
    requires Enabled(s, Take(i, name)) && KeepsReplies(s)
    ensures var emitted := Emitted(s, Take(i, name));
      NetCost(emitted) < Cost(s.net[i]) && forall d | d in emitted :: REPLY <= d.payload
  {
    var d := s.net[i];
    if ToServer(s, d) && DISCO <= d.payload {
      var reply := Answer(s.nodes[d.to].kept, d.payload, name).0.value;
      assert REPLY <= reply;
      ReplyIsNoDiscovery(reply);
      assert NetCost([Datagram(d.to, d.from, reply)]) == 1;
    }
  }

  /** So there is no endless exchange: a run has at most this many steps. */
  lemma {:induction false} RunIsFinite(s: State, steps: seq<Step>)
    requires Sized(s) && KeepsReplies(s) && Runs(s, steps)
    ensures |steps| <= Measure(s)
    decreases |steps|
  {
    hide Next, Measure, Enabled, KeepsReplies;
    if steps != [] {
      StepDescends(s, steps[0]);
      RunIsFinite(Next(s, steps[0]), steps[1..]);
    }
  }

  /** Where nothing more can happen, nothing is on its way and every client has ended. */
  lemma QuietIsDone(s: State)
    requires Sized(s)
    ensures (forall step :: !Enabled(s, step)) <==>
      s.net == [] && forall h | 0 <= h < |s.nodes| :: !s.nodes[h].Waiting? && !s.nodes[h].Listening?
  {
    if forall step :: !Enabled(s, step) {
      assert !Enabled(s, Drop(0));
      forall h | 0 <= h < |s.nodes|
        ensures !s.nodes[h].Waiting? && !s.nodes[h].Listening?
      {
        assert !Enabled(s, Timeout(h)) && !Enabled(s, Start(h, seq(BUFLEN, _ => NUL)));
      }
    }
  }

  predicate IsServer(s: State, host: Host) {
    host < |s.nodes| && s.nodes[host].Serving?
  }

  /** How many of the datagrams come from a host. */
  function From(net: seq<Datagram>, host: Host): nat {
    if net == [] then 0 else (if net[0].from == host then 1 else 0) + From(net[1..], host)
  }

  /** Whether a step is a server's taking of a discovery. */
  predicate Asks(s: State, step: Step, server: Host)
    requires Enabled(s, step)
  {
    step.Take? && s.net[step.i].to == server && DISCO <= s.net[step.i].payload
  }

  /** The datagrams that a host sends during a run, and the discoveries that it takes. */
  function Sent(s: State, steps: seq<Step>, host: Host): nat
    requires Sized(s) && Runs(s, steps)
    decreases |steps|
  {
    if steps == [] then 0 else From(Emitted(s, steps[0]), host) + Sent(Next(s, steps[0]), steps[1..], host)
  }

  function Asked(s: State, steps: seq<Step>, host: Host): nat
    requires Sized(s) && Runs(s, steps)
    decreases |steps|
  {
    if steps == [] then 0
    else (if Asks(s, steps[0], host) then 1 else 0) + Asked(Next(s, steps[0]), steps[1..], host)
  }

  lemma {:induction false} BroadcastFrom(from: Host, hosts: nat, host: Host)
    requires from != host
    ensures From(Broadcast(from, hosts), host) == 0
  {
    if hosts > 0 {
      BroadcastFrom(from, hosts - 1, host);
      FromAppend(Broadcast(from, hosts - 1), [Datagram(from, hosts - 1, DISCO)], host);
    }
  }

  lemma {:induction false} FromAppend(a: seq<Datagram>, b: seq<Datagram>, host: Host)
    ensures From(a + b, host) == From(a, host) + From(b, host)
  {
    if a == [] {
      assert a + b == b;
    } else {
      FromAppend(a[1..], b, host);
      assert (a + b)[1..] == a[1..] + b;
    }
  }

  /** A server sends one datagram for each discovery that it takes, and no other. */
  lemma {:induction false} OneReplyEach(s: State, steps: seq<Step>, server: Host)
    requires Sized(s) && Runs(s, steps) && IsServer(s, server)
    ensures Sent(s, steps, server) == Asked(s, steps, server)
    decreases |steps|
  {
    hide Next, Enabled, Emitted, Asks;
    if steps != [] {
      StepReplies(s, steps[0], server);
      OneReplyEach(Next(s, steps[0]), steps[1..], server);
    }
  }

  lemma StepReplies(s: State, step: Step, server: Host)
    requires Sized(s) && Enabled(s, step) && IsServer(s, server)
    ensures From(Emitted(s, step), server) == if Asks(s, step, server) then 1 else 0
    ensures IsServer(Next(s, step), server)
  {
    if step.Start? {
      BroadcastFrom(step.client, |s.nodes|, server);
    } else if step.Take? && ToServer(s, s.net[step.i]) && DISCO <= s.net[step.i].payload {
      var d := s.net[step.i];
      var reply := Answer(s.nodes[d.to].kept, d.payload, step.name).0.value;
      assert From([Datagram(d.to, d.from, reply)], server) == if d.to == server then 1 else 0;
    }
  }

  /** All that a server has on its way is the reply that it keeps. */
  predicate Consistent(s: State, server: Host) {
    && IsServer(s, server)
    && forall i | 0 <= i < |s.net| && s.net[i].from == server :: Some(s.net[i].payload) == s.nodes[server].kept
  }

  lemma StepIsConsistent(s: State, step: Step, server: Host)
    requires Sized(s) && Enabled(s, step) && Consistent(s, server)
    ensures Consistent(Next(s, step), server)
    ensures s.nodes[server].kept.Some? ==> Next(s, step).nodes[server] == s.nodes[server]
  {
    if step.Start? {
      BroadcastIs(step.client, |s.nodes|);
    }
  }

  lemma {:induction false} BroadcastIs(from: Host, hosts: nat)
    ensures forall d | d in Broadcast(from, hosts) :: d.from == from && d.payload == DISCO && d.to < hosts
  {
    if hosts > 0 {
      BroadcastIs(from, hosts - 1);
    }
  }

  /** A server's first reply is the one it sends ever after. */
  lemma {:induction false} ReplyIsKept(s: State, steps: seq<Step>, server: Host)
    requires Sized(s) && Runs(s, steps) && Consistent(s, server)
    ensures Consistent(After(s, steps), server)
    ensures s.nodes[server].kept.Some? ==> After(s, steps).nodes[server] == s.nodes[server]
    decreases |steps|
  {
    hide Next, Enabled;
    if steps != [] {
      StepIsConsistent(s, steps[0], server);
      ReplyIsKept(Next(s, steps[0]), steps[1..], server);
    }
  }

  /** Nothing is shorter than a reply's prefix, and only servers send what begins with it. */
  predicate HonestNet(s: State, net: seq<Datagram>) {
    forall i | 0 <= i < |net| :: |net[i].payload| >= |REPLY| && (REPLY <= net[i].payload ==> IsServer(s, net[i].from))
  }

  predicate HonestClients(s: State, nodes: seq<Node>) {
    forall h | 0 <= h < |nodes| && nodes[h].Printed? :: IsServer(s, nodes[h].address)
  }

  predicate Honest(s: State) {
    KeepsReplies(s) && HonestNet(s, s.net) && HonestClients(s, s.nodes)
  }

  lemma EmittedIsHonest(s: State, step: Step)
    requires Sized(s) && Enabled(s, step) && KeepsReplies(s)
    ensures HonestNet(s, Emitted(s, step))
  {
    if step.Start? {
      BroadcastIs(step.client, |s.nodes|);
      assert DISCO <= DISCO;
      assert REPLY <= DISCO ==> false by { if REPLY <= DISCO { ReplyIsNoDiscovery(DISCO); } }
    } else if step.Take? {
      TakeIsCheap(s, step.i, step.name);
    }
  }

  lemma ClientsStayHonest(s: State, step: Step)
    requires Sized(s) && Enabled(s, step) && Honest(s)
    ensures HonestClients(s, NewNodes(s, step))
  {
    if step.Take? && ToListener(s, s.net[step.i]) {
      AcceptedExactly(s.nodes[s.net[step.i].to].buffer, s.net[step.i].payload);
    }
  }

  lemma ServersStay(s: State, step: Step, host: Host)
    requires Sized(s) && Enabled(s, step)
    ensures IsServer(Next(s, step), host) <==> IsServer(s, host)
  {
  }

  lemma StepIsHonest(s: State, step: Step)
    requires Sized(s) && Enabled(s, step) && Honest(s)
    ensures Honest(Next(s, step))
  {
    hide Emitted, NewNodes, IsServer, Measure;
    StepDescends(s, step);
    EmittedIsHonest(s, step);
    ClientsStayHonest(s, step);
    forall host: Host
      ensures IsServer(Next(s, step), host) <==> IsServer(s, host)
    {
      ServersStay(s, step, host);
    }
  }

  /** Every address that a client prints is that of a server. */
  lemma {:induction false} PrintedIsServer(s: State, steps: seq<Step>, client: Host)
    requires Sized(s) && Runs(s, steps) && Honest(s)
    ensures Honest(After(s, steps))
    ensures var s' := After(s, steps);
      client < |s'.nodes| && s'.nodes[client].Printed? ==> IsServer(s', s'.nodes[client].address)
    decreases |steps|
  {
    hide Next, Enabled;
    if steps != [] {
      StepIsHonest(s, steps[0]);
      PrintedIsServer(Next(s, steps[0]), steps[1..], client);
    }
  }

  /** A client that listens to datagrams one after the other. */
  function HearAll(node: Node, incoming: seq<Datagram>): Node
    requires node.Listening? ==> |node.buffer| == BUFLEN
    decreases |incoming|
  {
    if !node.Listening? || incoming == [] then node else HearAll(Heard(node, incoming[0]), incoming[1..])
  }

  function Arrivals(incoming: seq<Datagram>): seq<Reception> {
    seq(|incoming|, i requires 0 <= i < |incoming| => Some(incoming[i]))
  }

  /** The steps of a client come to what its receive loop returns. */
  lemma {:induction false} HearingFinds(buffer: string, left: nat, incoming: seq<Datagram>, address: Host)
    requires |buffer| == BUFLEN && left > 0
    ensures HearAll(Listening(buffer, left), incoming) == Printed(address) <==>
      Found(buffer, Arrivals(incoming), left) == Some(address)
    decreases |incoming|
  {
    if incoming != [] {
      var next := Received(buffer, incoming[0].payload);
      assert Arrivals(incoming)[1..] == Arrivals(incoming[1..]);
      if !Accepted(next) && left > 1 {
        HearingFinds(next, left - 1, incoming[1..], address);
      }
    }
  }
}
