/** Where datagrams go, and that a client can find every server. */
module DiscoveryReach {
  import opened Options
  import opened Discovery
  import opened DiscoveryRuns

  /** A broadcast is one discovery for each host. */
  lemma {:induction false} BroadcastReaches(from: Host, hosts: nat)
    ensures |Broadcast(from, hosts)| == hosts
    ensures forall to | 0 <= to < hosts :: Broadcast(from, hosts)[to] == Datagram(from, to, "cfgdb_discovery")
  {
    if hosts > 0 {
      BroadcastReaches(from, hosts - 1);
    }
  }

  /** Replies are on their way to hosts that have asked only, and discoveries come from these. */
  predicate Addressed(net: seq<Datagram>, askers: set<Host>) {
    forall i | 0 <= i < |net| ::
      && (REPLY <= net[i].payload ==> net[i].to in askers)
      && (DISCO <= net[i].payload ==> net[i].from in askers)
  }

  /** The clients that broadcast during a run. */
  function Started(steps: seq<Step>): set<Host> {
    set i | 0 <= i < |steps| && steps[i].Start? :: steps[i].client
  }

  lemma EmittedIsAddressed(s: State, step: Step, askers: set<Host>)
    requires Sized(s) && Enabled(s, step) && KeepsReplies(s) && Addressed(s.net, askers)
    ensures Addressed(Emitted(s, step), askers + Started([step]))
  {
    if step.Start? {
      BroadcastReaches(step.client, |s.nodes|);
      assert [step][0] == step && step.client in Started([step]);
      if REPLY <= DISCO {
        ReplyIsNoDiscovery(DISCO);
      }
    } else if step.Take? {
      TakeIsCheap(s, step.i, step.name);
      forall d | d in Emitted(s, step)
        ensures !(DISCO <= d.payload)
      {
        ReplyIsNoDiscovery(d.payload);
      }
    }
  }

  lemma StepIsAddressed(s: State, step: Step, askers: set<Host>)
    requires Sized(s) && Enabled(s, step) && KeepsReplies(s) && Addressed(s.net, askers)
    ensures Addressed(Next(s, step).net, askers + Started([step]))
  {
    hide Emitted, NewNodes, Started;
    EmittedIsAddressed(s, step, askers);
  }

  /** Over all runs every reply goes to a host that has asked: one whose discovery was on its way before, or
      a client that has sent its broadcast since. */
  lemma {:induction false} RepliesGoToAskers(s: State, steps: seq<Step>, askers: set<Host>)
    requires Sized(s) && Runs(s, steps) && KeepsReplies(s) && Addressed(s.net, askers)
    ensures Addressed(After(s, steps).net, askers + Started(steps))
    decreases |steps|
  {
    hide Next, Enabled, KeepsReplies, Addressed;
    if steps == [] {
      assert Started([]) == {};
      assert askers + {} == askers;
    } else {
      StepIsAddressed(s, steps[0], askers);
      StepDescends(s, steps[0]);
      RepliesGoToAskers(Next(s, steps[0]), steps[1..], askers + Started([steps[0]]));
      StartedSplits(steps);
      assert askers + Started([steps[0]]) + Started(steps[1..]) == askers + Started(steps);
    }
  }

  lemma StartedSplits(steps: seq<Step>)
    requires steps != []
    ensures Started(steps) == Started([steps[0]]) + Started(steps[1..])
  {
    forall client | client in Started(steps)
      ensures client in Started([steps[0]]) + Started(steps[1..])
    {
      var i :| 0 <= i < |steps| && steps[i].Start? && steps[i].client == client;
      assert if i == 0 then [steps[0]][0] == steps[i] else steps[1..][i - 1] == steps[i];
    }
    forall client | client in Started(steps[1..])
      ensures client in Started(steps)
    {
      var i :| 0 <= i < |steps[1..]| && steps[1..][i].Start? && steps[1..][i].client == client;
      assert steps[i + 1] == steps[1..][i];
    }
    forall client | client in Started([steps[0]])
      ensures client in Started(steps)
    {
      assert steps[0].Start? && steps[0].client == client;
    }
  }

  /** A server that takes a discovery puts the datagram on the network that Server.Serve sends, and keeps the
      same reply. */
  lemma TakeServes(s: State, i: nat, name: string)
    requires Sized(s) && Enabled(s, Take(i, name)) && ToServer(s, s.net[i])
    ensures var d, kept := s.net[i], s.nodes[s.net[i].to].kept;
      && Emitted(s, Take(i, name)) ==
           (if "cfgdb_discovery" <= d.payload then
              [Datagram(d.to, d.from, if kept.Some? then kept.value else "cfgdb_reply:" + name)]
            else
              [])
      && Next(s, Take(i, name)).nodes[d.to] ==
           Serving(if DISCO <= d.payload && kept.None? then Some(REPLY + name) else kept)
  {
  }

  /** From wherever other clients and servers are, a client that has not started can find any server. */
  lemma ClientCanFind(s: State, client: Host, server: Host, name: string) returns (steps: seq<Step>)
    requires Sized(s) && KeepsReplies(s) && IsServer(s, server) && client < |s.nodes| && s.nodes[client].Waiting?
    ensures Runs(s, steps)
    ensures var s' := After(s, steps); client < |s'.nodes| && s'.nodes[client] == Printed(server)
  {
    hide Next;
    var buffer := seq(BUFLEN, _ => NUL);
    var a, b := Start(client, buffer), Take(|s.net| + server, name);
    var s1 := Next(s, a);
    Asking(s, client, server, buffer);
    StepDescends(s, a);
    var s2 := Next(s1, b);
    Answering(s1, |s.net| + server, client, server, name);
    var last := Take(|s2.net| - 1, name);
    Hearing(s2, client, server, name);
    steps := [a, b, last];
    assert steps[1..] == [b, last] && steps[1..][1..] == [last] && [last][1..] == [];
    ThreeSteps(s, a, b, last);
  }

  lemma ThreeSteps(s: State, a: Step, b: Step, c: Step)
    requires Sized(s) && Enabled(s, a) && Enabled(Next(s, a), b) && Enabled(Next(Next(s, a), b), c)
    ensures Runs(s, [a, b, c]) && After(s, [a, b, c]) == Next(Next(Next(s, a), b), c)
  {
    hide Next, Enabled;
    assert [a, b, c][1..] == [b, c] && [b, c][1..] == [c] && [c][1..] == [];
    assert Runs(Next(Next(s, a), b), [c]);
    assert Runs(Next(s, a), [b, c]);
    assert After(Next(Next(s, a), b), [c]) == Next(Next(Next(s, a), b), c);
    assert After(Next(s, a), [b, c]) == Next(Next(Next(s, a), b), c);
  }

  lemma Asking(s: State, client: Host, server: Host, buffer: string)
    requires Sized(s) && IsServer(s, server) && |buffer| == BUFLEN
    requires client < |s.nodes| && s.nodes[client].Waiting?
    ensures Enabled(s, Start(client, buffer))
    ensures var s' := Next(s, Start(client, buffer));
      && |s'.net| == |s.net| + |s.nodes| && s'.net[|s.net| + server] == Datagram(client, server, DISCO)
      && |s'.nodes| == |s.nodes| && s'.nodes[client] == Listening(buffer, ITERATIONS)
      && s'.nodes[server] == s.nodes[server]
  {
    BroadcastReaches(client, |s.nodes|);
  }

  lemma Answering(s: State, i: nat, client: Host, server: Host, name: string)
    requires Sized(s) && KeepsReplies(s) && IsServer(s, server) && i < |s.net|
    requires s.net[i] == Datagram(client, server, DISCO)
    requires client < |s.nodes| && s.nodes[client].Listening? && s.nodes[client].left == ITERATIONS
    ensures Enabled(s, Take(i, name))
    ensures var s' := Next(s, Take(i, name));
      && |s'.net| > 0 && s'.nodes[client] == s.nodes[client] && |s'.nodes| == |s.nodes|
      && var reply := s'.net[|s'.net| - 1];
         reply.from == server && reply.to == client && REPLY <= reply.payload
  {
    TakeServes(s, i, name);
    assert DISCO <= DISCO;
  }

  lemma Hearing(s: State, client: Host, server: Host, name: string)
    requires Sized(s) && |s.net| > 0 && client < |s.nodes| && s.nodes[client].Listening?
    requires var reply := s.net[|s.net| - 1];
      reply.from == server && reply.to == client && REPLY <= reply.payload
    ensures Enabled(s, Take(|s.net| - 1, name))
    ensures var s' := Next(s, Take(|s.net| - 1, name));
      |s'.nodes| == |s.nodes| && s'.nodes[client] == Printed(server)
  {
    LongAccepted(s.nodes[client].buffer, s.net[|s.net| - 1].payload);
  }
}
