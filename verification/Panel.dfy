/** Keeping the firewall equal to the pause flags: the sampling round and the handlers. */
module Panel {
  import opened Wrappers
  import opened Billing
  import opened Counters
  import Traffic
  import Nodes
  import Metering
  import Rounds
  import opened Firewall
  import opened Tags
  import opened Enforcement
  import opened Packets

  datatype PanelError = NotFound | StoreFailed | FirewallFailed | BadQuota | Rejected

  predicate IsPublicListener(host: string) {
    host != "127.0.0.1" && host != "::1" && host != "localhost"
  }

  function Networks(n: Nodes.Node): (networks: seq<string>)
    ensures |networks| > 0 && forall i :: 0 <= i < |networks| ==> networks[i] == "tcp" || networks[i] == "udp"
  {
    if n.kind == Nodes.AnyConnect then (if n.config.udpEnabled then ["tcp", "udp"] else ["tcp"])
    else if n.kind != Nodes.SS2022 then ["tcp"]
    else if n.config.mode == "udp_only" then ["udp"]
    else if n.config.mode == "tcp_and_udp" then ["tcp", "udp"]
    else ["tcp"]
  }

  // What is blocked and counted is what the node listens to.
  lemma NetworksListen(n: Nodes.Node, protocol: string)
    requires Nodes.Complete(n)
    ensures protocol in Networks(n) <==> Nodes.Listens(n, protocol)
  {}

  // The nodes that the traffic policy applies to.
  predicate Governed(n: Nodes.Node) {
    IsPublicListener(n.host) && n.running
  }

  // The chain blocks the node exactly when one of the flags says so.
  ghost predicate Enforced(rules: seq<Rule>, id: string, n: Nodes.Node, blocked: bool)
    requires n.port >= 0
  {
    Synced(rules, BlockedPrefix(id), BlockedTags(id, Networks(n), n.port, blocked))
  }

  lemma NodeIdValid(id: string)
    requires Nodes.ValidNodeId(id)
    ensures ValidId(id) && ColonFree(id)
  {}

  // A change to the rules of one node leaves every other node as it was.
  lemma OthersEnforced(before: seq<Rule>, after: seq<Rule>, changed: string, id: string, n: Nodes.Node, blocked: bool)
    requires Nodes.ValidNodeId(changed) && Nodes.ValidNodeId(id) && id != changed && n.port >= 0
    requires Outside(before, NodePrefix(changed)) == Outside(after, NodePrefix(changed))
    ensures Enforced(before, id, n, blocked) <==> Enforced(after, id, n, blocked)
  {
    NodeIdValid(changed);
    NodeIdValid(id);
    SectionWithinNode(id, "blocked", "");
    OtherNodeSame(before, after, changed, id, BlockedPrefix(id));
  }

  // Two shapes of a node have the same blocking rules.
  predicate SameRules(n: Nodes.Node, m: Nodes.Node, blocked: bool) {
    !blocked || (n.port == m.port && Networks(n) == Networks(m))
  }

  lemma TagIn(prefix: string, network: string, n: Nodes.Node, port: nat)
    requires ColonFree(network)
    ensures Tag(prefix, network, port) in TagSet(prefix, Networks(n), Port(n)) <==>
            network in Networks(n) && port == Port(n)
  {
    NetworksAreColonFree(n);
    if Tag(prefix, network, port) in TagSet(prefix, Networks(n), Port(n)) {
      var k :| k in Networks(n) && Tag(prefix, network, port) == Tag(prefix, k, Port(n));
      TagInjective(prefix, network, port, k, Port(n));
    }
  }

  lemma SameTags(prefix: string, n: Nodes.Node, m: Nodes.Node)
    ensures TagSet(prefix, Networks(n), Port(n)) == TagSet(prefix, Networks(m), Port(m)) <==>
            Port(n) == Port(m) && Networks(n) == Networks(m)
  {
    TagIn(prefix, "tcp", n, Port(n));
    TagIn(prefix, "tcp", m, Port(n));
    TagIn(prefix, "udp", n, Port(n));
    TagIn(prefix, "udp", m, Port(n));
  }

  // A chain that blocks one shape of a node blocks another exactly when their rules are the same.
  lemma EnforcedOther(rules: seq<Rule>, id: string, n: Nodes.Node, m: Nodes.Node, blocked: bool)
    requires n.port >= 0 && m.port >= 0 && Enforced(rules, id, n, blocked)
    ensures Enforced(rules, id, m, blocked) <==> SameRules(n, m, blocked)
  {
    SameTags(BlockedPrefix(id), n, m);
  }

  predicate IsLoopback(host: string) {
    host == "127.0.0.1" || host == "::1"
  }

  // Nodes whose configuration names the endpoint of the changed node.
  function Dependents(nodes: map<string, Nodes.Node>, id: string, request: Nodes.Request): set<string>
    requires id in nodes
  {
    if (nodes[id].host != request.host || nodes[id].port != request.port) && nodes[id].kind != Nodes.ShadowTLS
    then set d | d in nodes && nodes[d].backend == id
    else {}
  }

  predicate Applied(nodes: map<string, Nodes.Node>, id: string, request: Nodes.Request, applies: string -> bool)
    requires id in nodes
  {
    applies(id) && forall d :: d in Dependents(nodes, id, request) ==> applies(d)
  }

  // Whether a node is enforced after an update from n to m was rejected, from the rules
  // before it. The flags are applied when the node itself took the change, before a
  // dependent node refused it; they are not applied again after the change is taken back.
  ghost predicate LeftEnforced(rules: seq<Rule>, id: string, n: Nodes.Node, m: Nodes.Node, blocked: bool,
                               applied: bool, restored: bool)
    requires n.port >= 0 && m.port >= 0
  {
    if applied && m.host != "127.0.0.1" && m.host != "::1" then !restored || !Governed(n) || SameRules(n, m, blocked)
    else
      var left := if restored then n else m;
      Governed(left) ==> Enforced(rules, id, left, blocked)
  }

  // At most the rules of one node have changed.
  ghost predicate OnlyNode(before: seq<Rule>, after: seq<Rule>, id: string) {
    after == before || (Nodes.ValidNodeId(id) && Outside(after, NodePrefix(id)) == Outside(before, NodePrefix(id)))
  }

  // ----- Accounting rules of many nodes

  function Port(n: Nodes.Node): nat {
    if n.port >= 0 then n.port else 0
  }

  // The counters of the nodes go on in both chains.
  ghost predicate AllCounting(nodes: map<string, Nodes.Node>, ids: set<string>,
                              inputBefore: seq<Rule>, input: seq<Rule>, outputBefore: seq<Rule>, output: seq<Rule>)
  {
    forall id :: id in ids && id in nodes ==>
      Counting(inputBefore, input, outputBefore, output, id, Networks(nodes[id]), Port(nodes[id]))
  }

  ghost predicate AllInPlace(nodes: map<string, Nodes.Node>, ids: set<string>, input: seq<Rule>, output: seq<Rule>) {
    forall id :: id in ids && id in nodes ==> InPlace(input, output, id, Networks(nodes[id]), Port(nodes[id]))
  }

  // The accounting rules of the nodes in one direction are the same.
  ghost predicate AllSame(ids: set<string>, before: seq<Rule>, after: seq<Rule>, direction: string) {
    forall id :: id in ids ==> Under(before, TrafficPrefix(id, direction)) == Under(after, TrafficPrefix(id, direction))
  }

  lemma SameAfterOther(before: seq<Rule>, after: seq<Rule>, changed: string, id: string, direction: string)
    requires ColonFree(changed) && ColonFree(id) && id != changed
    requires Outside(before, NodePrefix(changed)) == Outside(after, NodePrefix(changed))
    ensures Under(before, TrafficPrefix(id, direction)) == Under(after, TrafficPrefix(id, direction))
  {
    SectionWithinNode(id, "traffic", direction);
    OtherNodeSame(before, after, changed, id, TrafficPrefix(id, direction));
  }

  // Blocking one node leaves all accounting rules as they are.
  lemma BlockedSame(before: seq<Rule>, after: seq<Rule>, changed: string, id: string)
    requires ColonFree(changed) && ColonFree(id)
    requires Outside(before, NodePrefix(changed)) == Outside(after, NodePrefix(changed))
    requires Under(before, SectionPrefix(changed, "traffic")) == Under(after, SectionPrefix(changed, "traffic"))
    ensures Under(before, TrafficPrefix(id, "upload")) == Under(after, TrafficPrefix(id, "upload"))
  {
    if id == changed {
      SectionWithinNode(id, "traffic", "upload");
      UnderTwice(before, TrafficPrefix(id, "upload"), SectionPrefix(id, "traffic"));
      UnderTwice(after, TrafficPrefix(id, "upload"), SectionPrefix(id, "traffic"));
    } else {
      SameAfterOther(before, after, changed, id, "upload");
    }
  }

  lemma SameTransitive(ids: set<string>, a: seq<Rule>, b: seq<Rule>, c: seq<Rule>, direction: string)
    requires AllSame(ids, a, b, direction) && AllSame(ids, b, c, direction)
    ensures AllSame(ids, a, c, direction)
  {}

  // Counting depends only on the accounting rules before and after.
  lemma CountingSame(nodes: map<string, Nodes.Node>, ids: set<string>, inputBefore: seq<Rule>, input: seq<Rule>,
                     inputAfter: seq<Rule>, outputBefore: seq<Rule>, output: seq<Rule>, outputAfter: seq<Rule>)
    requires AllCounting(nodes, ids, inputBefore, input, outputBefore, output)
    requires AllSame(ids, input, inputAfter, "upload") && AllSame(ids, output, outputAfter, "download")
    ensures AllCounting(nodes, ids, inputBefore, inputAfter, outputBefore, outputAfter)
  {}

  lemma CountingFrom(inputStart: seq<Rule>, inputBefore: seq<Rule>, input: seq<Rule>,
                     outputStart: seq<Rule>, outputBefore: seq<Rule>, output: seq<Rule>,
                     id: string, networks: seq<string>, port: nat)
    requires Counting(inputBefore, input, outputBefore, output, id, networks, port)
    requires Under(inputStart, TrafficPrefix(id, "upload")) == Under(inputBefore, TrafficPrefix(id, "upload"))
    requires Under(outputStart, TrafficPrefix(id, "download")) == Under(outputBefore, TrafficPrefix(id, "download"))
    ensures Counting(inputStart, input, outputStart, output, id, networks, port)
  {}

  lemma CountingTo(inputStart: seq<Rule>, inputBefore: seq<Rule>, input: seq<Rule>,
                   outputStart: seq<Rule>, outputBefore: seq<Rule>, output: seq<Rule>,
                   id: string, networks: seq<string>, port: nat)
    requires Counting(inputStart, inputBefore, outputStart, outputBefore, id, networks, port)
    requires Under(inputBefore, TrafficPrefix(id, "upload")) == Under(input, TrafficPrefix(id, "upload"))
    requires Under(outputBefore, TrafficPrefix(id, "download")) == Under(output, TrafficPrefix(id, "download"))
    ensures Counting(inputStart, input, outputStart, output, id, networks, port)
  {}

  lemma OthersSame(ids: set<string>, before: seq<Rule>, after: seq<Rule>, changed: string, direction: string)
    requires ColonFree(changed) && forall id :: id in ids ==> ColonFree(id)
    requires Outside(before, NodePrefix(changed)) == Outside(after, NodePrefix(changed))
    ensures AllSame(ids - {changed}, before, after, direction)
  {
    forall id | id in ids - {changed}
      ensures Under(before, TrafficPrefix(id, direction)) == Under(after, TrafficPrefix(id, direction))
    {
      SameAfterOther(before, after, changed, id, direction);
    }
  }

  // One node's rules have been put in place; those of the others are as they were.
  lemma EnsureStep(nodes: map<string, Nodes.Node>, active: set<string>, todo: set<string>, id: string,
                   inputStart: seq<Rule>, inputBefore: seq<Rule>, input: seq<Rule>,
                   outputStart: seq<Rule>, outputBefore: seq<Rule>, output: seq<Rule>)
    requires active <= nodes.Keys && id in todo && todo <= active
    requires AllCounting(nodes, active - todo, inputStart, inputBefore, outputStart, outputBefore)
    requires AllSame(todo, inputStart, inputBefore, "upload") && AllSame(todo, outputStart, outputBefore, "download")
    requires Counting(inputBefore, input, outputBefore, output, id, Networks(nodes[id]), Port(nodes[id]))
    requires AllSame(active - {id}, inputBefore, input, "upload")
             && AllSame(active - {id}, outputBefore, output, "download")
    ensures AllCounting(nodes, active - (todo - {id}), inputStart, input, outputStart, output)
    ensures AllSame(todo - {id}, inputStart, input, "upload") && AllSame(todo - {id}, outputStart, output, "download")
  {
    forall other | other in active - (todo - {id})
      ensures Counting(inputStart, input, outputStart, output, other, Networks(nodes[other]), Port(nodes[other]))
    {
      if other == id {
        CountingFrom(inputStart, inputBefore, input, outputStart, outputBefore, output,
                     id, Networks(nodes[id]), Port(nodes[id]));
      } else {
        assert other in active - todo && other in active - {id};
        CountingTo(inputStart, inputBefore, input, outputStart, outputBefore, output,
                   other, Networks(nodes[other]), Port(nodes[other]));
      }
    }
    assert forall other :: other in todo - {id} ==> other in todo && other in active - {id};
  }

  class Panel {
    const nodes: Nodes.Store
    const traffic: Traffic.Store
    const input: Chain
    const output: Chain

    ghost predicate Valid()
      reads this, nodes, traffic, input, output
    {
      && input != output
      && nodes.Valid() && traffic.Valid() && input.Valid() && output.Valid()
      && (forall id :: id in nodes.nodes ==> id in traffic.nodes)
      && Sided(input.rules, "upload") && Sided(output.rules, "download")
      && Proper(input.rules) && Proper(output.rules)
    }

    // What the stored flags say about a node.
    predicate Flag(id: string)
      requires id in traffic.nodes
      reads this, traffic
    {
      traffic.nodes[id].paused || traffic.project.paused
    }

    // A public node that is desired running is blocked exactly when its flags say so.
    ghost predicate PolicyFor(id: string)
      requires Valid()
      reads this, nodes, traffic, input, output
    {
      id in nodes.nodes && Governed(nodes.nodes[id]) ==> Enforced(input.rules, id, nodes.nodes[id], Flag(id))
    }

    ghost predicate Policy()
      requires Valid()
      reads this, nodes, traffic, input, output
    {
      forall id :: id in nodes.nodes ==> PolicyFor(id)
    }

    // The policy still holds for every other node for which it held.
    twostate predicate OthersKept(id: string)
      requires old(Valid()) && Valid()
      reads this, nodes, traffic, input, output
    {
      forall other {:trigger PolicyFor(other)} :: other != id && old(PolicyFor(other)) ==> PolicyFor(other)
    }

    // The policy still holds for every node for which it held.
    twostate predicate AllKept()
      requires old(Valid()) && Valid()
      reads this, nodes, traffic, input, output
    {
      forall id {:trigger PolicyFor(id)} :: old(PolicyFor(id)) ==> PolicyFor(id)
    }

    // One node in place and the others kept: a policy that held for all still holds for all.
    twostate lemma PolicyKept(id: string)
      requires old(Valid()) && Valid() && OthersKept(id) && PolicyFor(id)
      requires nodes.nodes.Keys <= old(nodes.nodes.Keys) + {id}
      ensures old(Policy()) ==> Policy()
    {
      if old(Policy()) {
        forall other | other in nodes.nodes
          ensures PolicyFor(other)
        {
          assert other != id ==> old(PolicyFor(other));
        }
      }
    }

    // A change of one node, of its flag and of its rules keeps the others.
    twostate lemma KeptByFrame(id: string)
      requires old(Valid()) && Valid()
      requires forall other :: other in nodes.nodes && other != id ==>
                 other in old(nodes.nodes) && nodes.nodes[other] == old(nodes.nodes[other])
                 && Flag(other) == old(Flag(other))
      requires OnlyNode(old(input.rules), input.rules, id)
      ensures OthersKept(id)
    {
      forall other | other != id && old(PolicyFor(other))
        ensures PolicyFor(other)
      {
        if other in nodes.nodes && input.rules != old(input.rules) {
          OthersEnforced(old(input.rules), input.rules, id, other, nodes.nodes[other], Flag(other));
        }
      }
    }

    constructor ()
      ensures Valid() && Policy()
    {
      nodes := new Nodes.Store();
      traffic := new Traffic.Store(Date(2026, 1, 1));
      input := new Chain();
      output := new Chain();
    }

    // The agent's blocking of one node with its current port and networks.
    method AgentSetBlocked(id: string, blocked: bool) returns (ok: bool)
      requires Valid()
      modifies input
      ensures Valid()
      ensures ok <==> id in nodes.nodes
      ensures !ok ==> input.rules == old(input.rules)
      ensures ok ==> Enforced(input.rules, id, nodes.nodes[id], blocked)
      ensures ok ==> Outside(input.rules, NodePrefix(id)) == Outside(old(input.rules), NodePrefix(id))
      ensures ok ==> Nodes.ValidNodeId(id)
      ensures AllSame(nodes.nodes.Keys, old(input.rules), input.rules, "upload")
    {
      if id !in nodes.nodes {
        return false;
      }
      var n := nodes.nodes[id];
      NodeIdValid(id);
      var r := SetBlocked(input, id, n.port, Networks(n), blocked);
      forall other | other in nodes.nodes
        ensures Under(old(input.rules), TrafficPrefix(other, "upload"))
                == Under(input.rules, TrafficPrefix(other, "upload"))
      {
        NodeIdValid(other);
        BlockedSame(old(input.rules), input.rules, id, other);
      }
      ok := r.Ok?;
    }

    // Applies the stored flags to one node, as after a start or an update.
    method SyncPolicy(id: string) returns (ok: bool)
      requires Valid()
      modifies input
      ensures Valid() && PolicyFor(id) && OthersKept(id)
      ensures id in nodes.nodes ==>
                if IsLoopback(nodes.nodes[id].host) then input.rules == old(input.rules)
                else Enforced(input.rules, id, nodes.nodes[id], Flag(id))
      ensures OnlyNode(old(input.rules), input.rules, id)
    {
      if id !in nodes.nodes {
        return false;
      }
      if IsLoopback(nodes.nodes[id].host) {
        return true;
      }
      ok := AgentSetBlocked(id, traffic.nodes[id].paused || traffic.project.paused);
      KeptByFrame(id);
    }

    // Pausing and resuming a node. The firewall comes first; when the store then fails,
    // the firewall is put back to what the stored flags say.
    method TrafficAction(id: string, paused: bool, storeWorks: bool) returns (r: Result<(), PanelError>)
      requires Valid()
      modifies input, traffic
      ensures Valid() && PolicyFor(id) && OthersKept(id)
      ensures r.Ok? <==> id in nodes.nodes && storeWorks
      ensures traffic.nodes == if r.Ok? then old(traffic.nodes)[id := Traffic.WithPause(old(traffic.nodes)[id], paused)]
                               else old(traffic.nodes)
      ensures traffic.project == old(traffic.project)
    {
      if id !in traffic.nodes {
        return Err(NotFound);
      }
      var before := traffic.nodes[id];
      var blocked := AgentSetBlocked(id, paused || traffic.project.paused);
      if !blocked {
        return Err(FirewallFailed);
      }
      if !storeWorks {
        var restored := AgentSetBlocked(id, before.paused || traffic.project.paused);
        KeptByFrame(id);
        return Err(StoreFailed);
      }
      var written := traffic.PauseNode(id, paused);
      KeptByFrame(id);
      r := Ok(());
    }

    method ResetTraffic(id: string, clock: Instant) returns (r: Result<(), PanelError>)
      requires Valid()
      modifies input, traffic
      ensures Valid() && PolicyFor(id) && OthersKept(id)
      ensures r.Ok? <==> id in nodes.nodes
      ensures r.Ok? ==> traffic.nodes == old(traffic.nodes)[id := Traffic.Zeroed(old(traffic.nodes)[id], clock)]
      ensures traffic.project == old(traffic.project)
    {
      var reset := traffic.Reset(id, clock);
      if reset.Err? {
        return Err(StoreFailed);
      }
      var blocked := AgentSetBlocked(id, traffic.project.paused);
      KeptByFrame(id);
      r := if blocked then Ok(()) else Err(FirewallFailed);
    }

    // Blocks each target as the given flags and the project flag say.
    method ApplyFlags(targets: set<string>, paused: map<string, bool>, blocked: bool)
      requires Valid() && targets <= nodes.nodes.Keys && targets <= paused.Keys
      modifies input
      ensures Valid()
      ensures forall id :: id in targets ==> Enforced(input.rules, id, nodes.nodes[id], blocked || paused[id])
      ensures AllSame(nodes.nodes.Keys, old(input.rules), input.rules, "upload")
    {
      var todo := targets;
      while todo != {}
        invariant Valid() && todo <= targets
        invariant AllSame(nodes.nodes.Keys, old(input.rules), input.rules, "upload")
        invariant forall id :: id in targets - todo ==>
                    Enforced(input.rules, id, nodes.nodes[id], blocked || paused[id])
        decreases todo
      {
        var id :| id in todo;
        ghost var before := input.rules;
        var ok := AgentSetBlocked(id, blocked || paused[id]);
        SameTransitive(nodes.nodes.Keys, old(input.rules), before, input.rules, "upload");
        forall other | other in targets - todo
          ensures Enforced(input.rules, other, nodes.nodes[other], blocked || paused[other])
        {
          OthersEnforced(before, input.rules, id, other, nodes.nodes[other], blocked || paused[other]);
        }
        todo := todo - {id};
      }
    }

    // The nodes that the policy and the accounting apply to.
    function GovernedIds(): set<string>
      reads this, nodes
    {
      set id | id in nodes.nodes && Governed(nodes.nodes[id])
    }

    // Applies project flag and node flags to every governed node.
    method SetProjectBlocked(blocked: bool)
      requires Valid()
      modifies input
      ensures Valid()
      ensures forall id :: id in GovernedIds() ==>
                Enforced(input.rules, id, nodes.nodes[id], blocked || traffic.nodes[id].paused)
    {
      var paused := map id | id in traffic.nodes :: traffic.nodes[id].paused;
      ApplyFlags(GovernedIds(), paused, blocked);
    }

    // Editing the quota of a node changes no flag; the next round enforces it.
    method SetNodeQuota(id: string, quota: int, resetDay: int) returns (r: Result<(), PanelError>)
      requires Valid()
      modifies traffic
      ensures Valid() && AllKept()
      ensures r.Ok? <==> quota >= 0 && 1 <= resetDay <= 28 && id in old(traffic.nodes)
      ensures traffic.nodes ==
              if r.Ok? then old(traffic.nodes)[id := Traffic.WithQuota(old(traffic.nodes)[id], quota, resetDay)]
              else old(traffic.nodes)
      ensures traffic.project == old(traffic.project)
    {
      var edited := traffic.SetQuota(id, quota, resetDay);
      r := if edited.Ok? then Ok(()) else Err(BadQuota);
    }

    // Stores the quota of the project and samples it with no new bytes.
    method SampleEdited(quota: int, resetDay: int, now: Instant) returns (r: Result<Verdict, PanelError>)
      requires Valid()
      modifies traffic
      ensures Valid()
      ensures r.Ok? <==> quota >= 0 && 1 <= resetDay <= 28
      ensures r.Ok? ==>
                traffic.project == Sampled(Traffic.WithQuota(old(traffic.project), quota, resetDay),
                                           CurrentPeriod(now, resetDay), 0, 0)
      ensures r.Err? ==> traffic.project == old(traffic.project)
      ensures r.Ok? && r.value == Unchanged ==> traffic.project.paused == old(traffic.project.paused)
      ensures traffic.nodes == old(traffic.nodes)
    {
      var edited := traffic.SetProjectQuota(quota, resetDay);
      if edited.Err? {
        return Err(BadQuota);
      }
      EmptyVerdictKeepsFlag(traffic.project, CurrentPeriod(now, traffic.project.resetDay), 0, 0);
      var result := traffic.SampleProject(0, 0, now);
      r := Ok(result.value.verdict);
    }

    // Editing the project quota samples the project with no new bytes; an empty verdict
    // means that the flag has not changed, so that nothing needs to be applied.
    method SetProjectQuota(quota: int, resetDay: int, now: Instant) returns (r: Result<(), PanelError>)
      requires Valid()
      modifies input, traffic
      ensures Valid() && AllKept()
      ensures traffic.project.paused != old(traffic.project.paused) ==> Policy()
      ensures r.Ok? <==> quota >= 0 && 1 <= resetDay <= 28
      ensures r.Ok? ==>
                traffic.project == Sampled(Traffic.WithQuota(old(traffic.project), quota, resetDay),
                                           CurrentPeriod(now, resetDay), 0, 0)
      ensures r.Err? ==> traffic.project == old(traffic.project)
      ensures traffic.nodes == old(traffic.nodes)
    {
      var verdict := SampleEdited(quota, resetDay, now);
      if verdict.Err? {
        return Err(BadQuota);
      }
      if verdict.value != Unchanged {
        SetProjectBlocked(traffic.project.paused);
      }
      r := Ok(());
    }

    // Pausing and resuming the whole project, with the same compensation as for a node.
    method ProjectTrafficAction(paused: bool, storeWorks: bool) returns (r: Result<(), PanelError>)
      requires Valid()
      modifies input, traffic
      ensures Valid() && Policy()
      ensures r.Ok? <==> storeWorks
      ensures traffic.project == if r.Ok? then Traffic.WithPause(old(traffic.project), paused) else old(traffic.project)
      ensures traffic.nodes == old(traffic.nodes)
    {
      var before := traffic.project;
      SetProjectBlocked(paused);
      if !storeWorks {
        SetProjectBlocked(before.paused);
        return Err(StoreFailed);
      }
      traffic.PauseProject(paused);
      r := Ok(());
    }

    method ResetProjectTraffic(clock: Instant)
      requires Valid()
      modifies input, traffic
      ensures Valid() && Policy()
      ensures traffic.project == Traffic.Zeroed(old(traffic.project), clock)
      ensures traffic.nodes == old(traffic.nodes)
    {
      traffic.ResetProject(clock);
      SetProjectBlocked(false);
    }

    // Takes the blocking rules of one node away; the policy is kept for the others.
    method Unblock(id: string)
      requires Valid()
      modifies input
      ensures Valid() && OthersKept(id)
      ensures id in nodes.nodes ==> Enforced(input.rules, id, nodes.nodes[id], false)
      ensures OnlyNode(old(input.rules), input.rules, id)
    {
      var ok := AgentSetBlocked(id, false);
      KeptByFrame(id);
    }

    // Starting, stopping and restarting a node; obeys tells whether its process does. The
    // desired state is stored first. A start that fails leaves the firewall alone, so the
    // policy then holds for the node exactly when the rules are already those of its flags.
    method StartNode(id: string, obeys: bool) returns (r: Result<(), PanelError>)
      requires Valid()
      modifies nodes, input
      ensures Valid() && OthersKept(id)
      ensures r.Ok? <==> id in old(nodes.nodes) && obeys
      ensures nodes.nodes ==
              if id in old(nodes.nodes) then old(nodes.nodes)[id := old(nodes.nodes)[id].(running := true)]
              else old(nodes.nodes)
      ensures r.Ok? ==> PolicyFor(id)
      ensures r.Err? ==> input.rules == old(input.rules)
      ensures r.Err? ==>
                (PolicyFor(id) <==> id !in nodes.nodes || !IsPublicListener(nodes.nodes[id].host)
                                    || Enforced(old(input.rules), id, nodes.nodes[id], Flag(id)))
    {
      var desired := nodes.SetDesired(id, true);
      if desired.Err? {
        return Err(NotFound);
      }
      if obeys {
        var ok := SyncPolicy(id);
      }
      KeptByFrame(id);
      r := if obeys then Ok(()) else Err(Rejected);
    }

    method StopNode(id: string, obeys: bool) returns (r: Result<(), PanelError>)
      requires Valid()
      modifies nodes, input
      ensures Valid() && PolicyFor(id) && OthersKept(id)
      ensures r.Ok? <==> id in old(nodes.nodes) && obeys
      ensures nodes.nodes ==
              if id in old(nodes.nodes) then old(nodes.nodes)[id := old(nodes.nodes)[id].(running := false)]
              else old(nodes.nodes)
      ensures r.Ok? ==> Enforced(input.rules, id, nodes.nodes[id], false)
      ensures r.Err? ==> input.rules == old(input.rules)
    {
      var desired := nodes.SetDesired(id, false);
      if desired.Err? {
        return Err(NotFound);
      }
      if obeys {
        Unblock(id);
      }
      KeptByFrame(id);
      r := if obeys then Ok(()) else Err(Rejected);
    }

    method RestartNode(id: string, obeys: bool) returns (r: Result<(), PanelError>)
      requires Valid()
      modifies input
      ensures Valid() && OthersKept(id)
      ensures r.Ok? <==> id in nodes.nodes && obeys
      ensures r.Ok? ==> PolicyFor(id)
      ensures r.Err? ==> input.rules == old(input.rules)
    {
      if id !in nodes.nodes || !obeys {
        return Err(if id in nodes.nodes then Rejected else NotFound);
      }
      var ok := SyncPolicy(id);
      r := Ok(());
    }

    // A run after which the policy fails: a public node is paused and stopped, and then a
    // start of it fails. It is unblocked and desired running until the next round or action.
    method PausedStartFails(id: string)
      requires Valid() && id in nodes.nodes && IsPublicListener(nodes.nodes[id].host)
      modifies nodes, input, traffic
      ensures Valid() && !PolicyFor(id) && OthersKept(id)
    {
      var paused := TrafficAction(id, true, true);
      var stopped := StopNode(id, true);
      var started := StartNode(id, false);
      BlockedHasTags(id, nodes.nodes[id]);
    }

    // The node and its counter are written in one transaction.
    method InsertNode(id: string, kind: Nodes.Kind, request: Nodes.Request, year: int, month: int) returns (ok: bool)
      requires Valid()
      modifies nodes, traffic
      ensures Valid()
      ensures !ok ==> nodes.nodes == old(nodes.nodes) && traffic.nodes == old(traffic.nodes)
      ensures ok ==>
                id !in old(nodes.nodes)
                && nodes.nodes == old(nodes.nodes)[id := Nodes.NodeOf(kind, Nodes.Normalize(kind, request), true)]
      ensures ok ==> traffic.nodes == old(traffic.nodes)[id := Counter(Month(year, month), 0, 0, 0, 1, false, false)]
      ensures traffic.project == old(traffic.project)
    {
      if id in traffic.nodes {
        return false;
      }
      var created := nodes.CreateWithID(id, kind, request);
      ok := created.Ok?;
      if ok {
        var row := traffic.AddNode(id, year, month);
      }
    }

    // Creating, changing and deleting a node; applies tells which runtimes take their
    // configuration. The counter of a deleted node stays.
    method CreateNode(id: string, kind: Nodes.Kind, request: Nodes.Request, year: int, month: int, applies: bool)
      returns (r: Result<(), PanelError>)
      requires Valid()
      modifies nodes, traffic, input
      ensures Valid() && OthersKept(id)
      ensures r.Err? ==>
                && nodes.nodes == old(nodes.nodes) && traffic.nodes == old(traffic.nodes)
                && input.rules == old(input.rules)
      ensures r.Ok? ==>
                && id !in old(nodes.nodes)
                && nodes.nodes == old(nodes.nodes)[id := Nodes.NodeOf(kind, Nodes.Normalize(kind, request), true)]
                && traffic.nodes == old(traffic.nodes)[id := Counter(Month(year, month), 0, 0, 0, 1, false, false)]
      ensures r.Ok? ==>
                (PolicyFor(id) <==> applies || !IsPublicListener(nodes.nodes[id].host)
                                    || Enforced(old(input.rules), id, nodes.nodes[id], old(traffic.project).paused))
    {
      var inserted := InsertNode(id, kind, request, year, month);
      if inserted && applies {
        var ok := SyncPolicy(id);
      }
      KeptByFrame(id);
      r := if inserted then Ok(()) else Err(StoreFailed);
    }

    // Applies the configuration of every dependent node until one refuses it.
    method ApplyAll(dependents: set<string>, applies: string -> bool) returns (ok: bool)
      ensures ok <==> forall d :: d in dependents ==> applies(d)
    {
      var todo := dependents;
      while todo != {}
        invariant todo <= dependents && forall d :: d in dependents - todo ==> applies(d)
        decreases todo
      {
        var d :| d in todo;
        if !applies(d) {
          return false;
        }
        todo := todo - {d};
      }
      ok := true;
    }

    // Applies a changed node, then the nodes that depend on it, then its flags.
    method ApplyChange(id: string, dependents: set<string>, applies: string -> bool) returns (applied: bool)
      requires Valid() && id in nodes.nodes
      modifies input
      ensures Valid()
      ensures applied <==> applies(id) && forall d :: d in dependents ==> applies(d)
      ensures if applies(id) && !IsLoopback(nodes.nodes[id].host)
              then Enforced(input.rules, id, nodes.nodes[id], Flag(id))
              else input.rules == old(input.rules)
      ensures OnlyNode(old(input.rules), input.rules, id)
    {
      if !applies(id) {
        return false;
      }
      applied := ApplyAll(dependents, applies);
      var ok := SyncPolicy(id);
    }

    // Puts the old values of a changed node back into the store, if its other fields, with
    // the stored secret, pass the checks.
    method Rollback(id: string, n: Nodes.Node, fieldsOk: bool, ghost start: map<string, Nodes.Node>)
      requires Valid() && Nodes.Sound(start) && id in start && start[id] == n
      requires id in nodes.nodes && nodes.nodes == start[id := nodes.nodes[id]]
      requires nodes.nodes[id].kind == n.kind && nodes.nodes[id].running == n.running
      modifies nodes
      ensures Valid()
      ensures nodes.nodes == if fieldsOk then start else old(nodes.nodes)
    {
      Nodes.RollbackRestores(start, id, nodes.nodes[id], fieldsOk);
      var r := nodes.Update(id, Nodes.RequestOf(n, fieldsOk));
    }

    // Applies a node that was changed from n; if a runtime refuses it, the change is taken back.
    method ApplyOrUndo(id: string, n: Nodes.Node, dependents: set<string>, applies: string -> bool, fieldsOk: bool,
                       ghost start: map<string, Nodes.Node>) returns (applied: bool)
      requires Valid() && Nodes.Sound(start) && id in start && start[id] == n
      requires id in nodes.nodes && nodes.nodes == start[id := nodes.nodes[id]]
      requires nodes.nodes[id].kind == n.kind && nodes.nodes[id].running == n.running
      modifies nodes, input
      ensures Valid()
      ensures applied <==> applies(id) && forall d :: d in dependents ==> applies(d)
      ensures nodes.nodes == if !applied && fieldsOk then start else old(nodes.nodes)
      ensures if applies(id) && !IsLoopback(old(nodes.nodes)[id].host)
              then Enforced(input.rules, id, old(nodes.nodes)[id], Flag(id))
              else input.rules == old(input.rules)
      ensures OnlyNode(old(input.rules), input.rules, id)
    {
      applied := ApplyChange(id, dependents, applies);
      if !applied {
        Rollback(id, n, fieldsOk, start);
      }
    }

    // A change is stored, then applied or taken back.
    method UpdateNode(id: string, request: Nodes.Request, applies: string -> bool, fieldsOk: bool)
      returns (r: Result<(), PanelError>)
      requires Valid()
      modifies nodes, input
      ensures Valid() && OthersKept(id)
      ensures r.Ok? || r == Err(Rejected) <==> Nodes.Accepts(old(nodes.nodes), id, request)
      ensures r.Ok? || r == Err(Rejected) ==>
                (r.Ok? <==> applies(id)
                            && forall d | d in old(nodes.nodes) && old(nodes.nodes)[d].backend == id
                                          && old(nodes.nodes)[id].kind != Nodes.ShadowTLS
                                          && (old(nodes.nodes)[id].host != request.host
                                              || old(nodes.nodes)[id].port != request.port) :: applies(d))
      ensures nodes.nodes == if r.Ok? || (r == Err(Rejected) && !fieldsOk)
                             then old(nodes.nodes)[id := Nodes.Updated(old(nodes.nodes)[id], request)]
                             else old(nodes.nodes)
      ensures r.Err? && r != Err(Rejected) ==> input.rules == old(input.rules)
      ensures r.Ok? ==> PolicyFor(id)
      ensures r == Err(Rejected) ==>
                (PolicyFor(id) <==> LeftEnforced(old(input.rules), id, old(nodes.nodes)[id],
                                                 Nodes.Updated(old(nodes.nodes)[id], request), Flag(id), applies(id),
                                                 fieldsOk))
    {
      if id !in nodes.nodes {
        return Err(NotFound);
      }
      var before := nodes.nodes[id];
      var dependents := Dependents(nodes.nodes, id, request);
      var updated := nodes.Update(id, request);
      if updated.Err? {
        return Err(StoreFailed);
      }
      ghost var changed, rules := nodes.nodes[id], input.rules;
      var applied := ApplyOrUndo(id, before, dependents, applies, fieldsOk, old(nodes.nodes));
      KeptByFrame(id);
      LeftPolicy(id, before, changed, rules, applies(id), !applied && fieldsOk);
      r := if applied then Ok(()) else Err(Rejected);
    }

    // The policy for the node that is left: n if the change was taken back, else m.
    lemma LeftPolicy(id: string, n: Nodes.Node, m: Nodes.Node, rules: seq<Rule>, taken: bool, restored: bool)
      requires Valid() && id in nodes.nodes && n.port >= 0 && m.port >= 0
      requires nodes.nodes[id] == if restored then n else m
      requires if taken && !IsLoopback(m.host) then Enforced(input.rules, id, m, Flag(id)) else input.rules == rules
      ensures PolicyFor(id) <==> LeftEnforced(rules, id, n, m, Flag(id), taken, restored)
    {
      if taken && !IsLoopback(m.host) {
        EnforcedOther(input.rules, id, m, n, Flag(id));
      }
    }

    method DeleteNode(id: string) returns (r: Result<(), PanelError>)
      requires Valid()
      modifies nodes, input
      ensures Valid() && PolicyFor(id) && OthersKept(id)
      ensures r.Ok? <==> id == "" || forall a :: a in old(nodes.nodes) ==> old(nodes.nodes)[a].backend != id
      ensures nodes.nodes == if r.Ok? then old(nodes.nodes) - {id} else old(nodes.nodes)
    {
      Unblock(id);
      var deleted := nodes.Delete(id);
      if deleted.Err? {
        var ok := SyncPolicy(id);
        KeptByFrame(id);
        return Err(StoreFailed);
      }
      KeptByFrame(id);
      r := Ok(());
    }

    // What the policy means for a public node that is desired running: when a flag says so,
    // every packet that comes in for its port in a protocol that it listens to is rejected,
    // and otherwise no rule is there for it.
    lemma PolicyRejects(id: string, packet: Packet)
      requires Valid() && id in nodes.nodes && PolicyFor(id) && nodes.nodes[id].running
      requires nodes.nodes[id].host != "127.0.0.1" && nodes.nodes[id].host != "::1"
               && nodes.nodes[id].host != "localhost"
      ensures var n := nodes.nodes[id];
              && ((traffic.nodes[id].paused || traffic.project.paused)
                  && packet.incoming && packet.target == n.port && Nodes.Listens(n, packet.protocol) ==>
                    exists r :: r in input.rules && Hits(r.args, packet) && Rejects(r.args))
              && (!traffic.nodes[id].paused && !traffic.project.paused ==> Under(input.rules, BlockedPrefix(id)) == [])
    {
      var n := nodes.nodes[id];
      NodeIdValid(id);
      NetworksAreColonFree(n);
      NetworksListen(n, packet.protocol);
      BlockedRejects(input.rules, id, Networks(n), n.port, Flag(id));
      if Flag(id) && packet.incoming && packet.target == n.port && packet.protocol in Networks(n) {
        BlockingHits(packet.protocol, n.port, Tag(BlockedPrefix(id), packet.protocol, n.port), packet);
      }
    }

    // ----- The sampling round

    // Puts the accounting rules of all active nodes in place.
    method EnsureAll()
      requires Valid()
      modifies input, output
      ensures Valid()
      ensures AllCounting(nodes.nodes, GovernedIds(), old(input.rules), input.rules, old(output.rules), output.rules)
      ensures AllInPlace(nodes.nodes, GovernedIds(), old(input.rules), old(output.rules)) ==>
                input.rules == old(input.rules) && output.rules == old(output.rules)
    {
      var active := GovernedIds();
      var todo := active;
      ghost var quiet := AllInPlace(nodes.nodes, active, input.rules, output.rules);
      while todo != {}
        invariant Valid() && todo <= active == GovernedIds()
        invariant AllCounting(nodes.nodes, active - todo, old(input.rules), input.rules, old(output.rules),
                              output.rules)
        invariant AllSame(todo, old(input.rules), input.rules, "upload")
        invariant AllSame(todo, old(output.rules), output.rules, "download")
        invariant quiet ==> input.rules == old(input.rules) && output.rules == old(output.rules)
        decreases todo
      {
        var id :| id in todo;
        ghost var inputBefore, outputBefore := input.rules, output.rules;
        ColonFreeIds();
        NodeIdValid(id);
        var r := EnsureAccounting(input, output, id, nodes.nodes[id].port, Networks(nodes.nodes[id]));
        OthersSame(active, inputBefore, input.rules, id, "upload");
        OthersSame(active, outputBefore, output.rules, id, "download");
        EnsureStep(nodes.nodes, active, todo, id, old(input.rules), inputBefore, input.rules,
                   old(output.rules), outputBefore, output.rules);
        todo := todo - {id};
      }
    }

    lemma ColonFreeIds()
      requires Valid()
      ensures forall id :: id in nodes.nodes ==> ColonFree(id)
    {
      forall id | id in nodes.nodes
        ensures ColonFree(id)
      {
        NodeIdValid(id);
      }
    }

    // Removes the accounting rules of all nodes that are not active.
    method CleanupAll(active: set<string>)
      requires Valid() && active <= nodes.nodes.Keys
      modifies input, output
      ensures Valid()
      ensures input.rules == Known(old(input.rules), active) && output.rules == Known(old(output.rules), active)
      ensures AllSame(active, old(input.rules), input.rules, "upload")
      ensures AllSame(active, old(output.rules), output.rules, "download")
    {
      CleanupUnknown(input, active);
      CleanupUnknown(output, active);
      ProperRemaining(old(input.rules), "proxy-panel:", Unknown(active));
      ProperRemaining(old(output.rules), "proxy-panel:", Unknown(active));
      SidedRemaining(old(input.rules), "proxy-panel:", Unknown(active), "upload");
      SidedRemaining(old(output.rules), "proxy-panel:", Unknown(active), "download");
      forall id | id in active
        ensures Under(old(input.rules), TrafficPrefix(id, "upload")) == Under(input.rules, TrafficPrefix(id, "upload"))
        ensures Under(old(output.rules), TrafficPrefix(id, "download"))
                == Under(output.rules, TrafficPrefix(id, "download"))
      {
        NodeIdValid(id);
        CleanupKeepsAll(old(input.rules), active, id, "upload");
        CleanupKeepsAll(old(output.rules), active, id, "download");
      }
    }

    // Puts the accounting rules in place and reads the counters of all active nodes: what
    // the rules that were already in place had counted.
    method ReadCounters() returns (readings: map<string, Reading>)
      requires Valid()
      modifies input, output
      ensures Valid() && readings.Keys == GovernedIds() && Traffic.Readings(readings)
      ensures AllCounting(nodes.nodes, GovernedIds(), old(input.rules), input.rules, old(output.rules), output.rules)
      ensures AllSurviving(readings, old(input.rules), old(output.rules))
    {
      var active := GovernedIds();
      EnsureAll();
      ghost var inputBefore, outputBefore := input.rules, output.rules;
      CleanupAll(active);
      CountingSame(nodes.nodes, active, old(input.rules), inputBefore, input.rules,
                   old(output.rules), outputBefore, output.rules);
      var raw := ParseAccounting(input.rules + output.rules);
      readings := map id | id in active :: if id in raw then raw[id] else Reading(0, 0);
      ParsedReadings(raw, input.rules + output.rules, readings);
      ReadingsSurvive(readings, old(input.rules), old(output.rules));
    }

    // Each reading is what the surviving rules of the node had counted in the given chains.
    ghost predicate AllSurviving(readings: map<string, Reading>, inputBefore: seq<Rule>, outputBefore: seq<Rule>)
      reads this, nodes
    {
      forall id :: id in readings && id in nodes.nodes ==>
        readings[id]
        == SurvivingReading(inputBefore, outputBefore, id, Networks(nodes.nodes[id]), Port(nodes.nodes[id]))
    }

    lemma ReadingsSurvive(readings: map<string, Reading>, inputBefore: seq<Rule>, outputBefore: seq<Rule>)
      requires Valid() && readings.Keys <= nodes.nodes.Keys
      requires AllCounting(nodes.nodes, readings.Keys, inputBefore, input.rules, outputBefore, output.rules)
      requires forall id :: id in readings ==> readings[id] == Measured(input.rules + output.rules, id)
      ensures AllSurviving(readings, inputBefore, outputBefore)
    {
      forall id | id in readings
        ensures readings[id]
             == SurvivingReading(inputBefore, outputBefore, id, Networks(nodes.nodes[id]), Port(nodes.nodes[id]))
      {
        NodeIdValid(id);
        NetworksAreColonFree(nodes.nodes[id]);
        MeasuredSurviving(inputBefore, input.rules, outputBefore, output.rules, id, Networks(nodes.nodes[id]),
                          Port(nodes.nodes[id]));
      }
    }

    lemma FlagsArePolicy(paused: map<string, bool>)
      requires Valid() && GovernedIds() <= paused.Keys
      requires forall id :: id in GovernedIds() ==> paused[id] == traffic.nodes[id].paused
      requires forall id :: id in GovernedIds() ==>
                 Enforced(input.rules, id, nodes.nodes[id], traffic.project.paused || paused[id])
      ensures Policy()
    {
      forall id | id in nodes.nodes
        ensures PolicyFor(id)
      {
        assert Governed(nodes.nodes[id]) ==> id in GovernedIds();
      }
    }

    // Blocks every active node as its new flag and that of the project say.
    method EnforceFlags(active: set<string>, paused: map<string, bool>, blocked: bool)
      requires Valid() && active == GovernedIds() && active <= paused.Keys
      requires blocked == traffic.project.paused && forall id :: id in active ==> paused[id] == traffic.nodes[id].paused
      modifies input
      ensures Valid() && Policy()
      ensures AllSame(nodes.nodes.Keys, old(input.rules), input.rules, "upload")
    {
      ApplyFlags(active, paused, blocked);
      FlagsArePolicy(paused);
    }

    // Samples every active node and hands the sum of the accepted deltas to the project.
    method SampleAll(active: set<string>, readings: map<string, Reading>, now: string -> Instant, projectNow: Instant)
      returns (order: seq<string>, deltas: seq<Reading>, paused: map<string, bool>)
      requires Valid() && active <= traffic.nodes.Keys && readings.Keys == active && Traffic.Readings(readings)
      modifies traffic
      ensures Valid() && traffic.nodes.Keys == old(traffic.nodes.Keys)
      ensures Rounds.Enumerates(order, active)
      ensures Rounds.AcceptedDeltas(old(traffic.nodes), old(traffic.nodeSamples), order, deltas, readings, now)
      ensures Rounds.SampledRound(old(traffic.nodes), old(traffic.nodeSamples), traffic.nodes, active,
                                  readings, now)
      ensures traffic.project ==
              Sampled(old(traffic.project), CurrentPeriod(projectNow, old(traffic.project).resetDay),
                      Metering.Sum(deltas).upload, Metering.Sum(deltas).download)
      ensures paused.Keys == active && forall id :: id in paused ==> paused[id] == traffic.nodes[id].paused
    {
      var upload, download;
      order, deltas, upload, download, paused := Rounds.SampleNodes(traffic, active, readings, now);
      var project := traffic.SampleProject(upload, download, projectNow);
    }

    // After a round has put the accounting rules in place, each packet that comes in for the
    // port of a public node that is desired running, or goes out from it, in a protocol that
    // the node listens to and not on the loopback interface, is counted for it exactly once.
    lemma RoundCounts(id: string, inputBefore: seq<Rule>, outputBefore: seq<Rule>, packet: Packet)
      requires Valid() && id in nodes.nodes && nodes.nodes[id].running
      requires nodes.nodes[id].host != "127.0.0.1" && nodes.nodes[id].host != "::1"
               && nodes.nodes[id].host != "localhost"
      requires AllCounting(nodes.nodes, GovernedIds(), inputBefore, input.rules, outputBefore, output.rules)
      requires packet.interface != "lo" && Nodes.Listens(nodes.nodes[id], packet.protocol)
      requires nodes.nodes[id].port == if packet.incoming then packet.target else packet.source
      ensures var rules := if packet.incoming then Under(input.rules, TrafficPrefix(id, "upload"))
                           else Under(output.rules, TrafficPrefix(id, "download"));
              exists i :: 0 <= i < |rules| && Hits(rules[i].args, packet) && Counts(rules[i].args)
                          && forall j :: 0 <= j < |rules| && j != i ==> !Hits(rules[j].args, packet)
    {
      var n := nodes.nodes[id];
      NodeIdValid(id);
      NetworksListen(n, packet.protocol);
      assert id in GovernedIds();
      if packet.incoming {
        CountedOnce(input.rules, id, "upload", Networks(n), Port(n), packet);
      } else {
        CountedOnce(output.rules, id, "download", Networks(n), Port(n), packet);
      }
    }

    // Reads the counters of all active nodes, samples each of them, hands the sum of the
    // accepted deltas to the project, and blocks every node as the new flags say.
    method SampleTraffic(now: string -> Instant, projectNow: Instant)
      returns (readings: map<string, Reading>, order: seq<string>, deltas: seq<Reading>)
      requires Valid()
      modifies input, output, traffic
      ensures Valid() && Policy()
      ensures readings.Keys == GovernedIds() && AllSurviving(readings, old(input.rules), old(output.rules))
      ensures forall id :: id in readings <==>
                id in nodes.nodes && nodes.nodes[id].running && nodes.nodes[id].host != "127.0.0.1"
                && nodes.nodes[id].host != "::1" && nodes.nodes[id].host != "localhost"
      ensures AllCounting(nodes.nodes, GovernedIds(), old(input.rules), input.rules, old(output.rules), output.rules)
      ensures Rounds.Enumerates(order, GovernedIds())
      ensures Rounds.AcceptedDeltas(old(traffic.nodes), old(traffic.nodeSamples), order, deltas, readings, now)
      ensures Rounds.SampledRound(old(traffic.nodes), old(traffic.nodeSamples), traffic.nodes, GovernedIds(),
                                  readings, now)
      ensures traffic.project ==
              Sampled(old(traffic.project), CurrentPeriod(projectNow, old(traffic.project).resetDay),
                      Metering.Sum(deltas).upload, Metering.Sum(deltas).download)
    {
      readings := ReadCounters();
      var active := GovernedIds();
      var paused;
      order, deltas, paused := SampleAll(active, readings, now, projectNow);
      ghost var inputBefore := input.rules;
      EnforceFlags(active, paused, traffic.project.paused);
      CountingSame(nodes.nodes, active, old(input.rules), inputBefore, input.rules,
                   old(output.rules), output.rules, output.rules);
    }
  }

  // A node that the parser does not mention has counted nothing.
  lemma ParsedReadings(raw: map<string, Reading>, rules: seq<Rule>, readings: map<string, Reading>)
    requires Totals(raw, rules)
    requires forall id :: id in readings ==> readings[id] == if id in raw then raw[id] else Reading(0, 0)
    ensures forall id :: id in readings ==> readings[id] == Measured(rules, id)
    ensures Traffic.Readings(readings)
  {}

  lemma BlockedHasTags(id: string, n: Nodes.Node)
    requires n.port >= 0
    ensures Tag(BlockedPrefix(id), Networks(n)[0], n.port) in BlockedTags(id, Networks(n), n.port, true)
  {}

  lemma NetworksAreColonFree(n: Nodes.Node)
    ensures forall i :: 0 <= i < |Networks(n)| ==> ColonFree(Networks(n)[i])
  {}
}
