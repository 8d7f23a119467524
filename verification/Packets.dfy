/** What the commands of the firewall do to a packet. */
module Packets {
  import opened Text
  import opened Firewall
  import opened Tags
  import opened Enforcement

  // A packet at the host: its direction, the interface, the protocol and the two ports.
  datatype Packet = Packet(incoming: bool, interface: string, protocol: string, source: nat, target: nat)

  // The conditions of a command, read from left to right up to the counter.
  predicate Holds(words: seq<string>, p: Packet) {
    if |words| == 0 || words[0] == "counter" then true
    else if |words| < 3 then false
    else if words[1] == "!=" then
      (words[0] == "iifname" || words[0] == "oifname") && p.interface != words[2] && Holds(words[3..], p)
    else
      && p.protocol == words[0]
      && (if words[1] == "dport" then Itoa(p.target) == words[2]
          else words[1] == "sport" && Itoa(p.source) == words[2])
      && Holds(words[3..], p)
  }

  // The command adds a rule to the chain that sees the packet, and its conditions hold.
  predicate Hits(args: seq<string>, p: Packet) {
    && |args| > 5 && args[..4] == ["add", "rule", "inet", "proxy_panel"]
    && args[4] == (if p.incoming then "input" else "output")
    && Holds(args[5..], p)
  }

  // The command that comes after the counter, if any.
  predicate Rejects(args: seq<string>) {
    exists i :: 0 < i < |args| && args[i] == "reject" && args[i - 1] == "counter"
  }

  predicate Counts(args: seq<string>) {
    exists i :: 0 <= i < |args| && args[i] == "counter"
  }

  lemma {:induction false} PortCondition(protocol: string, side: string, port: nat, rest: seq<string>, p: Packet)
    requires protocol != "counter" && (side == "dport" || side == "sport")
    requires |rest| > 0 && rest[0] == "counter"
    ensures Holds([protocol, side, Itoa(port)] + rest, p)
       <==> p.protocol == protocol && port == if side == "dport" then p.target else p.source
  {
    var words := [protocol, side, Itoa(port)] + rest;
    assert words[3..] == rest;
    ItoaValue(port);
    ItoaValue(p.target);
    ItoaValue(p.source);
  }

  lemma {:induction false} InterfaceCondition(name: string, rest: seq<string>, p: Packet)
    requires name == "iifname" || name == "oifname"
    ensures Holds([name, "!=", "lo"] + rest, p) <==> p.interface != "lo" && Holds(rest, p)
  {
    assert ([name, "!=", "lo"] + rest)[3..] == rest;
  }

  // A blocking rule rejects what comes in for the port in the protocol, and nothing else.
  lemma {:induction false} BlockingHits(network: string, port: nat, tag: string, p: Packet)
    requires network == "tcp" || network == "udp"
    ensures Hits(BlockingArgs(network, port, tag), p)
       <==> p.incoming && p.protocol == network && p.target == port
    ensures Rejects(BlockingArgs(network, port, tag))
  {
    var args := BlockingArgs(network, port, tag);
    var rest := ["counter", "reject", "comment", Quote(tag)];
    assert args[5..] == [network, "dport", Itoa(port)] + rest;
    PortCondition(network, "dport", port, rest, p);
    assert args[9] == "reject" && args[8] == "counter";
  }

  // A counting rule counts what comes in for the port, or goes out from it, in the protocol
  // and not on the loopback interface; it rejects nothing.
  lemma {:induction false} CountingHits(direction: string, network: string, port: nat, tag: string, p: Packet)
    requires network == "tcp" || network == "udp"
    requires direction == "upload" || direction == "download"
    ensures Hits(CountingArgs(direction, network, port, tag), p)
       <==> p.incoming == (direction == "upload") && p.interface != "lo" && p.protocol == network
            && port == if direction == "upload" then p.target else p.source
    ensures Counts(CountingArgs(direction, network, port, tag))
    ensures !Rejects(CountingArgs(direction, network, port, tag))
  {
    var args := CountingArgs(direction, network, port, tag);
    var rest := ["counter", "comment", Quote(tag)];
    var side := if direction == "upload" then "dport" else "sport";
    var name := if direction == "upload" then "iifname" else "oifname";
    var condition := [network, side, Itoa(port)] + rest;
    assert args[5..] == [name, "!=", "lo"] + condition;
    InterfaceCondition(name, condition, p);
    PortCondition(network, side, port, rest, p);
    NotReject(direction, network, port, tag);
  }

  lemma {:induction false} NotReject(direction: string, network: string, port: nat, tag: string)
    requires network == "tcp" || network == "udp"
    ensures Counts(CountingArgs(direction, network, port, tag))
    ensures !Rejects(CountingArgs(direction, network, port, tag))
  {
    var args := CountingArgs(direction, network, port, tag);
    assert args[11] == "counter" && args[12] == "comment" && |args| == 14;
    forall i | 0 < i < |args| && args[i - 1] == "counter"
      ensures args[i] != "reject"
    {
      ItoaValue(port);
      NumberLacks(Itoa(port), 'c');
      assert Quote(tag)[0] == '"';
    }
  }

  // ----- Counting each packet once

  // The traffic of a port in one direction, the loopback interface excluded.
  predicate IsTraffic(p: Packet, direction: string, networks: seq<string>, port: nat) {
    && p.incoming == (direction == "upload") && p.interface != "lo" && p.protocol in networks
    && port == if direction == "upload" then p.target else p.source
  }

  // A rule under the prefix counts one of the networks.
  lemma {:induction false} RuleNetwork(rules: seq<Rule>, id: string, direction: string, prefix: string,
                                       networks: seq<string>, port: nat, r: Rule) returns (n: string)
    requires Proper(rules) && ColonFree(id) && ColonFree(direction) && prefix == TrafficPrefix(id, direction)
    requires forall n :: n in networks ==> ColonFree(n)
    requires Synced(rules, prefix, TagSet(prefix, networks, port)) && r in Under(rules, prefix)
    ensures n in networks && r.comment == Tag(prefix, n, port) && r.args == CountingArgs(direction, n, port, r.comment)
  {
    UnderMembers(rules, prefix, r);
    assert r.comment in Comments(Under(rules, prefix));
    n :| n in networks && r.comment == Tag(prefix, n, port);
    assert ProperRule(r);
  }

  lemma {:induction false} TagOfNetwork(prefix: string, n: string, m: string, port: nat)
    requires ColonFree(n) && ColonFree(m)
    ensures Tag(prefix, n, port) == Tag(prefix, m, port) <==> n == m
  {
    if Tag(prefix, n, port) == Tag(prefix, m, port) {
      TagInjective(prefix, n, port, m, port);
    }
  }

  lemma {:induction false} RuleCounts(rules: seq<Rule>, id: string, direction: string, prefix: string,
                                      networks: seq<string>, port: nat, r: Rule, p: Packet)
    requires Proper(rules) && ColonFree(id) && (direction == "upload" || direction == "download")
    requires prefix == TrafficPrefix(id, direction) && forall n :: n in networks ==> n == "tcp" || n == "udp"
    requires Synced(rules, prefix, TagSet(prefix, networks, port)) && r in Under(rules, prefix)
    ensures Hits(r.args, p) <==>
            IsTraffic(p, direction, networks, port) && r.comment == Tag(prefix, p.protocol, port)
    ensures Counts(r.args) && !Rejects(r.args)
  {
    var n := RuleNetwork(rules, id, direction, prefix, networks, port, r);
    CountingHits(direction, n, port, r.comment, p);
    if p.protocol in networks {
      TagOfNetwork(prefix, n, p.protocol, port);
    }
  }

  // Among rules with different tags, the one with the tag of the protocol is the only hit.
  lemma {:induction false} OneHit(under: seq<Rule>, tag: string, traffic: bool, p: Packet)
    requires DistinctComments(under) && (traffic ==> tag in Comments(under))
    requires forall i :: 0 <= i < |under| ==> (Hits(under[i].args, p) <==> traffic && under[i].comment == tag)
    ensures if traffic then exists i :: 0 <= i < |under| && Hits(under[i].args, p)
                                        && forall j :: 0 <= j < |under| && j != i ==> !Hits(under[j].args, p)
            else forall i :: 0 <= i < |under| ==> !Hits(under[i].args, p)
  {
    if traffic {
      var r :| r in under && r.comment == tag;
      var i :| 0 <= i < |under| && under[i] == r;
      assert Hits(under[i].args, p);
    }
  }

  // With the accounting rules of a node in place, each packet of its traffic is counted by
  // exactly one of them, and no other packet is.
  lemma {:induction false} CountedOnce(rules: seq<Rule>, id: string, direction: string, networks: seq<string>,
                                       port: nat, p: Packet)
    requires Proper(rules) && ColonFree(id) && (direction == "upload" || direction == "download")
    requires forall n :: n in networks ==> n == "tcp" || n == "udp"
    requires Synced(rules, TrafficPrefix(id, direction), TagSet(TrafficPrefix(id, direction), networks, port))
    ensures var under := Under(rules, TrafficPrefix(id, direction));
            && (forall i :: 0 <= i < |under| ==> Counts(under[i].args) && !Rejects(under[i].args))
            && if IsTraffic(p, direction, networks, port)
               then exists i :: 0 <= i < |under| && Hits(under[i].args, p)
                                && forall j :: 0 <= j < |under| && j != i ==> !Hits(under[j].args, p)
               else forall i :: 0 <= i < |under| ==> !Hits(under[i].args, p)
  {
    var prefix := TrafficPrefix(id, direction);
    var under := Under(rules, prefix);
    forall i | 0 <= i < |under|
      ensures Counts(under[i].args) && !Rejects(under[i].args)
      ensures Hits(under[i].args, p) <==>
              IsTraffic(p, direction, networks, port) && under[i].comment == Tag(prefix, p.protocol, port)
    {
      RuleCounts(rules, id, direction, prefix, networks, port, under[i], p);
    }
    OneHit(under, Tag(prefix, p.protocol, port), IsTraffic(p, direction, networks, port), p);
  }
}
