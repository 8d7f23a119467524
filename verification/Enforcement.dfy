/** Blocking rules, accounting rules and the reading of accounting counters. */
module Enforcement {
  import opened Wrappers
  import opened Text
  import opened Counters
  import opened Firewall
  import opened Tags

  datatype FirewallError = InvalidRequest

  const TABLE := "proxy_panel"

  predicate ValidRequest(id: string, port: int, networks: seq<string>) {
    && ValidId(id) && 1 <= port <= 65535 && |networks| > 0
    && forall i :: 0 <= i < |networks| ==> networks[i] == "tcp" || networks[i] == "udp"
  }

  function Quote(s: string): string {
    "\"" + s + "\""
  }

  // ----- The desired rules

  function TagSet(prefix: string, networks: seq<string>, port: nat): set<string> {
    set n | n in networks :: Tag(prefix, n, port)
  }

  function BlockedTags(id: string, networks: seq<string>, port: nat, blocked: bool): set<string> {
    if blocked then TagSet(BlockedPrefix(id), networks, port) else {}
  }

  // The command that adds a rule which rejects a network on a port.
  function BlockingArgs(network: string, port: nat, tag: string): seq<string> {
    ["add", "rule", "inet", TABLE, "input", network, "dport", Itoa(port), "counter", "reject", "comment", Quote(tag)]
  }

  // The command that adds a rule which counts a network on a port, the loopback interface excluded.
  function CountingArgs(direction: string, network: string, port: nat, tag: string): seq<string> {
    if direction == "upload" then
      ["add", "rule", "inet", TABLE, "input", "iifname", "!=", "lo", network, "dport", Itoa(port), "counter",
       "comment", Quote(tag)]
    else
      ["add", "rule", "inet", TABLE, "output", "oifname", "!=", "lo", network, "sport", Itoa(port), "counter",
       "comment", Quote(tag)]
  }

  lemma TagsUnderPrefix(prefix: string, networks: seq<string>, port: nat)
    ensures forall t :: t in TagSet(prefix, networks, port) ==> HasPrefix(t, prefix)
  {}

  lemma TagSetStep(prefix: string, networks: seq<string>, port: nat, i: nat)
    requires i < |networks|
    ensures TagSet(prefix, networks[..i + 1], port)
            == TagSet(prefix, networks[..i], port) + {Tag(prefix, networks[i], port)}
  {
    assert forall n :: n in networks[..i + 1] <==> n in networks[..i] || n == networks[i];
  }

  // ----- Frames

  lemma {:induction false} OutsideTwice(rules: seq<Rule>, long: string, short: string)
    requires HasPrefix(long, short)
    ensures Outside(Outside(rules, long), short) == Outside(rules, short)
    decreases |rules|
  {
    if |rules| > 0 {
      var n := |rules| - 1;
      OutsideTwice(rules[..n], long, short);
      OutsideConcat(Outside(rules[..n], long), if HasPrefix(rules[n].comment, long) then [] else [rules[n]], short);
      OutsideOne(rules[n], short);
      if HasPrefix(rules[n].comment, long) {
        PrefixTransitive(rules[n].comment, long, short);
      }
    }
  }

  lemma {:induction false} UnderOutside(rules: seq<Rule>, prefix: string, other: string)
    requires forall s {:trigger HasPrefix(s, other)} :: HasPrefix(s, other) ==> !HasPrefix(s, prefix)
    ensures Under(Outside(rules, prefix), other) == Under(rules, other)
    decreases |rules|
  {
    if |rules| > 0 {
      var n := |rules| - 1;
      UnderOutside(rules[..n], prefix, other);
      UnderConcat(Outside(rules[..n], prefix), if HasPrefix(rules[n].comment, prefix) then [] else [rules[n]], other);
      OutsideOne(rules[n], other);
    }
  }

  lemma {:induction false} UnderTwice(rules: seq<Rule>, long: string, short: string)
    requires HasPrefix(long, short)
    ensures Under(Under(rules, short), long) == Under(rules, long)
    decreases |rules|
  {
    if |rules| > 0 {
      var n := |rules| - 1;
      UnderTwice(rules[..n], long, short);
      UnderConcat(Under(rules[..n], short), if HasPrefix(rules[n].comment, short) then [rules[n]] else [], long);
      OutsideOne(rules[n], long);
      if HasPrefix(rules[n].comment, long) {
        PrefixTransitive(rules[n].comment, long, short);
      }
    }
  }

  // What the rules of one node look like before and after a change to another node.
  lemma OtherNodeSame(before: seq<Rule>, after: seq<Rule>, changed: string, id: string, prefix: string)
    requires ColonFree(changed) && ColonFree(id) && id != changed && HasPrefix(prefix, NodePrefix(id))
    requires Outside(before, NodePrefix(changed)) == Outside(after, NodePrefix(changed))
    ensures Under(before, prefix) == Under(after, prefix)
  {
    forall s | HasPrefix(s, prefix)
      ensures !HasPrefix(s, NodePrefix(changed))
    {
      PrefixTransitive(s, prefix, NodePrefix(id));
      if HasPrefix(s, NodePrefix(changed)) {
        NodesApart(s, id, changed);
      }
    }
    UnderOutside(before, NodePrefix(changed), prefix);
    UnderOutside(after, NodePrefix(changed), prefix);
  }

  lemma NodeFrame(before: seq<Rule>, after: seq<Rule>, id: string, prefix: string)
    requires HasPrefix(prefix, NodePrefix(id)) && Outside(before, prefix) == Outside(after, prefix)
    ensures Outside(before, NodePrefix(id)) == Outside(after, NodePrefix(id))
  {
    OutsideTwice(before, prefix, NodePrefix(id));
    OutsideTwice(after, prefix, NodePrefix(id));
  }

  lemma TrafficFrame(before: seq<Rule>, after: seq<Rule>, id: string)
    requires Outside(before, BlockedPrefix(id)) == Outside(after, BlockedPrefix(id))
    ensures Under(before, SectionPrefix(id, "traffic")) == Under(after, SectionPrefix(id, "traffic"))
  {
    forall s | HasPrefix(s, SectionPrefix(id, "traffic"))
      ensures !HasPrefix(s, BlockedPrefix(id))
    {
      if HasPrefix(s, BlockedPrefix(id)) {
        SectionsApart(s, id);
      }
    }
    UnderOutside(before, BlockedPrefix(id), SectionPrefix(id, "traffic"));
    UnderOutside(after, BlockedPrefix(id), SectionPrefix(id, "traffic"));
  }

  lemma BlockedFrame(before: seq<Rule>, after: seq<Rule>, id: string, prefix: string)
    requires HasPrefix(prefix, SectionPrefix(id, "traffic")) && Outside(before, prefix) == Outside(after, prefix)
    ensures Under(before, BlockedPrefix(id)) == Under(after, BlockedPrefix(id))
  {
    forall s | HasPrefix(s, BlockedPrefix(id))
      ensures !HasPrefix(s, prefix)
    {
      SectionsApart(s, id);
      if HasPrefix(s, prefix) {
        PrefixTransitive(s, prefix, SectionPrefix(id, "traffic"));
      }
    }
    UnderOutside(before, prefix, BlockedPrefix(id));
    UnderOutside(after, prefix, BlockedPrefix(id));
  }

  // ----- Deleting listed rules

  // The rules without those under the prefix that are to be dropped.
  function Remaining(rules: seq<Rule>, prefix: string, drop: Rule -> bool): seq<Rule> {
    if |rules| == 0 then []
    else
      var n := |rules| - 1;
      Remaining(rules[..n], prefix, drop)
      + if HasPrefix(rules[n].comment, prefix) && drop(rules[n]) then [] else [rules[n]]
  }

  function Dropped(listed: seq<Rule>, drop: Rule -> bool): set<nat> {
    if |listed| == 0 then {}
    else
      var n := |listed| - 1;
      Dropped(listed[..n], drop) + if drop(listed[n]) then {listed[n].handle} else {}
  }

  lemma {:induction false} DroppedMembers(listed: seq<Rule>, drop: Rule -> bool, h: nat)
    ensures h in Dropped(listed, drop) <==> exists r :: r in listed && drop(r) && r.handle == h
    decreases |listed|
  {
    if |listed| > 0 {
      var n := |listed| - 1;
      DroppedMembers(listed[..n], drop, h);
      assert listed[n] in listed;
      assert forall r :: r in listed <==> r in listed[..n] || r == listed[n];
    }
  }

  lemma DroppedExact(rules: seq<Rule>, prefix: string, drop: Rule -> bool, r: Rule)
    requires DistinctHandles(rules) && r in rules
    ensures r.handle in Dropped(Under(rules, prefix), drop) <==> HasPrefix(r.comment, prefix) && drop(r)
  {
    DroppedMembers(Under(rules, prefix), drop, r.handle);
    UnderMembers(rules, prefix, r);
    if x :| x in Under(rules, prefix) && drop(x) && x.handle == r.handle {
      UnderMembers(rules, prefix, x);
    }
  }

  lemma {:induction false} WithoutDropped(rules: seq<Rule>, prefix: string, drop: Rule -> bool, handles: set<nat>)
    requires forall r :: r in rules ==> (r.handle in handles <==> HasPrefix(r.comment, prefix) && drop(r))
    ensures Without(rules, handles) == Remaining(rules, prefix, drop)
    decreases |rules|
  {
    if |rules| > 0 {
      assert rules[|rules| - 1] in rules;
      WithoutDropped(rules[..|rules| - 1], prefix, drop, handles);
    }
  }

  lemma DroppedStep(rules: seq<Rule>, listed: seq<Rule>, drop: Rule -> bool, i: nat)
    requires i < |listed|
    ensures Without(rules, Dropped(listed[..i + 1], drop))
         == if drop(listed[i]) then Without(Without(rules, Dropped(listed[..i], drop)), {listed[i].handle})
            else Without(rules, Dropped(listed[..i], drop))
  {
    assert listed[..i + 1][..i] == listed[..i];
    WithoutTwice(rules, Dropped(listed[..i], drop), {listed[i].handle});
    assert Dropped(listed[..i], drop) + {} == Dropped(listed[..i], drop);
  }

  // Lists the rules under a prefix and deletes, by handle, those that are to be dropped.
  method DeleteListed(chain: Chain, prefix: string, drop: Rule -> bool)
    requires chain.Valid()
    modifies chain
    ensures chain.Valid() && chain.rules == Remaining(old(chain.rules), prefix, drop)
  {
    ghost var before := chain.rules;
    var listed := Under(chain.rules, prefix);
    ghost var left := before;
    WithoutNothing(before);
    for i := 0 to |listed|
      invariant chain.Valid() && chain.rules == left
      invariant left == Without(before, Dropped(listed[..i], drop))
    {
      DroppedStep(before, listed, drop, i);
      if drop(listed[i]) {
        chain.Delete(listed[i].handle);
        left := Without(left, {listed[i].handle});
      }
    }
    assert listed[..|listed|] == listed;
    forall r | r in before
      ensures r.handle in Dropped(listed, drop) <==> HasPrefix(r.comment, prefix) && drop(r)
    {
      DroppedExact(before, prefix, drop, r);
    }
    WithoutDropped(before, prefix, drop, Dropped(listed, drop));
  }

  lemma {:induction false} RemainingOutside(rules: seq<Rule>, long: string, drop: Rule -> bool, short: string)
    requires HasPrefix(long, short)
    ensures Outside(Remaining(rules, long, drop), short) == Outside(rules, short)
    decreases |rules|
  {
    if |rules| > 0 {
      var n := |rules| - 1;
      RemainingOutside(rules[..n], long, drop, short);
      OutsideConcat(Remaining(rules[..n], long, drop),
                    if HasPrefix(rules[n].comment, long) && drop(rules[n]) then [] else [rules[n]], short);
      OutsideOne(rules[n], short);
      if HasPrefix(rules[n].comment, long) {
        PrefixTransitive(rules[n].comment, long, short);
      }
    }
  }

  lemma {:induction false} RemainingUnder(rules: seq<Rule>, prefix: string, drop: Rule -> bool, other: string)
    requires forall r :: r in rules && HasPrefix(r.comment, other) && HasPrefix(r.comment, prefix) ==> !drop(r)
    ensures Under(Remaining(rules, prefix, drop), other) == Under(rules, other)
    decreases |rules|
  {
    if |rules| > 0 {
      var n := |rules| - 1;
      assert rules[n] in rules;
      RemainingUnder(rules[..n], prefix, drop, other);
      UnderConcat(Remaining(rules[..n], prefix, drop),
                  if HasPrefix(rules[n].comment, prefix) && drop(rules[n]) then [] else [rules[n]], other);
      OutsideOne(rules[n], other);
    }
  }

  // ----- Rules left by older versions, which share one comment

  function LegacyTag(id: string): string {
    NodePrefix(id) + "blocked"
  }

  function ExactTag(tag: string): Rule -> bool {
    (r: Rule) => r.comment == tag
  }

  lemma LegacyFrame(rules: seq<Rule>, id: string)
    ensures var left := Remaining(rules, LegacyTag(id), ExactTag(LegacyTag(id)));
            Outside(left, NodePrefix(id)) == Outside(rules, NodePrefix(id))
            && Under(left, SectionPrefix(id, "traffic")) == Under(rules, SectionPrefix(id, "traffic"))
  {
    var n := |NodePrefix(id)|;
    assert LegacyTag(id)[n] == 'b' && SectionPrefix(id, "traffic")[n] == 't';
    RemainingOutside(rules, LegacyTag(id), ExactTag(LegacyTag(id)), NodePrefix(id));
    RemainingUnder(rules, LegacyTag(id), ExactTag(LegacyTag(id)), SectionPrefix(id, "traffic"));
  }

  lemma {:induction false} OutsideMembers(rules: seq<Rule>, prefix: string, r: Rule)
    ensures r in Outside(rules, prefix) <==> r in rules && !HasPrefix(r.comment, prefix)
    decreases |rules|
  {
    if |rules| > 0 {
      OutsideMembers(rules[..|rules| - 1], prefix, r);
      assert r in rules <==> r in rules[..|rules| - 1] || r == rules[|rules| - 1];
    }
  }

  lemma {:induction false} RemainingMembers(rules: seq<Rule>, prefix: string, drop: Rule -> bool, r: Rule)
    ensures r in Remaining(rules, prefix, drop) <==> r in rules && !(HasPrefix(r.comment, prefix) && drop(r))
    decreases |rules|
  {
    if |rules| > 0 {
      RemainingMembers(rules[..|rules| - 1], prefix, drop, r);
      assert r in rules <==> r in rules[..|rules| - 1] || r == rules[|rules| - 1];
    }
  }

  lemma LegacyGone(start: seq<Rule>, middle: seq<Rule>, after: seq<Rule>, id: string)
    requires middle == Remaining(start, LegacyTag(id), ExactTag(LegacyTag(id)))
    requires Outside(after, BlockedPrefix(id)) == Outside(middle, BlockedPrefix(id))
    ensures forall r :: r in after ==> r.comment != "proxy-panel:" + id + ":blocked"
  {
    assert LegacyTag(id) == "proxy-panel:" + id + ":blocked";
    forall r | r in after
      ensures r.comment != LegacyTag(id)
    {
      OutsideMembers(after, BlockedPrefix(id), r);
      OutsideMembers(middle, BlockedPrefix(id), r);
      RemainingMembers(start, LegacyTag(id), ExactTag(LegacyTag(id)), r);
      assert |LegacyTag(id)| < |BlockedPrefix(id)|;
    }
  }

  // ----- Blocking

  // Every accounting rule of the chain counts in one direction.
  ghost predicate Sided(rules: seq<Rule>, direction: string) {
    forall r :: r in rules && IsAccounting(Split(r.comment, ':')) ==> Split(r.comment, ':')[3] == direction
  }

  lemma SidedRemaining(rules: seq<Rule>, prefix: string, drop: Rule -> bool, direction: string)
    requires Sided(rules, direction)
    ensures Sided(Remaining(rules, prefix, drop), direction)
  {
    forall r | r in Remaining(rules, prefix, drop)
      ensures r in rules
    {
      RemainingMembers(rules, prefix, drop, r);
    }
  }

  // Blocking rules are no accounting rules.
  lemma SidedBlocked(before: seq<Rule>, after: seq<Rule>, id: string, direction: string)
    requires Sided(before, direction) && ColonFree(id)
    requires forall r :: r in after ==> r in before || HasPrefix(r.comment, BlockedPrefix(id))
    ensures Sided(after, direction)
  {
    forall r | r in after && r !in before
      ensures !IsAccounting(Split(r.comment, ':'))
    {
      SectionParts(r.comment, id, "blocked");
      assert Split(r.comment, ':')[..3][2] == "blocked";
    }
  }

  // A rule with the tag of a node does what the tag says.
  ghost predicate ProperRule(r: Rule) {
    && (forall id, network, port: nat ::
          ColonFree(id) && ColonFree(network) && r.comment == Tag(BlockedPrefix(id), network, port) ==>
            r.args == BlockingArgs(network, port, r.comment))
    && (forall id, direction, network, port: nat ::
          ColonFree(id) && ColonFree(direction) && ColonFree(network)
          && r.comment == Tag(TrafficPrefix(id, direction), network, port) ==>
            r.args == CountingArgs(direction, network, port, r.comment))
  }

  ghost predicate Proper(rules: seq<Rule>) {
    forall r {:trigger ProperRule(r)} :: r in rules ==> ProperRule(r)
  }

  // Itoa loses nothing.
  lemma ItoaInjective(p: nat, q: nat)
    requires Itoa(p) == Itoa(q)
    ensures p == q
  {
    ItoaValue(p);
    ItoaValue(q);
  }

  lemma ProperBlocking(r: Rule, id: string, network: string, port: nat)
    requires ColonFree(id) && ColonFree(network) && r.comment == Tag(BlockedPrefix(id), network, port)
    requires r.args == BlockingArgs(network, port, r.comment)
    ensures ProperRule(r)
  {
    BlockedTagParts(id, network, port);
    forall id', network', port': nat
      | ColonFree(id') && ColonFree(network') && r.comment == Tag(BlockedPrefix(id'), network', port')
      ensures network' == network && port' == port
    {
      BlockedTagParts(id', network', port');
      assert Split(r.comment, ':')[3] == network' && Split(r.comment, ':')[4] == Itoa(port');
      ItoaInjective(port, port');
    }
    forall id', direction, network', port': nat
      | ColonFree(id') && ColonFree(direction) && ColonFree(network')
      ensures r.comment != Tag(TrafficPrefix(id', direction), network', port')
    {
      TrafficTagParts(id', direction, network', port');
    }
  }

  lemma ProperCounting(r: Rule, id: string, direction: string, network: string, port: nat)
    requires ColonFree(id) && ColonFree(direction) && ColonFree(network)
    requires r.comment == Tag(TrafficPrefix(id, direction), network, port)
    requires r.args == CountingArgs(direction, network, port, r.comment)
    ensures ProperRule(r)
  {
    TrafficTagParts(id, direction, network, port);
    forall id', direction', network', port': nat
      | ColonFree(id') && ColonFree(direction') && ColonFree(network')
        && r.comment == Tag(TrafficPrefix(id', direction'), network', port')
      ensures direction' == direction && network' == network && port' == port
    {
      TrafficTagParts(id', direction', network', port');
      assert Split(r.comment, ':')[3] == direction' && Split(r.comment, ':')[4] == network';
      assert Split(r.comment, ':')[5] == Itoa(port');
      ItoaInjective(port, port');
    }
    forall id', network', port': nat | ColonFree(id') && ColonFree(network')
      ensures r.comment != Tag(BlockedPrefix(id'), network', port')
    {
      BlockedTagParts(id', network', port');
    }
  }

  // The desired rules reject the networks on the port.
  ghost predicate Rejecting(desired: map<string, seq<string>>, id: string, networks: seq<string>, port: nat) {
    forall tag :: tag in desired ==>
      exists n :: n in networks && tag == Tag(BlockedPrefix(id), n, port) && desired[tag] == BlockingArgs(n, port, tag)
  }

  ghost predicate CountsAll(desired: map<string, seq<string>>, id: string, direction: string, networks: seq<string>,
                            port: nat)
  {
    forall tag :: tag in desired ==>
      exists n :: n in networks && tag == Tag(TrafficPrefix(id, direction), n, port)
                  && desired[tag] == CountingArgs(direction, n, port, tag)
  }

  // Every rule was there before or is the desired one for its tag.
  ghost predicate From(before: seq<Rule>, after: seq<Rule>, desired: map<string, seq<string>>) {
    forall r :: r in after ==> r in before || (r.comment in desired && r.args == desired[r.comment])
  }

  lemma ProperBlocked(before: seq<Rule>, after: seq<Rule>, desired: map<string, seq<string>>, id: string,
                      networks: seq<string>, port: nat)
    requires Proper(before) && From(before, after, desired) && Rejecting(desired, id, networks, port) && ColonFree(id)
    requires forall n :: n in networks ==> ColonFree(n)
    ensures Proper(after)
  {
    forall r | r in after
      ensures ProperRule(r)
    {
      if r !in before {
        var n :| n in networks && r.comment == Tag(BlockedPrefix(id), n, port)
                 && desired[r.comment] == BlockingArgs(n, port, r.comment);
        ProperBlocking(r, id, n, port);
      }
    }
  }

  lemma ProperCounted(before: seq<Rule>, after: seq<Rule>, desired: map<string, seq<string>>, id: string,
                      direction: string, networks: seq<string>, port: nat)
    requires Proper(before) && From(before, after, desired) && ColonFree(id) && ColonFree(direction)
    requires CountsAll(desired, id, direction, networks, port) && forall n :: n in networks ==> ColonFree(n)
    ensures Proper(after)
  {
    forall r | r in after
      ensures ProperRule(r)
    {
      if r !in before {
        var n :| n in networks && r.comment == Tag(TrafficPrefix(id, direction), n, port)
                 && desired[r.comment] == CountingArgs(direction, n, port, r.comment);
        ProperCounting(r, id, direction, n, port);
      }
    }
  }

  lemma ProperRemaining(rules: seq<Rule>, prefix: string, drop: Rule -> bool)
    requires Proper(rules)
    ensures Proper(Remaining(rules, prefix, drop))
  {
    forall r | r in Remaining(rules, prefix, drop)
      ensures ProperRule(r)
    {
      RemainingMembers(rules, prefix, drop, r);
    }
  }

  // What blocked means: every network of the node is rejected on its port, and when it is
  // not blocked, no rule lies under its blocking prefix.
  lemma BlockedRejects(rules: seq<Rule>, id: string, networks: seq<string>, port: nat, blocked: bool)
    requires Proper(rules) && ColonFree(id) && forall n :: n in networks ==> ColonFree(n)
    requires Synced(rules, BlockedPrefix(id), BlockedTags(id, networks, port, blocked))
    ensures blocked ==> forall n :: n in networks ==>
              exists r :: r in rules && r.args == BlockingArgs(n, port, Tag(BlockedPrefix(id), n, port))
    ensures !blocked ==> Under(rules, BlockedPrefix(id)) == []
  {
    var under := Under(rules, BlockedPrefix(id));
    forall n | n in networks && blocked
      ensures exists r :: r in rules && r.args == BlockingArgs(n, port, Tag(BlockedPrefix(id), n, port))
    {
      var tag := Tag(BlockedPrefix(id), n, port);
      assert tag in Comments(under);
      var r :| r in under && r.comment == tag;
      UnderMembers(rules, BlockedPrefix(id), r);
      assert ProperRule(r);
    }
    if !blocked {
      NoComments(under);
    }
  }

  // Builds the wanted blocking rules and puts them in place.
  method SyncBlocked(input: Chain, id: string, port: nat, networks: seq<string>, blocked: bool)
    requires input.Valid() && ColonFree(id) && forall n :: n in networks ==> ColonFree(n)
    modifies input
    ensures input.Valid()
    ensures Synced(input.rules, BlockedPrefix(id), BlockedTags(id, networks, port, blocked))
    ensures Outside(input.rules, BlockedPrefix(id)) == Outside(old(input.rules), BlockedPrefix(id))
    ensures Sided(old(input.rules), "upload") ==> Sided(input.rules, "upload")
    ensures Proper(old(input.rules)) ==> Proper(input.rules)
  {
    var prefix := BlockedPrefix(id);
    var desired: map<string, seq<string>> := map[];
    if blocked {
      for i := 0 to |networks|
        invariant input.Valid() && input.rules == old(input.rules)
        invariant desired.Keys == TagSet(prefix, networks[..i], port)
        invariant Rejecting(desired, id, networks, port)
      {
        var tag := Tag(prefix, networks[i], port);
        TagSetStep(prefix, networks, port, i);
        desired := desired[tag := BlockingArgs(networks[i], port, tag)];
      }
      assert networks[..|networks|] == networks;
    }
    TagsUnderPrefix(prefix, networks, port);
    SyncTagged(input, prefix, desired);
    if Sided(old(input.rules), "upload") {
      SidedBlocked(old(input.rules), input.rules, id, "upload");
    }
    if Proper(old(input.rules)) {
      ProperBlocked(old(input.rules), input.rules, desired, id, networks, port);
    }
  }

  // Removes the rules that carry the tag of earlier versions.
  method DeleteLegacy(input: Chain, id: string)
    requires input.Valid()
    modifies input
    ensures input.Valid() && input.rules == Remaining(old(input.rules), LegacyTag(id), ExactTag(LegacyTag(id)))
    ensures Sided(old(input.rules), "upload") ==> Sided(input.rules, "upload")
    ensures Proper(old(input.rules)) ==> Proper(input.rules)
  {
    DeleteListed(input, LegacyTag(id), ExactTag(LegacyTag(id)));
    if Sided(old(input.rules), "upload") {
      SidedRemaining(old(input.rules), LegacyTag(id), ExactTag(LegacyTag(id)), "upload");
    }
    if Proper(old(input.rules)) {
      ProperRemaining(old(input.rules), LegacyTag(id), ExactTag(LegacyTag(id)));
    }
  }

  method SetBlocked(input: Chain, id: string, port: int, networks: seq<string>, blocked: bool)
    returns (r: Result<(), FirewallError>)
    requires input.Valid()
    modifies input
    ensures input.Valid()
    ensures r.Ok? <==> ValidRequest(id, port, networks)
    ensures r.Err? ==> input.rules == old(input.rules)
    ensures r.Ok? ==> Synced(input.rules, BlockedPrefix(id), BlockedTags(id, networks, port, blocked))
    ensures r.Ok? ==> forall rule :: rule in input.rules ==> rule.comment != "proxy-panel:" + id + ":blocked"
    ensures Outside(input.rules, NodePrefix(id)) == Outside(old(input.rules), NodePrefix(id))
    ensures Under(input.rules, SectionPrefix(id, "traffic")) == Under(old(input.rules), SectionPrefix(id, "traffic"))
    ensures Sided(old(input.rules), "upload") ==> Sided(input.rules, "upload")
    ensures Proper(old(input.rules)) ==> Proper(input.rules)
  {
    if !ValidRequest(id, port, networks) {
      return Err(InvalidRequest);
    }
    NetworksColonFree(id, port, networks);
    DeleteLegacy(input, id);
    LegacyFrame(old(input.rules), id);
    ghost var middle := input.rules;
    SyncBlocked(input, id, port, networks, blocked);
    SectionWithinNode(id, "blocked", "");
    LegacyGone(old(input.rules), middle, input.rules, id);
    NodeFrame(middle, input.rules, id, BlockedPrefix(id));
    TrafficFrame(middle, input.rules, id);
    r := Ok(());
  }

  // ----- Accounting

  method EnsureDirection(chain: Chain, id: string, port: nat, networks: seq<string>, direction: string)
    requires chain.Valid() && ColonFree(id) && ColonFree(direction)
    requires forall i :: 0 <= i < |networks| ==> ColonFree(networks[i])
    modifies chain
    ensures chain.Valid()
    ensures Synced(chain.rules, TrafficPrefix(id, direction), TagSet(TrafficPrefix(id, direction), networks, port))
    ensures Outside(chain.rules, TrafficPrefix(id, direction))
            == Outside(old(chain.rules), TrafficPrefix(id, direction))
    ensures Kept(old(chain.rules), TrafficPrefix(id, direction), TagSet(TrafficPrefix(id, direction), networks, port))
         <= chain.rules
    ensures Continued(old(chain.rules), chain.rules, TrafficPrefix(id, direction),
                      TagSet(TrafficPrefix(id, direction), networks, port))
    ensures Synced(old(chain.rules), TrafficPrefix(id, direction),
                   TagSet(TrafficPrefix(id, direction), networks, port)) ==>
              chain.rules == old(chain.rules)
    ensures Sided(old(chain.rules), direction) ==> Sided(chain.rules, direction)
    ensures Proper(old(chain.rules)) ==> Proper(chain.rules)
  {
    var prefix := TrafficPrefix(id, direction);
    var desired: map<string, seq<string>> := map[];
    for i := 0 to |networks|
      invariant chain.Valid() && chain.rules == old(chain.rules)
      invariant desired.Keys == TagSet(prefix, networks[..i], port)
      invariant CountsAll(desired, id, direction, networks, port)
    {
      var tag := Tag(prefix, networks[i], port);
      TagSetStep(prefix, networks, port, i);
      desired := desired[tag := CountingArgs(direction, networks[i], port, tag)];
    }
    assert networks[..|networks|] == networks;
    TagsUnderPrefix(prefix, networks, port);
    SyncTagged(chain, prefix, desired);
    if Sided(old(chain.rules), direction) {
      SidedTags(old(chain.rules), chain.rules, id, direction, networks, port);
    }
    if Proper(old(chain.rules)) {
      ProperCounted(old(chain.rules), chain.rules, desired, id, direction, networks, port);
    }
  }

  // The counters of a node in both chains go on: rules in place keep their handles and
  // bytes, and the rules that are missing are added with no bytes.
  ghost predicate Counting(inputBefore: seq<Rule>, input: seq<Rule>, outputBefore: seq<Rule>, output: seq<Rule>,
                           id: string, networks: seq<string>, port: nat)
  {
    && Continued(inputBefore, input, TrafficPrefix(id, "upload"), TagSet(TrafficPrefix(id, "upload"), networks, port))
    && Continued(outputBefore, output, TrafficPrefix(id, "download"),
                 TagSet(TrafficPrefix(id, "download"), networks, port))
  }

  // What the rules that stay have counted for a node.
  function SurvivingReading(input: seq<Rule>, output: seq<Rule>, id: string, networks: seq<string>, port: nat)
    : Reading
  {
    Reading(Surviving(input, TrafficPrefix(id, "upload"), TagSet(TrafficPrefix(id, "upload"), networks, port)),
            Surviving(output, TrafficPrefix(id, "download"), TagSet(TrafficPrefix(id, "download"), networks, port)))
  }

  // Both chains already have exactly the accounting rules of the node.
  ghost predicate InPlace(input: seq<Rule>, output: seq<Rule>, id: string, networks: seq<string>, port: nat) {
    && Synced(input, TrafficPrefix(id, "upload"), TagSet(TrafficPrefix(id, "upload"), networks, port))
    && Synced(output, TrafficPrefix(id, "download"), TagSet(TrafficPrefix(id, "download"), networks, port))
  }

  lemma SidedTags(before: seq<Rule>, after: seq<Rule>, id: string, direction: string, networks: seq<string>, port: nat)
    requires Sided(before, direction) && ColonFree(id) && ColonFree(direction)
    requires forall i :: 0 <= i < |networks| ==> ColonFree(networks[i])
    requires forall r :: r in after ==> r in before || r.comment in TagSet(TrafficPrefix(id, direction), networks, port)
    ensures Sided(after, direction)
  {
    forall r | r in after && r !in before
      ensures IsAccounting(Split(r.comment, ':')) ==> Split(r.comment, ':')[3] == direction
    {
      var n :| n in networks && r.comment == Tag(TrafficPrefix(id, direction), n, port);
      TrafficTagParts(id, direction, n, port);
    }
  }

  lemma NetworksColonFree(id: string, port: int, networks: seq<string>)
    requires ValidRequest(id, port, networks)
    ensures forall i :: 0 <= i < |networks| ==> ColonFree(networks[i])
  {}

  method EnsureAccounting(input: Chain, output: Chain, id: string, port: int, networks: seq<string>)
    returns (r: Result<(), FirewallError>)
    requires input.Valid() && output.Valid() && input != output
    modifies input, output
    ensures input.Valid() && output.Valid()
    ensures r.Ok? <==> ValidRequest(id, port, networks)
    ensures r.Err? ==> input.rules == old(input.rules) && output.rules == old(output.rules)
    ensures r.Ok? ==>
              Synced(input.rules, TrafficPrefix(id, "upload"), TagSet(TrafficPrefix(id, "upload"), networks, port))
              && Synced(output.rules, TrafficPrefix(id, "download"),
                        TagSet(TrafficPrefix(id, "download"), networks, port))
    ensures Outside(input.rules, NodePrefix(id)) == Outside(old(input.rules), NodePrefix(id))
    ensures Outside(output.rules, NodePrefix(id)) == Outside(old(output.rules), NodePrefix(id))
    ensures Under(input.rules, BlockedPrefix(id)) == Under(old(input.rules), BlockedPrefix(id))
    ensures r.Ok? ==> Counting(old(input.rules), input.rules, old(output.rules), output.rules, id, networks, port)
    ensures r.Ok? && InPlace(old(input.rules), old(output.rules), id, networks, port) ==>
              input.rules == old(input.rules) && output.rules == old(output.rules)
    ensures Sided(old(input.rules), "upload") ==> Sided(input.rules, "upload")
    ensures Sided(old(output.rules), "download") ==> Sided(output.rules, "download")
    ensures Proper(old(input.rules)) ==> Proper(input.rules)
    ensures Proper(old(output.rules)) ==> Proper(output.rules)
  {
    if !ValidRequest(id, port, networks) {
      return Err(InvalidRequest);
    }
    NetworksColonFree(id, port, networks);
    EnsureDirection(input, id, port, networks, "upload");
    EnsureDirection(output, id, port, networks, "download");
    SectionWithinNode(id, "traffic", "upload");
    SectionWithinNode(id, "traffic", "download");
    NodeFrame(old(input.rules), input.rules, id, TrafficPrefix(id, "upload"));
    NodeFrame(old(output.rules), output.rules, id, TrafficPrefix(id, "download"));
    BlockedFrame(old(input.rules), input.rules, id, TrafficPrefix(id, "upload"));
    r := Ok(());
  }

  // ----- Accounting rules of unknown nodes

  function Unknown(active: set<string>): Rule -> bool {
    (r: Rule) =>
      var parts := Split(r.comment, ':');
      |parts| == 6 && parts[0] == "proxy-panel" && parts[2] == "traffic" && parts[1] !in active
  }

  // What a cleanup leaves of a chain.
  function Known(rules: seq<Rule>, active: set<string>): seq<Rule> {
    Remaining(rules, "proxy-panel:", Unknown(active))
  }

  method CleanupUnknown(chain: Chain, active: set<string>)
    requires chain.Valid()
    modifies chain
    ensures chain.Valid() && chain.rules == Known(old(chain.rules), active)
  {
    DeleteListed(chain, "proxy-panel:", Unknown(active));
  }

  // Neither blocking rules nor the rules of active nodes are cleaned up.
  lemma CleanupKeeps(rules: seq<Rule>, active: set<string>, id: string, section: string)
    requires ColonFree(id) && ColonFree(section)
    requires id in active || section != "traffic"
    ensures Under(Known(rules, active), SectionPrefix(id, section)) == Under(rules, SectionPrefix(id, section))
  {
    forall r | r in rules && HasPrefix(r.comment, SectionPrefix(id, section))
      ensures !Unknown(active)(r)
    {
      SectionParts(r.comment, id, section);
      assert Split(r.comment, ':')[..3][1] == id && Split(r.comment, ':')[..3][2] == section;
    }
    RemainingUnder(rules, "proxy-panel:", Unknown(active), SectionPrefix(id, section));
  }

  lemma CleanupKeepsAll(rules: seq<Rule>, active: set<string>, id: string, direction: string)
    requires ColonFree(id) && id in active
    ensures Under(Known(rules, active), TrafficPrefix(id, direction)) == Under(rules, TrafficPrefix(id, direction))
  {
    SectionWithinNode(id, "traffic", direction);
    forall r | r in rules && HasPrefix(r.comment, TrafficPrefix(id, direction))
      ensures !Unknown(active)(r)
    {
      PrefixTransitive(r.comment, TrafficPrefix(id, direction), SectionPrefix(id, "traffic"));
      SectionParts(r.comment, id, "traffic");
      assert Split(r.comment, ':')[..3][1] == id;
    }
    RemainingUnder(rules, "proxy-panel:", Unknown(active), TrafficPrefix(id, direction));
  }

  // After a cleanup, every accounting rule belongs to an active node.
  lemma {:induction false} CleanupComplete(rules: seq<Rule>, active: set<string>, r: Rule)
    requires r in Known(rules, active) && IsAccounting(Split(r.comment, ':'))
    ensures r in rules && Split(r.comment, ':')[1] in active
    decreases |rules|
  {
    var n := |rules| - 1;
    if r in Known(rules[..n], active) {
      CleanupComplete(rules[..n], active, r);
    } else {
      JoinSplit(r.comment, ':');
      var parts := Split(r.comment, ':');
      assert Join(parts, ':') == "proxy-panel" + [':'] + Join(parts[1..], ':');
    }
  }

  // ----- Reading the counters

  predicate CountsFor(r: Rule, id: string, direction: string) {
    var parts := Split(r.comment, ':');
    IsAccounting(parts) && parts[1] == id && parts[3] == direction
  }

  function BytesFor(rules: seq<Rule>, id: string, direction: string): nat {
    if |rules| == 0 then 0
    else
      var n := |rules| - 1;
      BytesFor(rules[..n], id, direction) + if CountsFor(rules[n], id, direction) then rules[n].bytes else 0
  }

  function Measured(rules: seq<Rule>, id: string): Reading {
    Reading(BytesFor(rules, id, "upload"), BytesFor(rules, id, "download"))
  }

  predicate Mentioned(rules: seq<Rule>, id: string) {
    exists i :: 0 <= i < |rules| && IsAccounting(Split(rules[i].comment, ':')) && Split(rules[i].comment, ':')[1] == id
  }

  ghost predicate Totals(result: map<string, Reading>, rules: seq<Rule>) {
    forall id ::
      && (id in result <==> Mentioned(rules, id))
      && (if id in result then result[id] == Measured(rules, id) else Measured(rules, id) == Reading(0, 0))
  }

  // Every byte of an accounting rule is attributed to the node in its comment.
  method ParseAccounting(rules: seq<Rule>) returns (result: map<string, Reading>)
    ensures Totals(result, rules)
  {
    result := map[];
    for i := 0 to |rules|
      invariant Totals(result, rules[..i])
    {
      var parts := Split(rules[i].comment, ':');
      if IsAccounting(parts) {
        TotalsAdd(result, rules, i);
        var current := if parts[1] in result then result[parts[1]] else Reading(0, 0);
        if parts[3] == "upload" {
          current := current.(upload := current.upload + rules[i].bytes);
        } else {
          current := current.(download := current.download + rules[i].bytes);
        }
        result := result[parts[1] := current];
      } else {
        TotalsSkip(result, rules, i);
      }
    }
    assert rules[..|rules|] == rules;
  }

  lemma MentionedStep(rules: seq<Rule>, i: nat, id: string)
    requires i < |rules|
    ensures Mentioned(rules[..i + 1], id) <==>
            Mentioned(rules[..i], id)
            || (IsAccounting(Split(rules[i].comment, ':')) && Split(rules[i].comment, ':')[1] == id)
  {
    if Mentioned(rules[..i], id) {
      var k :| 0 <= k < i && IsAccounting(Split(rules[..i][k].comment, ':'))
        && Split(rules[..i][k].comment, ':')[1] == id;
      assert rules[..i + 1][k] == rules[..i][k];
    }
    assert rules[..i + 1][i] == rules[i];
    if Mentioned(rules[..i + 1], id) {
      var k :| 0 <= k < i + 1 && IsAccounting(Split(rules[..i + 1][k].comment, ':'))
               && Split(rules[..i + 1][k].comment, ':')[1] == id;
      if k < i {
        assert rules[..i][k] == rules[..i + 1][k];
      }
    }
  }

  function Credited(result: map<string, Reading>, r: Rule): map<string, Reading>
    requires IsAccounting(Split(r.comment, ':'))
  {
    var parts := Split(r.comment, ':');
    var current := if parts[1] in result then result[parts[1]] else Reading(0, 0);
    result[parts[1] := if parts[3] == "upload" then current.(upload := current.upload + r.bytes)
                       else current.(download := current.download + r.bytes)]
  }

  lemma TotalsAdd(result: map<string, Reading>, rules: seq<Rule>, i: nat)
    requires i < |rules| && Totals(result, rules[..i]) && IsAccounting(Split(rules[i].comment, ':'))
    ensures Totals(Credited(result, rules[i]), rules[..i + 1])
  {
    forall id
      ensures id in Credited(result, rules[i]) <==> Mentioned(rules[..i + 1], id)
      ensures if id in Credited(result, rules[i]) then Credited(result, rules[i])[id] == Measured(rules[..i + 1], id)
              else Measured(rules[..i + 1], id) == Reading(0, 0)
    {
      TotalsAddOne(result, rules, i, id);
    }
  }

  lemma TotalsAddOne(result: map<string, Reading>, rules: seq<Rule>, i: nat, id: string)
    requires i < |rules| && Totals(result, rules[..i]) && IsAccounting(Split(rules[i].comment, ':'))
    ensures id in Credited(result, rules[i]) <==> Mentioned(rules[..i + 1], id)
    ensures if id in Credited(result, rules[i]) then Credited(result, rules[i])[id] == Measured(rules[..i + 1], id)
            else Measured(rules[..i + 1], id) == Reading(0, 0)
  {
    MentionedStep(rules, i, id);
    assert rules[..i + 1][..i] == rules[..i];
    assert id in result <==> Mentioned(rules[..i], id);
  }

  lemma TotalsSkip(result: map<string, Reading>, rules: seq<Rule>, i: nat)
    requires i < |rules| && Totals(result, rules[..i]) && !IsAccounting(Split(rules[i].comment, ':'))
    ensures Totals(result, rules[..i + 1])
  {
    forall id
      ensures id in result <==> Mentioned(rules[..i + 1], id)
      ensures Measured(rules[..i + 1], id) == Measured(rules[..i], id)
    {
      MentionedStep(rules, i, id);
      assert rules[..i + 1][..i] == rules[..i];
      assert id in result <==> Mentioned(rules[..i], id);
    }
  }

  // A rule under a node's accounting prefix that carries one of the panel's tags counts
  // for that node and direction; any other rule does not.
  lemma CountsExactly(r: Rule, id: string, direction: string, networks: seq<string>, port: nat)
    requires ColonFree(id) && (direction == "upload" || direction == "download")
    requires forall n :: n in networks ==> ColonFree(n)
    requires HasPrefix(r.comment, TrafficPrefix(id, direction)) ==>
               r.comment in TagSet(TrafficPrefix(id, direction), networks, port)
    ensures CountsFor(r, id, direction) <==> HasPrefix(r.comment, TrafficPrefix(id, direction))
  {
    if CountsFor(r, id, direction) {
      AccountingUnderPrefix(r.comment, id, direction);
    } else if HasPrefix(r.comment, TrafficPrefix(id, direction)) {
      var network :| network in networks && r.comment == Tag(TrafficPrefix(id, direction), network, port);
      TrafficTagParts(id, direction, network, port);
    }
  }

  // When the panel's own tags are in place, a node is credited with exactly the bytes of
  // the rules under its prefix: no rule of its own is missed and none of another counted.
  lemma {:induction false} AttributionExact(
    rules: seq<Rule>, id: string, direction: string, networks: seq<string>, port: nat)
    requires ColonFree(id) && (direction == "upload" || direction == "download")
    requires forall n :: n in networks ==> ColonFree(n)
    requires forall r :: r in rules && HasPrefix(r.comment, TrafficPrefix(id, direction)) ==>
               r.comment in TagSet(TrafficPrefix(id, direction), networks, port)
    ensures BytesFor(rules, id, direction) == Bytes(Under(rules, TrafficPrefix(id, direction)))
    decreases |rules|
  {
    if |rules| > 0 {
      var n := |rules| - 1;
      assert rules[n] in rules;
      AttributionExact(rules[..n], id, direction, networks, port);
      CountsExactly(rules[n], id, direction, networks, port);
      BytesConcat(Under(rules[..n], TrafficPrefix(id, direction)),
                  if HasPrefix(rules[n].comment, TrafficPrefix(id, direction)) then [rules[n]] else []);
      OneBytes(rules[n]);
    }
  }

  lemma OneBytes(r: Rule)
    ensures Bytes([r]) == r.bytes
  {
    assert [r][..0] == [];
  }

  lemma {:induction false} BytesForConcat(left: seq<Rule>, right: seq<Rule>, id: string, direction: string)
    ensures BytesFor(left + right, id, direction) == BytesFor(left, id, direction) + BytesFor(right, id, direction)
    decreases |right|
  {
    if |right| == 0 {
      assert left + right == left;
    } else {
      var n := |right| - 1;
      BytesForConcat(left, right[..n], id, direction);
      assert (left + right)[..|left + right| - 1] == left + right[..n];
    }
  }

  lemma {:induction false} OtherSide(rules: seq<Rule>, side: string, id: string, direction: string)
    requires Sided(rules, side) && direction != side
    ensures BytesFor(rules, id, direction) == 0
    decreases |rules|
  {
    if |rules| > 0 {
      var n := |rules| - 1;
      assert rules[n] in rules;
      OtherSide(rules[..n], side, id, direction);
    }
  }

  lemma SyncedCarries(rules: seq<Rule>, prefix: string, wanted: set<string>, r: Rule)
    requires Synced(rules, prefix, wanted) && r in rules && HasPrefix(r.comment, prefix)
    ensures r.comment in wanted
  {
    UnderMembers(rules, prefix, r);
  }

  // One direction of a reading is what the rules that stayed had counted.
  lemma MeasuredSide(before: seq<Rule>, rules: seq<Rule>, id: string, direction: string, networks: seq<string>,
                     port: nat)
    requires ColonFree(id) && (direction == "upload" || direction == "download")
    requires forall i :: 0 <= i < |networks| ==> ColonFree(networks[i])
    requires Continued(before, rules, TrafficPrefix(id, direction),
                       TagSet(TrafficPrefix(id, direction), networks, port))
    ensures BytesFor(rules, id, direction)
         == Surviving(before, TrafficPrefix(id, direction), TagSet(TrafficPrefix(id, direction), networks, port))
  {
    var prefix, tags := TrafficPrefix(id, direction), TagSet(TrafficPrefix(id, direction), networks, port);
    forall r | r in rules && HasPrefix(r.comment, prefix)
      ensures r.comment in tags
    {
      SyncedCarries(rules, prefix, tags, r);
    }
    AttributionExact(rules, id, direction, networks, port);
    ContinuedBytes(before, rules, prefix, tags);
  }

  // A reading of both chains is exactly what the rules that stayed had counted before.
  lemma MeasuredSurviving(inputBefore: seq<Rule>, input: seq<Rule>, outputBefore: seq<Rule>, output: seq<Rule>,
                          id: string, networks: seq<string>, port: nat)
    requires Counting(inputBefore, input, outputBefore, output, id, networks, port)
    requires ColonFree(id) && forall i :: 0 <= i < |networks| ==> ColonFree(networks[i])
    requires Sided(input, "upload") && Sided(output, "download")
    ensures Measured(input + output, id) == SurvivingReading(inputBefore, outputBefore, id, networks, port)
  {
    BytesForConcat(input, output, id, "upload");
    BytesForConcat(input, output, id, "download");
    OtherSide(output, "download", id, "upload");
    OtherSide(input, "upload", id, "download");
    MeasuredSide(inputBefore, input, id, "upload", networks, port);
    MeasuredSide(outputBefore, output, id, "download", networks, port);
  }
}
