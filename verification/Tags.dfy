/** The comment tags that attribute firewall rules to nodes. */
module Tags {
  import opened Text

  predicate ColonFree(s: string) {
    ':' !in s
  }

  // The ids that the firewall accepts.
  predicate ValidId(id: string) {
    id != "" && ':' !in id && '\r' !in id && '\n' !in id
  }

  function NodePrefix(id: string): string {
    "proxy-panel" + [':'] + (id + [':'])
  }

  function SectionPrefix(id: string, section: string): string {
    NodePrefix(id) + (section + [':'])
  }

  function BlockedPrefix(id: string): string {
    SectionPrefix(id, "blocked")
  }

  function TrafficPrefix(id: string, direction: string): string {
    SectionPrefix(id, "traffic") + (direction + [':'])
  }

  // The tag of the rule for one network and port.
  function Tag(prefix: string, network: string, port: nat): string {
    prefix + (network + [':'] + Itoa(port))
  }

  lemma PrefixTransitive(s: string, long: string, short: string)
    requires HasPrefix(s, long) && HasPrefix(long, short)
    ensures HasPrefix(s, short)
  {}

  lemma SectionWithinNode(id: string, section: string, direction: string)
    ensures HasPrefix(SectionPrefix(id, section), NodePrefix(id))
    ensures HasPrefix(TrafficPrefix(id, direction), SectionPrefix(id, "traffic"))
    ensures HasPrefix(TrafficPrefix(id, direction), NodePrefix(id))
  {}

  // No comment lies under the prefixes of two nodes.
  lemma NodesApart(s: string, a: string, b: string)
    requires ColonFree(a) && ColonFree(b) && HasPrefix(s, NodePrefix(a)) && HasPrefix(s, NodePrefix(b))
    ensures a == b
  {
    AfterName(s, a);
    AfterName(s, b);
    HeadUnique(a, s[|NodePrefix(a)|..], b, s[|NodePrefix(b)|..]);
  }

  lemma AfterName(s: string, id: string)
    requires HasPrefix(s, NodePrefix(id))
    ensures s[12..] == id + [':'] + s[|NodePrefix(id)|..]
  {
    assert s == NodePrefix(id) + s[|NodePrefix(id)|..];
  }

  // What comes before the first colon is unique.
  lemma HeadUnique(a: string, restA: string, b: string, restB: string)
    requires ColonFree(a) && ColonFree(b)
    requires a + [':'] + restA == b + [':'] + restB
    ensures a == b && restA == restB
  {
    FindAt(a, ':', restA);
    FindAt(b, ':', restB);
    var s := a + [':'] + restA;
    assert a == s[..|a|] && b == s[..|b|];
    assert restA == s[|a| + 1..] && restB == s[|b| + 1..];
  }

  // A tag tells its network and its port.
  lemma TagInjective(prefix: string, a: string, p: nat, b: string, q: nat)
    requires ColonFree(a) && ColonFree(b) && Tag(prefix, a, p) == Tag(prefix, b, q)
    ensures a == b && p == q
  {
    var n := |prefix|;
    assert Tag(prefix, a, p)[n..] == a + [':'] + Itoa(p);
    assert Tag(prefix, b, q)[n..] == b + [':'] + Itoa(q);
    HeadUnique(a, Itoa(p), b, Itoa(q));
    ItoaValue(p);
    ItoaValue(q);
  }

  // The sections of a node do not overlap either.
  lemma SectionsApart(s: string, id: string)
    requires HasPrefix(s, SectionPrefix(id, "blocked"))
    ensures !HasPrefix(s, SectionPrefix(id, "traffic"))
  {
    var n := |NodePrefix(id)|;
    assert SectionPrefix(id, "blocked")[n] == 'b' && SectionPrefix(id, "traffic")[n] == 't';
  }

  // ----- The six parts of an accounting tag

  predicate IsAccounting(parts: seq<string>) {
    |parts| == 6 && parts[0] == "proxy-panel" && parts[2] == "traffic"
    && (parts[3] == "upload" || parts[3] == "download")
  }

  lemma TrafficTagParts(id: string, direction: string, network: string, port: nat)
    requires ColonFree(id) && ColonFree(direction) && ColonFree(network)
    ensures Split(Tag(TrafficPrefix(id, direction), network, port), ':')
         == ["proxy-panel", id, "traffic", direction, network, Itoa(port)]
  {
    ItoaValue(port);
    NumberLacks(Itoa(port), ':');
    TagAsParts(id, direction, network, port);
    TagSplits("proxy-panel", id, "traffic", direction, network, Itoa(port));
  }

  lemma BlockedTagParts(id: string, network: string, port: nat)
    requires ColonFree(id) && ColonFree(network)
    ensures Split(Tag(BlockedPrefix(id), network, port), ':') == ["proxy-panel", id, "blocked", network, Itoa(port)]
  {
    ItoaValue(port);
    NumberLacks(Itoa(port), ':');
    SplitNone(Itoa(port), ':');
    SplitFirst(network, ':', Itoa(port));
    SectionShape(Tag(BlockedPrefix(id), network, port), id, "blocked", network + [':'] + Itoa(port));
    SplitThree("proxy-panel", id, "blocked", network + [':'] + Itoa(port), ':');
  }

  lemma TagSplits(a: string, b: string, c: string, d: string, e: string, f: string)
    requires ColonFree(a) && ColonFree(b) && ColonFree(c) && ColonFree(d) && ColonFree(e) && ColonFree(f)
    ensures Split(a + [':'] + (b + [':'] + (c + [':'] + (d + [':'] + (e + [':'] + f)))), ':') == [a, b, c, d, e, f]
  {
    SplitNone(f, ':');
    SplitFirst(e, ':', f);
    SplitFirst(d, ':', e + [':'] + f);
    SplitThree(a, b, c, d + [':'] + (e + [':'] + f), ':');
  }

  lemma TagAsParts(id: string, direction: string, network: string, port: nat)
    ensures Tag(TrafficPrefix(id, direction), network, port)
         == "proxy-panel" + [':']
            + (id + [':'] + ("traffic" + [':'] + (direction + [':'] + (network + [':'] + Itoa(port)))))
  {}

  // A comment that splits into the parts of a node's accounting tag lies under its prefix.
  lemma AccountingUnderPrefix(comment: string, id: string, direction: string)
    requires IsAccounting(Split(comment, ':'))
    requires Split(comment, ':')[1] == id && Split(comment, ':')[3] == direction
    ensures HasPrefix(comment, TrafficPrefix(id, direction))
  {
    var parts := Split(comment, ':');
    JoinSplit(comment, ':');
    JoinPrefix(parts);
  }

  lemma JoinPrefix(parts: seq<string>)
    requires |parts| == 6 && parts[0] == "proxy-panel" && parts[2] == "traffic"
    ensures HasPrefix(Join(parts, ':'), TrafficPrefix(parts[1], parts[3]))
  {
    assert parts[3..][1..] == parts[4..];
    assert Join(parts[3..], ':') == parts[3] + [':'] + Join(parts[4..], ':');
    assert parts[2..][1..] == parts[3..];
    assert Join(parts[2..], ':') == parts[2] + [':'] + Join(parts[3..], ':');
    assert parts[1..][1..] == parts[2..];
    assert Join(parts[1..], ':') == parts[1] + [':'] + Join(parts[2..], ':');
    assert Join(parts, ':') == TrafficPrefix(parts[1], parts[3]) + Join(parts[4..], ':');
  }

  // The first parts of a comment under a section prefix.
  lemma SectionParts(comment: string, id: string, section: string)
    requires ColonFree(id) && ColonFree(section) && HasPrefix(comment, SectionPrefix(id, section))
    ensures |Split(comment, ':')| >= 3
    ensures Split(comment, ':')[..3] == ["proxy-panel", id, section]
  {
    var rest := comment[|SectionPrefix(id, section)|..];
    SectionShape(comment, id, section, rest);
    SplitThree("proxy-panel", id, section, rest, ':');
  }

  lemma SectionShape(comment: string, id: string, section: string, rest: string)
    requires comment == SectionPrefix(id, section) + rest
    ensures comment == "proxy-panel" + [':'] + (id + [':'] + (section + [':'] + rest))
  {}
}
