/** Rule chains, and driving the tagged rules of a chain to a desired set. */
module Firewall {
  import opened Text

  datatype Rule = Rule(comment: string, handle: nat, bytes: nat, args: seq<string>)

  ghost predicate DistinctHandles(rules: seq<Rule>) {
    forall i, j :: 0 <= i < j < |rules| ==> rules[i].handle != rules[j].handle
  }

  // The rules whose comment starts with the prefix, in order.
  function Under(rules: seq<Rule>, prefix: string): seq<Rule> {
    if |rules| == 0 then []
    else
      var n := |rules| - 1;
      Under(rules[..n], prefix) + if HasPrefix(rules[n].comment, prefix) then [rules[n]] else []
  }

  // All other rules, in order.
  function Outside(rules: seq<Rule>, prefix: string): seq<Rule> {
    if |rules| == 0 then []
    else
      var n := |rules| - 1;
      Outside(rules[..n], prefix) + if HasPrefix(rules[n].comment, prefix) then [] else [rules[n]]
  }

  function Comments(rules: seq<Rule>): set<string> {
    set r | r in rules :: r.comment
  }

  // The rules left when those with the given handles are deleted.
  function Without(rules: seq<Rule>, handles: set<nat>): seq<Rule> {
    if |rules| == 0 then []
    else
      var n := |rules| - 1;
      Without(rules[..n], handles) + if rules[n].handle in handles then [] else [rules[n]]
  }

  // A rule stays when its comment lies outside the prefix, or is wanted and is the first of its kind.
  predicate Keeps(rules: seq<Rule>, i: nat, prefix: string, wanted: set<string>)
    requires i < |rules|
  {
    !HasPrefix(rules[i].comment, prefix)
    || (rules[i].comment in wanted && forall j :: 0 <= j < i ==> rules[j].comment != rules[i].comment)
  }

  function Kept(rules: seq<Rule>, prefix: string, wanted: set<string>): seq<Rule> {
    if |rules| == 0 then []
    else
      var n := |rules| - 1;
      Kept(rules[..n], prefix, wanted) + if Keeps(rules, n, prefix, wanted) then [rules[n]] else []
  }

  // Exactly one rule for each wanted tag, and no other rule under the prefix.
  ghost predicate Synced(rules: seq<Rule>, prefix: string, wanted: set<string>) {
    Comments(Under(rules, prefix)) == wanted && DistinctComments(Under(rules, prefix))
  }

  ghost predicate DistinctComments(rules: seq<Rule>) {
    forall i, j :: 0 <= i < j < |rules| ==> rules[i].comment != rules[j].comment
  }

  ghost predicate UniqueUnder(rules: seq<Rule>, prefix: string) {
    forall i, j :: 0 <= i < j < |rules| && HasPrefix(rules[i].comment, prefix) ==> rules[i].comment != rules[j].comment
  }

  // ----- Facts about the three filters

  lemma {:induction false} UnderMembers(rules: seq<Rule>, prefix: string, r: Rule)
    ensures r in Under(rules, prefix) <==> r in rules && HasPrefix(r.comment, prefix)
    decreases |rules|
  {
    if |rules| > 0 {
      UnderMembers(rules[..|rules| - 1], prefix, r);
      assert r in rules <==> r in rules[..|rules| - 1] || r == rules[|rules| - 1];
    }
  }

  lemma {:induction false} WithoutMembers(rules: seq<Rule>, handles: set<nat>, r: Rule)
    ensures r in Without(rules, handles) <==> r in rules && r.handle !in handles
    decreases |rules|
  {
    if |rules| > 0 {
      WithoutMembers(rules[..|rules| - 1], handles, r);
      assert r in rules <==> r in rules[..|rules| - 1] || r == rules[|rules| - 1];
    }
  }

  lemma {:induction false} WithoutNothing(rules: seq<Rule>)
    ensures Without(rules, {}) == rules
    decreases |rules|
  {
    if |rules| > 0 {
      WithoutNothing(rules[..|rules| - 1]);
      assert rules == rules[..|rules| - 1] + [rules[|rules| - 1]];
    }
  }

  lemma {:induction false} WithoutTwice(rules: seq<Rule>, first: set<nat>, second: set<nat>)
    ensures Without(Without(rules, first), second) == Without(rules, first + second)
    decreases |rules|
  {
    if |rules| > 0 {
      var n := |rules| - 1;
      WithoutTwice(rules[..n], first, second);
      var w := Without(rules[..n], first);
      if rules[n].handle in first {
        assert w + [] == w;
      } else {
        assert (w + [rules[n]])[..|w|] == w;
      }
    }
  }

  lemma {:induction false} WithoutDistinct(rules: seq<Rule>, handles: set<nat>)
    requires DistinctHandles(rules)
    ensures DistinctHandles(Without(rules, handles))
    decreases |rules|
  {
    if |rules| > 0 {
      var n := |rules| - 1;
      WithoutDistinct(rules[..n], handles);
      var w := Without(rules[..n], handles);
      forall i | 0 <= i < |w|
        ensures w[i].handle != rules[n].handle
      {
        WithoutMembers(rules[..n], handles, w[i]);
      }
    }
  }

  lemma {:induction false} UnderConcat(left: seq<Rule>, right: seq<Rule>, prefix: string)
    ensures Under(left + right, prefix) == Under(left, prefix) + Under(right, prefix)
    decreases |right|
  {
    if |right| == 0 {
      assert left + right == left;
    } else {
      var n := |right| - 1;
      UnderConcat(left, right[..n], prefix);
      assert (left + right)[..|left + right| - 1] == left + right[..n];
    }
  }

  lemma {:induction false} OutsideConcat(left: seq<Rule>, right: seq<Rule>, prefix: string)
    ensures Outside(left + right, prefix) == Outside(left, prefix) + Outside(right, prefix)
    decreases |right|
  {
    if |right| == 0 {
      assert left + right == left;
    } else {
      var n := |right| - 1;
      OutsideConcat(left, right[..n], prefix);
      assert (left + right)[..|left + right| - 1] == left + right[..n];
    }
  }

  // Nothing outside the prefix is touched.
  lemma {:induction false} KeptOutside(rules: seq<Rule>, prefix: string, wanted: set<string>)
    ensures Outside(Kept(rules, prefix, wanted), prefix) == Outside(rules, prefix)
    decreases |rules|
  {
    if |rules| > 0 {
      var n := |rules| - 1;
      KeptOutside(rules[..n], prefix, wanted);
      var last := if Keeps(rules, n, prefix, wanted) then [rules[n]] else [];
      OutsideConcat(Kept(rules[..n], prefix, wanted), last, prefix);
      OutsideOne(rules[n], prefix);
    }
  }

  lemma OutsideOne(r: Rule, prefix: string)
    ensures Outside([r], prefix) == if HasPrefix(r.comment, prefix) then [] else [r]
    ensures Under([r], prefix) == if HasPrefix(r.comment, prefix) then [r] else []
  {
    assert [r][..0] == [];
  }

  lemma {:induction false} KeptMembers(rules: seq<Rule>, prefix: string, wanted: set<string>, r: Rule)
    ensures r in Kept(rules, prefix, wanted)
       <==> exists i :: 0 <= i < |rules| && rules[i] == r && Keeps(rules, i, prefix, wanted)
    decreases |rules|
  {
    if |rules| > 0 {
      var n := |rules| - 1;
      KeptMembers(rules[..n], prefix, wanted, r);
      assert forall i :: 0 <= i < n ==> (Keeps(rules, i, prefix, wanted) <==> Keeps(rules[..n], i, prefix, wanted));
      if i :| 0 <= i < |rules| && rules[i] == r && Keeps(rules, i, prefix, wanted) && i < n {
        assert rules[..n][i] == r;
      }
      if i :| 0 <= i < n && rules[..n][i] == r && Keeps(rules[..n], i, prefix, wanted) {
        assert rules[i] == r && Keeps(rules, i, prefix, wanted);
      }
    }
  }

  // The tags that survive are the wanted ones that were there.
  lemma KeptTags(rules: seq<Rule>, prefix: string, wanted: set<string>)
    ensures Comments(Under(Kept(rules, prefix, wanted), prefix)) == Comments(Under(rules, prefix)) * wanted
  {
    var kept := Kept(rules, prefix, wanted);
    forall t
      ensures t in Comments(Under(kept, prefix)) <==> t in Comments(Under(rules, prefix)) && t in wanted
    {
      if t in Comments(Under(kept, prefix)) {
        var r :| r in Under(kept, prefix) && r.comment == t;
        UnderMembers(kept, prefix, r);
        KeptMembers(rules, prefix, wanted, r);
        UnderMembers(rules, prefix, r);
      }
      if t in Comments(Under(rules, prefix)) && t in wanted {
        var r :| r in Under(rules, prefix) && r.comment == t;
        UnderMembers(rules, prefix, r);
        var i := FirstWith(rules, t);
        KeptMembers(rules, prefix, wanted, rules[i]);
        UnderMembers(kept, prefix, rules[i]);
      }
    }
  }

  function FirstWith(rules: seq<Rule>, tag: string): (i: nat)
    requires exists r :: r in rules && r.comment == tag
    ensures i < |rules| && rules[i].comment == tag
    ensures forall j :: 0 <= j < i ==> rules[j].comment != tag
  {
    if rules[0].comment == tag then 0
    else
      assert exists r :: r in rules[1..] && r.comment == tag by {
        var r :| r in rules && r.comment == tag;
        assert rules == [rules[0]] + rules[1..];
        assert r in rules[1..];
      }
      FirstWith(rules[1..], tag) + 1
  }

  lemma {:induction false} KeptUnique(rules: seq<Rule>, prefix: string, wanted: set<string>)
    ensures UniqueUnder(Kept(rules, prefix, wanted), prefix)
    decreases |rules|
  {
    if |rules| > 0 {
      var n := |rules| - 1;
      KeptUnique(rules[..n], prefix, wanted);
      var kept := Kept(rules[..n], prefix, wanted);
      forall i | 0 <= i < |kept| && HasPrefix(kept[i].comment, prefix) && Keeps(rules, n, prefix, wanted)
        ensures kept[i].comment != rules[n].comment
      {
        KeptMembers(rules[..n], prefix, wanted, kept[i]);
        var j :| 0 <= j < n && rules[..n][j] == kept[i];
        assert rules[j] == kept[i];
      }
    }
  }

  lemma {:induction false} UniqueIsDistinct(rules: seq<Rule>, prefix: string)
    ensures UniqueUnder(rules, prefix) <==> DistinctComments(Under(rules, prefix))
    decreases |rules|
  {
    if |rules| > 0 {
      var n := |rules| - 1;
      UniqueIsDistinct(rules[..n], prefix);
      if HasPrefix(rules[n].comment, prefix) {
        TagPlaces(rules[..n], prefix, rules[n].comment);
        DistinctAppend(Under(rules[..n], prefix), rules[n]);
        UniqueAppend(rules, prefix);
      } else {
        assert Under(rules[..n], prefix) + [] == Under(rules[..n], prefix);
      }
    }
  }

  lemma UniqueAppend(rules: seq<Rule>, prefix: string)
    requires |rules| > 0 && HasPrefix(rules[|rules| - 1].comment, prefix)
    ensures UniqueUnder(rules, prefix) <==>
            UniqueUnder(rules[..|rules| - 1], prefix)
            && forall j :: 0 <= j < |rules| - 1 ==> rules[j].comment != rules[|rules| - 1].comment
  {}

  lemma DistinctAppend(rules: seq<Rule>, r: Rule)
    ensures DistinctComments(rules + [r]) <==> DistinctComments(rules) && r.comment !in Comments(rules)
  {
    if DistinctComments(rules + [r]) {
      forall i | 0 <= i < |rules|
        ensures rules[i].comment != r.comment
      {
        assert (rules + [r])[i].comment != (rules + [r])[|rules|].comment;
      }
      forall i, j | 0 <= i < j < |rules|
        ensures rules[i].comment != rules[j].comment
      {
        assert (rules + [r])[i].comment != (rules + [r])[j].comment;
      }
    }
    if r.comment !in Comments(rules) {
      forall i | 0 <= i < |rules|
        ensures rules[i].comment != r.comment
      {
        assert rules[i].comment in Comments(rules);
      }
    }
  }

  lemma TagPlaces(rules: seq<Rule>, prefix: string, tag: string)
    requires HasPrefix(tag, prefix)
    ensures tag in Comments(Under(rules, prefix)) <==> exists j :: 0 <= j < |rules| && rules[j].comment == tag
  {
    UnderComments(rules, prefix, tag);
  }

  // A synced chain keeps every rule, so a second run changes nothing.
  lemma {:induction false} KeptAll(rules: seq<Rule>, prefix: string, wanted: set<string>)
    requires UniqueUnder(rules, prefix)
    requires forall r :: r in rules && HasPrefix(r.comment, prefix) ==> r.comment in wanted
    ensures Kept(rules, prefix, wanted) == rules
    decreases |rules|
  {
    if |rules| > 0 {
      var n := |rules| - 1;
      KeptAll(rules[..n], prefix, wanted);
      assert Keeps(rules, n, prefix, wanted) by {
        assert rules[n] in rules;
      }
      assert rules == rules[..n] + [rules[n]];
    }
  }

  // ----- Which handles a run deletes

  // Listed rules are deleted unless they are wanted and the first with their tag.
  function Doomed(listed: seq<Rule>, wanted: set<string>): set<nat> {
    if |listed| == 0 then {}
    else
      var n := |listed| - 1;
      var r := listed[n];
      Doomed(listed[..n], wanted)
      + if r.comment in wanted && r.comment !in Comments(listed[..n]) then {} else {r.handle}
  }

  lemma {:induction false} DoomedListed(listed: seq<Rule>, wanted: set<string>, h: nat)
    requires h in Doomed(listed, wanted)
    ensures exists r :: r in listed && r.handle == h
    decreases |listed|
  {
    var n := |listed| - 1;
    if h in Doomed(listed[..n], wanted) {
      DoomedListed(listed[..n], wanted, h);
      var r :| r in listed[..n] && r.handle == h;
      assert r in listed;
    } else {
      assert listed[n] in listed;
    }
  }

  lemma {:induction false} WithoutUnused(rules: seq<Rule>, handles: set<nat>, h: nat)
    requires forall r :: r in rules ==> r.handle != h
    ensures Without(rules, handles + {h}) == Without(rules, handles)
    decreases |rules|
  {
    if |rules| > 0 {
      assert rules[|rules| - 1] in rules;
      WithoutUnused(rules[..|rules| - 1], handles, h);
    }
  }

  lemma UnderComments(rules: seq<Rule>, prefix: string, tag: string)
    requires HasPrefix(tag, prefix)
    ensures tag in Comments(Under(rules, prefix)) <==> exists j :: 0 <= j < |rules| && rules[j].comment == tag
  {
    if tag in Comments(Under(rules, prefix)) {
      var r :| r in Under(rules, prefix) && r.comment == tag;
      UnderMembers(rules, prefix, r);
      var j :| 0 <= j < |rules| && rules[j] == r;
    }
    if j :| 0 <= j < |rules| && rules[j].comment == tag {
      UnderMembers(rules, prefix, rules[j]);
    }
  }

  lemma FreshHandle(rules: seq<Rule>, prefix: string, wanted: set<string>)
    requires DistinctHandles(rules) && |rules| > 0
    ensures var n := |rules| - 1;
            (forall r :: r in rules[..n] ==> r.handle != rules[n].handle)
            && rules[n].handle !in Doomed(Under(rules[..n], prefix), wanted)
  {
    var n := |rules| - 1;
    if rules[n].handle in Doomed(Under(rules[..n], prefix), wanted) {
      DoomedListed(Under(rules[..n], prefix), wanted, rules[n].handle);
      var r :| r in Under(rules[..n], prefix) && r.handle == rules[n].handle;
      UnderMembers(rules[..n], prefix, r);
    }
  }

  lemma DoomedAppend(listed: seq<Rule>, r: Rule, wanted: set<string>)
    ensures Doomed(listed + [r], wanted)
         == Doomed(listed, wanted) + if r.comment in wanted && r.comment !in Comments(listed) then {} else {r.handle}
  {
    assert (listed + [r])[..|listed|] == listed;
  }

  lemma SameTag(rules: seq<Rule>, tag: string)
    requires |rules| > 0
    ensures var n := |rules| - 1;
            ((exists j :: 0 <= j < n && rules[..n][j].comment == tag)
             <==> !forall j :: 0 <= j < n ==> rules[j].comment != tag)
  {
    var n := |rules| - 1;
    if j :| 0 <= j < n && rules[j].comment == tag {
      assert rules[..n][j].comment == tag;
    }
  }

  lemma DoomedStep(rules: seq<Rule>, prefix: string, wanted: set<string>)
    requires |rules| > 0
    ensures Doomed(Under(rules, prefix), wanted)
         == Doomed(Under(rules[..|rules| - 1], prefix), wanted)
            + if Keeps(rules, |rules| - 1, prefix, wanted) then {} else {rules[|rules| - 1].handle}
  {
    var n := |rules| - 1;
    var under := Under(rules[..n], prefix);
    if HasPrefix(rules[n].comment, prefix) {
      DoomedAppend(under, rules[n], wanted);
      UnderComments(rules[..n], prefix, rules[n].comment);
      SameTag(rules, rules[n].comment);
    } else {
      assert under + [] == under;
    }
  }

  // Deleting the doomed handles leaves exactly the rules that are to be kept.
  lemma {:induction false} DoomedIsKept(rules: seq<Rule>, prefix: string, wanted: set<string>)
    requires DistinctHandles(rules)
    ensures Without(rules, Doomed(Under(rules, prefix), wanted)) == Kept(rules, prefix, wanted)
    decreases |rules|
  {
    if |rules| > 0 {
      var n := |rules| - 1;
      DoomedIsKept(rules[..n], prefix, wanted);
      FreshHandle(rules, prefix, wanted);
      DoomedStep(rules, prefix, wanted);
      var before := Doomed(Under(rules[..n], prefix), wanted);
      if !Keeps(rules, n, prefix, wanted) {
        WithoutUnused(rules[..n], before, rules[n].handle);
      } else {
        assert before + {} == before;
      }
    }
  }

  // ----- Counters that go on

  function Bytes(rules: seq<Rule>): nat {
    if |rules| == 0 then 0 else Bytes(rules[..|rules| - 1]) + rules[|rules| - 1].bytes
  }

  // The bytes under the prefix in rules that a run for the wanted tags leaves in place.
  function Surviving(rules: seq<Rule>, prefix: string, wanted: set<string>): nat {
    Bytes(Kept(Under(rules, prefix), prefix, wanted))
  }

  // There is one rule for each wanted tag; the first one that was there for a tag is still
  // there, with its handle and its bytes, and a new one has counted nothing.
  ghost predicate Continued(before: seq<Rule>, after: seq<Rule>, prefix: string, wanted: set<string>) {
    var kept, now := Kept(Under(before, prefix), prefix, wanted), Under(after, prefix);
    Synced(after, prefix, wanted) && kept <= now && forall i :: |kept| <= i < |now| ==> now[i].bytes == 0
  }

  lemma {:induction false} UnderKept(rules: seq<Rule>, prefix: string, wanted: set<string>)
    ensures Under(Kept(rules, prefix, wanted), prefix) == Kept(Under(rules, prefix), prefix, wanted)
    decreases |rules|
  {
    if |rules| > 0 {
      var n := |rules| - 1;
      UnderKept(rules[..n], prefix, wanted);
      UnderConcat(Kept(rules[..n], prefix, wanted), if Keeps(rules, n, prefix, wanted) then [rules[n]] else [], prefix);
      OutsideOne(rules[n], prefix);
      if HasPrefix(rules[n].comment, prefix) {
        SameFirst(rules, prefix, wanted);
      } else {
        assert Under(rules[..n], prefix) + [] == Under(rules[..n], prefix);
      }
    }
  }

  // The last rule is the first of its kind among all rules as among those under the prefix.
  lemma SameFirst(rules: seq<Rule>, prefix: string, wanted: set<string>)
    requires |rules| > 0 && HasPrefix(rules[|rules| - 1].comment, prefix)
    ensures var n := |rules| - 1;
            var under := Under(rules[..n], prefix) + [rules[n]];
            Kept(under, prefix, wanted)
            == Kept(Under(rules[..n], prefix), prefix, wanted)
               + if Keeps(rules, n, prefix, wanted) then [rules[n]] else []
  {
    var n := |rules| - 1;
    var before := Under(rules[..n], prefix);
    var under := before + [rules[n]];
    assert under[..|before|] == before;
    TagPlaces(rules[..n], prefix, rules[n].comment);
    assert Keeps(under, |before|, prefix, wanted) <==> Keeps(rules, n, prefix, wanted) by {
      PlacesAgree(rules[..n], before, rules[n].comment);
    }
  }

  lemma PlacesAgree(rules: seq<Rule>, under: seq<Rule>, tag: string)
    requires tag in Comments(under) <==> exists j :: 0 <= j < |rules| && rules[j].comment == tag
    ensures (forall j :: 0 <= j < |rules| ==> rules[j].comment != tag)
       <==> (forall j :: 0 <= j < |under| ==> under[j].comment != tag)
  {
    if j :| 0 <= j < |under| && under[j].comment == tag {
      assert under[j] in under;
    }
    if tag in Comments(under) {
      var r :| r in under && r.comment == tag;
      var j :| 0 <= j < |under| && under[j] == r;
    }
  }

  lemma {:induction false} BytesConcat(left: seq<Rule>, right: seq<Rule>)
    ensures Bytes(left + right) == Bytes(left) + Bytes(right)
    decreases |right|
  {
    if |right| == 0 {
      assert left + right == left;
    } else {
      BytesConcat(left, right[..|right| - 1]);
      assert (left + right)[..|left + right| - 1] == left + right[..|right| - 1];
    }
  }

  lemma {:induction false} NoBytes(rules: seq<Rule>)
    requires forall i :: 0 <= i < |rules| ==> rules[i].bytes == 0
    ensures Bytes(rules) == 0
    decreases |rules|
  {
    if |rules| > 0 {
      NoBytes(rules[..|rules| - 1]);
    }
  }

  // The rules now show exactly the bytes of the rules that stayed.
  lemma ContinuedBytes(before: seq<Rule>, after: seq<Rule>, prefix: string, wanted: set<string>)
    requires Continued(before, after, prefix, wanted)
    ensures Bytes(Under(after, prefix)) == Surviving(before, prefix, wanted)
  {
    var kept, now := Kept(Under(before, prefix), prefix, wanted), Under(after, prefix);
    assert now == kept + now[|kept|..];
    BytesConcat(kept, now[|kept|..]);
    NoBytes(now[|kept|..]);
  }

  // ----- Chains

  class Chain {
    var rules: seq<Rule>
    var nextHandle: nat

    ghost predicate Valid()
      reads this
    {
      DistinctHandles(rules) && forall r :: r in rules ==> r.handle < nextHandle
    }

    constructor ()
      ensures Valid() && rules == []
    {
      rules, nextHandle := [], 0;
    }

    method Delete(handle: nat)
      requires Valid()
      modifies this`rules
      ensures Valid() && rules == Without(old(rules), {handle})
    {
      WithoutDistinct(rules, {handle});
      forall r | r in Without(rules, {handle})
        ensures r.handle < nextHandle
      {
        WithoutMembers(rules, {handle}, r);
      }
      rules := Without(rules, {handle});
    }

    method Add(comment: string, args: seq<string>)
      requires Valid()
      modifies this
      ensures Valid() && rules == old(rules) + [Rule(comment, old(nextHandle), 0, args)]
      ensures nextHandle == old(nextHandle) + 1
    {
      rules := rules + [Rule(comment, nextHandle, 0, args)];
      nextHandle := nextHandle + 1;
    }
  }

  // What one run leaves: the kept rules, then one new rule for each tag that was missing.
  ghost predicate SyncedFrom(before: seq<Rule>, after: seq<Rule>, prefix: string, desired: map<string, seq<string>>) {
    var kept := Kept(before, prefix, desired.Keys);
    && kept <= after
    && Comments(after[|kept|..]) == desired.Keys - Comments(Under(before, prefix))
    && (forall r :: r in after[|kept|..] ==> r.comment in desired && r.bytes == 0 && r.args == desired[r.comment])
    && (forall i, j :: |kept| <= i < j < |after| ==> after[i].comment != after[j].comment)
  }

  lemma ContinuedParts(before: seq<Rule>, after: seq<Rule>, prefix: string, wanted: set<string>, added: seq<Rule>)
    requires Synced(after, prefix, wanted)
    requires Under(after, prefix) == Kept(Under(before, prefix), prefix, wanted) + added
    requires forall r :: r in added ==> r.bytes == 0
    ensures Continued(before, after, prefix, wanted)
  {
    assert forall i :: 0 <= i < |added| ==> added[i] in added;
  }

  lemma UnderParts(before: seq<Rule>, after: seq<Rule>, prefix: string, wanted: set<string>, added: seq<Rule>)
    requires after == Kept(before, prefix, wanted) + added
    requires forall r :: r in added ==> HasPrefix(r.comment, prefix)
    ensures Under(after, prefix) == Kept(Under(before, prefix), prefix, wanted) + added
  {
    UnderConcat(Kept(before, prefix, wanted), added, prefix);
    AllUnder(added, prefix);
    UnderKept(before, prefix, wanted);
  }

  lemma SyncedFromContinued(before: seq<Rule>, after: seq<Rule>, prefix: string, desired: map<string, seq<string>>)
    requires SyncedFrom(before, after, prefix, desired) && Synced(after, prefix, desired.Keys)
    requires forall tag :: tag in desired ==> HasPrefix(tag, prefix)
    ensures Continued(before, after, prefix, desired.Keys)
  {
    var added := after[|Kept(before, prefix, desired.Keys)|..];
    UnderParts(before, after, prefix, desired.Keys, added);
    ContinuedParts(before, after, prefix, desired.Keys, added);
  }

  // Every rule after a run was there before or is the wanted one for its tag.
  lemma SyncedFromOrigin(before: seq<Rule>, after: seq<Rule>, prefix: string, desired: map<string, seq<string>>,
                         r: Rule)
    requires SyncedFrom(before, after, prefix, desired) && r in after
    ensures r in before || (r.comment in desired && r.args == desired[r.comment])
  {
    var kept := Kept(before, prefix, desired.Keys);
    assert after == kept + after[|kept|..];
    if r in kept {
      KeptMembers(before, prefix, desired.Keys, r);
    }
  }

  method SyncTagged(chain: Chain, prefix: string, desired: map<string, seq<string>>)
    requires chain.Valid()
    requires forall tag :: tag in desired ==> HasPrefix(tag, prefix)
    modifies chain
    ensures chain.Valid()
    ensures SyncedFrom(old(chain.rules), chain.rules, prefix, desired)
    ensures Synced(chain.rules, prefix, desired.Keys)
    ensures Outside(chain.rules, prefix) == Outside(old(chain.rules), prefix)
    ensures Synced(old(chain.rules), prefix, desired.Keys) ==> chain.rules == old(chain.rules)
    ensures Continued(old(chain.rules), chain.rules, prefix, desired.Keys)
    ensures forall r :: r in chain.rules ==>
              r in old(chain.rules) || (r.comment in desired && r.args == desired[r.comment])
  {
    var existing := DeleteOthers(chain, prefix, desired);
    AddMissing(chain, desired, existing);
    SyncedFromFacts(old(chain.rules), chain.rules, prefix, desired);
    SyncedFromContinued(old(chain.rules), chain.rules, prefix, desired);
    forall r | r in chain.rules
      ensures r in old(chain.rules) || (r.comment in desired && r.args == desired[r.comment])
    {
      SyncedFromOrigin(old(chain.rules), chain.rules, prefix, desired, r);
    }
  }

  // The first loop: listed rules that are not wanted, or not the first with their tag, go.
  method DeleteOthers(chain: Chain, prefix: string, desired: map<string, seq<string>>)
    returns (existing: map<string, bool>)
    requires chain.Valid()
    modifies chain
    ensures chain.Valid()
    ensures chain.rules == Kept(old(chain.rules), prefix, desired.Keys)
    ensures existing.Keys == Comments(Under(old(chain.rules), prefix)) * desired.Keys
  {
    ghost var before, wanted := chain.rules, desired.Keys;
    var listed := Under(chain.rules, prefix);
    existing := map[];
    WithoutNothing(before);
    for i := 0 to |listed|
      invariant chain.Valid()
      invariant Deleting(before, listed, i, wanted, chain.rules, existing.Keys)
    {
      var rule := listed[i];
      DeletingStep(before, listed, i, wanted, chain.rules, existing.Keys);
      if rule.comment in desired && rule.comment !in existing {
        existing := existing[rule.comment := true];
      } else {
        chain.Delete(rule.handle);
      }
    }
    DeletingDone(before, listed, prefix, wanted, chain.rules, existing.Keys);
  }

  // The first i listed rules have been seen: those to go are gone, and the tags of the others are known.
  ghost predicate Deleting(before: seq<Rule>, listed: seq<Rule>, i: nat, wanted: set<string>, left: seq<Rule>,
                           existing: set<string>)
  {
    && i <= |listed| && left == Without(before, Doomed(listed[..i], wanted))
    && existing == Comments(listed[..i]) * wanted
  }

  lemma DeletingStep(before: seq<Rule>, listed: seq<Rule>, i: nat, wanted: set<string>, left: seq<Rule>,
                     existing: set<string>)
    requires i < |listed| && Deleting(before, listed, i, wanted, left, existing)
    ensures if listed[i].comment in wanted && listed[i].comment !in existing
            then Deleting(before, listed, i + 1, wanted, left, existing + {listed[i].comment})
            else Deleting(before, listed, i + 1, wanted, Without(left, {listed[i].handle}), existing)
  {
    DeleteStep(before, listed, i, wanted);
  }

  lemma DeletingDone(before: seq<Rule>, listed: seq<Rule>, prefix: string, wanted: set<string>, left: seq<Rule>,
                     existing: set<string>)
    requires DistinctHandles(before) && listed == Under(before, prefix)
    requires Deleting(before, listed, |listed|, wanted, left, existing)
    ensures left == Kept(before, prefix, wanted) && existing == Comments(listed) * wanted
  {
    assert listed[..|listed|] == listed;
    DoomedIsKept(before, prefix, wanted);
  }

  lemma DeleteStep(rules: seq<Rule>, listed: seq<Rule>, i: nat, wanted: set<string>)
    requires i < |listed|
    ensures Comments(listed[..i + 1]) == Comments(listed[..i]) + {listed[i].comment}
    ensures Without(rules, Doomed(listed[..i + 1], wanted))
         == if listed[i].comment in wanted && listed[i].comment !in Comments(listed[..i])
            then Without(rules, Doomed(listed[..i], wanted))
            else Without(Without(rules, Doomed(listed[..i], wanted)), {listed[i].handle})
  {
    assert listed[..i + 1] == listed[..i] + [listed[i]];
    DoomedAppend(listed[..i], listed[i], wanted);
    CommentsAppend(listed[..i], listed[i]);
    WithoutTwice(rules, Doomed(listed[..i], wanted), {listed[i].handle});
    assert Doomed(listed[..i], wanted) + {} == Doomed(listed[..i], wanted);
  }

  lemma CommentsAppend(rules: seq<Rule>, r: Rule)
    ensures Comments(rules + [r]) == Comments(rules) + {r.comment}
  {
    assert forall x :: x in rules + [r] <==> x in rules || x == r;
  }

  lemma CommentsConcat(left: seq<Rule>, right: seq<Rule>)
    ensures Comments(left + right) == Comments(left) + Comments(right)
  {
    assert forall x :: x in left + right <==> x in left || x in right;
  }

  // The second loop: one new rule for every wanted tag that does not exist yet.
  method AddMissing(chain: Chain, desired: map<string, seq<string>>, existing: map<string, bool>)
    requires chain.Valid() && existing.Keys <= desired.Keys
    modifies chain
    ensures chain.Valid() && old(chain.rules) <= chain.rules
    ensures var added := chain.rules[|old(chain.rules)|..];
            && Comments(added) == desired.Keys - existing.Keys
            && (forall r :: r in added ==> r.comment in desired && r.bytes == 0 && r.args == desired[r.comment])
            && (forall i, j :: 0 <= i < j < |added| ==> added[i].comment != added[j].comment)
  {
    var todo := desired.Keys;
    ghost var added: seq<Rule> := [];
    while todo != {}
      invariant chain.Valid() && todo <= desired.Keys
      invariant chain.rules == old(chain.rules) + added
      invariant Comments(added) == desired.Keys - existing.Keys - todo
      invariant forall r :: r in added ==> r.comment in desired && r.bytes == 0 && r.args == desired[r.comment]
      invariant forall i, j :: 0 <= i < j < |added| ==> added[i].comment != added[j].comment
      decreases todo
    {
      var tag :| tag in todo;
      if tag !in existing {
        ghost var rule := Rule(tag, chain.nextHandle, 0, desired[tag]);
        chain.Add(tag, desired[tag]);
        forall i | 0 <= i < |added|
          ensures added[i].comment != tag
        {
          assert added[i].comment in Comments(added);
        }
        assert Comments(added + [rule]) == Comments(added) + {tag};
        added := added + [rule];
      }
      todo := todo - {tag};
    }
  }

  // The kept rules and the new ones carry exactly the wanted tags under the prefix, and the
  // others are as before.
  lemma SyncedTags(before: seq<Rule>, kept: seq<Rule>, added: seq<Rule>, prefix: string, wanted: set<string>)
    requires kept == Kept(before, prefix, wanted) && (forall r :: r in added ==> HasPrefix(r.comment, prefix))
    requires forall tag :: tag in wanted ==> HasPrefix(tag, prefix)
    requires Comments(added) == wanted - Comments(Under(before, prefix))
    ensures Comments(Under(kept + added, prefix)) == wanted
  {
    UnderConcat(kept, added, prefix);
    AllUnder(added, prefix);
    KeptTags(before, prefix, wanted);
    CommentsConcat(Under(kept, prefix), added);
  }

  lemma SyncedOutside(before: seq<Rule>, kept: seq<Rule>, added: seq<Rule>, prefix: string, wanted: set<string>)
    requires kept == Kept(before, prefix, wanted) && (forall r :: r in added ==> HasPrefix(r.comment, prefix))
    ensures Outside(kept + added, prefix) == Outside(before, prefix)
  {
    OutsideConcat(kept, added, prefix);
    KeptOutside(before, prefix, wanted);
    AllUnder(added, prefix);
  }

  lemma SyncedNothingNew(before: seq<Rule>, kept: seq<Rule>, added: seq<Rule>, prefix: string, wanted: set<string>)
    requires kept == Kept(before, prefix, wanted) && Synced(before, prefix, wanted)
    requires Comments(added) == wanted - Comments(Under(before, prefix))
    ensures kept + added == before
  {
    SyncedKept(before, prefix, wanted);
    NoComments(added);
  }

  // A run leaves exactly one rule per wanted tag, touches nothing outside the prefix,
  // and changes nothing when the chain was already in that state.
  lemma SyncedFromFacts(before: seq<Rule>, after: seq<Rule>, prefix: string, desired: map<string, seq<string>>)
    requires SyncedFrom(before, after, prefix, desired)
    requires forall tag :: tag in desired ==> HasPrefix(tag, prefix)
    ensures Synced(after, prefix, desired.Keys)
    ensures Outside(after, prefix) == Outside(before, prefix)
    ensures Synced(before, prefix, desired.Keys) ==> after == before
  {
    var kept := Kept(before, prefix, desired.Keys);
    var added := after[|kept|..];
    assert after == kept + added;
    SyncedTags(before, kept, added, prefix, desired.Keys);
    SyncedOutside(before, kept, added, prefix, desired.Keys);
    SyncedUnique(before, after, prefix, desired);
    UniqueIsDistinct(after, prefix);
    if Synced(before, prefix, desired.Keys) {
      SyncedNothingNew(before, kept, added, prefix, desired.Keys);
    }
  }

  lemma SyncedUnique(before: seq<Rule>, after: seq<Rule>, prefix: string, desired: map<string, seq<string>>)
    requires SyncedFrom(before, after, prefix, desired)
    ensures UniqueUnder(after, prefix)
  {
    var kept := Kept(before, prefix, desired.Keys);
    KeptUnique(before, prefix, desired.Keys);
    forall i, j | 0 <= i < j < |after| && HasPrefix(after[i].comment, prefix)
      ensures after[i].comment != after[j].comment
    {
      if j < |kept| {
        assert after[i] == kept[i] && after[j] == kept[j];
        assert kept[i].comment != kept[j].comment;
      } else if i < |kept| {
        assert after[i] == kept[i];
        KeptComment(before, prefix, desired.Keys, i);
        assert after[j] in after[|kept|..];
        assert after[j].comment in Comments(after[|kept|..]);
      }
    }
  }

  lemma SyncedKept(rules: seq<Rule>, prefix: string, wanted: set<string>)
    requires Synced(rules, prefix, wanted)
    ensures Kept(rules, prefix, wanted) == rules
  {
    UniqueIsDistinct(rules, prefix);
    forall r | r in rules && HasPrefix(r.comment, prefix)
      ensures r.comment in wanted
    {
      UnderMembers(rules, prefix, r);
    }
    KeptAll(rules, prefix, wanted);
  }

  lemma NoComments(rules: seq<Rule>)
    ensures Comments(rules) == {} ==> rules == []
  {
    if |rules| > 0 {
      assert rules[0].comment in Comments(rules);
    }
  }

  lemma KeptComment(rules: seq<Rule>, prefix: string, wanted: set<string>, i: nat)
    requires i < |Kept(rules, prefix, wanted)| && HasPrefix(Kept(rules, prefix, wanted)[i].comment, prefix)
    ensures Kept(rules, prefix, wanted)[i].comment in Comments(Under(rules, prefix))
  {
    var r := Kept(rules, prefix, wanted)[i];
    KeptMembers(rules, prefix, wanted, r);
    UnderMembers(rules, prefix, r);
  }

  lemma {:induction false} AllUnder(rules: seq<Rule>, prefix: string)
    requires forall r :: r in rules ==> HasPrefix(r.comment, prefix)
    ensures Under(rules, prefix) == rules && Outside(rules, prefix) == []
    decreases |rules|
  {
    if |rules| > 0 {
      var n := |rules| - 1;
      assert rules[n] in rules;
      var before, r := rules[..n], rules[n];
      assert rules == before + [r];
      AllUnder(before, prefix);
    }
  }
}
