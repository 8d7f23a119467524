/** Removing the forwarding rules of one VPN node from the host chain, by rule number. */
module HostForward {
  import opened Tags

  // The rules of a chain as they are listed; rule numbers start at 1.
  class ForwardChain {
    var rules: seq<string>

    constructor ()
      ensures rules == []
    {
      rules := [];
    }

    method Delete(number: nat)
      requires 1 <= number <= |rules|
      modifies this
      ensures rules == old(rules)[..number - 1] + old(rules)[number..]
    {
      rules := rules[..number - 1] + rules[number..];
    }
  }

  predicate HasAt(s: string, i: nat, part: string) {
    i <= |s| && part <= s[i..]
  }

  predicate Contains(s: string, part: string) {
    exists i :: 0 <= i <= |s| && HasAt(s, i, part)
  }

  function ForwardPrefix(id: string): string {
    "proxy-panel:" + id + ":vpn:host-forward:"
  }

  // The rules from index k on that do not contain the text, in their order.
  function Lacking(rules: seq<string>, part: string, k: nat): seq<string>
    requires k <= |rules|
    decreases |rules| - k
  {
    if k == |rules| then []
    else (if Contains(rules[k], part) then [] else [rules[k]]) + Lacking(rules, part, k + 1)
  }

  // The numbers of the rules among the first k that contain the text.
  function Numbers(rules: seq<string>, part: string, k: nat): (numbers: seq<nat>)
    requires k <= |rules|
    ensures forall i :: 0 <= i < |numbers| ==> 1 <= numbers[i] <= k
  {
    if k == 0 then []
    else Numbers(rules, part, k - 1) + if Contains(rules[k - 1], part) then [k] else []
  }

  // A text contains another one if it is that text with something before and after it.
  lemma {:induction false} ContainsIs(s: string, part: string)
    ensures Contains(s, part) <==> exists before, after :: s == before + part + after
  {
    if Contains(s, part) {
      var i :| 0 <= i <= |s| && HasAt(s, i, part);
      assert s == s[..i] + part + s[i..][|part|..];
    }
    if before, after :| s == before + part + after {
      assert s[|before|..] == part + after;
      assert HasAt(s, |before|, part);
    }
  }

  // What is left of two lists is what is left of each, and a rule is left exactly when it
  // does not contain the text.
  lemma {:induction false} LackingParts(left: seq<string>, right: seq<string>, part: string, k: nat)
    requires k <= |left|
    ensures Lacking(left + right, part, k) == Lacking(left, part, k) + Lacking(right, part, 0)
    decreases |left| - k
  {
    if k < |left| {
      LackingParts(left, right, part, k + 1);
      assert (left + right)[k] == left[k];
    } else {
      LackingShift(left, right, part, 0);
    }
  }

  lemma {:induction false} LackingShift(left: seq<string>, right: seq<string>, part: string, k: nat)
    requires k <= |right|
    ensures Lacking(left + right, part, |left| + k) == Lacking(right, part, k)
    decreases |right| - k
  {
    if k < |right| {
      LackingShift(left, right, part, k + 1);
    }
  }

  lemma {:induction false} LackingOne(rule: string, part: string)
    ensures Lacking([rule], part, 0) == if exists a, b :: rule == a + part + b then [] else [rule]
  {
    ContainsIs(rule, part);
    assert Lacking([rule], part, 1) == [];
  }

  // Deleting the last of the numbered rules leaves the other numbers valid.
  lemma {:induction false} LastNumber(rules: seq<string>, part: string, k: nat)
    requires k <= |rules| && |Numbers(rules, part, k)| > 0
    ensures var numbers := Numbers(rules, part, k);
            var n := numbers[|numbers| - 1];
            && Numbers(rules, part, n - 1) == numbers[..|numbers| - 1]
            && Lacking(rules, part, n - 1) == rules[n..k] + Lacking(rules, part, k)
    decreases k
  {
    if !Contains(rules[k - 1], part) {
      LastNumber(rules, part, k - 1);
      var numbers := Numbers(rules, part, k);
      var n := numbers[|numbers| - 1];
      assert rules[n..k] == rules[n..k - 1] + [rules[k - 1]];
    }
  }

  lemma {:induction false} NoNumbers(rules: seq<string>, part: string, k: nat)
    requires k <= |rules| && |Numbers(rules, part, k)| == 0
    ensures Lacking(rules, part, 0) == rules[..k] + Lacking(rules, part, k)
    decreases k
  {
    if k > 0 {
      NoNumbers(rules, part, k - 1);
      assert rules[..k] == rules[..k - 1] + [rules[k - 1]];
    }
  }

  lemma DeleteAt(left: seq<string>, right: seq<string>, n: nat)
    requires 1 <= n <= |left|
    ensures (left + right)[..n - 1] == left[..n - 1] && (left + right)[n..] == left[n..] + right
  {}

  // One turn of the loop: the last of the numbered rules before k is deleted.
  lemma {:induction false} RemoveLast(rules: seq<string>, part: string, k: nat, left: seq<string>)
    requires k <= |rules| && |Numbers(rules, part, k)| > 0 && left == rules[..k] + Lacking(rules, part, k)
    ensures var numbers := Numbers(rules, part, k);
            var n := numbers[|numbers| - 1];
            && 1 <= n <= k <= |left| && Numbers(rules, part, n - 1) == numbers[..|numbers| - 1]
            && left[..n - 1] + left[n..] == rules[..n - 1] + Lacking(rules, part, n - 1)
  {
    LastNumber(rules, part, k);
    var numbers := Numbers(rules, part, k);
    var n := numbers[|numbers| - 1];
    DeleteAt(rules[..k], Lacking(rules, part, k), n);
    assert rules[..k][..n - 1] == rules[..n - 1] && rules[..k][n..] == rules[n..k];
  }

  method RemoveNode(chain: ForwardChain, id: string)
    modifies chain
    ensures chain.rules == Lacking(old(chain.rules), ForwardPrefix(id), 0)
  {
    var prefix := ForwardPrefix(id);
    ghost var rules := chain.rules;
    var numbers: seq<nat> := [];
    var line := 0;
    while line < |chain.rules|
      invariant chain.rules == rules && line <= |rules|
      invariant numbers == Numbers(rules, prefix, line)
    {
      if Contains(chain.rules[line], prefix) {
        numbers := numbers + [line + 1];
      }
      line := line + 1;
    }
    var index := |numbers|;
    ghost var bound: nat := line;
    while index > 0
      invariant 0 <= index <= |numbers| && bound <= |rules|
      invariant numbers[..index] == Numbers(rules, prefix, bound)
      invariant chain.rules == rules[..bound] + Lacking(rules, prefix, bound)
    {
      RemoveLast(rules, prefix, bound, chain.rules);
      ghost var listed := numbers[..index];
      index := index - 1;
      var n := numbers[index];
      assert n == listed[|listed| - 1] && listed[..index] == numbers[..index];
      chain.Delete(n);
      bound := n - 1;
    }
    NoNumbers(rules, prefix, bound);
  }

  // Removing a node takes the rules that contain its prefix and keeps all others in order.
  lemma {:induction false} RemovalIs(rules: seq<string>, id: string, left: seq<string>, rule: string,
                                     right: seq<string>)
    requires rules == left + [rule] + right
    ensures Lacking(rules, ForwardPrefix(id), 0)
         == Lacking(left, ForwardPrefix(id), 0)
            + (if exists a, b :: rule == a + ("proxy-panel:" + id + ":vpn:host-forward:") + b then [] else [rule])
            + Lacking(right, ForwardPrefix(id), 0)
  {
    LackingParts(left + [rule], right, ForwardPrefix(id), 0);
    LackingParts(left, [rule], ForwardPrefix(id), 0);
    LackingOne(rule, ForwardPrefix(id));
  }

  // The comment of a rule contains the prefix of its own node and of no other.
  lemma CommentsApart(id: string, other: string, kind: string)
    requires ColonFree(id) && ColonFree(other) && ColonFree(kind)
    ensures Contains(ForwardPrefix(other) + kind, ForwardPrefix(id)) <==> id == other
  {
    var comment, prefix := ForwardPrefix(other) + kind, ForwardPrefix(id);
    if id == other {
      assert HasAt(comment, 0, prefix);
    }
    if Contains(comment, prefix) {
      var i :| 0 <= i <= |comment| && HasAt(comment, i, prefix);
      ColonsAlign(id, other, kind, i);
      assert comment[12..12 + |other|] == other && prefix[12..12 + |id|] == id;
      assert comment[i..][..|prefix|] == prefix;
    }
  }

  // The four colons of the prefix can only be the four colons of the comment.
  lemma ColonsAlign(id: string, other: string, kind: string, i: nat)
    requires ColonFree(id) && ColonFree(other) && ColonFree(kind)
    requires HasAt(ForwardPrefix(other) + kind, i, ForwardPrefix(id))
    ensures i == 0 && |id| == |other|
  {
    var comment, prefix := ForwardPrefix(other) + kind, ForwardPrefix(id);
    Colons(other, kind);
    PrefixColons(id);
    CharAt(comment, i, prefix, 11);
    CharAt(comment, i, prefix, 12 + |id|);
    CharAt(comment, i, prefix, 16 + |id|);
    CharAt(comment, i, prefix, 29 + |id|);
  }

  lemma CharAt(s: string, i: nat, part: string, k: nat)
    requires HasAt(s, i, part) && k < |part|
    ensures i + k < |s| && s[i + k] == part[k]
  {
    assert s[i..][k] == part[k];
  }

  lemma PrefixColons(id: string)
    ensures var s := ForwardPrefix(id);
            |s| == 30 + |id| && s[11] == s[12 + |id|] == s[16 + |id|] == s[29 + |id|] == ':'
  {}

  lemma Colons(id: string, kind: string)
    requires ColonFree(id) && ColonFree(kind)
    ensures var s := ForwardPrefix(id) + kind;
            forall k :: 0 <= k < |s| && s[k] == ':' ==> k == 11 || k == 12 + |id| || k == 16 + |id| || k == 29 + |id|
  {
    var s := ForwardPrefix(id) + kind;
    var head, middle := "proxy-panel:", ":vpn:host-forward:";
    forall k | 0 <= k < |s| && s[k] == ':'
      ensures k == 11 || k == 12 + |id| || k == 16 + |id| || k == 29 + |id|
    {
      if k < 12 {
        assert s[k] == head[k];
      } else if 12 + |id| <= k < 30 + |id| {
        assert s[k] == middle[k - 12 - |id|];
      }
    }
  }
}
