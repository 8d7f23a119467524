/** Removal of special-use blocks from a list of prefixes. */
module Subtract {
  import opened Prefixes
  import opened Canonical

  // What remains of the address space outside a list of prefixes.
  ghost function Free(excluded: seq<Prefix>): set<int> {
    Interval(0, SPACE) - Covered(excluded)
  }

  // A block that partly overlaps a longer prefix can be split in halves.
  lemma MustSplit(prefix: Prefix, excluded: Prefix)
    requires prefix.Aligned() && excluded.Aligned()
    requires prefix.Contains(excluded.base) || excluded.Contains(prefix.base)
    requires !(excluded.bits <= prefix.bits && excluded.Contains(prefix.base))
    ensures prefix.bits < excluded.bits && excluded.Within(prefix)
    ensures prefix.Left().Aligned() && prefix.Right().Aligned()
  {
    OverlapByBases(prefix, excluded);
    var a := if prefix.base < excluded.base then excluded.base else prefix.base;
    Nesting(prefix, excluded, a);
    Halves(prefix);
  }

  function SubtractPrefix(prefix: Prefix, excluded: Prefix): seq<Prefix>
    requires prefix.Aligned() && excluded.Aligned()
    decreases 32 - prefix.bits
  {
    if !prefix.Contains(excluded.base) && !excluded.Contains(prefix.base) then [prefix]
    else if excluded.bits <= prefix.bits && excluded.Contains(prefix.base) then []
    else
      MustSplit(prefix, excluded);
      SubtractPrefix(prefix.Left(), excluded) + SubtractPrefix(prefix.Right(), excluded)
  }

  // Subtraction yields the maximal blocks of the set difference, in order.
  lemma {:induction false} SubtractIsBlocks(prefix: Prefix, excluded: Prefix)
    requires prefix.Aligned() && excluded.Aligned()
    ensures SubtractPrefix(prefix, excluded) == Blocks(prefix, Free([excluded]))
    decreases 32 - prefix.bits
  {
    FreeOne(excluded);
    assert prefix.Has(prefix.base);
    OverlapByBases(prefix, excluded);
    if prefix.Apart(excluded) {
    } else if excluded.bits <= prefix.bits && excluded.Contains(prefix.base) {
      Nesting(prefix, excluded, prefix.base);
    } else {
      MustSplit(prefix, excluded);
      Halves(prefix);
      assert prefix.Has(excluded.base) && excluded.Has(excluded.base);
      SizeMonotone(prefix.bits, excluded.bits);
      assert prefix.Has(prefix.End() - 1);
      SubtractIsBlocks(prefix.Left(), excluded);
      SubtractIsBlocks(prefix.Right(), excluded);
    }
  }

  lemma FreeOne(excluded: Prefix)
    ensures forall a :: a in Free([excluded]) <==> 0 <= a < SPACE && !excluded.Has(a)
  {
    assert forall p :: p in [excluded] <==> p == excluded;
    forall a
      ensures a in Covered([excluded]) <==> excluded.Has(a)
    {
      assert excluded in [excluded];
    }
    assert forall a :: a in Interval(0, SPACE) <==> 0 <= a < SPACE;
  }

  // Subtraction gives the set difference as disjoint aligned blocks in ascending order.
  lemma SubtractExact(prefix: Prefix, excluded: Prefix)
    requires prefix.Aligned() && excluded.Aligned()
    ensures var r := SubtractPrefix(prefix, excluded);
            AllAligned(r) && Ascending(r) && Covered(r) == prefix.Addrs() - excluded.Addrs()
  {
    SubtractIsBlocks(prefix, excluded);
    BlocksAscend(prefix, Free([excluded]));
    FreeOne(excluded);
    forall a
      ensures a in Covered(SubtractPrefix(prefix, excluded)) <==> a in prefix.Addrs() - excluded.Addrs()
    {
      BlocksCover(prefix, Free([excluded]), a);
    }
  }

  // The difference of a block and a sub-block is one block per extra network bit.
  lemma {:induction false} SubtractCount(prefix: Prefix, excluded: Prefix)
    requires prefix.Aligned() && excluded.Aligned() && excluded.Within(prefix)
    ensures |SubtractPrefix(prefix, excluded)| == excluded.bits - prefix.bits
    decreases 32 - prefix.bits
  {
    Nesting(prefix, excluded, excluded.base);
    OverlapByBases(prefix, excluded);
    if prefix != excluded {
      ProperWithin(excluded, prefix);
      Halves(prefix);
      if excluded.Within(prefix.Left()) {
        SubtractCount(prefix.Left(), excluded);
        SubtractApart(prefix.Right(), excluded);
      } else {
        SubtractCount(prefix.Right(), excluded);
        SubtractApart(prefix.Left(), excluded);
      }
    }
  }

  lemma SubtractApart(prefix: Prefix, excluded: Prefix)
    requires prefix.Aligned() && excluded.Aligned() && prefix.Apart(excluded)
    ensures SubtractPrefix(prefix, excluded) == [prefix]
  {
    OverlapByBases(prefix, excluded);
  }

  // ----- Lists

  // The blocks of each prefix of the list, one prefix after the other.
  ghost function FlatBlocks(list: seq<Prefix>, space: set<int>): seq<Prefix>
    requires AllAligned(list)
  {
    if |list| == 0 then []
    else
      assert list[|list| - 1] in list;
      FlatBlocks(list[..|list| - 1], space) + Blocks(list[|list| - 1], space)
  }

  lemma {:induction false} FlatConcat(left: seq<Prefix>, right: seq<Prefix>, space: set<int>)
    requires AllAligned(left) && AllAligned(right)
    ensures AllAligned(left + right)
    ensures FlatBlocks(left + right, space) == FlatBlocks(left, space) + FlatBlocks(right, space)
    decreases |right|
  {
    if |right| == 0 {
      assert left + right == left;
    } else {
      var n := |right| - 1;
      FlatConcat(left, right[..n], space);
      assert (left + right)[..|left + right| - 1] == left + right[..n];
    }
  }

  lemma {:induction false} FlatOne(p: Prefix, space: set<int>)
    requires p.Aligned()
    ensures FlatBlocks([p], space) == Blocks(p, space)
  {
    assert [p][..0] == [];
  }

  lemma {:induction false} FlatMember(list: seq<Prefix>, space: set<int>, p: Prefix, q: Prefix)
    requires AllAligned(list) && p in list && q in Blocks(p, space)
    ensures q in FlatBlocks(list, space)
    decreases |list|
  {
    var n := |list| - 1;
    if p != list[n] {
      FlatMember(list[..n], space, p, q);
    }
  }

  lemma {:induction false} FlatOrigin(list: seq<Prefix>, space: set<int>, q: Prefix) returns (p: Prefix)
    requires AllAligned(list) && q in FlatBlocks(list, space)
    ensures p in list && q in Blocks(p, space)
    decreases |list|
  {
    var n := |list| - 1;
    assert list[n] in list;
    if q in Blocks(list[n], space) {
      p := list[n];
    } else {
      p := FlatOrigin(list[..n], space, q);
    }
  }

  lemma {:induction false} BlocksAgree(p: Prefix, s: set<int>, t: set<int>)
    requires p.Aligned()
    requires forall a :: p.Has(a) ==> (a in s <==> a in t)
    ensures Blocks(p, s) == Blocks(p, t)
    decreases 32 - p.bits
  {
    if p.bits < 32 {
      Halves(p);
      assert forall a :: p.Left().Has(a) || p.Right().Has(a) ==> p.Has(a);
      BlocksAgree(p.Left(), s, t);
      BlocksAgree(p.Right(), s, t);
    }
  }

  // A block that is not inside the set is split, even when nothing is left of it.
  lemma {:induction false} BlocksSplit(p: Prefix, space: set<int>)
    requires p.Aligned() && p.bits < 32 && !Inside(p, space)
    ensures Blocks(p, space) == Blocks(p.Left(), space) + Blocks(p.Right(), space)
  {
    if Outside(p, space) {
      Halves(p);
      assert forall a :: p.Left().Has(a) || p.Right().Has(a) ==> p.Has(a);
    }
  }

  lemma {:induction false} RefineHalves(p: Prefix, s: set<int>, t: set<int>)
    requires p.Aligned() && p.bits < 32 && !Inside(p, s)
    requires AllAligned(Blocks(p.Left(), s)) && AllAligned(Blocks(p.Right(), s))
    requires FlatBlocks(Blocks(p.Left(), s), t) == Blocks(p.Left(), s * t)
    requires FlatBlocks(Blocks(p.Right(), s), t) == Blocks(p.Right(), s * t)
    ensures AllAligned(Blocks(p, s)) && FlatBlocks(Blocks(p, s), t) == Blocks(p, s * t)
  {
    BlocksSplit(p, s);
    BlocksSplit(p, s * t);
    FlatConcat(Blocks(p.Left(), s), Blocks(p.Right(), s), t);
  }

  // Splitting around one set and then another is splitting around both.
  lemma {:induction false} BlocksRefine(p: Prefix, s: set<int>, t: set<int>)
    requires p.Aligned()
    ensures AllAligned(Blocks(p, s))
    ensures FlatBlocks(Blocks(p, s), t) == Blocks(p, s * t)
    decreases 32 - p.bits
  {
    BlocksAscend(p, s);
    assert p.Has(p.base);
    if Outside(p, s) {
    } else if p.bits == 32 || Inside(p, s) {
      BlocksAgree(p, t, s * t);
      FlatOne(p, t);
    } else {
      Halves(p);
      BlocksRefine(p.Left(), s, t);
      BlocksRefine(p.Right(), s, t);
      RefineHalves(p, s, t);
    }
  }

  lemma {:induction false} FlatRefine(list: seq<Prefix>, s: set<int>, t: set<int>)
    requires AllAligned(list)
    ensures AllAligned(FlatBlocks(list, s))
    ensures FlatBlocks(FlatBlocks(list, s), t) == FlatBlocks(list, s * t)
    decreases |list|
  {
    if |list| > 0 {
      var n := |list| - 1;
      FlatRefine(list[..n], s, t);
      BlocksRefine(list[n], s, t);
      FlatConcat(FlatBlocks(list[..n], s), Blocks(list[n], s), t);
    }
  }

  lemma FlatStep(list: seq<Prefix>, j: nat, space: set<int>)
    requires AllAligned(list) && j < |list|
    ensures AllAligned(list[..j]) && AllAligned(list[..j + 1]) && list[j] in list
    ensures FlatBlocks(list[..j + 1], space) == FlatBlocks(list[..j], space) + Blocks(list[j], space)
  {
    assert list[..j + 1][..j] == list[..j];
  }

  lemma ExcludeStep(prefixes: seq<Prefix>, special: seq<Prefix>, i: nat)
    requires AllAligned(prefixes) && i < |special|
    ensures AllAligned(FlatBlocks(prefixes, Free(special[..i])))
    ensures AllAligned(FlatBlocks(prefixes, Free(special[..i + 1])))
    ensures FlatBlocks(FlatBlocks(prefixes, Free(special[..i])), Free([special[i]]))
         == FlatBlocks(prefixes, Free(special[..i + 1]))
  {
    FlatRefine(prefixes, Free(special[..i]), Free([special[i]]));
    FlatRefine(prefixes, Free(special[..i + 1]), {});
    assert special[..i + 1] == special[..i] + [special[i]];
    CoveredConcat(special[..i], [special[i]]);
    assert Free(special[..i]) * Free([special[i]]) == Free(special[..i + 1]);
  }

  // Every prefix in turn is replaced by what each special-use block leaves of it.
  method ExcludePrefixes(prefixes: seq<Prefix>, special: seq<Prefix>) returns (result: seq<Prefix>)
    requires AllAligned(prefixes) && AllAligned(special)
    ensures AllAligned(result)
    ensures result == FlatBlocks(prefixes, Free(special))
  {
    result := prefixes;
    FlatAll(prefixes);
    assert Free(special[..0]) == Interval(0, SPACE);
    for i := 0 to |special|
      invariant AllAligned(result)
      invariant result == FlatBlocks(prefixes, Free(special[..i]))
    {
      var excluded := special[i];
      var next := [];
      for j := 0 to |result|
        invariant next == FlatBlocks(result[..j], Free([excluded]))
      {
        SubtractIsBlocks(result[j], excluded);
        FlatStep(result, j, Free([excluded]));
        next := next + SubtractPrefix(result[j], excluded);
      }
      assert result[..|result|] == result;
      ExcludeStep(prefixes, special, i);
      result := next;
    }
    assert special[..|special|] == special;
  }

  // Nothing is split when every block lies inside the set.
  lemma {:induction false} FlatInside(list: seq<Prefix>, space: set<int>)
    requires AllAligned(list)
    requires forall p :: p in list ==> Inside(p, space)
    ensures FlatBlocks(list, space) == list
    decreases |list|
  {
    if |list| > 0 {
      var n := |list| - 1;
      FlatInside(list[..n], space);
      assert list[n] in list && list[n].Has(list[n].base);
      assert list == list[..n] + [list[n]];
    }
  }

  lemma FlatAll(list: seq<Prefix>)
    requires AllAligned(list)
    ensures FlatBlocks(list, Interval(0, SPACE)) == list
  {
    assert forall a :: a in Interval(0, SPACE) <==> 0 <= a < SPACE;
    FlatInside(list, Interval(0, SPACE));
  }

  // The addresses that remain are those covered before and not excluded.
  lemma FlatCovers(list: seq<Prefix>, space: set<int>)
    requires AllAligned(list)
    ensures AllAligned(FlatBlocks(list, space))
    ensures Covered(FlatBlocks(list, space)) == Covered(list) * space
  {
    FlatRefine(list, space, {});
    forall a
      ensures a in Covered(FlatBlocks(list, space)) <==> a in Covered(list) && a in space
    {
      if a in Covered(FlatBlocks(list, space)) {
        FlatCoversOnly(list, space, a);
      }
      if a in Covered(list) && a in space {
        FlatCoversAll(list, space, a);
      }
    }
  }

  lemma FlatCoversOnly(list: seq<Prefix>, space: set<int>, a: int)
    requires AllAligned(list) && a in Covered(FlatBlocks(list, space))
    ensures a in Covered(list) && a in space
  {
    var q :| q in FlatBlocks(list, space) && q.Has(a);
    var p := FlatWithin(list, space, q);
    assert p.Has(a);
  }

  lemma BlockAt(p: Prefix, space: set<int>, a: int) returns (q: Prefix)
    requires p.Aligned() && p.Has(a) && a in space
    ensures q in Blocks(p, space) && q.Has(a)
  {
    BlocksCover(p, space, a);
    q :| q in Blocks(p, space) && q.Has(a);
  }

  lemma FlatCoversAll(list: seq<Prefix>, space: set<int>, a: int)
    requires AllAligned(list) && a in Covered(list) && a in space
    ensures a in Covered(FlatBlocks(list, space))
  {
    var p :| p in list && p.Has(a);
    var q := BlockAt(p, space, a);
    FlatMember(list, space, p, q);
    InsideMember(q, FlatBlocks(list, space));
  }

  // Every remaining block is part of a block of the input, so no prefix gets shorter.
  lemma FlatWithin(list: seq<Prefix>, space: set<int>, q: Prefix) returns (p: Prefix)
    requires AllAligned(list) && q in FlatBlocks(list, space)
    ensures p in list && q.Aligned() && q.Within(p) && p.bits <= q.bits && Inside(q, space)
  {
    p := FlatOrigin(list, space, q);
    BlocksMembers(p, space, q);
    Nesting(p, q, q.base);
  }
}
