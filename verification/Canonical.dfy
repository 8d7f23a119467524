/** The reference meaning of the route list: the unique shortest list of aligned
    blocks that covers a set of addresses, found by splitting blocks in halves. */
module Canonical {
  import opened Prefixes
  import opened Seqs

  ghost predicate Inside(p: Prefix, space: set<int>) {
    forall a :: p.Has(a) ==> a in space
  }

  ghost predicate Outside(p: Prefix, space: set<int>) {
    forall a :: p.Has(a) ==> a !in space
  }

  // An aligned block inside the set that cannot be doubled and stay inside.
  ghost predicate Maximal(p: Prefix, space: set<int>) {
    p.Aligned() && Inside(p, space) && (p.bits == 0 || !Inside(p.Parent(), space))
  }

  // The blocks that cover the part of the set that lies in p.
  ghost function Blocks(p: Prefix, space: set<int>): seq<Prefix>
    requires p.bits <= 32
    decreases 32 - p.bits
  {
    if Outside(p, space) then []
    else if p.bits == 32 || Inside(p, space) then [p]
    else Blocks(p.Left(), space) + Blocks(p.Right(), space)
  }

  // The blocks of the whole address space. The root is chosen by a property and not
  // written as a literal, so that the verifier does not unfold the recursion.
  ghost function Canon(space: set<int>): seq<Prefix> {
    WholeSpace();
    var root: Prefix :| root.bits == 0 && root.Aligned();
    Blocks(root, space)
  }

  lemma CanonRoot(space: set<int>) returns (root: Prefix)
    ensures root.bits == 0 && root.Aligned() && root.base == 0 && root.End() == SPACE
    ensures Canon(space) == Blocks(root, space)
  {
    WholeSpace();
    root :| root.bits == 0 && root.Aligned();
    forall p: Prefix | p.bits == 0 && p.Aligned()
      ensures p.base == 0 && p.End() == SPACE && p == root
    {
      WholeSpaceFields(p);
      WholeSpaceFields(root);
    }
  }

  predicate Between(lo: int, a: int, hi: int) {
    lo <= a < hi
  }

  ghost function Interval(lo: int, hi: int): set<int> {
    set a: int | lo <= a < hi && Between(lo, a, hi)
  }

  lemma InsideWithin(p: Prefix, q: Prefix, space: set<int>)
    ensures p.Within(q) && Inside(q, space) ==> Inside(p, space)
  {
    assert p.Within(q) ==> forall a :: p.Has(a) ==> q.Has(a);
  }

  lemma InsideMember(p: Prefix, list: seq<Prefix>)
    requires p in list
    ensures Inside(p, Covered(list))
  {}

  lemma IntervalsNest(lo: int, hi: int)
    ensures 0 <= lo && hi <= SPACE ==> Interval(lo, hi) <= Interval(0, SPACE)
  {
    assert forall a :: a in Interval(lo, hi) <==> lo <= a < hi;
    assert forall a :: a in Interval(0, SPACE) <==> 0 <= a < SPACE;
  }

  // ----- What the blocks are

  lemma {:induction false} BlocksMembers(p: Prefix, space: set<int>, q: Prefix)
    requires p.Aligned()
    ensures q in Blocks(p, space) <==>
            q.Aligned() && q.Within(p) && Inside(q, space) && (q == p || !Inside(q.Parent(), space))
    decreases 32 - p.bits
  {
    assert p.Has(p.base) && q.Has(q.base);
    if Outside(p, space) {
    } else if p.bits == 32 || Inside(p, space) {
      assert p.bits == 32 ==> Inside(p, space);
      if q.Aligned() && q.Within(p) && q != p {
        ProperWithin(q, p);
        assert forall a :: q.Parent().Has(a) ==> p.Has(a);
      }
    } else {
      Halves(p);
      BlocksMembers(p.Left(), space, q);
      BlocksMembers(p.Right(), space, q);
      if q.Aligned() && q.Within(p) && q != p {
        ProperWithin(q, p);
      }
    }
  }

  lemma CanonMembers(space: set<int>, q: Prefix)
    ensures q in Canon(space) <==> Maximal(q, space)
  {
    var root := CanonRoot(space);
    BlocksMembers(root, space, q);
    if q.Aligned() && q.bits == 0 {
      WholeSpaceFields(q);
    }
  }

  lemma AscendingConcat(left: seq<Prefix>, right: seq<Prefix>, mid: int)
    requires Ascending(left) && Ascending(right)
    requires forall p :: p in left ==> p.End() <= mid
    requires forall p :: p in right ==> mid <= p.base
    ensures Ascending(left + right)
  {
    forall i, j | 0 <= i < j < |left + right|
      ensures (left + right)[i].End() <= (left + right)[j].base
    {
      if i < |left| <= j {
        assert left[i] in left && right[j - |left|] in right;
      }
    }
  }

  lemma {:induction false} BlocksAscend(p: Prefix, space: set<int>)
    requires p.Aligned()
    ensures Ascending(Blocks(p, space))
    ensures forall q :: q in Blocks(p, space) ==> q.Aligned() && q.Within(p)
    decreases 32 - p.bits
  {
    if !Outside(p, space) && p.bits != 32 && !Inside(p, space) {
      Halves(p);
      BlocksAscend(p.Left(), space);
      BlocksAscend(p.Right(), space);
      AscendingConcat(Blocks(p.Left(), space), Blocks(p.Right(), space), p.Right().base);
    }
  }

  lemma {:induction false} BlocksCover(p: Prefix, space: set<int>, a: int)
    requires p.Aligned()
    ensures a in Covered(Blocks(p, space)) <==> p.Has(a) && a in space
    decreases 32 - p.bits
  {
    if !Outside(p, space) {
      if p.bits == 32 || Inside(p, space) {
        assert p.Has(p.base);
        assert a in Covered([p]) <==> p.Has(a) by {
          assert p in [p];
        }
      } else {
        Halves(p);
        BlocksCover(p.Left(), space, a);
        BlocksCover(p.Right(), space, a);
        CoveredConcat(Blocks(p.Left(), space), Blocks(p.Right(), space));
      }
    }
  }

  lemma CoveredConcat(left: seq<Prefix>, right: seq<Prefix>)
    ensures Covered(left + right) == Covered(left) + Covered(right)
  {
    forall a
      ensures a in Covered(left + right) <==> a in Covered(left) + Covered(right)
    {
      if a in Covered(left) {
        var p :| p in left && p.Has(a);
        assert p in left + right;
      }
      if a in Covered(right) {
        var p :| p in right && p.Has(a);
        assert p in left + right;
      }
    }
  }

  // The canonical list is sorted, disjoint, aligned, and covers exactly the set.
  lemma CanonCovers(space: set<int>)
    requires space <= Interval(0, SPACE)
    ensures Ascending(Canon(space)) && AllAligned(Canon(space))
    ensures Covered(Canon(space)) == space
  {
    var root := CanonRoot(space);
    BlocksAscend(root, space);
    forall a
      ensures a in Covered(Canon(space)) <==> a in space
    {
      BlocksCover(root, space, a);
    }
  }

  // ----- Uniqueness

  // Two ascending lists with the same elements are the same list.
  lemma {:induction false} AscendingUnique(left: seq<Prefix>, right: seq<Prefix>)
    requires Ascending(left) && Ascending(right)
    requires forall p :: p in left <==> p in right
    ensures left == right
    decreases |left|
  {
    if |left| == 0 {
      SomeMember(right);
    } else {
      assert left[0] in right && right[0] in left by {
        assert left[0] in left;
        assert |right| > 0 && right[0] in right;
      }
      assert left[0] == right[0];
      forall p
        ensures p in left[1..] <==> p in right[1..]
      {
        TailMembers(left, p);
        TailMembers(right, p);
      }
      AscendingUnique(left[1..], right[1..]);
    }
  }

  lemma TailMembers(list: seq<Prefix>, p: Prefix)
    requires Ascending(list) && |list| > 0
    ensures p in list[1..] <==> p in list && p != list[0]
  {}

  // Two maximal blocks that share an address are the same block.
  lemma MaximalUnique(p: Prefix, q: Prefix, space: set<int>, a: int)
    requires Maximal(p, space) && Maximal(q, space) && p.Has(a) && q.Has(a)
    ensures p == q
  {
    Nesting(p, q, a);
    if p != q {
      var small, big := if q.bits <= p.bits then p else q, if q.bits <= p.bits then q else p;
      ProperWithin(small, big);
      InsideWithin(small.Parent(), big, space);
    }
  }

  // An ascending list of maximal blocks that covers the set is the canonical list.
  lemma MaximalCoverIsCanon(list: seq<Prefix>, space: set<int>)
    requires Ascending(list)
    requires forall p :: p in list ==> Maximal(p, space)
    requires Covered(list) == space && space <= Interval(0, SPACE)
    ensures list == Canon(space)
  {
    CanonCovers(space);
    forall q
      ensures q in list <==> q in Canon(space)
    {
      CanonMembers(space, q);
      if Maximal(q, space) {
        assert q.Has(q.base);
        var p :| p in list && p.Has(q.base);
        MaximalUnique(p, q, space, q.base);
      }
    }
    AscendingUnique(list, Canon(space));
  }

  // ----- Minimality

  function CountWithin(list: seq<Prefix>, p: Prefix): (n: nat)
    ensures n <= |list|
  {
    if |list| == 0 then 0
    else (if list[0].Within(p) then 1 else 0) + CountWithin(list[1..], p)
  }

  lemma {:induction false} CountHalves(list: seq<Prefix>, p: Prefix)
    requires p.Aligned() && p.bits < 32
    requires AllAligned(list)
    ensures CountWithin(list, p.Left()) + CountWithin(list, p.Right()) <= CountWithin(list, p)
    decreases |list|
  {
    if |list| > 0 {
      assert list[0] in list;
      Halves(p);
      CountHalves(list[1..], p);
    }
  }

  lemma {:induction false} CountMember(list: seq<Prefix>, p: Prefix, q: Prefix)
    requires q in list && q.Within(p)
    ensures CountWithin(list, p) >= 1
    decreases |list|
  {
    if list[0] != q {
      CountMember(list[1..], p, q);
    }
  }

  // A covered block that properly contains p also contains the parent of p.
  lemma NotProper(p: Prefix, q: Prefix, list: seq<Prefix>)
    requires p.Aligned() && q.Aligned() && q in list
    requires p.bits > 0 ==> !Inside(p.Parent(), Covered(list))
    requires p.Has(p.base) && q.Has(p.base)
    ensures q.Within(p)
  {
    Nesting(p, q, p.base);
    if p.Within(q) && p != q {
      ProperWithin(p, q);
      InsideMember(q, list);
      InsideWithin(p.Parent(), q, Covered(list));
    }
  }

  lemma {:induction false} BlocksMinimal(p: Prefix, list: seq<Prefix>)
    requires p.Aligned() && AllAligned(list)
    requires p.bits > 0 ==> !Inside(p.Parent(), Covered(list))
    ensures |Blocks(p, Covered(list))| <= CountWithin(list, p)
    decreases 32 - p.bits
  {
    var space := Covered(list);
    if Outside(p, space) {
    } else if p.bits == 32 || Inside(p, space) {
      assert p.Has(p.base) && p.base in space;
      var q :| q in list && q.Has(p.base);
      NotProper(p, q, list);
      CountMember(list, p, q);
    } else {
      Halves(p);
      BlocksMinimal(p.Left(), list);
      BlocksMinimal(p.Right(), list);
      CountHalves(list, p);
    }
  }

  // No list of CIDR blocks for the same addresses is shorter.
  lemma CanonMinimal(list: seq<Prefix>)
    requires AllAligned(list)
    ensures |Canon(Covered(list))| <= |list|
  {
    var root := CanonRoot(Covered(list));
    BlocksMinimal(root, list);
  }

  // ----- How many blocks an interval needs

  lemma {:induction false} PrefixCount(p: Prefix, lo: int, hi: int)
    requires p.Aligned() && lo <= p.base
    ensures |Blocks(p, Interval(lo, hi))| <= if p.bits == 32 then 1 else 32 - p.bits
    decreases 32 - p.bits
  {
    assert p.Has(p.base);
    if p.bits < 32 {
      Halves(p);
      if p.base < hi < p.End() {
        assert p.Has(hi);
        PrefixCount(p.Left(), lo, hi);
        PrefixCount(p.Right(), lo, hi);
      }
    }
  }

  lemma {:induction false} SuffixCount(p: Prefix, lo: int, hi: int)
    requires p.Aligned() && p.End() <= hi
    ensures |Blocks(p, Interval(lo, hi))| <= if p.bits == 32 then 1 else 32 - p.bits
    decreases 32 - p.bits
  {
    assert p.Has(p.base);
    if p.bits < 32 {
      Halves(p);
      if p.base < lo < p.End() {
        SuffixCount(p.Left(), lo, hi);
        SuffixCount(p.Right(), lo, hi);
      }
    }
  }

  lemma PairCount(p: Prefix, space: set<int>)
    requires p.bits == 31
    ensures |Blocks(p, space)| <= 2
  {
    assert |Blocks(p.Left(), space)| <= 1 && |Blocks(p.Right(), space)| <= 1;
  }

  lemma {:induction false} IntervalCount(p: Prefix, lo: int, hi: int)
    requires p.Aligned() && p.bits < 31
    ensures |Blocks(p, Interval(lo, hi))| <= 2 * (31 - p.bits)
    decreases 32 - p.bits
  {
    assert p.Has(p.base);
    if !Outside(p, Interval(lo, hi)) && !Inside(p, Interval(lo, hi)) {
      Halves(p);
      var mid := p.Right().base;
      if mid <= lo {
        if p.bits < 30 {
          IntervalCount(p.Right(), lo, hi);
        } else {
          PairCount(p.Right(), Interval(lo, hi));
        }
      } else if hi <= mid {
        if p.bits < 30 {
          IntervalCount(p.Left(), lo, hi);
        } else {
          PairCount(p.Left(), Interval(lo, hi));
        }
      } else {
        SuffixCount(p.Left(), lo, hi);
        PrefixCount(p.Right(), lo, hi);
      }
    }
  }
}
