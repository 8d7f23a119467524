/** Sorting, deduplication and address counts of prefix lists. */
module Normalize {
  import opened Prefixes
  import opened Canonical
  import opened Seqs

  // The two orders in which the route list is sorted.
  datatype Order = ByAddress | BySize

  predicate Less(order: Order, p: Prefix, q: Prefix) {
    match order
    case ByAddress => p.base < q.base || (p.base == q.base && p.bits < q.bits)
    case BySize => p.bits < q.bits || (p.bits == q.bits && p.base < q.base)
  }

  ghost predicate Sorted(order: Order, list: seq<Prefix>) {
    forall i, j :: 0 <= i < j < |list| ==> Less(order, list[i], list[j])
  }

  ghost predicate Distinct<T>(list: seq<T>) {
    forall i, j :: 0 <= i < j < |list| ==> list[i] != list[j]
  }

  // ----- The sorting library, on lists without duplicates

  function Insert(order: Order, list: seq<Prefix>, p: Prefix): (r: seq<Prefix>)
    ensures forall q :: q in r <==> q in list || q == p
    ensures |r| == |list| + 1
  {
    if |list| == 0 || Less(order, p, list[0]) then [p] + list
    else
      var tail := Insert(order, list[1..], p);
      assert list == [list[0]] + list[1..];
      [list[0]] + tail
  }

  function SortBy(order: Order, list: seq<Prefix>): (r: seq<Prefix>)
    ensures |r| == |list|
    ensures forall q :: q in r <==> q in list
  {
    if |list| == 0 then []
    else
      assert list == list[..|list| - 1] + [list[|list| - 1]];
      Insert(order, SortBy(order, list[..|list| - 1]), list[|list| - 1])
  }

  lemma {:induction false} InsertSorts(order: Order, list: seq<Prefix>, p: Prefix)
    requires Sorted(order, list) && p !in list
    ensures Sorted(order, Insert(order, list, p))
    decreases |list|
  {
    if |list| != 0 && !Less(order, p, list[0]) {
      assert list[0] in list;
      InsertSorts(order, list[1..], p);
      var tail := Insert(order, list[1..], p);
      forall i | 0 <= i < |tail|
        ensures Less(order, list[0], tail[i])
      {
        assert tail[i] in tail;
      }
    }
  }

  lemma {:induction false} SortBySorts(order: Order, list: seq<Prefix>)
    requires Distinct(list)
    ensures Sorted(order, SortBy(order, list))
    decreases |list|
  {
    if |list| > 0 {
      SortBySorts(order, list[..|list| - 1]);
      InsertSorts(order, SortBy(order, list[..|list| - 1]), list[|list| - 1]);
    }
  }

  // Two sorted lists with the same elements are the same list.
  lemma {:induction false} SortedUnique(order: Order, left: seq<Prefix>, right: seq<Prefix>)
    requires Sorted(order, left) && Sorted(order, right)
    requires forall p :: p in left <==> p in right
    ensures left == right
    decreases |left|
  {
    if |left| == 0 {
      SomeMember(right);
    } else {
      assert left[0] in left;
      assert left[0] in right && |right| > 0 && right[0] in right;
      assert left[0] == right[0];
      forall p
        ensures p in left[1..] <==> p in right[1..]
      {
        SortedTail(order, left, p);
        SortedTail(order, right, p);
      }
      SortedUnique(order, left[1..], right[1..]);
    }
  }

  lemma SortedTail(order: Order, list: seq<Prefix>, p: Prefix)
    requires Sorted(order, list) && |list| > 0
    ensures p in list[1..] <==> p in list && p != list[0]
  {}

  // ----- Normalization

  predicate AllInRange(list: seq<Prefix>) {
    forall p :: p in list ==> p.InRange()
  }

  // The masked prefixes of the list, without repetition, in order of first occurrence.
  function Dedupe(list: seq<Prefix>): (r: seq<Prefix>)
    ensures forall q :: q in r <==> exists p :: p in list && q == p.Masked()
    ensures Distinct(r)
  {
    if |list| == 0 then []
    else
      var n := |list| - 1;
      assert list == list[..n] + [list[n]];
      var r := Dedupe(list[..n]);
      if list[n].Masked() in r then r else r + [list[n].Masked()]
  }

  function Arrange(list: seq<Prefix>): seq<Prefix> {
    SortBy(ByAddress, Dedupe(list))
  }

  method NormalizePrefixes(prefixes: seq<Prefix>) returns (result: seq<Prefix>)
    ensures result == Arrange(prefixes)
  {
    var seen: map<Prefix, bool> := map[];
    result := [];
    for i := 0 to |prefixes|
      invariant result == Dedupe(prefixes[..i])
      invariant forall p :: p in seen <==> p in result
    {
      var prefix := prefixes[i].Masked();
      assert prefixes[..i + 1][..i] == prefixes[..i];
      if prefix !in seen {
        seen := seen[prefix := true];
        result := result + [prefix];
      }
    }
    assert prefixes[..|prefixes|] == prefixes;
    result := SortBy(ByAddress, result);
  }

  // Normalizing sorts strictly and keeps exactly the masked prefixes.
  lemma ArrangeSpec(list: seq<Prefix>)
    ensures Sorted(ByAddress, Arrange(list))
    ensures var r := Arrange(list);
            forall i, j :: 0 <= i < j < |r| ==>
              r[i].base < r[j].base || (r[i].base == r[j].base && r[i].bits < r[j].bits)
    ensures forall q :: q in Arrange(list) <==> exists p :: p in list && q == p.Masked()
    ensures AllInRange(list) ==> AllAligned(Arrange(list))
  {
    SortBySorts(ByAddress, Dedupe(list));
    if AllInRange(list) {
      forall q | q in Arrange(list)
        ensures q.Aligned()
      {
        var p :| p in list && q == p.Masked();
        MaskedAligned(p);
      }
    }
  }

  lemma ArrangeAligned(list: seq<Prefix>)
    requires AllAligned(list)
    ensures Sorted(ByAddress, Arrange(list)) && AllAligned(Arrange(list))
    ensures forall q :: q in Arrange(list) <==> q in list
    ensures Covered(Arrange(list)) == Covered(list)
  {
    ArrangeSpec(list);
    forall p | p in list
      ensures p.Masked() == p
    {}
  }

  // The route list keeps its order when it is already sorted and aligned.
  lemma ArrangeIdentity(list: seq<Prefix>)
    requires AllAligned(list) && Sorted(ByAddress, list)
    ensures Arrange(list) == list
  {
    ArrangeAligned(list);
    SortedUnique(ByAddress, Arrange(list), list);
  }

  lemma AscendingSorted(list: seq<Prefix>)
    requires Ascending(list)
    ensures Sorted(ByAddress, list)
  {}

  ghost predicate NeighboursApart(list: seq<Prefix>) {
    forall i :: 0 < i < |list| ==> !list[i - 1].Contains(list[i].base)
  }

  // In a sorted list of aligned blocks, comparing neighbours finds every overlap.
  lemma NeighboursDecide(list: seq<Prefix>)
    requires AllAligned(list) && Sorted(ByAddress, list)
    ensures NeighboursApart(list) <==> Ascending(list)
  {
    if NeighboursApart(list) {
      forall i, j | 0 <= i < j < |list|
        ensures list[i].End() <= list[j].base
      {
        assert list[i] in list && list[i + 1] in list;
        assert list[i].base <= list[i + 1].base;
        assert !list[(i + 1) - 1].Contains(list[i + 1].base);
        assert list[i].End() <= list[i + 1].base;
        assert j != i + 1 ==> list[i + 1].base <= list[j].base;
      }
    }
    if Ascending(list) {
      forall i | 0 < i < |list|
        ensures !list[i - 1].Contains(list[i].base)
      {
        assert list[i - 1] in list;
      }
    }
  }

  // ----- Address counts

  function TotalSize(list: seq<Prefix>): (n: nat) {
    if |list| == 0 then 0 else TotalSize(list[..|list| - 1]) + list[|list| - 1].Size()
  }

  lemma {:induction false} IntervalSize(lo: int, hi: int)
    requires lo <= hi
    ensures |Interval(lo, hi)| == hi - lo
    decreases hi - lo
  {
    if lo < hi {
      IntervalSize(lo, hi - 1);
      assert Interval(lo, hi) == Interval(lo, hi - 1) + {hi - 1};
    } else {
      assert Interval(lo, hi) == {};
    }
  }

  lemma AddrsSize(p: Prefix)
    ensures |p.Addrs()| == p.Size() && Covered([p]) == p.Addrs()
  {
    IntervalSize(p.base, p.End());
    assert p.Addrs() == Interval(p.base, p.End());
    assert p in [p];
    assert forall q :: q in [p] <==> q == p;
    forall a
      ensures a in Covered([p]) <==> a in p.Addrs()
    {
      assert p.Has(a) <==> a in p.Addrs();
    }
  }

  lemma CardUnion(s: set<int>, t: set<int>)
    ensures |s + t| <= |s| + |t|
    ensures s !! t ==> |s + t| == |s| + |t|
  {
    assert s + t == s + (t - s);
    assert |t - s| <= |t| by {
      assert t == (t - s) + (t * s);
    }
  }

  // The sum of the block sizes is the number of addresses covered.
  lemma {:induction false} CountIsCardinality(list: seq<Prefix>)
    ensures |Covered(list)| <= TotalSize(list)
    ensures Ascending(list) ==> |Covered(list)| == TotalSize(list)
    decreases |list|
  {
    if |list| == 0 {
      assert Covered(list) == {};
    } else {
      var n := |list| - 1;
      CountIsCardinality(list[..n]);
      AddrsSize(list[n]);
      assert list == list[..n] + [list[n]];
      CoveredConcat(list[..n], [list[n]]);
      CardUnion(Covered(list[..n]), list[n].Addrs());
      if Ascending(list) {
        assert Covered(list[..n]) !! list[n].Addrs();
      }
    }
  }
}
