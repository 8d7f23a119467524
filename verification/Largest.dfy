/** Choosing the routes that cover the most addresses under a limit. */
module Largest {
  import opened Prefixes
  import opened Seqs
  import opened Normalize

  // On ascending blocks the result is an ascending part of them, as long as the limit
  // allows, and no choice of that many blocks covers more addresses.
  method LargestPrefixes(prefixes: seq<Prefix>, limit: nat) returns (r: seq<Prefix>)
    ensures r == KeepLargest(prefixes, limit)
    ensures AllAligned(prefixes) && Ascending(prefixes) ==>
              && AllAligned(r) && Ascending(r) && (forall p :: p in r ==> p in prefixes)
              && |r| == (if |prefixes| <= limit then |prefixes| else limit)
              && forall choice :: IsChoice(choice, prefixes, limit) ==> |Covered(choice)| <= |Covered(r)|
  {
    if AllAligned(prefixes) && Ascending(prefixes) {
      LargestIsPart(prefixes, limit);
      forall choice | IsChoice(choice, prefixes, limit)
        ensures |Covered(choice)| <= |Covered(KeepLargest(prefixes, limit))|
      {
        LargestOptimal(prefixes, limit, choice);
      }
    }
    if |prefixes| <= limit {
      return prefixes;
    }
    var result := SortBy(BySize, prefixes);
    r := NormalizePrefixes(result[..limit]);
  }

  // At most limit of the given blocks.
  ghost predicate IsChoice(choice: seq<Prefix>, prefixes: seq<Prefix>, limit: nat) {
    |choice| <= limit && forall p :: p in choice ==> p in prefixes
  }

  function KeepLargest(prefixes: seq<Prefix>, limit: nat): seq<Prefix> {
    if |prefixes| <= limit then prefixes else Arrange(SortBy(BySize, prefixes)[..limit])
  }

  function Without<T>(list: seq<T>, k: nat): seq<T>
    requires k < |list|
  {
    list[..k] + list[k + 1..]
  }

  lemma {:induction false} TotalConcat(left: seq<Prefix>, right: seq<Prefix>)
    ensures TotalSize(left + right) == TotalSize(left) + TotalSize(right)
    decreases |right|
  {
    if |right| == 0 {
      assert left + right == left;
    } else {
      var n := |right| - 1;
      TotalConcat(left, right[..n]);
      assert (left + right)[..|left + right| - 1] == left + right[..n];
    }
  }

  lemma TotalWithout(list: seq<Prefix>, k: nat)
    requires k < |list|
    ensures TotalSize(list) == TotalSize(Without(list, k)) + list[k].Size()
  {
    Reassemble(list, k);
    TotalMiddle(list[..k], list[k], list[k + 1..]);
  }

  lemma TotalMiddle(left: seq<Prefix>, p: Prefix, right: seq<Prefix>)
    ensures TotalSize(left + [p] + right) == TotalSize(left + right) + p.Size()
  {
    TotalConcat(left, right);
    TotalConcat(left + [p], right);
    TotalAppend(left, p);
  }

  lemma TotalAppend(list: seq<Prefix>, p: Prefix)
    ensures TotalSize(list + [p]) == TotalSize(list) + p.Size()
  {
    assert (list + [p])[..|list|] == list;
  }

  lemma WithoutDistinct(list: seq<Prefix>, k: nat)
    requires Distinct(list) && k < |list|
    ensures Distinct(Without(list, k))
    ensures forall p :: p in Without(list, k) <==> p in list && p != list[k]
  {
    forall p | p in list && p != list[k]
      ensures p in Without(list, k)
    {
      var i :| 0 <= i < |list| && list[i] == p;
      assert Without(list, k)[if i < k then i else i - 1] == p;
    }
  }

  // The exchange argument: no choice of at most limit blocks of a list that is
  // sorted by size has a larger total than its first limit blocks.
  lemma {:induction false} Exchange(chosen: seq<Prefix>, bySize: seq<Prefix>, limit: nat)
    requires Distinct(chosen) && |chosen| <= limit <= |bySize|
    requires Sorted(BySize, bySize) && (forall p :: p in bySize ==> p.bits <= 32)
    requires forall p :: p in chosen ==> p in bySize
    ensures TotalSize(chosen) <= TotalSize(bySize[..limit])
    decreases limit
  {
    if |chosen| > 0 {
      var first := bySize[0];
      var k := if first in chosen then IndexOf(chosen, first) else 0;
      assert chosen[k] in chosen;
      LargestFirst(bySize, chosen[k]);
      TotalWithout(chosen, k);
      WithoutDistinct(chosen, k);
      assert first !in Without(chosen, k);
      forall p | p in Without(chosen, k)
        ensures p in bySize[1..]
      {
        SortedTail(BySize, bySize, p);
      }
      Exchange(Without(chosen, k), bySize[1..], limit - 1);
      TakeTotal(bySize, limit);
    }
  }

  lemma TakeTotal(list: seq<Prefix>, limit: nat)
    requires 0 < limit <= |list|
    ensures TotalSize(list[..limit]) == TotalSize(list[1..][..limit - 1]) + list[0].Size()
  {
    TotalWithout(list[..limit], 0);
    assert Without(list[..limit], 0) == list[1..][..limit - 1];
  }

  function IndexOf(list: seq<Prefix>, p: Prefix): (k: nat)
    requires p in list
    ensures k < |list| && list[k] == p
  {
    if list[0] == p then 0 else IndexOf(list[1..], p) + 1
  }

  lemma LargestFirst(bySize: seq<Prefix>, p: Prefix)
    requires Sorted(BySize, bySize) && p in bySize && (forall q :: q in bySize ==> q.bits <= 32)
    ensures p.Size() <= bySize[0].Size()
  {
    var i :| 0 <= i < |bySize| && bySize[i] == p;
    assert i == 0 || Less(BySize, bySize[0], bySize[i]);
    SizeMonotone(bySize[0].bits, p.bits);
  }

  // Lists without duplicates that have the same elements have the same total.
  lemma {:induction false} TotalSubset(left: seq<Prefix>, right: seq<Prefix>)
    requires Distinct(left) && Distinct(right)
    requires forall p :: p in left ==> p in right
    ensures TotalSize(left) <= TotalSize(right)
    ensures |left| <= |right|
    decreases |left|
  {
    if |left| > 0 {
      var p := left[0];
      assert p in left;
      var k := IndexOf(right, p);
      TotalWithout(left, 0);
      TotalWithout(right, k);
      WithoutDistinct(left, 0);
      WithoutDistinct(right, k);
      TotalSubset(Without(left, 0), Without(right, k));
    }
  }

  // The result is a sorted part of the input that respects the limit.
  lemma LargestIsPart(prefixes: seq<Prefix>, limit: nat)
    requires AllAligned(prefixes) && Ascending(prefixes)
    ensures Ascending(KeepLargest(prefixes, limit)) && AllAligned(KeepLargest(prefixes, limit))
    ensures |KeepLargest(prefixes, limit)| == if |prefixes| <= limit then |prefixes| else limit
    ensures forall p :: p in KeepLargest(prefixes, limit) ==> p in prefixes
  {
    if |prefixes| > limit {
      TopKept(prefixes, limit);
      assert forall p :: p in SortBy(BySize, prefixes)[..limit] ==> p in SortBy(BySize, prefixes);
      ArrangePart(SortBy(BySize, prefixes)[..limit], prefixes);
    }
  }

  lemma ArrangePart(part: seq<Prefix>, whole: seq<Prefix>)
    requires AllAligned(whole) && Ascending(whole)
    requires forall p :: p in part ==> p in whole
    ensures Ascending(Arrange(part)) && AllAligned(Arrange(part))
    ensures forall p :: p in Arrange(part) ==> p in whole
  {
    ArrangeAligned(part);
    SubAscending(Arrange(part), whole);
  }

  // Normalizing a list without duplicates loses nothing.
  lemma ArrangeKept(list: seq<Prefix>)
    requires AllAligned(list) && Distinct(list)
    ensures |Arrange(list)| == |list| && TotalSize(Arrange(list)) == TotalSize(list)
  {
    ArrangeAligned(list);
    TotalSubset(list, Arrange(list));
    TotalSubset(Arrange(list), list);
  }

  lemma TopKept(prefixes: seq<Prefix>, limit: nat)
    requires AllAligned(prefixes) && Ascending(prefixes) && limit <= |prefixes|
    ensures |Arrange(SortBy(BySize, prefixes)[..limit])| == limit
    ensures TotalSize(Arrange(SortBy(BySize, prefixes)[..limit])) == TotalSize(SortBy(BySize, prefixes)[..limit])
  {
    AscendingDistinct(prefixes);
    SortBySorts(BySize, prefixes);
    assert forall p :: p in SortBy(BySize, prefixes)[..limit] ==> p in SortBy(BySize, prefixes);
    ArrangeKept(SortBy(BySize, prefixes)[..limit]);
  }

  lemma AscendingDistinct(list: seq<Prefix>)
    requires Ascending(list)
    ensures Distinct(list) && Sorted(ByAddress, list)
  {}

  // A sorted choice among disjoint blocks is ascending.
  lemma SubAscending(part: seq<Prefix>, whole: seq<Prefix>)
    requires Ascending(whole) && Sorted(ByAddress, part)
    requires forall p :: p in part ==> p in whole
    ensures Ascending(part)
  {
    forall i, j | 0 <= i < j < |part|
      ensures part[i].End() <= part[j].base
    {
      assert part[i] in part && part[j] in part;
      assert Less(ByAddress, part[i], part[j]);
      var a, b := IndexOf(whole, part[i]), IndexOf(whole, part[j]);
    }
  }

  lemma {:induction false} SortedCut(sorted: seq<Prefix>, n: nat, kept: Prefix, left: Prefix)
    requires Sorted(BySize, sorted) && n <= |sorted|
    requires kept in sorted[..n] && left in sorted && left !in sorted[..n]
    ensures Less(BySize, kept, left)
  {
    var i :| 0 <= i < n && sorted[i] == kept;
    assert sorted == sorted[..n] + sorted[n..];
    assert left in sorted[n..];
    var j :| 0 <= j < |sorted[n..]| && sorted[n..][j] == left;
    assert sorted[n + j] == left;
  }

  // What is left out is smaller than what is kept, or as large and further up.
  lemma {:induction false} LargestFirstKept(prefixes: seq<Prefix>, limit: nat, kept: Prefix, left: Prefix)
    requires AllAligned(prefixes) && Ascending(prefixes)
    requires kept in KeepLargest(prefixes, limit) && left in prefixes && left !in KeepLargest(prefixes, limit)
    ensures kept.bits < left.bits || (kept.bits == left.bits && kept.base < left.base)
  {
    AscendingDistinct(prefixes);
    SortBySorts(BySize, prefixes);
    var sorted := SortBy(BySize, prefixes);
    assert forall p :: p in sorted[..limit] ==> p in sorted;
    ArrangeAligned(sorted[..limit]);
    SortedCut(sorted, limit, kept, left);
  }

  // Among all choices of at most limit prefixes of a disjoint list, the result
  // covers the most addresses.
  lemma LargestOptimal(prefixes: seq<Prefix>, limit: nat, choice: seq<Prefix>)
    requires AllAligned(prefixes) && Ascending(prefixes)
    requires IsChoice(choice, prefixes, limit)
    ensures |Covered(choice)| <= |Covered(KeepLargest(prefixes, limit))|
  {
    LargestIsPart(prefixes, limit);
    ArrangeAligned(choice);
    CountIsCardinality(Arrange(choice));
    CountIsCardinality(KeepLargest(prefixes, limit));
    ArrangeShorter(choice);
    if |prefixes| <= limit {
      AscendingDistinct(prefixes);
      TotalSubset(Arrange(choice), prefixes);
    } else {
      AscendingDistinct(prefixes);
      SortBySorts(BySize, prefixes);
      TopKept(prefixes, limit);
      Exchange(Arrange(choice), SortBy(BySize, prefixes), limit);
    }
  }

  lemma ArrangeShorter(list: seq<Prefix>)
    ensures |Arrange(list)| <= |list| && Distinct(Arrange(list))
  {
    ArrangeSpec(list);
    DedupeShorter(list);
  }

  lemma {:induction false} DedupeShorter(list: seq<Prefix>)
    ensures |Dedupe(list)| <= |list|
    decreases |list|
  {
    if |list| > 0 {
      DedupeShorter(list[..|list| - 1]);
    }
  }
}
