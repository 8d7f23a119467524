/** Lossless merging of adjacent prefixes into the shortest list. */
module Collapse {
  import opened Prefixes
  import opened Canonical
  import opened Ranges
  import opened Normalize

  datatype Span = Span(start: int, end: int) {
    predicate Ok() {
      0 <= start < end <= SPACE
    }

    predicate Has(a: int) {
      start <= a < end
    }
  }

  ghost function SpanCover(spans: seq<Span>): set<int> {
    set s: Span, a: int | s in spans && s.start <= a < s.end && s.Has(a) :: a
  }

  ghost predicate AllOk(spans: seq<Span>) {
    forall s :: s in spans ==> s.Ok()
  }

  // Between any two spans there is an address that neither covers.
  ghost predicate Separated(spans: seq<Span>) {
    forall i, j :: 0 <= i < j < |spans| ==> spans[i].end < spans[j].start
  }

  // The canonical blocks of the spans, one span after the other.
  ghost function SpanBlocks(spans: seq<Span>): seq<Prefix> {
    if |spans| == 0 then []
    else
      var n := |spans| - 1;
      SpanBlocks(spans[..n]) + Canon(Interval(spans[n].start, spans[n].end))
  }

  lemma SpanCoverStep(spans: seq<Span>, s: Span)
    ensures SpanCover(spans + [s]) == SpanCover(spans) + Interval(s.start, s.end)
  {
    forall a
      ensures a in SpanCover(spans + [s]) <==> a in SpanCover(spans) || s.start <= a < s.end
    {
      if a in SpanCover(spans) {
        var t :| t in spans && t.Has(a);
        assert t in spans + [s];
      }
      if s.Has(a) {
        assert s in spans + [s];
      }
    }
    assert forall a :: a in Interval(s.start, s.end) <==> s.start <= a < s.end;
  }

  // Growing the last span by an adjacent block adds exactly that block.
  lemma SpanGrow(spans: seq<Span>, end: int)
    requires |spans| > 0 && spans[|spans| - 1].start <= spans[|spans| - 1].end <= end
    ensures SpanCover(spans[|spans| - 1 := Span(spans[|spans| - 1].start, end)])
         == SpanCover(spans) + Interval(spans[|spans| - 1].end, end)
  {
    var n := |spans| - 1;
    var last := spans[n];
    SpanCoverStep(spans[..n], last);
    SpanCoverStep(spans[..n], Span(last.start, end));
    assert spans == spans[..n] + [last];
    assert spans[n := Span(last.start, end)] == spans[..n] + [Span(last.start, end)];
    assert Interval(last.start, end) == Interval(last.start, last.end) + Interval(last.end, end);
  }

  lemma SpanCanon(s: Span)
    requires s.Ok()
    ensures Ascending(Canon(Interval(s.start, s.end))) && AllAligned(Canon(Interval(s.start, s.end)))
    ensures Covered(Canon(Interval(s.start, s.end))) == Interval(s.start, s.end)
  {
    IntervalsNest(s.start, s.end);
    CanonCovers(Interval(s.start, s.end));
  }

  lemma SeparatedAppend(spans: seq<Span>, s: Span)
    requires AllOk(spans) && Separated(spans)
    requires |spans| > 0 ==> spans[|spans| - 1].end < s.start
    ensures Separated(spans + [s])
  {
    forall i | 0 <= i < |spans|
      ensures spans[i].end < s.start
    {
      assert spans[i] in spans && spans[|spans| - 1] in spans;
    }
  }

  lemma InsideInterval(p: Prefix, lo: int, hi: int)
    ensures Inside(p, Interval(lo, hi)) <==> lo <= p.base && p.End() <= hi
  {
    assert p.Has(p.base) && p.Has(p.End() - 1);
    assert forall a :: a in Interval(lo, hi) <==> lo <= a < hi;
  }

  // A maximal block of a span whose neighbours are not covered is maximal overall.
  lemma MaximalInSpan(p: Prefix, s: Span, space: set<int>)
    requires Maximal(p, Interval(s.start, s.end))
    requires Interval(s.start, s.end) <= space
    requires s.start - 1 !in space && s.end !in space
    ensures Maximal(p, space) && s.start <= p.base && p.End() <= s.end
  {
    InsideInterval(p, s.start, s.end);
    assert forall a :: p.Has(a) ==> a in Interval(s.start, s.end);
    if p.bits > 0 {
      var q := p.Parent();
      ParentAligned(p);
      InsideInterval(q, s.start, s.end);
      if q.base < s.start {
        assert q.Has(s.start - 1);
      } else {
        assert q.Has(s.end);
      }
    }
  }

  // Blocks of separated spans are the canonical blocks of everything they cover.
  lemma {:induction false} SpanBlocksMaximal(spans: seq<Span>, n: nat)
    requires AllOk(spans) && Separated(spans) && n <= |spans|
    ensures Ascending(SpanBlocks(spans[..n]))
    ensures forall p :: p in SpanBlocks(spans[..n]) ==> Maximal(p, SpanCover(spans))
    ensures forall p :: p in SpanBlocks(spans[..n]) ==> n > 0 && p.End() <= spans[n - 1].end
    decreases n
  {
    if n > 0 {
      SpanBlocksMaximal(spans, n - 1);
      assert spans[..n][..n - 1] == spans[..n - 1];
      var s := spans[n - 1];
      var blocks := Canon(Interval(s.start, s.end));
      assert s in spans;
      SpanCanon(s);
      SpanEdges(spans, n - 1);
      forall p | p in blocks
        ensures Maximal(p, SpanCover(spans)) && s.start <= p.base && p.End() <= s.end
      {
        CanonMembers(Interval(s.start, s.end), p);
        MaximalInSpan(p, s, SpanCover(spans));
      }
      AscendingConcat(SpanBlocks(spans[..n - 1]), blocks, s.start);
    }
  }

  lemma SpanEdges(spans: seq<Span>, k: nat)
    requires AllOk(spans) && Separated(spans) && k < |spans|
    ensures spans[k].start - 1 !in SpanCover(spans) && spans[k].end !in SpanCover(spans)
    ensures Interval(spans[k].start, spans[k].end) <= SpanCover(spans)
  {
    var s := spans[k];
    assert s in spans;
    forall i | 0 <= i < |spans|
      ensures !spans[i].Has(s.start - 1) && !spans[i].Has(s.end)
    {
      assert spans[i] in spans;
    }
    forall a | a in Interval(s.start, s.end)
      ensures a in SpanCover(spans)
    {
      assert s.Has(a);
    }
  }

  lemma SpanCoverAppend(spans: seq<Span>, s: Span, left: seq<Prefix>, right: seq<Prefix>)
    requires Covered(left) == SpanCover(spans) && Covered(right) == Interval(s.start, s.end)
    requires AllAligned(left) && AllAligned(right)
    ensures Covered(left + right) == SpanCover(spans + [s]) && AllAligned(left + right)
  {
    CoveredConcat(left, right);
    SpanCoverStep(spans, s);
  }

  lemma {:induction false} SpanBlocksCover(spans: seq<Span>)
    requires AllOk(spans)
    ensures Covered(SpanBlocks(spans)) == SpanCover(spans)
    ensures AllAligned(SpanBlocks(spans))
    decreases |spans|
  {
    if |spans| == 0 {
      assert SpanCover(spans) == {} == Covered([]);
    } else {
      var n := |spans| - 1;
      var s := spans[n];
      assert s in spans;
      SpanBlocksCover(spans[..n]);
      SpanCanon(s);
      assert spans == spans[..n] + [s];
      SpanCoverAppend(spans[..n], s, SpanBlocks(spans[..n]), Canon(Interval(s.start, s.end)));
    }
  }

  lemma SeparatedIsCanon(spans: seq<Span>)
    requires AllOk(spans) && Separated(spans)
    ensures SpanBlocks(spans) == Canon(SpanCover(spans))
  {
    SpanBlocksMaximal(spans, |spans|);
    assert spans[..|spans|] == spans;
    SpanBlocksCover(spans);
    assert SpanCover(spans) <= Interval(0, SPACE);
    MaximalCoverIsCanon(SpanBlocks(spans), SpanCover(spans));
  }

  // The runs of adjacent blocks of a sorted list.
  method MergeRuns(prefixes: seq<Prefix>) returns (intervals: seq<Span>)
    requires AllAligned(prefixes)
    ensures AllOk(intervals) && SpanCover(intervals) == Covered(prefixes)
    ensures Ascending(prefixes) ==> Separated(intervals)
  {
    intervals := [];
    for i := 0 to |prefixes|
      invariant AllOk(intervals) && SpanCover(intervals) == Covered(prefixes[..i])
      invariant |intervals| > 0 <==> i > 0
      invariant |intervals| > 0 ==> intervals[|intervals| - 1].end == prefixes[i - 1].End()
      invariant Ascending(prefixes) ==> Separated(intervals)
    {
      var start := prefixes[i].base;
      var end := prefixes[i].End();
      assert prefixes[i] in prefixes;
      CoverBlock(prefixes, i);
      var last := |intervals| - 1;
      if |intervals| > 0 && start == intervals[last].end {
        assert intervals[last] in intervals;
        SpanGrow(intervals, end);
        intervals := intervals[last := Span(intervals[last].start, end)];
      } else {
        SpanCoverStep(intervals, Span(start, end));
        if Ascending(prefixes) {
          assert i > 0 ==> prefixes[i - 1].End() <= prefixes[i].base;
          SeparatedAppend(intervals, Span(start, end));
        }
        intervals := intervals + [Span(start, end)];
      }
    }
    assert prefixes[..|prefixes|] == prefixes;
  }

  lemma CoverBlock(prefixes: seq<Prefix>, i: nat)
    requires i < |prefixes|
    ensures Covered(prefixes[..i + 1]) == Covered(prefixes[..i]) + Interval(prefixes[i].base, prefixes[i].End())
  {
    assert prefixes[..i + 1] == prefixes[..i] + [prefixes[i]];
    CoveredConcat(prefixes[..i], [prefixes[i]]);
    AddrsSize(prefixes[i]);
    assert prefixes[i].Addrs() == Interval(prefixes[i].base, prefixes[i].End());
  }

  // Merging keeps the covered addresses whatever the input; when the input blocks
  // are pairwise disjoint, the result is the canonical list of those addresses.
  method CollapsePrefixes(input: seq<Prefix>) returns (collapsed: seq<Prefix>)
    requires AllInRange(input)
    ensures AllAligned(collapsed) && Sorted(ByAddress, collapsed)
    ensures Covered(collapsed) == Covered(Arrange(input))
    ensures Ascending(Arrange(input)) ==> collapsed == Canon(Covered(Arrange(input)))
  {
    var prefixes := NormalizePrefixes(input);
    ArrangeSpec(input);
    var intervals := MergeRuns(prefixes);
    var result := SplitRuns(intervals);
    SpanBlocksCover(intervals);
    ArrangeAligned(result);
    if Ascending(prefixes) {
      SeparatedIsCanon(intervals);
      CanonAscending(prefixes);
      ArrangeIdentity(result);
    }
    collapsed := NormalizePrefixes(result);
  }

  lemma SpanBlocksStep(spans: seq<Span>, i: nat)
    requires i < |spans|
    ensures SpanBlocks(spans[..i + 1])
         == SpanBlocks(spans[..i]) + Canon(Interval(spans[i].start, spans[i].end))
  {
    assert spans[..i + 1][..i] == spans[..i];
  }

  // Each run is split into its canonical blocks; no run leaves the address space.
  method SplitRuns(intervals: seq<Span>) returns (result: seq<Prefix>)
    requires AllOk(intervals)
    ensures result == SpanBlocks(intervals)
  {
    result := [];
    for i := 0 to |intervals|
      invariant result == SpanBlocks(intervals[..i])
    {
      var item := intervals[i];
      assert item in intervals;
      var blocks := RangeToPrefixes(item.start, item.end - item.start);
      SpanBlocksStep(intervals, i);
      if blocks.Ok? {
        result := result + blocks.value;
      }
    }
    assert intervals[..|intervals|] == intervals;
  }

  lemma CanonAscending(prefixes: seq<Prefix>)
    requires AllAligned(prefixes)
    ensures Ascending(Canon(Covered(prefixes))) && AllAligned(Canon(Covered(prefixes)))
    ensures Sorted(ByAddress, Canon(Covered(prefixes)))
    ensures Covered(Canon(Covered(prefixes))) == Covered(prefixes)
  {
    var space := Covered(prefixes);
    assert space <= Interval(0, SPACE);
    CanonCovers(space);
    AscendingSorted(Canon(space));
  }

  // Collapsing a collapsed list changes nothing, because its blocks are disjoint.
  lemma CanonIdempotent(space: set<int>)
    requires space <= Interval(0, SPACE)
    ensures Arrange(Canon(space)) == Canon(space)
    ensures Canon(Covered(Arrange(Canon(space)))) == Canon(space)
  {
    CanonCovers(space);
    AscendingSorted(Canon(space));
    ArrangeIdentity(Canon(space));
  }
}
