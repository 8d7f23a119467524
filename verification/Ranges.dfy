/** Greedy tiling of an address range with aligned blocks. */
module Ranges {
  import opened Wrappers
  import opened Prefixes
  import opened Canonical

  datatype RangeError = OutOfBounds

  // No aligned block inside the range straddles the position.
  ghost predicate NoStraddle(lo: int, hi: int, position: int) {
    forall q: Prefix :: q.Aligned() && lo <= q.base < position && q.End() <= hi ==> q.End() <= position
  }

  // The largest block that fits at the current position of the range.
  ghost predicate Greedy(block: Prefix, hi: int) {
    block.Aligned() && block.End() <= hi &&
    (block.bits == 0 || block.base % BlockSize(block.bits - 1) != 0 || hi < block.base + BlockSize(block.bits - 1))
  }

  lemma GreedyLargest(block: Prefix, q: Prefix, hi: int)
    requires Greedy(block, hi) && q.Aligned() && q.base == block.base && q.End() <= hi
    ensures q.End() <= block.End()
  {
    if q.bits < block.bits {
      AlignedShorter(q.base, q.bits, block.bits - 1);
      SizeMonotone(q.bits, block.bits - 1);
    } else {
      SizeMonotone(block.bits, q.bits);
    }
  }

  // An address aligned for a short prefix is aligned for every longer one.
  lemma {:induction false} AlignedShorter(base: int, short: int, long: int)
    requires 0 <= short <= long <= 32 && base % BlockSize(short) == 0
    ensures base % BlockSize(long) == 0
    decreases long - short
  {
    if short < long {
      ModDouble(base, BlockSize(short + 1));
      AlignedShorter(base, short + 1, long);
    }
  }

  lemma StraddleStep(lo: int, hi: int, block: Prefix)
    requires NoStraddle(lo, hi, block.base) && Greedy(block, hi)
    ensures NoStraddle(lo, hi, block.End())
  {
    forall q: Prefix | q.Aligned() && lo <= q.base < block.End() && q.End() <= hi
      ensures q.End() <= block.End()
    {
      if block.base <= q.base {
        Nesting(block, q, q.base);
        if q.base == block.base {
          GreedyLargest(block, q, hi);
        }
      }
    }
  }

  lemma GreedyMaximal(lo: int, hi: int, block: Prefix)
    requires lo <= block.base && NoStraddle(lo, hi, block.base) && Greedy(block, hi)
    ensures Maximal(block, Interval(lo, hi))
  {
    var space := Interval(lo, hi);
    assert forall a :: a in space <==> lo <= a < hi;
    if block.bits > 0 && Inside(block.Parent(), space) {
      var q := block.Parent();
      ParentAligned(block);
      assert q.Has(q.base) && q.Has(q.End() - 1);
      if q.base == block.base {
        GreedyLargest(block, q, hi);
      }
    }
  }

  lemma AscendingAppend(list: seq<Prefix>, p: Prefix)
    requires Ascending(list)
    requires forall q :: q in list ==> q.End() <= p.base
    ensures Ascending(list + [p])
  {
    forall i | 0 <= i < |list|
      ensures list[i].End() <= p.base
    {
      assert list[i] in list;
    }
  }

  lemma CoverStep(list: seq<Prefix>, lo: int, p: Prefix)
    requires Covered(list) == Interval(lo, p.base) && lo <= p.base
    ensures Covered(list + [p]) == Interval(lo, p.End())
  {
    CoveredConcat(list, [p]);
    assert forall q :: q in [p] <==> q == p;
    assert p in [p];
    assert forall a :: a in Covered([p]) <==> p.Has(a);
    assert forall a :: a in Interval(lo, p.End()) <==> lo <= a < p.End();
    assert forall a :: a in Interval(lo, p.base) <==> lo <= a < p.base;
  }

  // The blocks placed so far tile [lo, position) with maximal blocks of [lo, hi).
  ghost predicate Tiling(list: seq<Prefix>, lo: int, position: int, hi: int) {
    && lo <= position <= hi
    && Ascending(list)
    && Covered(list) == Interval(lo, position)
    && (forall p :: p in list ==> p.End() <= position && Maximal(p, Interval(lo, hi)))
    && NoStraddle(lo, hi, position)
  }

  lemma TilingStep(list: seq<Prefix>, lo: int, hi: int, p: Prefix)
    requires Tiling(list, lo, p.base, hi) && Greedy(p, hi)
    ensures Tiling(list + [p], lo, p.End(), hi)
  {
    GreedyMaximal(lo, hi, p);
    StraddleStep(lo, hi, p);
    AscendingAppend(list, p);
    CoverStep(list, lo, p);
  }

  lemma TilingIsCanon(list: seq<Prefix>, lo: int, hi: int)
    requires 0 <= lo && hi <= SPACE && Tiling(list, lo, hi, hi)
    ensures list == Canon(Interval(lo, hi))
  {
    assert forall a :: a in Interval(lo, hi) <==> lo <= a < hi;
    MaximalCoverIsCanon(list, Interval(lo, hi));
  }

  // The block of the tiling at this position, and its prefix length.
  method NextBlock(current: int, remaining: int) returns (block: int, bits: int)
    requires 0 <= current && 0 < remaining && current + remaining <= SPACE
    ensures 0 <= bits <= 32 && block == BlockSize(bits)
    ensures Greedy(Prefix(current, bits), current + remaining)
  {
    block := 1;
    ghost var level := 32;
    while block < remaining && block < SPACE && current % (block * 2) == 0 && block * 2 <= remaining
      invariant 0 <= level <= 32 && block == BlockSize(level) && block <= remaining
      invariant current % block == 0
      decreases level
    {
      assert level > 0 by {
        BlockSizes();
      }
      block := block * 2;
      level := level - 1;
      assert block == BlockSize(level);
    }
    bits := 32;
    var value := block;
    ghost var step := level;
    while value > 1
      invariant level <= step <= 32 && value == BlockSize(step) && step - level == 32 - bits
      decreases 32 - step
    {
      value := value / 2;
      bits := bits - 1;
      step := step + 1;
    }
    SizeMonotone(step, 32);
    assert bits > 0 ==> BlockSize(bits - 1) == 2 * block;
  }

  // The loop of the tiling, for a range that lies in the address space.
  method TileRange(start: int, count: nat) returns (result: seq<Prefix>)
    requires 0 <= start && start + count <= SPACE
    ensures Tiling(result, start, start + count, start + count)
  {
    var current := start;
    ghost var end := start + count;
    result := [];
    var remaining := count;
    while remaining > 0
      invariant remaining >= 0 && current + remaining == end
      invariant Tiling(result, start, current, end)
      decreases remaining
    {
      var block, bits := NextBlock(current, remaining);
      TilingStep(result, start, end, Prefix(current, bits));
      result := result + [Prefix(current, bits)];
      current := current + block;
      remaining := remaining - block;
    }
  }

  // The canonical blocks of [start, start + count), or an error beyond the address space.
  method RangeToPrefixes(start: int, count: nat) returns (r: Result<seq<Prefix>, RangeError>)
    requires 0 <= start < SPACE
    ensures start + count > SPACE ==> r == Err(OutOfBounds)
    ensures start + count <= SPACE ==> r == Ok(Canon(Interval(start, start + count)))
  {
    if start + count > SPACE {
      return Err(OutOfBounds);
    }
    var result := TileRange(start, count);
    TilingIsCanon(result, start, start + count);
    r := Ok(result);
  }

  // A range never needs more than 62 routes.
  lemma RangeAtMost62(lo: int, hi: int)
    ensures |Canon(Interval(lo, hi))| <= 62
  {
    var root := CanonRoot(Interval(lo, hi));
    IntervalCount(root, lo, hi);
  }
}
