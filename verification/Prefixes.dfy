/** IPv4 prefixes as aligned power-of-two address blocks (RFC 4632, section 3.1). */
module Prefixes {

  // One more than the largest IPv4 address.
  const SPACE: int := 0x1_0000_0000

  // The number of addresses in a block with the given prefix length.
  function BlockSize(bits: int): (size: int)
    ensures size >= 1
    decreases 32 - bits
  {
    if bits >= 32 then 1 else 2 * BlockSize(bits + 1)
  }

  // An address with a prefix length. Host bits may be set until Masked is applied.
  datatype Prefix = Prefix(base: int, bits: int) {

    function Size(): int {
      BlockSize(bits)
    }

    function End(): int {
      base + Size()
    }

    // The address and the length are in range.
    predicate InRange() {
      0 <= bits <= 32 && 0 <= base < SPACE
    }

    // No host bit is set, so that the block is exactly [base, base + size).
    predicate Aligned() {
      0 <= bits <= 32 && 0 <= base && End() <= SPACE && base % Size() == 0
    }

    function Masked(): Prefix {
      Prefix(base - base % Size(), bits)
    }

    // Membership of an address in a prefix compares only the network bits.
    predicate Contains(a: int) {
      Masked().base <= a < Masked().End()
    }

    function Parent(): Prefix {
      Prefix(base - base % BlockSize(bits - 1), bits - 1)
    }

    function Left(): Prefix {
      Prefix(base, bits + 1)
    }

    function Right(): Prefix {
      Prefix(base + BlockSize(bits + 1), bits + 1)
    }

    predicate Within(q: Prefix) {
      q.base <= base && End() <= q.End()
    }

    predicate Apart(q: Prefix) {
      End() <= q.base || q.End() <= base
    }

    predicate Has(a: int) {
      base <= a < End()
    }

    ghost function Addrs(): set<int> {
      set a: int | base <= a < End() && Has(a)
    }
  }

  predicate AllAligned(list: seq<Prefix>) {
    forall p :: p in list ==> p.Aligned()
  }

  // The addresses that a list of prefixes covers.
  ghost function Covered(list: seq<Prefix>): set<int> {
    set p: Prefix, a: int | p in list && p.base <= a < p.End() && p.Has(a) :: a
  }

  // Each block lies wholly before the next ones: sorted and pairwise disjoint.
  ghost predicate Ascending(list: seq<Prefix>) {
    forall i, j :: 0 <= i < j < |list| ==> list[i].End() <= list[j].base
  }

  lemma BlockSizes()
    ensures BlockSize(32) == 1
    ensures BlockSize(24) == 0x100
    ensures BlockSize(16) == 0x1_0000
    ensures BlockSize(12) == 0x10_0000
    ensures BlockSize(8) == 0x100_0000
    ensures BlockSize(4) == 0x1000_0000
    ensures BlockSize(0) == SPACE
  {
    assert BlockSize(28) == 0x10;
    assert BlockSize(24) == 0x100;
    assert BlockSize(20) == 0x1000;
    assert BlockSize(16) == 0x1_0000;
    assert BlockSize(12) == 0x10_0000;
    assert BlockSize(8) == 0x100_0000;
    assert BlockSize(4) == 0x1000_0000;
  }

  // The block of all addresses.
  lemma WholeSpace()
    ensures exists p: Prefix :: p.bits == 0 && p.Aligned()
  {
    BlockSizes();
    assert Prefix(0, 0).Aligned();
  }

  lemma WholeSpaceFields(p: Prefix)
    requires p.bits == 0 && p.Aligned()
    ensures p.base == 0 && p.End() == SPACE
  {
    BlockSizes();
  }

  // ----- Alignment

  lemma MulGrows(j: int, k: int, s: int)
    requires s > 0
    ensures j < k ==> j * s + s <= k * s
    ensures k < j ==> k * s + s <= j * s
  {
    if j < k {
      MulStep(k - j, s);
      assert k * s == j * s + (k - j) * s;
    } else if k < j {
      MulStep(j - k, s);
      assert j * s == k * s + (j - k) * s;
    }
  }

  lemma MulStep(d: int, s: int)
    requires d >= 1 && s > 0
    ensures d * s >= s
  {}

  lemma ModUnique(k: int, m: int, r: int)
    requires 0 <= r < m
    ensures (k * m + r) % m == r
  {
    var a := k * m + r;
    assert a == (a / m) * m + a % m;
    MulGrows(k, a / m, m);
  }

  lemma ModMultiple(k: int, s: int)
    requires s > 0
    ensures (k * s) % s == 0
  {
    ModUnique(k, s, 0);
  }

  lemma ModShift(a: int, s: int)
    requires s > 0
    ensures (a - a % s) % s == 0
    ensures a % s == 0 ==> (a + s) % s == 0
    ensures 0 <= a ==> 0 <= a - a % s
  {
    var k := a / s;
    assert a == k * s + a % s;
    ModMultiple(k, s);
    MulGrows(k, -1, s);
    if a % s == 0 {
      assert a + s == (k + 1) * s;
      ModMultiple(k + 1, s);
    }
  }

  lemma ModHalf(a: int, s: int)
    requires s > 0 && a % (2 * s) == 0
    ensures (a + s) % (2 * s) == s
  {
    var k := a / (2 * s);
    assert a == k * (2 * s);
    ModUnique(k, 2 * s, s);
  }

  // A multiple of s leaves remainder 0 or s modulo 2s.
  lemma ModDouble(a: int, s: int)
    requires s > 0
    ensures a % (2 * s) == 0 ==> a % s == 0
    ensures a % s == 0 ==> a % (2 * s) == 0 || a % (2 * s) == s
  {
    if a % (2 * s) == 0 {
      var j := a / (2 * s);
      assert a == j * (2 * s) == (2 * j) * s;
      ModMultiple(2 * j, s);
    }
    if a % s == 0 {
      var k := a / s;
      var j := k / 2;
      assert a == k * s;
      if k == 2 * j {
        assert a == j * (2 * s);
        ModMultiple(j, 2 * s);
      } else {
        assert k == 2 * j + 1;
        assert a == j * (2 * s) + s;
        ModUnique(j, 2 * s, s);
      }
    }
  }

  // Two multiples of s are equal or at least s apart.
  lemma Multiples(a: int, b: int, s: int)
    requires s > 0 && a % s == 0 && b % s == 0 && a < b
    ensures a + s <= b
  {
    var j, k := a / s, b / s;
    assert a == j * s && b == k * s;
    MulGrows(k, j, s);
  }

  lemma MaskedAligned(p: Prefix)
    requires p.InRange()
    ensures p.Masked().Aligned()
    ensures p.Aligned() <==> p == p.Masked()
    ensures p.Masked().Contains(p.base)
  {
    var s := p.Size();
    ModShift(p.base, s);
    var m := p.Masked();
    SpaceMultiple(p.bits);
    Multiples(m.base, SPACE, s);
    ModShift(m.base, s);
  }

  lemma SpaceMultiple(bits: int)
    requires 0 <= bits <= 32
    ensures SPACE % BlockSize(bits) == 0
    decreases bits
  {
    if bits == 0 {
      BlockSizes();
    } else {
      SpaceMultiple(bits - 1);
      ModDouble(SPACE, BlockSize(bits));
    }
  }

  lemma Halves(p: Prefix)
    requires p.Aligned() && p.bits < 32
    ensures p.Left().Aligned() && p.Right().Aligned()
    ensures p.Left().End() == p.Right().base && p.Right().End() == p.End()
    ensures p.Left().Parent() == p && p.Right().Parent() == p
  {
    var s := BlockSize(p.bits + 1);
    ModDouble(p.base, s);
    ModShift(p.base, s);
    ModHalf(p.base, s);
  }

  // A block with at least one network bit is one of the halves of its parent.
  lemma ParentAligned(p: Prefix)
    requires p.Aligned() && p.bits > 0
    ensures p.Parent().Aligned() && p.Within(p.Parent())
    ensures p == p.Parent().Left() || p == p.Parent().Right()
  {
    var s := p.Size();
    ModDouble(p.base, s);
    assert BlockSize(p.bits - 1) == 2 * s;
    MaskedAligned(Prefix(p.base, p.bits - 1));
    assert p.Parent() == Prefix(p.base, p.bits - 1).Masked();
  }

  // The heart of CIDR: two aligned blocks are nested or disjoint.
  lemma {:induction false} NestedOrApart(p: Prefix, q: Prefix)
    requires p.Aligned() && q.Aligned() && p.bits <= q.bits
    ensures q.Within(p) || q.Apart(p)
    decreases q.bits
  {
    if p.bits == q.bits {
      if p.base < q.base {
        Multiples(p.base, q.base, p.Size());
      } else if q.base < p.base {
        Multiples(q.base, p.base, p.Size());
      }
    } else {
      ParentAligned(q);
      NestedOrApart(p, q.Parent());
    }
  }

  lemma {:induction false} SizeMonotone(short: int, long: int)
    requires short <= long <= 32
    ensures BlockSize(long) <= BlockSize(short)
    ensures short < long ==> BlockSize(long) < BlockSize(short)
    decreases long - short
  {
    if short < long {
      SizeMonotone(short + 1, long);
    }
  }

  // Two blocks that share an address are nested, the longer prefix inside.
  lemma Nesting(p: Prefix, q: Prefix, a: int)
    requires p.Aligned() && q.Aligned()
    requires p.base <= a < p.End() && q.base <= a < q.End()
    ensures q.bits <= p.bits ==> p.Within(q)
    ensures p.bits <= q.bits ==> q.Within(p)
    ensures p.Within(q) <==> q.bits <= p.bits
    ensures p.bits == q.bits ==> p == q
  {
    if p.bits <= q.bits {
      NestedOrApart(p, q);
      SizeMonotone(p.bits, q.bits);
    } else {
      NestedOrApart(q, p);
      SizeMonotone(q.bits, p.bits);
    }
  }

  // A proper sub-block lies in one half, and so does its parent in the whole.
  lemma ProperWithin(q: Prefix, p: Prefix)
    requires p.Aligned() && q.Aligned() && q.Within(p) && q != p
    ensures p.bits < q.bits
    ensures q.Parent().Within(p)
    ensures q.Within(p.Left()) || q.Within(p.Right())
  {
    Nesting(q, p, q.base);
    ParentAligned(q);
    Nesting(q.Parent(), p, q.base);
    Halves(p);
    if q.base < p.Right().base {
      Nesting(q, p.Left(), q.base);
    } else {
      Nesting(q, p.Right(), q.base);
    }
  }

  // For aligned prefixes, Contains is membership in the interval.
  lemma ContainsIsInterval(p: Prefix, a: int)
    requires p.Aligned()
    ensures p.Contains(a) <==> p.base <= a < p.End()
  {}

  // Two membership tests of base addresses decide whether prefixes overlap.
  lemma OverlapByBases(p: Prefix, q: Prefix)
    requires p.Aligned() && q.Aligned()
    ensures p.Contains(q.base) || q.Contains(p.base) <==> !p.Apart(q)
    ensures p.Apart(q) <==> p.Addrs() !! q.Addrs()
  {
    if p.Apart(q) {
    } else {
      var a := if p.base < q.base then q.base else p.base;
      assert a in p.Addrs() && a in q.Addrs();
    }
  }
}
