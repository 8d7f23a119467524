/** Address blocks that never belong to the public Internet (RFC 6890, section 2.2.2). */
module SpecialUse {
  import opened Prefixes
  import opened Canonical
  import opened Subtract

  const SPECIAL: seq<Prefix> := [
    Prefix(0x0000_0000, 8), Prefix(0x0A00_0000, 8), Prefix(0x6440_0000, 10), Prefix(0x7F00_0000, 8),
    Prefix(0xA9FE_0000, 16), Prefix(0xAC10_0000, 12), Prefix(0xC000_0000, 24), Prefix(0xC000_0200, 24),
    Prefix(0xC058_6300, 24), Prefix(0xC0A8_0000, 16), Prefix(0xC612_0000, 15), Prefix(0xC633_6400, 24),
    Prefix(0xCB00_7100, 24), Prefix(0xE000_0000, 4), Prefix(0xF000_0000, 4)]

  // The address classes that the address library tests before the list is consulted.
  predicate LibraryPublic(a: int) {
    && a != 0 && a != 0xFFFF_FFFF
    && !(0x0A00_0000 <= a < 0x0B00_0000) && !(0xAC10_0000 <= a < 0xAC20_0000) && !(0xC0A8_0000 <= a < 0xC0A9_0000)
    && !(0x7F00_0000 <= a < 0x8000_0000)
    && !(0xA9FE_0000 <= a < 0xA9FF_0000)
    && !(0xE000_0000 <= a < 0xF000_0000)
  }

  predicate IsPublic(a: int) {
    0 <= a < SPACE && LibraryPublic(a) && forall p :: p in SPECIAL ==> !p.Contains(a)
  }

  lemma MoreSizes()
    ensures BlockSize(15) == 0x2_0000 && BlockSize(10) == 0x40_0000
  {
    BlockSizes();
    assert BlockSize(13) == 0x8_0000;
    assert BlockSize(11) == 0x20_0000;
  }

  lemma AlignedBlock(base: int, bits: int, size: int)
    requires 0 <= bits <= 32 && BlockSize(bits) == size
    requires 0 <= base && base % size == 0 && base + size <= SPACE
    ensures Prefix(base, bits).Aligned() && Prefix(base, bits).End() == base + size
    ensures forall a :: base <= a < base + size ==> Prefix(base, bits).Contains(a)
  {}

  lemma SpecialAligned()
    ensures AllAligned(SPECIAL)
  {
    BlockSizes();
    MoreSizes();
    AlignedBlock(0x0000_0000, 8, 0x100_0000);
    AlignedBlock(0x0A00_0000, 8, 0x100_0000);
    AlignedBlock(0x6440_0000, 10, 0x40_0000);
    AlignedBlock(0x7F00_0000, 8, 0x100_0000);
    AlignedBlock(0xA9FE_0000, 16, 0x1_0000);
    AlignedBlock(0xAC10_0000, 12, 0x10_0000);
    AlignedBlock(0xC000_0000, 24, 0x100);
    AlignedBlock(0xC000_0200, 24, 0x100);
    AlignedBlock(0xC058_6300, 24, 0x100);
    AlignedBlock(0xC0A8_0000, 16, 0x1_0000);
    AlignedBlock(0xC612_0000, 15, 0x2_0000);
    AlignedBlock(0xC633_6400, 24, 0x100);
    AlignedBlock(0xCB00_7100, 24, 0x100);
    AlignedBlock(0xE000_0000, 4, 0x1000_0000);
    AlignedBlock(0xF000_0000, 4, 0x1000_0000);
  }

  // The library tests refuse nothing that the list does not also refuse.
  lemma PublicIsFree(a: int)
    ensures IsPublic(a) <==> a in Free(SPECIAL)
  {
    SpecialAligned();
    assert a in Interval(0, SPACE) <==> 0 <= a < SPACE;
    if p :| p in SPECIAL && p.Contains(a) {
      ContainsIsInterval(p, a);
      assert p.Has(a);
    } else if 0 <= a < SPACE {
      assert a !in Covered(SPECIAL);
      if !LibraryPublic(a) {
        ListedClasses(a);
      }
    }
  }

  lemma Listed(p: Prefix, size: int, a: int)
    requires p in SPECIAL && p.Aligned() && BlockSize(p.bits) == size && p.base <= a < p.base + size
    ensures exists p :: p in SPECIAL && p.Contains(a)
  {
    ContainsIsInterval(p, a);
  }

  lemma ListedClasses(a: int)
    requires 0 <= a < SPACE && !LibraryPublic(a)
    ensures exists p :: p in SPECIAL && p.Contains(a)
  {
    BlockSizes();
    SpecialAligned();
    if a < 0x0A00_0000 {
      Listed(SPECIAL[0], 0x100_0000, a);
    } else if a < 0x0B00_0000 {
      Listed(SPECIAL[1], 0x100_0000, a);
    } else if a < 0x8000_0000 {
      Listed(SPECIAL[3], 0x100_0000, a);
    } else if a < 0xA9FF_0000 {
      Listed(SPECIAL[4], 0x1_0000, a);
    } else if a < 0xAC20_0000 {
      Listed(SPECIAL[5], 0x10_0000, a);
    } else if a < 0xC0A9_0000 {
      Listed(SPECIAL[9], 0x1_0000, a);
    } else if a < 0xF000_0000 {
      Listed(SPECIAL[13], 0x1000_0000, a);
    } else {
      Listed(SPECIAL[14], 0x1000_0000, a);
    }
  }
}
