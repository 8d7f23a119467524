/** The special-use blocks by the octets of their addresses. */
module SpecialTable {
  import opened Wrappers
  import opened Prefixes
  import opened Text
  import opened Addresses
  import opened SpecialUse

  // The address a.b.c.d.
  function Quad(a: int, b: int, c: int, d: int): int {
    a * 0x100_0000 + b * 0x1_0000 + c * 0x100 + d
  }

  predicate IsByte(n: int) {
    0 <= n <= 255
  }

  // The table of special-purpose blocks: this network, private use, shared space, loopback,
  // link local, protocol assignments, documentation, relays, benchmarking, multicast and
  // reserved addresses.
  predicate Reserved(a: int, b: int, c: int) {
    || a == 0 || a == 10 || a == 127 || a >= 224
    || (a == 100 && 64 <= b <= 127) || (a == 169 && b == 254) || (a == 172 && 16 <= b <= 31)
    || (a == 192 && (b == 168 || (b == 0 && (c == 0 || c == 2)) || (b == 88 && c == 99)))
    || (a == 198 && (b == 18 || b == 19 || (b == 51 && c == 100)))
    || (a == 203 && b == 0 && c == 113)
  }

  // An address is written as its four octets.
  lemma {:induction false} QuadText(a: int, b: int, c: int, d: int)
    requires IsByte(a) && IsByte(b) && IsByte(c) && IsByte(d)
    ensures 0 <= Quad(a, b, c, d) < SPACE
    ensures FormatAddr(Quad(a, b, c, d)) == Join([Itoa(a), Itoa(b), Itoa(c), Itoa(d)], '.')
    ensures ParseAddr(Join([Itoa(a), Itoa(b), Itoa(c), Itoa(d)], '.')) == Some(Quad(a, b, c, d))
  {
    QuadOctets(a, b, c, d);
    AddrRoundTrip(Quad(a, b, c, d));
  }

  lemma {:induction false} QuadOctets(a: int, b: int, c: int, d: int)
    requires IsByte(a) && IsByte(b) && IsByte(c) && IsByte(d)
    ensures 0 <= Quad(a, b, c, d) < SPACE && OctetTexts(Quad(a, b, c, d)) == [Itoa(a), Itoa(b), Itoa(c), Itoa(d)]
  {
    OctetsOf(a, b, c, d);
  }

  lemma {:induction false} InBlock(p: Prefix, size: int, x: int)
    requires p in SPECIAL && BlockSize(p.bits) == size
    ensures p.Contains(x) <==> p.base <= x < p.base + size
  {
    SpecialAligned();
    ContainsIsInterval(p, x);
  }

  // The addresses of the fifteen blocks of the list.
  predicate InList(x: int) {
    || 0 <= x < 0x0100_0000 || 0x0A00_0000 <= x < 0x0B00_0000 || 0x6440_0000 <= x < 0x6480_0000
    || 0x7F00_0000 <= x < 0x8000_0000 || 0xA9FE_0000 <= x < 0xA9FF_0000 || 0xAC10_0000 <= x < 0xAC20_0000
    || 0xC000_0000 <= x < 0xC000_0100 || 0xC000_0200 <= x < 0xC000_0300 || 0xC058_6300 <= x < 0xC058_6400
    || 0xC0A8_0000 <= x < 0xC0A9_0000 || 0xC612_0000 <= x < 0xC614_0000 || 0xC633_6400 <= x < 0xC633_6500
    || 0xCB00_7100 <= x < 0xCB00_7200 || 0xE000_0000 <= x < 0xF000_0000 || 0xF000_0000 <= x < 0x1_0000_0000
  }

  function SizeAt(i: nat): int
    requires i < 15
  {
    if i == 2 then 0x40_0000
    else if i == 4 || i == 9 then 0x1_0000
    else if i == 5 then 0x10_0000
    else if i == 10 then 0x2_0000
    else if 6 <= i <= 12 then 0x100
    else if i >= 13 then 0x1000_0000
    else 0x100_0000
  }

  lemma {:induction false} SizesAt(i: nat)
    requires i < 15
    ensures i < |SPECIAL| && BlockSize(SPECIAL[i].bits) == SizeAt(i)
  {
    BlockSizes();
    MoreSizes();
  }

  lemma {:induction false} BlockAt(i: nat, x: int)
    requires i < 15
    ensures i < |SPECIAL| && (SPECIAL[i].Contains(x) <==> SPECIAL[i].base <= x < SPECIAL[i].base + SizeAt(i))
  {
    SizesAt(i);
    InBlock(SPECIAL[i], SizeAt(i), x);
  }

  lemma {:induction false} ListedIn(i: nat, x: int)
    requires i < 15 && i < |SPECIAL| && SPECIAL[i].base <= x < SPECIAL[i].base + SizeAt(i)
    ensures InList(x)
  {}

  // Which block of the list an address lies in.
  function Place(x: int): (i: nat)
    requires InList(x)
    ensures i < 15
  {
    if x < 0x0100_0000 then 0 else if x < 0x0B00_0000 then 1 else if x < 0x6480_0000 then 2
    else if x < 0x8000_0000 then 3 else if x < 0xA9FF_0000 then 4 else if x < 0xAC20_0000 then 5
    else if x < 0xC000_0100 then 6 else if x < 0xC000_0300 then 7 else if x < 0xC058_6400 then 8
    else if x < 0xC0A9_0000 then 9 else if x < 0xC614_0000 then 10 else if x < 0xC633_6500 then 11
    else if x < 0xCB00_7200 then 12 else if x < 0xF000_0000 then 13 else 14
  }

  lemma {:induction false} Placed(x: int)
    requires InList(x)
    ensures var i := Place(x); i < |SPECIAL| && SPECIAL[i].base <= x < SPECIAL[i].base + SizeAt(i)
  {}

  lemma {:induction false} ListIntervals(x: int)
    ensures (exists p :: p in SPECIAL && p.Contains(x)) <==> InList(x)
  {
    assert |SPECIAL| == 15;
    if p :| p in SPECIAL && p.Contains(x) {
      var i :| 0 <= i < |SPECIAL| && SPECIAL[i] == p;
      BlockAt(i, x);
      ListedIn(i, x);
    }
    if InList(x) {
      Placed(x);
      BlockAt(Place(x), x);
      assert SPECIAL[Place(x)] in SPECIAL;
    }
  }

  lemma {:induction false} ReservedOctets(a: int, b: int, c: int, d: int)
    requires IsByte(a) && IsByte(b) && IsByte(c) && IsByte(d)
    ensures InList(Quad(a, b, c, d)) <==> Reserved(a, b, c)
  {}

  // An address is public exactly when its octets are in no line of the table.
  lemma {:induction false} PublicOctets(a: int, b: int, c: int, d: int)
    requires IsByte(a) && IsByte(b) && IsByte(c) && IsByte(d)
    ensures IsPublic(Quad(a, b, c, d)) <==> !Reserved(a, b, c)
  {
    var x := Quad(a, b, c, d);
    QuadOctets(a, b, c, d);
    ReservedOctets(a, b, c, d);
    ListIntervals(x);
    if !LibraryPublic(x) {
      ListedClasses(x);
    }
  }
}
