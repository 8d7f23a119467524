/** Netmasks, and IPv4 prefixes as text. */
module Netmasks {
  import opened Wrappers
  import opened Prefixes
  import opened Text
  import opened Addresses
  import opened Hosts

  function NetMask(bits: int): (mask: int)
    requires 0 <= bits <= 32
    ensures 0 <= mask < SPACE
  {
    SizeMonotone(0, bits);
    BlockSizes();
    SPACE - BlockSize(bits)
  }

  // The number of leading ones of a mask, if no one follows a zero.
  function MaskBits(mask: int, bits: int): (r: Option<int>)
    requires 0 <= bits <= 33
    ensures r.Some? ==> bits <= r.value <= 32 && mask == NetMask(r.value)
    ensures r.None? ==> forall b :: bits <= b <= 32 ==> mask != NetMask(b)
    decreases 33 - bits
  {
    if bits == 33 then None
    else if mask == NetMask(bits) then Some(bits)
    else MaskBits(mask, bits + 1)
  }

  lemma MaskRoundTrip(bits: int)
    requires 0 <= bits <= 32
    ensures MaskBits(NetMask(bits), 0) == Some(bits)
  {
    var found := MaskBits(NetMask(bits), 0).value;
    if found < bits {
      SizeMonotone(found, bits);
    } else {
      SizeMonotone(bits, found);
    }
  }

  // ----- The bits of a mask

  function TwoTo(n: nat): (p: nat)
    ensures p > 0
  {
    if n == 0 then 1 else 2 * TwoTo(n - 1)
  }

  // The bit with index i of a 32-bit number, counted from the highest.
  function Bit(x: int, i: nat): int
    requires i < 32
  {
    x / TwoTo(31 - i) % 2
  }

  // No one follows a zero.
  ghost predicate Contiguous(mask: int) {
    forall i, j :: 0 <= i < j < 32 && Bit(mask, i) == 0 ==> Bit(mask, j) == 0
  }

  lemma {:induction false} TwoToSum(m: nat, n: nat)
    ensures TwoTo(m + n) == TwoTo(m) * TwoTo(n)
    decreases m
  {
    if m > 0 {
      TwoToSum(m - 1, n);
    }
  }

  lemma {:induction false} SizeIsPower(bits: int)
    requires 0 <= bits <= 32
    ensures BlockSize(bits) == TwoTo(32 - bits)
    decreases 32 - bits
  {
    if bits < 32 {
      SizeIsPower(bits + 1);
    }
  }

  // Quotient and remainder are determined by their bounds.
  lemma {:induction false} DivMod(x: int, d: int, q: int, r: int)
    requires d > 0 && 0 <= r < d && x == q * d + r
    ensures x / d == q && x % d == r
  {
    var k := x / d - q;
    assert k * d == r - x % d by {
      assert x == x / d * d + x % d;
      assert k * d == x / d * d - q * d;
    }
    MulSign(k, d);
  }

  lemma {:induction false} MulSign(k: int, d: int)
    requires d > 0
    ensures k > 0 ==> k * d >= d
    ensures k < 0 ==> k * d <= -d
  {}

  // What is left of an even multiple of t: odd quotient below a part of t, even below an
  // even multiple.
  lemma {:induction false} OddLeft(total: int, t: int, half: int, s: int)
    requires total == 2 * half * t && 0 < s <= t
    ensures (total - s) / t % 2 == 1
  {
    assert total - s == (2 * half - 1) * t + (t - s);
    DivMod(total - s, t, 2 * half - 1, t - s);
  }

  lemma {:induction false} EvenLeft(total: int, t: int, half: int, part: int)
    requires total == 2 * half * t && t > 0
    ensures (total - 2 * part * t) / t % 2 == 0
  {
    assert total - 2 * part * t == 2 * (half - part) * t;
    DivMod(total - 2 * part * t, t, 2 * (half - part), 0);
  }

  lemma {:induction false} OddBit(bits: int, i: nat)
    requires i < bits <= 32
    ensures (SPACE - TwoTo(32 - bits)) / TwoTo(31 - i) % 2 == 1
  {
    SpaceParts(i);
    SmallerPart(i, bits);
    OddLeft(SPACE, TwoTo(31 - i), TwoTo(i), TwoTo(32 - bits));
  }

  lemma {:induction false} EvenBit(bits: int, i: nat)
    requires 0 <= bits <= i < 32
    ensures (SPACE - TwoTo(32 - bits)) / TwoTo(31 - i) % 2 == 0
  {
    SpaceParts(i);
    LargerPart(i, bits);
    EvenLeft(SPACE, TwoTo(31 - i), TwoTo(i), TwoTo(i - bits));
  }

  // The mask of a length has a one at exactly the indices below the length.
  lemma {:induction false} MaskBit(bits: int, i: nat)
    requires 0 <= bits <= 32 && i < 32
    ensures Bit(NetMask(bits), i) == if i < bits then 1 else 0
  {
    SizeIsPower(bits);
    if i < bits {
      OddBit(bits, i);
    } else {
      EvenBit(bits, i);
    }
  }

  lemma {:induction false} SpaceParts(i: nat)
    requires i < 32
    ensures SPACE == 2 * TwoTo(i) * TwoTo(31 - i)
  {
    TwoToSum(i + 1, 31 - i);
    SizeIsPower(0);
    BlockSizes();
  }

  lemma {:induction false} SmallerPart(i: nat, bits: int)
    requires i < bits <= 32
    ensures TwoTo(32 - bits) <= TwoTo(31 - i)
  {
    TwoToSum(bits - 1 - i, 32 - bits);
    LessFactor(TwoTo(bits - 1 - i), TwoTo(32 - bits));
  }

  lemma {:induction false} LargerPart(i: nat, bits: int)
    requires 0 <= bits <= i < 32
    ensures TwoTo(32 - bits) == 2 * TwoTo(i - bits) * TwoTo(31 - i)
  {
    TwoToSum(i + 1 - bits, 31 - i);
  }

  lemma {:induction false} LessFactor(k: nat, s: nat)
    requires k > 0
    ensures s <= k * s
  {}

  // The last n + 1 bits are the first of them and the last n.
  lemma {:induction false} LowBits(x: int, n: nat)
    ensures x % TwoTo(n + 1) == x / TwoTo(n) % 2 * TwoTo(n) + x % TwoTo(n)
  {
    DoubleMod(x, TwoTo(n));
  }

  lemma {:induction false} DoubleMod(x: int, t: int)
    requires t > 0
    ensures x % (2 * t) == x / t % 2 * t + x % t
  {
    var k, r := x / t, x % t;
    var m, c := k / 2, k % 2;
    assert x == k * t + r && k == 2 * m + c;
    assert x == m * (2 * t) + (c * t + r) by {
      assert (2 * m + c) * t == m * (2 * t) + c * t;
    }
    DivMod(x, 2 * t, m, c * t + r);
  }

  lemma {:induction false} LowBit(x: int, n: nat)
    ensures x / TwoTo(n) % 2 == 0 ==> x % TwoTo(n + 1) == x % TwoTo(n)
    ensures x / TwoTo(n) % 2 == 1 ==> x % TwoTo(n + 1) == TwoTo(n) + x % TwoTo(n)
  {
    LowBits(x, n);
  }

  lemma {:induction false} ZerosFrom(mask: int, i: nat)
    requires i <= 32 && forall j: nat :: i <= j < 32 ==> Bit(mask, j) == 0
    ensures mask % TwoTo(32 - i) == 0
    decreases 32 - i
  {
    if i < 32 {
      ZerosFrom(mask, i + 1);
      LowBit(mask, 31 - i);
      assert Bit(mask, i) == 0;
    }
  }

  lemma {:induction false} OnesUpTo(mask: int, i: nat)
    requires 0 <= mask < SPACE && i <= 32 && forall j: nat :: j < i ==> Bit(mask, j) == 1
    ensures mask - mask % TwoTo(32 - i) == SPACE - TwoTo(32 - i)
  {
    if i == 0 {
      WholePower(32);
    } else {
      OnesUpTo(mask, i - 1);
      LowBit(mask, 32 - i);
      assert Bit(mask, i - 1) == 1;
    }
  }

  lemma {:induction false} WholePower(n: nat)
    requires n == 32
    ensures TwoTo(n) == SPACE
  {
    SizeIsPower(0);
    BlockSizes();
  }

  lemma {:induction false} BitIs(x: int, i: nat)
    requires i < 32
    ensures Bit(x, i) == 0 || Bit(x, i) == 1
  {}

  // The index of the first zero, or 32.
  lemma {:induction false} FirstZero(mask: int, n: nat) returns (b: nat)
    requires n <= 32
    ensures b <= n && (forall j: nat :: j < b ==> Bit(mask, j) == 1) && (b < n ==> Bit(mask, b) == 0)
  {
    if n == 0 {
      b := 0;
    } else {
      b := FirstZero(mask, n - 1);
      if b == n - 1 {
        BitIs(mask, b);
        if Bit(mask, b) == 1 {
          b := n;
        }
      }
    }
  }

  // A number is the mask of some length exactly when no one follows a zero.
  lemma {:induction false} MaskIsContiguous(mask: int)
    requires 0 <= mask < SPACE
    ensures Contiguous(mask) <==> exists bits :: 0 <= bits <= 32 && mask == NetMask(bits)
  {
    if bits :| 0 <= bits <= 32 && mask == NetMask(bits) {
      forall i: nat | i < 32
        ensures Bit(mask, i) == if i < bits then 1 else 0
      {
        MaskBit(bits, i);
      }
    }
    if Contiguous(mask) {
      var b := FirstZero(mask, 32);
      OnesUpTo(mask, b);
      ZerosFrom(mask, b);
      SizeIsPower(b);
      assert mask == NetMask(b);
    }
  }

  // ----- Prefixes

  function ParseBits(s: string): (r: Option<int>)
    ensures r.Some? ==> 0 <= r.value <= 32
  {
    if IsCanonical(s) && Value(s) <= 32 then Some(Value(s)) else None
  }

  // An address with a prefix length, as the address library reads it.
  function ParsePrefix(value: string): (r: Option<Prefix>)
    ensures r.Some? ==> r.value.InRange()
  {
    var parts := Split(value, '/');
    if |parts| != 2 then None
    else
      var address := ParseAddr(parts[0]);
      var bits := ParseBits(parts[1]);
      if address.None? || bits.None? then None else Some(Prefix(address.value, bits.value))
  }

  lemma {:induction false} BitsExact(s: string, bits: int)
    ensures ParseBits(s) == Some(bits) <==> 0 <= bits <= 32 && s == Itoa(bits)
  {
    if ParseBits(s) == Some(bits) {
      ItoaOfValue(s);
    } else if 0 <= bits <= 32 {
      ItoaValue(bits);
    }
  }

  // A text is read as a prefix exactly if it is an address and a length, each in its one form.
  lemma {:induction false} PrefixExact(text: string, p: Prefix)
    ensures ParsePrefix(text) == Some(p) <==>
            0 <= p.base < SPACE && 0 <= p.bits <= 32 && text == FormatAddr(p.base) + ['/'] + Itoa(p.bits)
  {
    if ParsePrefix(text) == Some(p) {
      var parts := Split(text, '/');
      AddrExact(parts[0], p.base);
      BitsExact(parts[1], p.bits);
      JoinSplit(text, '/');
      assert parts[1..] == [parts[1]];
    } else if 0 <= p.base < SPACE && 0 <= p.bits <= 32 && text == FormatAddr(p.base) + ['/'] + Itoa(p.bits) {
      AddrShape(p.base);
      NoSlash(FormatAddr(p.base));
      ItoaValue(p.bits);
      NumberLacks(Itoa(p.bits), '/');
      SplitNone(Itoa(p.bits), '/');
      SplitFirst(FormatAddr(p.base), '/', Itoa(p.bits));
      AddrExact(FormatAddr(p.base), p.base);
      BitsExact(Itoa(p.bits), p.bits);
    }
  }

  // A netmask: an IPv4 address, which may be written as an IPv6 address that stands for it.
  function ParseMask(s: string): (r: Option<int>)
    ensures r.Some? ==> 0 <= r.value < SPACE
  {
    var g := ParseIP(s);
    if g.Some? && IsV4(g.value) then Some(V4(g.value)) else None
  }

  // An address with a prefix length or with a dotted netmask. Anything that is not an IPv4
  // prefix is refused here; the panel refuses IPv6 prefixes one step later.
  function ParseIPv4Prefix(value: string): (r: Option<Prefix>)
    ensures r.Some? ==> r.value.InRange()
  {
    var parts := Split(value, '/');
    if |parts| != 2 || '.' !in parts[1] then ParsePrefix(value)
    else
      var address := ParseAddr(parts[0]);
      var mask := ParseMask(parts[1]);
      if address.None? || mask.None? then None
      else
        var bits := MaskBits(mask.value, 0);
        if bits.None? then None else Some(Prefix(address.value, bits.value))
  }

  lemma DottedMask(s: string)
    requires IsDotted(s)
    ensures ParseMask(s) == ParseAddr(s)
  {
    NoSlash(s);
    if ParseAddr(s).Some? {
      MappedV4(ParseAddr(s).value);
    }
  }

  // A netmask behind a double colon and a group of ones is read as the netmask itself.
  lemma {:induction false} MappedMask(text: string, ones: string, mask: string, a: int)
    requires IsGroup(ones) && HexValue(ones) == 0xFFFF && 0 <= a < SPACE && mask == FormatAddr(a)
    requires text == [':'] + ([':'] + (ones + [':'] + mask))
    ensures ParseMask(text) == ParseMask(mask) == Some(a)
  {
    AddrShape(a);
    AddrRoundTrip(a);
    DottedMask(mask);
    MappedSplit(text, ones, mask);
    MappedParts(Split(text, ':'), ones, mask, a);
    assert text[0] == ':';
    MappedV4(a);
  }

  lemma {:induction false} MappedSplit(text: string, ones: string, mask: string)
    requires IsGroup(ones) && IsDotted(mask) && text == [':'] + ([':'] + (ones + [':'] + mask))
    ensures Split(text, ':') == ["", "", ones, mask]
  {
    var empty: string := [];
    NoSlash(mask);
    HexSafe(ones);
    SplitNone(mask, ':');
    SplitThree(empty, empty, ones, mask, ':');
    assert text == empty + [':'] + (empty + [':'] + (ones + [':'] + mask));
  }

  lemma {:induction false} MappedParts(parts: seq<string>, ones: string, mask: string, a: int)
    requires parts == ["", "", ones, mask] && IsGroup(ones) && HexValue(ones) == 0xFFFF
    requires 0 <= a < SPACE && IsDotted(mask) && '.' in mask && ParseAddr(mask) == Some(a)
    ensures ReadParts(parts) == Some(Mapped(a))
  {
    var body := ["", ones, mask];
    assert parts[1..] == body;
    assert WithoutLast(body) == Some(body);
    assert body[..0] == [] && body[1..] == [ones, mask];
    TwoParts(ones, mask, a);
    ReadBodyAt(body, [], [ones, mask]);
    assert [] + Zeros(5) + ([0xFFFF] + HighLow(a)) == Mapped(a);
  }

  lemma {:induction false} TwoParts(ones: string, mask: string, a: int)
    requires IsGroup(ones) && HexValue(ones) == 0xFFFF
    requires 0 <= a < SPACE && '.' in mask && ParseAddr(mask) == Some(a)
    ensures ReadGroups([ones, mask], true) == Some([0xFFFF] + HighLow(a))
  {
    assert !IsGroup(mask) by {
      if IsGroup(mask) {
        HexSafe(mask);
      }
    }
    ReadAppend([], ones, false);
    ReadAppend([ones], mask, true);
    assert [] + [0xFFFF] == [0xFFFF];
    assert [] + [ones] == [ones] && [ones] + [mask] == [ones, mask];
  }

  // A netmask is accepted exactly when no one follows a zero in it, and the length is the
  // number of its leading ones.
  lemma {:induction false} NetmaskAccepted(a: int, mask: int)
    requires 0 <= a < SPACE && 0 <= mask < SPACE
    ensures var p := ParseIPv4Prefix(FormatAddr(a) + ['/'] + FormatAddr(mask));
            && (p.Some? <==> Contiguous(mask))
            && (p.Some? ==> p.value.base == a && 0 <= p.value.bits <= 32
                            && forall i :: 0 <= i < 32 ==> (Bit(mask, i) == 1 <==> i < p.value.bits))
  {
    PrefixText(FormatAddr(a), FormatAddr(mask), a, mask);
    MaskIsContiguous(mask);
    var bits := MaskBits(mask, 0);
    if bits.Some? {
      forall i: nat | i < 32
        ensures Bit(mask, i) == 1 <==> i < bits.value
      {
        MaskBit(bits.value, i);
      }
    }
  }

  lemma PrefixText(address: string, mask: string, a: int, m: int)
    requires 0 <= a < SPACE && 0 <= m < SPACE
    requires address == FormatAddr(a) && mask == FormatAddr(m)
    ensures ParseIPv4Prefix(address + ['/'] + mask)
         == if MaskBits(m, 0).Some? then Some(Prefix(a, MaskBits(m, 0).value)) else None
  {
    AddrRoundTrip(a);
    AddrRoundTrip(m);
    AddrShape(a);
    AddrShape(m);
    SplitSlash(address, mask);
    DottedMask(mask);
  }

  lemma SplitSlash(address: string, mask: string)
    requires IsDotted(address) && IsDotted(mask)
    ensures Split(address + ['/'] + mask, '/') == [address, mask]
  {
    NoSlash(address);
    NoSlash(mask);
    SplitNone(mask, '/');
    SplitFirst(address, '/', mask);
  }

  lemma NoSlash(s: string)
    requires IsDotted(s)
    ensures '/' !in s && '=' !in s && ':' !in s
  {}
}
