/** IP addresses as text, of both versions, and whether two listening addresses overlap. */
module Hosts {
  import opened Wrappers
  import opened Prefixes
  import opened Text
  import opened Addresses

  // ----- Addresses of both versions

  // Eight groups of 16 bits. An IPv4 address is five zero groups, one of ones, and its halves.
  type Groups = seq<int>

  predicate InRange(g: Groups) {
    forall i :: 0 <= i < |g| ==> 0 <= g[i] < 0x1_0000
  }

  predicate IsIP(g: Groups) {
    |g| == 8 && InRange(g)
  }

  function HighLow(a: int): (h: Groups)
    requires 0 <= a < SPACE
    ensures |h| == 2 && InRange(h) && h[0] * 0x1_0000 + h[1] == a
  {
    [a / 0x1_0000, a % 0x1_0000]
  }

  function Mapped(a: int): (g: Groups)
    requires 0 <= a < SPACE
    ensures IsIP(g)
  {
    [0, 0, 0, 0, 0, 0xFFFF] + HighLow(a)
  }

  predicate IsV4(g: Groups) {
    IsIP(g) && g[0] == 0 && g[1] == 0 && g[2] == 0 && g[3] == 0 && g[4] == 0 && g[5] == 0xFFFF
  }

  function V4(g: Groups): (a: int)
    requires IsV4(g)
    ensures 0 <= a < SPACE && Mapped(a) == g
  {
    g[6] * 0x1_0000 + g[7]
  }

  lemma MappedV4(a: int)
    requires 0 <= a < SPACE
    ensures IsV4(Mapped(a)) && V4(Mapped(a)) == a
  {}

  // ----- Hexadecimal groups

  predicate IsHexDigit(c: char) {
    '0' <= c <= '9' || 'a' <= c <= 'f' || 'A' <= c <= 'F'
  }

  function HexDigitValue(c: char): (d: nat)
    requires IsHexDigit(c)
    ensures d < 16
  {
    if c <= '9' then c as int - '0' as int
    else if c <= 'F' then c as int - 'A' as int + 10
    else c as int - 'a' as int + 10
  }

  predicate AllHex(s: string) {
    forall i :: 0 <= i < |s| ==> IsHexDigit(s[i])
  }

  predicate IsGroup(s: string) {
    1 <= |s| <= 4 && AllHex(s)
  }

  function HexValue(s: string): nat
    requires AllHex(s)
  {
    if |s| == 0 then 0 else HexValue(s[..|s| - 1]) * 16 + HexDigitValue(s[|s| - 1])
  }

  function HexDigit(d: nat): (c: char)
    requires d < 16
    ensures IsHexDigit(c) && HexDigitValue(c) == d
  {
    if d < 10 then ('0' as int + d) as char else ('a' as int + d - 10) as char
  }

  function Hex(n: nat): (s: string)
    ensures |s| > 0 && AllHex(s)
  {
    if n < 16 then [HexDigit(n)] else Hex(n / 16) + [HexDigit(n % 16)]
  }

  // Printing a number in hexadecimal digits and reading it back gives the number.
  lemma {:induction false} HexRoundTrip(n: nat)
    ensures HexValue(Hex(n)) == n
    decreases n
  {
    var s := Hex(n);
    if n < 16 {
      assert s[..0] == "";
    } else {
      HexRoundTrip(n / 16);
      assert s[..|s| - 1] == Hex(n / 16);
    }
  }

  lemma HexGroup(n: nat)
    requires n < 0x1_0000
    ensures IsGroup(Hex(n)) && HexValue(Hex(n)) == n
  {
    HexRoundTrip(n);
    if n >= 16 {
      assert n / 16 < 4096;
      if n >= 256 {
        assert n / 16 / 16 < 256;
        assert |Hex(n / 16 / 16)| <= 2 by {
          assert n / 16 / 16 / 16 < 16;
        }
      }
    }
  }

  lemma HexSafe(s: string)
    requires IsGroup(s)
    ensures ':' !in s && '.' !in s && s != "" && HexValue(s) < 0x1_0000
  {
    HexBound(s);
  }

  lemma {:induction false} HexBound(s: string)
    requires AllHex(s) && |s| <= 4
    ensures HexValue(s) < if |s| == 0 then 1 else if |s| == 1 then 16 else if |s| == 2 then 256
                          else if |s| == 3 then 4096 else 0x1_0000
    decreases |s|
  {
    if |s| > 0 {
      HexBound(s[..|s| - 1]);
    }
  }

  // ----- Reading

  // One group, or the two groups of a dotted IPv4 address.
  function ReadPart(part: string, dotted: bool): (r: Option<Groups>)
    ensures r.Some? ==> InRange(r.value)
  {
    if IsGroup(part) then
      HexSafe(part);
      Some([HexValue(part)])
    else if dotted && '.' in part && ParseAddr(part).Some? then Some(HighLow(ParseAddr(part).value))
    else None
  }

  function Both(left: Option<Groups>, right: Option<Groups>): Option<Groups> {
    if left.Some? && right.Some? then Some(left.value + right.value) else None
  }

  // The groups of colon-separated parts; the last part may be a dotted IPv4 address.
  function ReadGroups(parts: seq<string>, dotted: bool): (r: Option<Groups>)
    decreases |parts|
  {
    if |parts| == 0 then Some([])
    else Both(ReadGroups(parts[..|parts| - 1], false), ReadPart(parts[|parts| - 1], dotted))
  }

  function FirstEmpty(parts: seq<string>): (k: nat)
    ensures k <= |parts| && (forall i :: 0 <= i < k ==> parts[i] != "") && (k < |parts| ==> parts[k] == "")
  {
    if |parts| == 0 || parts[0] == "" then 0 else 1 + FirstEmpty(parts[1..])
  }

  // A double colon at the beginning leaves an empty part too much, and so does one at the end.
  function WithoutFirst(parts: seq<string>): Option<seq<string>> {
    if |parts| == 0 || parts[0] != "" then Some(parts)
    else if |parts| > 1 && parts[1] == "" then Some(parts[1..])
    else None
  }

  function WithoutLast(parts: seq<string>): Option<seq<string>> {
    var n := |parts|;
    if n == 0 || parts[n - 1] != "" then Some(parts)
    else if n > 1 && parts[n - 2] == "" then Some(parts[..n - 1])
    else None
  }

  function Zeros(n: nat): (z: Groups)
    ensures |z| == n && forall i :: 0 <= i < n ==> z[i] == 0
  {
    if n == 0 then [] else Zeros(n - 1) + [0]
  }

  // Groups on both sides of a gap of at least one zero group.
  function WithGap(left: Option<Groups>, right: Option<Groups>): Option<Groups> {
    if left.Some? && right.Some? && |left.value| + |right.value| <= 7
    then Some(left.value + Zeros(8 - |left.value| - |right.value|) + right.value)
    else None
  }

  // The parts between the ends: eight groups, or fewer around one gap of zero groups.
  function ReadBody(parts: seq<string>): Option<Groups> {
    var gap := FirstEmpty(parts);
    if gap == |parts| then
      var all := ReadGroups(parts, true);
      if all.Some? && |all.value| == 8 then all else None
    else WithGap(ReadGroups(parts[..gap], false), ReadGroups(parts[gap + 1..], true))
  }

  function ReadParts(parts: seq<string>): Option<Groups> {
    var some := WithoutFirst(parts);
    if some.None? then None
    else
      var body := WithoutLast(some.value);
      if body.None? then None else ReadBody(body.value)
  }

  // An IPv4 address in dotted form or an IPv6 address, which may be abbreviated.
  function ParseIP(s: string): Option<Groups> {
    if ':' in s then ReadParts(Split(s, ':'))
    else
      var a := ParseAddr(s);
      if a.None? then None else Some(Mapped(a.value))
  }

  // ----- Printing

  function HexParts(g: Groups): (parts: seq<string>)
    requires forall i :: 0 <= i < |g| ==> 0 <= g[i]
    ensures |parts| == |g|
  {
    if |g| == 0 then [] else HexParts(g[..|g| - 1]) + [Hex(g[|g| - 1])]
  }

  // How many zero groups follow one another from index i on.
  function ZeroRun(g: Groups, i: nat): (n: nat)
    requires i <= |g|
    ensures i + n <= |g| && forall j :: i <= j < i + n ==> g[j] == 0
    decreases |g| - i
  {
    if i == |g| || g[i] != 0 then 0 else 1 + ZeroRun(g, i + 1)
  }

  // Where the first of the longest runs of zero groups from index i on begins.
  function LongestRun(g: Groups, i: nat): (k: nat)
    requires i <= |g|
    ensures i <= k <= |g| && forall j :: i <= j <= |g| ==> ZeroRun(g, j) <= ZeroRun(g, k)
    decreases |g| - i
  {
    if i == |g| then i
    else
      var rest := LongestRun(g, i + 1);
      if ZeroRun(g, i) >= ZeroRun(g, rest) then i else rest
  }

  // The parts around a gap, with an empty part more at an end where nothing stands.
  function Around(left: seq<string>, right: seq<string>): (parts: seq<string>) {
    (if |left| == 0 then [""] else []) + (left + [""] + right) + (if |right| == 0 then [""] else [])
  }

  // The parts of an IPv6 address: the longest run of two or more zero groups becomes a
  // double colon.
  function Shortened(g: Groups): (parts: seq<string>)
    requires IsIP(g)
  {
    var k := LongestRun(g, 0);
    var n := ZeroRun(g, k);
    if n < 2 then HexParts(g)
    else Around(HexParts(g[..k]), HexParts(g[k + n..]))
  }

  // An IPv6 address without abbreviation.
  function InFull(g: Groups): string
    requires IsIP(g)
  {
    Join(HexParts(g), ':')
  }

  function Spelled(g: Groups): string
    requires IsIP(g)
  {
    if IsV4(g) then FormatAddr(V4(g))
    else if |Shortened(g)| > 0 then Join(Shortened(g), ':') else ""
  }

  // ----- Printing and reading

  lemma ReadHex(n: int, dotted: bool)
    requires 0 <= n < 0x1_0000
    ensures ReadPart(Hex(n), dotted) == Some([n]) && IsGroup(Hex(n))
  {
    HexGroup(n);
  }

  lemma HexPartsAppend(g: Groups, n: int)
    requires InRange(g) && 0 <= n < 0x1_0000
    ensures InRange(g + [n]) && HexParts(g + [n]) == HexParts(g) + [Hex(n)]
  {
    assert (g + [n])[..|g|] == g;
  }

  lemma ReadAppend(parts: seq<string>, part: string, dotted: bool)
    ensures ReadGroups(parts + [part], dotted) == Both(ReadGroups(parts, false), ReadPart(part, dotted))
  {
    assert (parts + [part])[..|parts|] == parts;
  }

  lemma {:induction false} ReadHexParts(g: Groups, dotted: bool)
    requires InRange(g)
    ensures ReadGroups(HexParts(g), dotted) == Some(g)
    ensures forall i :: 0 <= i < |g| ==> IsGroup(HexParts(g)[i])
    decreases |g|
  {
    if |g| > 0 {
      var before, n := g[..|g| - 1], g[|g| - 1];
      assert g == before + [n];
      ReadHexParts(before, false);
      HexPartsAppend(before, n);
      ReadHex(n, dotted);
      ReadAppend(HexParts(before), Hex(n), dotted);
    }
  }

  predicate NoneEmpty(parts: seq<string>) {
    forall i :: 0 <= i < |parts| ==> parts[i] != ""
  }

  lemma NoEmpty(parts: seq<string>)
    requires NoneEmpty(parts)
    ensures FirstEmpty(parts) == |parts|
  {}

  lemma EmptyAt(left: seq<string>, right: seq<string>)
    requires NoneEmpty(left)
    ensures FirstEmpty(left + [""] + right) == |left|
  {
    var parts := left + [""] + right;
    assert parts[|left|] == "" && forall i :: 0 <= i < |left| ==> parts[i] == left[i];
  }

  lemma {:induction false} GapSlices(l: seq<string>, r: seq<string>, parts: seq<string>)
    requires parts == l + [""] + r
    ensures |l| < |parts| && parts[..|l|] == l && parts[|l| + 1..] == r
  {}

  // Two lists of parts that are read as groups, with a gap between them.
  lemma {:induction false} ReadGap(l: seq<string>, r: seq<string>, left: Groups, right: Groups)
    requires NoneEmpty(l) && |left| + |right| <= 7
    requires ReadGroups(l, false) == Some(left) && ReadGroups(r, true) == Some(right)
    ensures ReadBody(l + [""] + r) == Some(left + Zeros(8 - |left| - |right|) + right)
  {
    EmptyAt(l, r);
    GapSlices(l, r, l + [""] + r);
    ReadBodyAt(l + [""] + r, l, r);
  }

  lemma {:induction false} ReadBodyAt(parts: seq<string>, l: seq<string>, r: seq<string>)
    requires FirstEmpty(parts) == |l| < |parts| && parts[..|l|] == l && parts[|l| + 1..] == r
    ensures ReadBody(parts) == WithGap(ReadGroups(l, false), ReadGroups(r, true))
  {}

  // The empty parts at the ends come off again.
  lemma {:induction false} FirstOff(left: seq<string>, rest: seq<string>)
    requires |rest| > 0 && if |left| == 0 then rest[0] == "" else left[0] != ""
    ensures WithoutFirst((if |left| == 0 then [""] else []) + (left + rest)) == Some(left + rest)
  {
    if |left| == 0 {
      assert ([""] + (left + rest))[1..] == left + rest;
      assert (left + rest)[0] == rest[0];
    } else {
      assert [] + (left + rest) == left + rest;
      assert (left + rest)[0] == left[0];
    }
  }

  lemma {:induction false} LastOff(rest: seq<string>, right: seq<string>)
    requires |rest| > 0 && if |right| == 0 then rest[|rest| - 1] == "" else right[|right| - 1] != ""
    ensures WithoutLast(rest + right + (if |right| == 0 then [""] else [])) == Some(rest + right)
  {
    var body := rest + right;
    if |right| == 0 {
      assert (body + [""])[..|body|] == body;
      assert body == rest;
    } else {
      assert body + [] == body;
      assert body[|body| - 1] == right[|right| - 1];
    }
  }

  lemma {:induction false} Ends(left: seq<string>, right: seq<string>)
    requires NoneEmpty(left) && NoneEmpty(right)
    ensures ReadParts(Around(left, right)) == ReadBody(left + [""] + right)
  {
    var first, last := if |left| == 0 then [""] else [], if |right| == 0 then [""] else [];
    FirstOff(left, [""] + right + last);
    LastOff(left + [""], right);
    Regroup(first, left, right, last);
  }

  lemma {:induction false} Regroup(first: seq<string>, left: seq<string>, right: seq<string>, last: seq<string>)
    ensures first + (left + [""] + right) + last == first + (left + ([""] + right + last))
    ensures left + ([""] + right + last) == left + [""] + right + last
  {}

  predicate NoColons(parts: seq<string>) {
    forall i :: 0 <= i < |parts| ==> ':' !in parts[i]
  }

  lemma {:induction false} AroundSafe(left: seq<string>, right: seq<string>)
    requires NoColons(left) && NoColons(right)
    ensures NoColons(Around(left, right)) && |Around(left, right)| >= 2
  {}

  lemma {:induction false} GapRead(left: Groups, right: Groups)
    requires InRange(left) && InRange(right)
    requires |left| + |right| <= 7
    ensures ReadParts(Around(HexParts(left), HexParts(right)))
         == Some(left + Zeros(8 - |left| - |right|) + right)
    ensures NoColons(Around(HexParts(left), HexParts(right)))
  {
    var l, r := HexParts(left), HexParts(right);
    ReadHexParts(left, false);
    ReadHexParts(right, true);
    PartsSafe(l);
    PartsSafe(r);
    Ends(l, r);
    ReadGap(l, r, left, right);
    AroundSafe(l, r);
  }

  lemma {:induction false} PartsSafe(parts: seq<string>)
    requires forall i :: 0 <= i < |parts| ==> IsGroup(parts[i])
    ensures NoneEmpty(parts) && NoColons(parts)
  {
    forall i | 0 <= i < |parts|
      ensures parts[i] != "" && ':' !in parts[i]
    {
      HexSafe(parts[i]);
    }
  }

  lemma ZerosBetween(g: Groups, k: nat, n: nat)
    requires k + n <= |g| && forall j :: k <= j < k + n ==> g[j] == 0
    ensures g == g[..k] + Zeros(n) + g[k + n..]
  {}

  lemma {:induction false} AroundGap(g: Groups, k: nat, n: nat)
    requires IsIP(g) && 0 < n && k + n <= 8 && forall j :: k <= j < k + n ==> g[j] == 0
    ensures ReadParts(Around(HexParts(g[..k]), HexParts(g[k + n..]))) == Some(g)
    ensures NoColons(Around(HexParts(g[..k]), HexParts(g[k + n..])))
  {
    ZerosBetween(g, k, n);
    GapRead(g[..k], g[k + n..]);
  }

  // The parts of an address, abbreviated or not, are read back as the address.
  lemma {:induction false} ShortenedRead(g: Groups)
    requires IsIP(g)
    ensures ReadParts(Shortened(g)) == Some(g) && NoColons(Shortened(g)) && |Shortened(g)| >= 2
  {
    var k := LongestRun(g, 0);
    var n := ZeroRun(g, k);
    if n < 2 {
      FullRead(g);
    } else {
      AroundGap(g, k, n);
    }
  }

  // Eight parts are read as they are.
  lemma {:induction false} FullRead(g: Groups)
    requires IsIP(g)
    ensures ReadParts(HexParts(g)) == Some(g)
    ensures NoColons(HexParts(g))
  {
    ReadHexParts(g, true);
    PartsSafe(HexParts(g));
    NoEmpty(HexParts(g));
  }

  lemma JoinHas(parts: seq<string>, sep: char)
    requires |parts| >= 2
    ensures sep in Join(parts, sep)
  {
    assert Join(parts, sep) == parts[0] + [sep] + Join(parts[1..], sep);
    assert (parts[0] + [sep] + Join(parts[1..], sep))[|parts[0]|] == sep;
  }

  lemma PartsParse(parts: seq<string>, g: Groups)
    requires |parts| >= 2 && ReadParts(parts) == Some(g) && NoColons(parts)
    ensures ParseIP(Join(parts, ':')) == Some(g)
  {
    JoinHas(parts, ':');
    SplitJoin(parts, ':');
  }

  // Every address survives printing and parsing.
  lemma SpelledRoundTrip(g: Groups)
    requires IsIP(g)
    ensures ParseIP(Spelled(g)) == Some(g)
  {
    if IsV4(g) {
      AddrRoundTrip(V4(g));
      AddrShape(V4(g));
      DottedHasNoColon(Spelled(g));
    } else {
      ShortenedRead(g);
      PartsParse(Shortened(g), g);
    }
  }

  lemma DottedHasNoColon(s: string)
    requires IsDotted(s)
    ensures ':' !in s
  {}

  // Parsing gives addresses only.
  lemma {:induction false} ReadGroupsOk(parts: seq<string>, dotted: bool)
    ensures ReadGroups(parts, dotted).Some? ==> InRange(ReadGroups(parts, dotted).value)
    decreases |parts|
  {
    if |parts| > 0 {
      ReadGroupsOk(parts[..|parts| - 1], false);
      BothInRange(ReadGroups(parts[..|parts| - 1], false), ReadPart(parts[|parts| - 1], dotted));
    }
  }

  lemma BothInRange(left: Option<Groups>, right: Option<Groups>)
    requires (left.Some? ==> InRange(left.value)) && (right.Some? ==> InRange(right.value))
    ensures Both(left, right).Some? ==> InRange(Both(left, right).value)
  {}

  lemma GapInRange(left: Groups, right: Groups)
    requires InRange(left) && InRange(right) && |left| + |right| <= 7
    ensures IsIP(left + Zeros(8 - |left| - |right|) + right)
  {
    InRangeConcat(left, Zeros(8 - |left| - |right|));
    InRangeConcat(left + Zeros(8 - |left| - |right|), right);
  }

  lemma InRangeConcat(left: Groups, right: Groups)
    requires InRange(left) && InRange(right)
    ensures InRange(left + right)
  {}

  lemma {:induction false} ReadBodyOk(parts: seq<string>)
    ensures ReadBody(parts).Some? ==> IsIP(ReadBody(parts).value)
  {
    var gap := FirstEmpty(parts);
    if gap == |parts| {
      ReadGroupsOk(parts, true);
    } else {
      var left, right := ReadGroups(parts[..gap], false), ReadGroups(parts[gap + 1..], true);
      ReadGroupsOk(parts[..gap], false);
      ReadGroupsOk(parts[gap + 1..], true);
      if left.Some? && right.Some? && |left.value| + |right.value| <= 7 {
        GapInRange(left.value, right.value);
      }
    }
  }

  lemma ParseIPOk(s: string)
    ensures ParseIP(s).Some? ==> IsIP(ParseIP(s).value)
  {
    if ':' in s {
      var some := WithoutFirst(Split(s, ':'));
      if some.Some? && WithoutLast(some.value).Some? {
        ReadBodyOk(WithoutLast(some.value).value);
      }
    }
  }

  // ----- Overlapping listeners

  predicate IsWildcard(host: string) {
    host == "0.0.0" + ".0" || host == ":" + ":"
  }

  // The test of the store, on the texts.
  predicate HostsOverlap(a: string, b: string) {
    IsWildcard(a) || IsWildcard(b) || a == b
  }

  // All IPv4 addresses, or all addresses.
  predicate IsAny(g: Groups) {
    |g| == 8 && (forall i :: 0 <= i < 8 && i != 5 ==> g[i] == 0) && (g[5] == 0 || g[5] == 0xFFFF)
  }

  // The same test on the addresses that the texts stand for.
  predicate AddressesOverlap(g: Groups, h: Groups) {
    IsAny(g) || IsAny(h) || g == h
  }

  predicate ValidHost(host: string) {
    ParseIP(host).Some?
  }

  // The host is written as the address is printed.
  predicate IsCanonicalHost(host: string) {
    ValidHost(host) && IsIP(ParseIP(host).value) && host == Spelled(ParseIP(host).value)
  }

  lemma JoinFour(s: string, sep: char)
    ensures Join([s, s, s, s], sep) == s + [sep] + (s + [sep] + (s + [sep] + s))
  {
    var three, four := [s, s, s], [s, s, s, s];
    assert four[1..] == three;
    assert Join(four, sep) == s + [sep] + Join(three, sep);
    JoinedThree(s, s, sep);
  }

  lemma SpelledAnyV4(g: Groups)
    requires IsV4(g) && IsAny(g)
    ensures Spelled(g) == "0.0.0" + ".0"
  {
    var a := V4(g);
    var zero := Itoa(a);
    assert zero == "0";
    assert OctetTexts(a) == [zero, zero, zero, zero];
    JoinFour(zero, '.');
  }

  lemma SpelledAnyV6(g: Groups)
    requires IsIP(g) && IsAny(g) && !IsV4(g)
    ensures Spelled(g) == ":" + ":"
  {
    var k := LongestRun(g, 0);
    AllZeroRun(g, 0);
    assert g[..k] == [] && g[k + ZeroRun(g, k)..] == [];
    assert Shortened(g) == ["", "", ""];
    JoinedThree("", "", ':');
  }

  // The texts that the store takes for all addresses are the canonical ones.
  lemma AnyIsWildcard(host: string)
    requires IsCanonicalHost(host) && IsAny(ParseIP(host).value)
    ensures IsWildcard(host)
  {
    if IsV4(ParseIP(host).value) {
      SpelledAnyV4(ParseIP(host).value);
    } else {
      SpelledAnyV6(ParseIP(host).value);
    }
  }

  lemma WildcardFrom(host: string, g: Groups)
    requires IsIP(g) && IsAny(g) && Spelled(g) == host
    ensures IsCanonicalHost(host) && IsAny(ParseIP(host).value)
  {
    SpelledRoundTrip(g);
  }

  lemma WildcardIsAny(host: string)
    requires IsWildcard(host)
    ensures IsCanonicalHost(host) && IsAny(ParseIP(host).value)
  {
    if host == ":" + ":" {
      var v6 := Zeros(8);
      SpelledAnyV6(v6);
      WildcardFrom(host, v6);
    } else {
      var v4 := Mapped(0);
      SpelledAnyV4(v4);
      WildcardFrom(host, v4);
    }
  }

  // An overlap of the texts is one of the addresses.
  lemma OverlapSound(a: string, b: string)
    requires ValidHost(a) && ValidHost(b) && HostsOverlap(a, b)
    ensures AddressesOverlap(ParseIP(a).value, ParseIP(b).value)
  {
    if IsWildcard(a) {
      WildcardIsAny(a);
    } else if IsWildcard(b) {
      WildcardIsAny(b);
    }
  }

  lemma {:induction false} AllZeroRun(g: Groups, i: nat)
    requires i <= |g| && forall j :: 0 <= j < |g| ==> g[j] == 0
    ensures ZeroRun(g, i) == |g| - i
    decreases |g| - i
  {
    if i < |g| {
      AllZeroRun(g, i + 1);
    }
  }

  // The canonical text of an address is canonical.
  lemma SpelledCanonical(g: Groups)
    requires IsIP(g)
    ensures IsCanonicalHost(Spelled(g)) && ParseIP(Spelled(g)) == Some(g)
  {
    SpelledRoundTrip(g);
  }

  // Between canonical hosts, the test on the texts is the one on the addresses.
  lemma CanonicalExact(a: string, b: string)
    requires IsCanonicalHost(a) && IsCanonicalHost(b)
    ensures HostsOverlap(a, b) <==> AddressesOverlap(ParseIP(a).value, ParseIP(b).value)
  {
    if HostsOverlap(a, b) {
      OverlapSound(a, b);
    } else if IsAny(ParseIP(a).value) {
      AnyIsWildcard(a);
    } else if IsAny(ParseIP(b).value) {
      AnyIsWildcard(b);
    }
  }

  // A host is canonical exactly when the test on the texts agrees with the one on the
  // addresses for that host and every canonical host.
  lemma CanonicalDecides(host: string)
    requires ValidHost(host)
    ensures IsCanonicalHost(host) <==>
            forall other :: IsCanonicalHost(other) ==>
              (HostsOverlap(host, other) <==> AddressesOverlap(ParseIP(host).value, ParseIP(other).value))
  {
    if IsCanonicalHost(host) {
      forall other | IsCanonicalHost(other)
        ensures HostsOverlap(host, other) <==> AddressesOverlap(ParseIP(host).value, ParseIP(other).value)
      {
        CanonicalExact(host, other);
      }
    } else {
      var other := Slip(host);
    }
  }

  // For a host that is not canonical there is a canonical one that the texts do not match.
  lemma {:induction false} Slip(host: string) returns (other: string)
    requires ValidHost(host) && !IsCanonicalHost(host)
    ensures IsCanonicalHost(other) && !HostsOverlap(host, other)
    ensures AddressesOverlap(ParseIP(host).value, ParseIP(other).value)
  {
    ParseIPOk(host);
    var g := ParseIP(host).value;
    var h := if IsAny(g) then Mapped(1) else g;
    assert !IsAny(h);
    SpelledCanonical(h);
    other := Spelled(h);
    NoWildcard(host, other);
  }

  lemma NoWildcard(host: string, other: string)
    requires !IsCanonicalHost(host) && IsCanonicalHost(other) && !IsAny(ParseIP(other).value)
    ensures !HostsOverlap(host, other)
  {
    if IsWildcard(host) {
      WildcardIsAny(host);
    }
    if IsWildcard(other) {
      WildcardIsAny(other);
    }
  }

  // An IPv6 address written in full is read as the address that its abbreviation names.
  lemma FullParse(g: Groups)
    requires IsIP(g)
    ensures ParseIP(InFull(g)) == Some(g)
  {
    FullRead(g);
    PartsParse(HexParts(g), g);
  }

  // Written in full, an address with two zero groups side by side slips through the test.
  lemma {:induction false} FullSlips(g: Groups)
    requires IsIP(g) && !IsV4(g) && !IsAny(g) && ZeroRun(g, LongestRun(g, 0)) >= 2
    ensures var full := InFull(g);
            && ParseIP(full) == ParseIP(Spelled(g)) == Some(g) && !HostsOverlap(full, Spelled(g))
  {
    var full := InFull(g);
    FullParse(g);
    SpelledCanonical(g);
    FullDiffers(g);
    NoWildcard(full, Spelled(g));
  }

  lemma {:induction false} FullDiffers(g: Groups)
    requires IsIP(g) && !IsV4(g) && ZeroRun(g, LongestRun(g, 0)) >= 2
    ensures InFull(g) != Spelled(g)
  {
    FullRead(g);
    ShortenedRead(g);
    SplitJoin(HexParts(g), ':');
    SplitJoin(Shortened(g), ':');
    HasEmpty(g);
  }

  lemma AroundHasEmpty(left: seq<string>, right: seq<string>)
    ensures !NoneEmpty(Around(left, right))
  {
    var first := if |left| == 0 then [""] else [];
    var k := |first| + |left|;
    assert (left + [""] + right)[|left|] == "";
    assert Around(left, right)[k] == "";
  }

  lemma {:induction false} HasEmpty(g: Groups)
    requires IsIP(g) && ZeroRun(g, LongestRun(g, 0)) >= 2
    ensures Shortened(g) != HexParts(g)
  {
    var k := LongestRun(g, 0);
    var n := ZeroRun(g, k);
    ReadHexParts(g, true);
    PartsSafe(HexParts(g));
    AroundHasEmpty(HexParts(g[..k]), HexParts(g[k + n..]));
  }

  // ----- The loopback address

  lemma {:induction false} ZeroParts(n: nat)
    ensures HexParts(Zeros(n)) == seq(n, _ => "0")
  {
    if n > 0 {
      ZeroParts(n - 1);
      HexPartsAppend(Zeros(n - 1), 0);
      assert Hex(0) == "0";
    }
  }

  lemma {:induction false} ZerosThenOne(g: Groups, i: nat)
    requires g == Zeros(7) + [1] && i <= 7
    ensures ZeroRun(g, i) == 7 - i && LongestRun(g, i) == i
    decreases 7 - i
  {
    if i < 7 {
      ZerosThenOne(g, i + 1);
    } else {
      assert ZeroRun(g, 8) == 0 && LongestRun(g, 8) == 8;
    }
  }

  lemma {:induction false} JoinHead(part: string, rest: seq<string>, sep: char)
    requires |rest| > 0
    ensures Join([part] + rest, sep) == part + [sep] + Join(rest, sep)
  {
    assert ([part] + rest)[1..] == rest;
  }

  lemma {:induction false} JoinedThree(empty: string, part: string, sep: char)
    ensures Join([empty, empty, part], sep) == empty + [sep] + (empty + [sep] + part)
  {
    JoinHead(empty, [empty, part], sep);
    JoinHead(empty, [part], sep);
    assert [empty] + [empty, part] == [empty, empty, part] && [empty] + [part] == [empty, part];
  }

  lemma {:induction false} OnePart(g: Groups, one: string)
    requires g == [1] && one == Hex(1)
    ensures HexParts(g) == [one]
  {
    HexPartsAppend([], 1);
    assert [] + [1] == [1] && [] + [one] == [one];
  }

  lemma {:induction false} LoopbackParts(g: Groups, one: string, empty: string)
    requires g == Zeros(7) + [1] && IsIP(g) && one == Hex(1) && empty == ""
    ensures Shortened(g) == [empty, empty, one]
  {
    var k, left, right := LongestRun(g, 0), g[..0], g[7..];
    ZerosThenOne(g, 0);
    OnePart(right, one);
    assert HexParts(left) == [];
  }

  // The loopback address is abbreviated, and in full it is another text.
  lemma {:induction false} Loopback(g: Groups)
    requires g == Zeros(7) + [1]
    ensures IsIP(g) && !IsV4(g) && !IsAny(g) && ZeroRun(g, LongestRun(g, 0)) >= 2
    ensures Spelled(g) == [':'] + ([':'] + "1")
    ensures InFull(g) == Join(seq(7, _ => "0") + ["1"], ':')
  {
    var one, empty := Hex(1), "";
    assert one == "1";
    ZerosThenOne(g, 0);
    HexPartsAppend(Zeros(7), 1);
    ZeroParts(7);
    LoopbackParts(g, one, empty);
    JoinedThree(empty, one, ':');
    assert empty + [':'] == [':'];
  }
}
