/** Dotted IPv4 addresses as text. */
module Addresses {
  import opened Wrappers
  import opened Prefixes
  import opened Text

  // ----- Addresses

  predicate IsOctet(s: string) {
    IsCanonical(s) && Value(s) <= 255
  }

  // The address with the given octets, if there are four and each is in range.
  function AddressOf(parts: seq<string>): (r: Option<int>)
    ensures r.Some? ==> 0 <= r.value < SPACE
  {
    if |parts| == 4 && IsOctet(parts[0]) && IsOctet(parts[1]) && IsOctet(parts[2]) && IsOctet(parts[3]) then
      Some(((Value(parts[0]) * 256 + Value(parts[1])) * 256 + Value(parts[2])) * 256 + Value(parts[3]))
    else None
  }

  function ParseAddr(s: string): (r: Option<int>)
    ensures r.Some? ==> 0 <= r.value < SPACE
  {
    AddressOf(Split(s, '.'))
  }

  function OctetTexts(a: int): (parts: seq<string>)
    requires 0 <= a < SPACE
    ensures |parts| == 4
  {
    [Itoa(a / 0x100_0000), Itoa(a / 0x1_0000 % 256), Itoa(a / 256 % 256), Itoa(a % 256)]
  }

  function FormatAddr(a: int): string
    requires 0 <= a < SPACE
  {
    Join(OctetTexts(a), '.')
  }

  lemma OctetText(n: nat)
    requires n <= 255
    ensures IsOctet(Itoa(n)) && Value(Itoa(n)) == n && '.' !in Itoa(n) && |Itoa(n)| <= 3
  {
    ItoaValue(n);
    ItoaLength(n);
    NumberLacks(Itoa(n), '.');
  }

  lemma OctetTextsOk(a: int)
    requires 0 <= a < SPACE
    ensures forall s :: s in OctetTexts(a) ==> IsOctet(s) && '.' !in s && |s| <= 3
  {
    OctetText(a / 0x100_0000);
    OctetText(a / 0x1_0000 % 256);
    OctetText(a / 256 % 256);
    OctetText(a % 256);
  }

  lemma OctetSum(a: int)
    requires 0 <= a < SPACE
    ensures ((a / 0x100_0000 * 256 + a / 0x1_0000 % 256) * 256 + a / 256 % 256) * 256 + a % 256 == a
  {}

  lemma {:induction false} OctetValues(a: int)
    requires 0 <= a < SPACE
    ensures AddressOf(OctetTexts(a)) == Some(a)
  {
    OctetText(a / 0x100_0000);
    OctetText(a / 0x1_0000 % 256);
    OctetText(a / 256 % 256);
    OctetText(a % 256);
    OctetSum(a);
  }

  // Every address survives printing and parsing.
  lemma AddrRoundTrip(a: int)
    requires 0 <= a < SPACE
    ensures ParseAddr(FormatAddr(a)) == Some(a)
  {
    OctetTextsOk(a);
    SplitJoin(OctetTexts(a), '.');
    OctetValues(a);
  }

  lemma {:induction false} OctetExact(s: string)
    requires IsOctet(s)
    ensures 0 <= Value(s) <= 255 && Itoa(Value(s)) == s
  {
    ItoaOfValue(s);
  }

  lemma {:induction false} OctetsOf(a: int, b: int, c: int, d: int)
    requires 0 <= a <= 255 && 0 <= b <= 255 && 0 <= c <= 255 && 0 <= d <= 255
    ensures var v := ((a * 256 + b) * 256 + c) * 256 + d;
            && 0 <= v < SPACE
            && v / 0x100_0000 == a && v / 0x1_0000 % 256 == b && v / 256 % 256 == c && v % 256 == d
  {}

  // A text is read as an address only if it is the printed form of that address.
  lemma {:induction false} AddrExact(s: string, a: int)
    ensures ParseAddr(s) == Some(a) <==> 0 <= a < SPACE && s == FormatAddr(a)
  {
    if ParseAddr(s) == Some(a) {
      var parts := Split(s, '.');
      OctetExact(parts[0]);
      OctetExact(parts[1]);
      OctetExact(parts[2]);
      OctetExact(parts[3]);
      OctetsOf(Value(parts[0]), Value(parts[1]), Value(parts[2]), Value(parts[3]));
      assert OctetTexts(a) == parts;
      JoinSplit(s, '.');
    } else if 0 <= a < SPACE {
      AddrRoundTrip(a);
    }
  }

  // Digits with dots between them.
  predicate IsDotted(s: string) {
    |s| > 0 && IsDigit(s[0]) && IsDigit(s[|s| - 1])
    && forall i :: 0 <= i < |s| ==> IsDigit(s[i]) || s[i] == '.'
  }

  lemma {:induction false} JoinDotted(parts: seq<string>)
    requires |parts| >= 1
    requires forall i :: 0 <= i < |parts| ==> IsNumber(parts[i]) && |parts[i]| <= 3
    ensures IsDotted(Join(parts, '.')) && |Join(parts, '.')| < 4 * |parts|
    ensures |parts| > 1 ==> '.' in Join(parts, '.')
    decreases |parts|
  {
    if |parts| > 1 {
      JoinDotted(parts[1..]);
      assert Join(parts, '.')[|parts[0]|] == '.';
    }
  }

  lemma AddrShape(a: int)
    requires 0 <= a < SPACE
    ensures IsDotted(FormatAddr(a)) && '.' in FormatAddr(a) && |FormatAddr(a)| < 16
  {
    OctetTextsOk(a);
    JoinDotted(OctetTexts(a));
  }
}
