/** An APNIC input whose route list is accepted but cannot be read back from its own file. */
module ApnicExample {
  import opened Wrappers
  import opened Prefixes
  import opened Canonical
  import opened Subtract
  import opened Normalize
  import opened Text
  import opened Addresses
  import opened SpecialUse
  import opened RouteText
  import opened ChinaRoutes
  import opened RouteGuarantees

  // The block 30.0.0.0/8, given as 256 records of one /16 each.
  const FIRST: int := 0x1E00_0000
  const STEP: int := 0x1_0000
  const RECORDS: nat := 256

  function Block(k: nat): Prefix {
    Prefix(FIRST + k * STEP, 16)
  }

  lemma BlockAligned(k: nat)
    requires k < RECORDS
    ensures Block(k).Aligned() && Block(k).End() == FIRST + (k + 1) * STEP
  {
    BlockSizes();
  }

  function RecordLine(addr: string): string {
    SevenFields("apnic", "CN", "ipv4", addr, "65536", "20100101", "allocated")
  }

  // The records for the addresses from the k-th on.
  function Records(addrs: seq<string>, k: nat): string
    requires k <= |addrs|
    decreases |addrs| - k
  {
    if k == |addrs| then "" else RecordLine(addrs[k]) + ['\n'] + Records(addrs, k + 1)
  }

  // The texts of 30.0.0.0, 30.1.0.0 and so on.
  predicate IsAddrs(addrs: seq<string>) {
    |addrs| == RECORDS && forall k :: 0 <= k < RECORDS ==> addrs[k] == FormatAddr(FIRST + k * STEP)
  }

  function BlocksFrom(k: nat): seq<Prefix>
    requires k <= RECORDS
    decreases RECORDS - k
  {
    if k == RECORDS then [] else [Block(k)] + BlocksFrom(k + 1)
  }

  // ----- Parsing the records

  lemma DottedLacks(s: string, c: char)
    requires IsDotted(s) && !IsDigit(c) && c != '.'
    ensures c !in s
  {}

  function SevenFields(a: string, b: string, c: string, d: string, e: string, f: string, g: string): string {
    a + ['|'] + (b + ['|'] + (c + ['|'] + (d + ['|'] + (e + ['|'] + (f + ['|'] + g)))))
  }

  lemma SplitSeven(a: string, b: string, c: string, d: string, e: string, f: string, g: string)
    requires '|' !in a && '|' !in b && '|' !in c && '|' !in d && '|' !in e && '|' !in f && '|' !in g
    ensures Split(SevenFields(a, b, c, d, e, f, g), '|') == [a, b, c, d, e, f, g]
  {
    SplitNone(g, '|');
    SplitThree(d, e, f, g, '|');
    SplitThree(a, b, c, d + ['|'] + (e + ['|'] + (f + ['|'] + g)), '|');
  }

  lemma CountText()
    ensures IsNumber("65536") && Value("65536") == STEP
  {
    assert "65536"[..4] == "6553" && "6553"[..3] == "655" && "655"[..2] == "65" && "65"[..1] == "6" && "6"[..0] == "";
    assert Value("65") == 65;
    assert Value("655") == 655;
    assert Value("6553") == 6553;
  }

  // A record for one aligned block yields that block.
  lemma BlockIsCanon(p: Prefix)
    requires p.Aligned()
    ensures Canon(Interval(p.base, p.End())) == [p]
  {
    var space := Interval(p.base, p.End());
    assert forall a :: a in space <==> p.Has(a);
    IntervalsNest(p.base, p.End());
    assert Covered([p]) == space by {
      assert p in [p];
    }
    if p.bits > 0 {
      ParentAligned(p);
      var q := p.Parent();
      assert q.Has(if q.base < p.base then q.base else p.End());
    }
    assert Maximal(p, space);
    MaximalCoverIsCanon([p], space);
  }

  // What the fields of a record say of its range is all that matters.
  lemma FieldsRange(fields: seq<string>, base: int, count: nat, blocks: seq<Prefix>)
    requires |fields| == 7 && IsChineseIPv4(fields) && 0 <= base && 0 < count && base + count <= SPACE
    requires ParseAddr(fields[3]) == Some(base) && IsNumber(fields[4]) && Value(fields[4]) == count
    requires Canon(Interval(base, base + count)) == blocks
    ensures ApnicFields(fields) == Entry(blocks)
  {}

  lemma BlockRange(k: nat)
    requires k < RECORDS
    ensures Canon(Interval(FIRST + k * STEP, FIRST + k * STEP + STEP)) == [Block(k)]
  {
    BlockAligned(k);
    BlockIsCanon(Block(k));
  }

  lemma FieldsParse(fields: seq<string>, k: nat)
    requires k < RECORDS && |fields| == 7 && IsChineseIPv4(fields)
    requires ParseAddr(fields[3]) == Some(FIRST + k * STEP)
    requires IsNumber(fields[4]) && Value(fields[4]) == STEP
    ensures ApnicFields(fields) == Entry([Block(k)])
  {
    BlockRange(k);
    FieldsRange(fields, FIRST + k * STEP, STEP, [Block(k)]);
  }

  lemma LineShape(line: string)
    requires |line| > 0 && line[0] == 'a' && line[|line| - 1] == 'd'
    ensures TrimSpace(line) == line && line != "" && !HasPrefix(line, "#") && DropReturn(line) == line
  {
    TrimNothing(line, IsSpace);
    assert "#"[0] == '#';
  }

  lemma FieldsShape(a: string, b: string, c: string, d: string, e: string, f: string, g: string)
    requires |a| > 0 && |g| > 0
    ensures var line := SevenFields(a, b, c, d, e, f, g);
            && |line| == |a| + |b| + |c| + |d| + |e| + |f| + |g| + 6 && line[0] == a[0]
            && line[|line| - 1] == g[|g| - 1]
    ensures '\n' !in a && '\n' !in b && '\n' !in c && '\n' !in d && '\n' !in e && '\n' !in f && '\n' !in g ==>
              '\n' !in SevenFields(a, b, c, d, e, f, g)
  {
    var two := b + ['|'] + (c + ['|'] + (d + ['|'] + (e + ['|'] + (f + ['|'] + g))));
    assert SevenFields(a, b, c, d, e, f, g) == a + ['|'] + two;
  }

  lemma RecordShape(addr: string)
    requires '\n' !in addr
    ensures var line := RecordLine(addr);
            |line| == |addr| + 39 && line[0] == 'a' && line[|line| - 1] == 'd' && '\n' !in line
  {
    FieldsShape("apnic", "CN", "ipv4", addr, "65536", "20100101", "allocated");
  }

  lemma RecordParses(addr: string, k: nat)
    requires k < RECORDS && ParseAddr(addr) == Some(FIRST + k * STEP) && IsDotted(addr) && |addr| < 16
    ensures ApnicLine(RecordLine(addr)) == Entry([Block(k)])
    ensures '\n' !in RecordLine(addr) && DropReturn(RecordLine(addr)) == RecordLine(addr)
    ensures ByteLength(RecordLine(addr)) < RouteText.MAX_TOKEN
  {
    DottedLacks(addr, '|');
    DottedLacks(addr, '\n');
    RecordShape(addr);
    LineShape(RecordLine(addr));
    ByteLengthAtMost(RecordLine(addr));
    SplitSeven("apnic", "CN", "ipv4", addr, "65536", "20100101", "allocated");
    CountText();
    FieldsParse(["apnic", "CN", "ipv4", addr, "65536", "20100101", "allocated"], k);
  }

  lemma AddrsParse(addrs: seq<string>, k: nat)
    requires IsAddrs(addrs) && k < RECORDS
    ensures ParseAddr(addrs[k]) == Some(FIRST + k * STEP) && IsDotted(addrs[k]) && |addrs[k]| < 16
  {
    AddrShape(FIRST + k * STEP);
    AddrRoundTrip(FIRST + k * STEP);
  }

  lemma FirstEntry(line: string, text: string, blocks: seq<Prefix>, routes: seq<Prefix>)
    requires ApnicLine(line) == Entry(blocks) && '\n' !in line && DropReturn(line) == line
    requires ByteLength(line) < RouteText.MAX_TOKEN && Entries(Apnic, text) == Ok(routes)
    ensures Entries(Apnic, line + ['\n'] + text) == Ok(blocks + routes)
  {
    assert line + ['\n'] + text != "";
    LineSplit(line, text);
  }

  lemma {:induction false} RecordsParse(addrs: seq<string>, k: nat)
    requires IsAddrs(addrs) && k <= RECORDS
    ensures Entries(Apnic, Records(addrs, k)) == Ok(BlocksFrom(k))
    decreases RECORDS - k
  {
    if k < RECORDS {
      RecordsParse(addrs, k + 1);
      AddrsParse(addrs, k);
      RecordParses(addrs[k], k);
      FirstEntry(RecordLine(addrs[k]), Records(addrs, k + 1), [Block(k)], BlocksFrom(k + 1));
    }
  }

  // ----- What becomes of the blocks

  lemma {:induction false} BlocksFacts(k: nat)
    requires k <= RECORDS
    ensures AllAligned(BlocksFrom(k)) && Ascending(BlocksFrom(k)) && |BlocksFrom(k)| == RECORDS - k
    ensures forall p :: p in BlocksFrom(k) ==> p.bits == 16 && FIRST + k * STEP <= p.base < FIRST + RECORDS * STEP
    ensures Covered(BlocksFrom(k)) == Interval(FIRST + k * STEP, FIRST + RECORDS * STEP)
    decreases RECORDS - k
  {
    if k < RECORDS {
      BlocksFacts(k + 1);
      BlockAligned(k);
      var rest := BlocksFrom(k + 1);
      CoverBlock(Block(k));
      CoveredConcat([Block(k)], rest);
      Adjacent(FIRST + k * STEP, FIRST + (k + 1) * STEP, FIRST + RECORDS * STEP);
      AscendingConcat([Block(k)], rest, FIRST + (k + 1) * STEP);
    }
  }

  lemma CoverBlock(p: Prefix)
    ensures Covered([p]) == Interval(p.base, p.End())
  {
    assert p in [p];
    assert forall a :: a in Interval(p.base, p.End()) <==> p.Has(a);
  }

  lemma Adjacent(lo: int, mid: int, hi: int)
    requires lo <= mid <= hi
    ensures Interval(lo, mid) + Interval(mid, hi) == Interval(lo, hi)
  {
    assert forall a :: a in Interval(lo, hi) <==> lo <= a < hi;
    assert forall a :: a in Interval(lo, mid) <==> lo <= a < mid;
    assert forall a :: a in Interval(mid, hi) <==> mid <= a < hi;
  }

  // No special-use block comes near 30.0.0.0/8.
  lemma SpecialApart()
    ensures forall p :: p in SPECIAL ==> p.Aligned() && (p.End() <= FIRST || FIRST + RECORDS * STEP <= p.base)
  {
    SpecialAligned();
    BlockSizes();
  }

  lemma PublicExample(a: int)
    requires FIRST <= a < FIRST + RECORDS * STEP
    ensures IsPublic(a) && a in Free(SPECIAL)
  {
    SpecialApart();
    forall p | p in SPECIAL
      ensures !p.Contains(a)
    {
      ContainsIsInterval(p, a);
    }
    PublicIsFree(a);
  }

  lemma WholeBlock() returns (p: Prefix)
    ensures p.bits == 8 && p.Aligned() && p.base == FIRST && p.End() == FIRST + RECORDS * STEP && p.Size() == 0x100_0000
  {
    BlockSizes();
    p := Prefix(FIRST, 8);
  }

  lemma BlocksClean(k: nat)
    requires k <= RECORDS
    ensures AllAligned(BlocksFrom(k)) && Cleaned(BlocksFrom(k)) == BlocksFrom(k)
    ensures forall p :: p in BlocksFrom(k) ==> Acceptable(p)
  {
    BlocksFacts(k);
    forall p | p in BlocksFrom(k)
      ensures Acceptable(p) && Inside(p, Free(SPECIAL))
    {
      PublicExample(p.base);
      forall a | p.Has(a)
        ensures a in Free(SPECIAL)
      {
        assert a in Covered(BlocksFrom(k));
        PublicExample(a);
      }
    }
    CleanedIdentity(BlocksFrom(k));
  }

  // Blocks that together make up one block are merged into it.
  lemma RoutesMerged(entries: seq<Prefix>, p: Prefix)
    requires AllAligned(entries) && Ascending(entries) && Cleaned(entries) == entries && |entries| >= MIN_ENTRIES
    requires (forall q :: q in entries ==> Acceptable(q)) && p.Aligned()
    requires Covered(entries) == Interval(p.base, p.End()) && MIN_ADDRESSES <= p.Size() <= MAX_ADDRESSES
    ensures Routes(Apnic, entries) == Ok([p])
  {
    IntervalSize(p.base, p.End());
    BlockIsCanon(p);
  }

  // The 256 blocks are clean and make up one block.
  lemma ExampleEntries(k: nat) returns (entries: seq<Prefix>)
    requires k == 0
    ensures entries == BlocksFrom(k) && AllAligned(entries) && Ascending(entries) && |entries| == RECORDS
    ensures Cleaned(entries) == entries && forall p :: p in entries ==> Acceptable(p)
    ensures Covered(entries) == Interval(FIRST, FIRST + RECORDS * STEP)
  {
    BlocksFacts(k);
    BlocksClean(k);
    entries := BlocksFrom(k);
  }

  lemma ExampleRoutes(k: nat) returns (p: Prefix)
    requires k == 0
    ensures AllAligned(BlocksFrom(k)) && Routes(Apnic, BlocksFrom(k)) == Ok([p])
  {
    var entries := ExampleEntries(k);
    p := WholeBlock();
    RoutesMerged(entries, p);
  }

  lemma ListOfEntries(input: string, entries: seq<Prefix>, p: Prefix)
    requires AllAligned(entries) && Entries(Apnic, input) == Ok(entries) && Routes(Apnic, entries) == Ok([p])
    ensures RouteList(input, "apnic") == Ok([p])
  {}

  lemma ExampleNotReread(addrs: seq<string>, k: nat)
    requires IsAddrs(addrs) && k == 0
    ensures var input := Records(addrs, k);
            RouteList(input, "apnic").Ok? && AllAligned(RouteList(input, "apnic").value)
            && RouteList(Rendered(RouteList(input, "apnic").value), "cidr").Err?
  {
    RecordsParse(addrs, k);
    var p := ExampleRoutes(k);
    ListOfEntries(Records(addrs, k), BlocksFrom(k), p);
    ApnicReread(Records(addrs, k));
  }

  lemma MakeAddrs() returns (addrs: seq<string>)
    ensures IsAddrs(addrs)
  {
    addrs := seq(RECORDS, k requires 0 <= k < RECORDS => FormatAddr(FIRST + k * STEP));
  }

  // The list of these records is accepted in the apnic format; the file written for it is
  // refused in the cidr format.
  lemma ApnicNotReread() returns (input: string)
    ensures exists addrs :: IsAddrs(addrs) && input == Records(addrs, 0)
    ensures RouteList(input, "apnic").Ok? && AllAligned(RouteList(input, "apnic").value)
    ensures RouteList(Rendered(RouteList(input, "apnic").value), "cidr").Err?
  {
    var addrs := MakeAddrs();
    var k: nat :| k == 0;
    input := Records(addrs, k);
    ExampleNotReread(addrs, k);
  }
}
