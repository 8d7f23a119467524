/** The forms in which the lines of a route list may come, and what each of them says. */
module LineForms {
  import opened Wrappers
  import opened Prefixes
  import opened Canonical
  import opened Text
  import opened Addresses
  import opened Netmasks
  import opened SpecialUse
  import opened RouteText

  // ----- Lines of the cidr format

  // Characters that stand for a blank in a route file, and the two quotes.
  predicate IsBlank(c: char) {
    '\t' <= c <= '\r' || c == ' ' || c == '\U{85}' || c == '\U{A0}' || c == '\U{2003}' || c == '\U{3000}'
  }

  predicate IsMark(c: char) {
    c == '"' || c == '\''
  }

  lemma Blanks(s: string)
    ensures AllCut(s, IsBlank) ==> AllCut(s, IsSpace)
    ensures AllCut(s, IsMark) ==> AllCut(s, IsQuote)
  {}

  // The decoration around an item: a byte order mark, spaces, a dash, spaces, and quotes.
  datatype Dress = Dress(mark: string, before: string, dash: string, between: string, quotes: string, after: string)
  {
    predicate Ok() {
      && mark in {[], ['\U{FEFF}']} && dash in {[], ['-']}
      && AllCut(before, IsBlank) && AllCut(between, IsBlank) && AllCut(after, IsBlank) && AllCut(quotes, IsMark)
    }

    function Around(item: string): string {
      mark + (before + (dash + (between + (quotes + item + quotes))) + after)
    }
  }

  // An item that starts and ends with neither a space nor a quote, and does not start with a dash.
  predicate IsItem(item: string) {
    Bare(item, IsSpace) && Bare(item, IsQuote) && item[0] != '-' && item[0] != '\U{FEFF}'
  }

  lemma {:induction false} QuotedEnds(quotes: string, item: string)
    requires AllCut(quotes, IsQuote) && IsItem(item)
    ensures var s := quotes + item + quotes;
            Bare(s, IsSpace) && s[0] != '-' && s[0] != '\U{FEFF}'
  {
    var s := quotes + item + quotes;
    if |quotes| > 0 {
      assert s[0] == quotes[0] && s[|s| - 1] == quotes[|quotes| - 1];
    } else {
      assert s == item;
    }
  }

  // Without the mark, the spaces, the dash and the spaces after it, the quoted item is left.
  lemma {:induction false} Undashed(dash: string, between: string, quoted: string)
    requires dash in {[], ['-']} && AllCut(between, IsSpace)
    requires Bare(quoted, IsSpace) && quoted[0] != '-'
    ensures dash == [] ==> TrimSpace(TrimPrefix(quoted, "-")) == quoted
    ensures dash == ['-'] ==> TrimSpace(TrimPrefix(dash + (between + quoted), "-")) == quoted
  {
    TrimNothing(quoted, IsSpace);
    var long := ['-'] + (between + quoted);
    assert long[..1] == "-" && long[1..] == between + quoted;
    assert between + quoted + [] == between + quoted;
    TrimAround(between, quoted, [], IsSpace);
    assert TrimPrefix(quoted, "-") == quoted by {
      assert quoted[..1] == [quoted[0]];
    }
  }

  lemma {:induction false} Unmarked(mark: string, rest: string)
    requires mark in {[], ['\U{FEFF}']} && |rest| > 0 && rest[0] != '\U{FEFF}'
    ensures TrimPrefix(mark + rest, "\U{FEFF}") == rest
  {
    if mark == [] {
      assert mark + rest == rest && rest[..1] == [rest[0]];
    } else {
      assert (mark + rest)[..1] == mark && (mark + rest)[1..] == rest;
    }
  }

  // What is left without the mark and the outer spaces.
  function Core(d: Dress, item: string): string {
    var quoted := d.quotes + item + d.quotes;
    if d.dash == [] then quoted else d.dash + (d.between + quoted)
  }

  function Outer(d: Dress): string {
    if d.dash == [] then d.before + d.between else d.before
  }

  lemma {:induction false} AroundCore(d: Dress, item: string)
    requires d.Ok() && IsItem(item)
    ensures d.Around(item) == d.mark + (Outer(d) + Core(d, item) + d.after)
    ensures AllCut(Outer(d), IsSpace) && Bare(Core(d, item), IsSpace) && Core(d, item)[0] != '\U{FEFF}'
  {
    Blanks(d.before);
    Blanks(d.between);
    Blanks(d.quotes);
    QuotedEnds(d.quotes, item);
  }

  lemma {:induction false} OuterOff(d: Dress, item: string)
    requires d.Ok() && IsItem(item)
    ensures TrimSpace(TrimPrefix(d.Around(item), "\U{FEFF}")) == Core(d, item)
  {
    AroundCore(d, item);
    var core, spaces := Core(d, item), Outer(d);
    var rest := spaces + core + d.after;
    assert rest[0] == if |spaces| > 0 then spaces[0] else core[0];
    Unmarked(d.mark, rest);
    Blanks(d.after);
    TrimAround(spaces, core, d.after, IsSpace);
  }

  // What is left of a decorated item is the item.
  lemma {:induction false} Undressed(d: Dress, item: string)
    requires d.Ok() && IsItem(item)
    ensures var bare := TrimSpace(TrimPrefix(d.Around(item), "\U{FEFF}"));
            Trim(TrimSpace(TrimPrefix(bare, "-")), IsQuote) == item
  {
    OuterOff(d, item);
    Blanks(d.between);
    Blanks(d.quotes);
    QuotedEnds(d.quotes, item);
    Undashed(d.dash, d.between, d.quotes + item + d.quotes);
    TrimAround(d.quotes, item, d.quotes, IsQuote);
  }

  // However it is decorated, a line says what its item says.
  lemma {:induction false} CidrLineForm(d: Dress, item: string)
    requires d.Ok() && IsItem(item)
    ensures CidrLine(d.Around(item))
         == if item == "payload:" || HasPrefix(item, "#") then Skip
            else if HasPrefix(item, "no-route") then NoRouteItem(item) else CidrItem(item)
  {
    Undressed(d, item);
  }

  // A comment and the line before a list of items add nothing, and neither does a blank line.
  lemma {:induction false} SkippedLines(d: Dress, item: string)
    requires d.Ok() && IsItem(item) && (item == "payload:" || item[0] == '#')
    ensures CidrLine(d.Around(item)) == Skip
  {
    CidrLineForm(d, item);
    assert item[..1] == [item[0]];
  }

  lemma {:induction false} BlankLine(spaces: string)
    requires AllCut(spaces, IsBlank)
    ensures CidrLine(spaces) == Skip && ApnicLine(spaces) == Skip
  {
    Blanks(spaces);
    assert TrimPrefix(spaces, "\U{FEFF}") == spaces by {
      assert |spaces| > 0 ==> spaces[..1] == [spaces[0]];
    }
    TrimAway(spaces, IsSpace);
    var empty: string := [];
    assert TrimPrefix(empty, "-") == empty;
    TrimAway(empty, IsSpace);
    TrimAway(empty, IsQuote);
  }

  // ----- Items

  // The two ways to write a prefix: with its length, or with its netmask.
  predicate Writes(text: string, p: Prefix) {
    && 0 <= p.base < SPACE && 0 <= p.bits <= 32
    && (text == FormatAddr(p.base) + ['/'] + Itoa(p.bits)
        || text == FormatAddr(p.base) + ['/'] + FormatAddr(NetMask(p.bits)))
  }

  lemma {:induction false} WrittenParses(text: string, p: Prefix)
    requires Writes(text, p)
    ensures ParseIPv4Prefix(text) == Some(p)
  {
    var address, mask := FormatAddr(p.base), FormatAddr(NetMask(p.bits));
    if text == address + ['/'] + Itoa(p.bits) {
      LengthForm(address, p);
      PrefixExact(text, p);
    } else {
      PrefixText(address, mask, p.base, NetMask(p.bits));
      MaskRoundTrip(p.bits);
    }
  }

  lemma {:induction false} LengthForm(address: string, p: Prefix)
    requires 0 <= p.base < SPACE && 0 <= p.bits && address == FormatAddr(p.base)
    ensures Split(address + ['/'] + Itoa(p.bits), '/') == [address, Itoa(p.bits)] && '.' !in Itoa(p.bits)
  {
    AddrShape(p.base);
    NoSlash(address);
    ItoaValue(p.bits);
    NumberLacks(Itoa(p.bits), '/');
    NumberLacks(Itoa(p.bits), '.');
    SplitNone(Itoa(p.bits), '/');
    SplitFirst(address, '/', Itoa(p.bits));
  }

  lemma {:induction false} WrittenShape(text: string, p: Prefix)
    requires Writes(text, p)
    ensures |text| > 1 && IsDigit(text[0]) && IsDigit(text[|text| - 1])
  {
    AddrShape(p.base);
    AddrShape(NetMask(p.bits));
    ItoaValue(p.bits);
  }

  // A line that writes a prefix, decorated in any way, adds exactly that prefix if its base
  // is the first address of its block and public, and is an error otherwise.
  lemma {:induction false} WrittenLine(d: Dress, text: string, p: Prefix)
    requires d.Ok() && Writes(text, p)
    ensures CidrLine(d.Around(text)) == if p.Aligned() && IsPublic(p.base) then Entry([p]) else Bad(BadPrefix)
  {
    WrittenShape(text, p);
    DigitItem(text);
    CidrLineForm(d, text);
    WrittenParses(text, p);
    AlignedIsMasked(p);
  }

  lemma {:induction false} DigitItem(text: string)
    requires |text| > 1 && IsDigit(text[0]) && IsDigit(text[|text| - 1])
    ensures IsItem(text) && text != "payload:" && !HasPrefix(text, "#") && !HasPrefix(text, "no-route")
  {
    assert "payload:"[0] == 'p' && "#"[0] == '#' && "no-route"[0] == 'n';
  }

  lemma {:induction false} AlignedIsMasked(p: Prefix)
    requires p.InRange()
    ensures p.Aligned() <==> p == p.Masked()
  {
    if p == p.Masked() {
      MaskedAligned(p);
    }
  }

  // The same behind no-route and an equals sign, with any spaces around the sign.
  lemma {:induction false} NoRouteLine(d: Dress, before: string, after: string, text: string, p: Prefix)
    requires d.Ok() && Writes(text, p) && AllCut(before, IsBlank) && AllCut(after, IsBlank)
    ensures CidrLine(d.Around("no-route" + before + ['='] + (after + text)))
         == if p.Aligned() && IsPublic(p.base) then Entry([p]) else Bad(BadPrefix)
  {
    var name := "no-route";
    var item := name + before + ['='] + (after + text);
    Blanks(before);
    Blanks(after);
    WrittenShape(text, p);
    NoRouteShape(name, before, after, text);
    CidrLineForm(d, item);
    NoRouteParts(name, before, after, text);
    WrittenParses(text, p);
    AlignedIsMasked(p);
  }

  lemma {:induction false} NoRouteShape(name: string, before: string, after: string, text: string)
    requires name == "no-route" && |text| > 1 && IsDigit(text[|text| - 1])
    ensures var item := name + before + ['='] + (after + text);
            IsItem(item) && item != "payload:" && !HasPrefix(item, "#") && HasPrefix(item, "no-route")
  {
    var item := name + before + ['='] + (after + text);
    assert item[..8] == name && item[0] == 'n' && item[|item| - 1] == text[|text| - 1];
    assert "payload:"[0] == 'p' && "#"[0] == '#';
  }

  lemma {:induction false} NoRouteParts(name: string, before: string, after: string, text: string)
    requires name == "no-route" && AllCut(before, IsSpace) && AllCut(after, IsSpace)
    requires |text| > 1 && IsDigit(text[0]) && IsDigit(text[|text| - 1])
    ensures NoRouteItem(name + before + ['='] + (after + text)) == CidrItem(text)
  {
    var head, item := name + before, name + before + ['='] + (after + text);
    assert '=' !in head;
    FindAt(head, '=', after + text);
    assert item[..|head|] == head && item[|head| + 1..] == after + text;
    var empty: string := [];
    assert empty + name + before == head && after + text + empty == after + text;
    TrimAround(empty, name, before, IsSpace);
    TrimAround(after, text, empty, IsSpace);
  }

  // ----- Records of the apnic format

  function Lower(s: string): string {
    seq(|s|, i requires 0 <= i < |s| => if 'A' <= s[i] <= 'Z' then (s[i] as int + 32) as char else s[i])
  }

  // A record: registry, country, type, start, count, date, status, and what may follow.
  lemma {:induction false} RecordLine(fields: seq<string>, line: string)
    requires |fields| >= 7 && (forall i :: 0 <= i < |fields| ==> '|' !in fields[i])
    requires line == Join(fields, '|') && Bare(line, IsSpace) && line[0] != '#'
    ensures ApnicLine(line)
         == if Lower(fields[1]) == "cn" && fields[2] == "ipv4" && (fields[6] == "allocated" || fields[6] == "assigned")
            then ApnicFields(fields) else Skip
  {
    TrimNothing(line, IsSpace);
    assert line[..1] == [line[0]];
    SplitJoin(fields, '|');
    CountryCode(fields[1]);
  }

  lemma {:induction false} CountryCode(s: string)
    ensures Lower(s) == "cn" <==> s == "CN" || s == "cn" || s == "Cn" || s == "cN"
  {
    if Lower(s) == "cn" {
      assert |s| == 2 && Lower(s)[0] == 'c' && Lower(s)[1] == 'n';
      assert s == [s[0], s[1]];
    }
    assert Lower("CN") == "cn" && Lower("cn") == "cn" && Lower("Cn") == "cn" && Lower("cN") == "cn";
  }

  // A Chinese record adds the blocks of its range; a range that is empty or longer than the
  // address space, or that leaves it, is an error.
  lemma {:induction false} RecordRange(fields: seq<string>, start: int, count: nat)
    requires |fields| >= 7 && Lower(fields[1]) == "cn" && fields[2] == "ipv4"
    requires fields[6] == "allocated" || fields[6] == "assigned"
    requires 0 <= start < SPACE && fields[3] == FormatAddr(start) && fields[4] == Itoa(count)
    ensures ApnicFields(fields)
         == if count == 0 || count > 0x1_0000_0000 then Bad(BadRecord)
            else if start + count > 0x1_0000_0000 then Bad(BadRange)
            else Entry(Canon(Interval(start, start + count)))
  {
    CountryCode(fields[1]);
    AddrExact(fields[3], start);
    ItoaValue(count);
  }

  // ----- What is written

  // The line for a route: its base, and the mask that has a one at exactly the indices below
  // the length of the route.
  lemma {:induction false} RouteLineSays(p: Prefix) returns (mask: int)
    requires p.Aligned()
    ensures 0 <= mask < SPACE && forall i :: 0 <= i < 32 ==> (Bit(mask, i) == 1 <==> i < p.bits)
    ensures RouteLine(p) == "no-route = " + (FormatAddr(p.base) + ['/'] + FormatAddr(mask))
  {
    mask := NetMask(p.bits);
    forall i: nat | i < 32
      ensures Bit(mask, i) == 1 <==> i < p.bits
    {
      MaskBit(p.bits, i);
    }
    var value := FormatAddr(p.base) + ['/'] + FormatAddr(mask);
    assert "no-route " + ['='] + (" " + value) == "no-route = " + value;
  }

  // ----- The length of a line

  // A line of a mebibyte or more is an error, whatever it says, and no shorter one is for its length.
  lemma {:induction false} LongLine(format: Format, text: string)
    requires forall i :: 0 <= i < |FirstLine(text)| ==> FirstLine(text)[i] < '\U{80}'
    ensures FirstResult(format, text)
         == if |FirstLine(text)| >= 1_048_576 then Bad(LineTooLong) else LineOf(format, DropReturn(FirstLine(text)))
  {
    AsciiLength(FirstLine(text));
  }

  // The bytes of a text are those of its parts, and n bytes hold the characters of at most 7
  // bits (n = 1) or 5 n + 1 bits.
  lemma {:induction false} ByteLengthIs(left: string, c: char, right: string)
    ensures ByteLength(left + right) == ByteLength(left) + ByteLength(right)
    ensures 1 <= ByteLength([c]) <= 4
    ensures (ByteLength([c]) <= 1 <==> c as int < TwoTo(7)) && (ByteLength([c]) <= 2 <==> c as int < TwoTo(11))
            && (ByteLength([c]) <= 3 <==> c as int < TwoTo(16))
    decreases |right|
  {
    if |right| == 0 {
      assert left + right == left;
      var empty: string := [];
      assert [c][..0] == empty && ByteLength(empty) == 0;
      Powers();
    } else {
      var n := |right| - 1;
      assert (left + right)[..|left| + n] == left + right[..n];
      ByteLengthIs(left, c, right[..n]);
    }
  }

  lemma {:induction false} Powers()
    ensures TwoTo(7) == 0x80 && TwoTo(11) == 0x800 && TwoTo(16) == 0x1_0000
  {
    assert TwoTo(4) == 16 && TwoTo(8) == 256 && TwoTo(12) == 4096;
  }

  lemma {:induction false} AsciiLength(s: string)
    requires forall i :: 0 <= i < |s| ==> s[i] < '\U{80}'
    ensures ByteLength(s) == |s|
    decreases |s|
  {
    if |s| > 0 {
      AsciiLength(s[..|s| - 1]);
    }
  }
}
