/** The text formats of the route list: APNIC records, CIDR lines and no-route lines. */
module RouteText {
  import opened Wrappers
  import opened Prefixes
  import opened Canonical
  import opened Ranges
  import opened Text
  import opened Addresses
  import opened Netmasks
  import opened SpecialUse

  datatype Format = Apnic | Cidr

  datatype RouteError =
    | UnknownFormat | LineTooLong | BadRecord | BadRange | BadPrefix
    | TooWideOrNonPublic | TooFew | SpecialOverlap | Overlap | BadAddressCount | TooManyRoutes

  // What one line contributes.
  datatype LineResult = Skip | Entry(blocks: seq<Prefix>) | Bad(error: RouteError)

  // The largest line, with its line feed, that the line scanner can hold.
  const MAX_TOKEN: int := 0x10_0000

  // ----- Lines

  function ByteLength(s: string): nat {
    if |s| == 0 then 0
    else
      var c := s[|s| - 1] as int;
      ByteLength(s[..|s| - 1]) + if c < 0x80 then 1 else if c < 0x800 then 2 else if c < 0x1_0000 then 3 else 4
  }

  lemma {:induction false} ByteLengthAtMost(s: string)
    ensures ByteLength(s) <= 4 * |s|
    decreases |s|
  {
    if |s| > 0 {
      ByteLengthAtMost(s[..|s| - 1]);
    }
  }

  function FirstLine(text: string): string {
    text[..Find(text, '\n')]
  }

  function OtherLines(text: string): (rest: string)
    ensures |text| > 0 ==> |rest| < |text|
  {
    var end := Find(text, '\n');
    if end < |text| then text[end + 1..] else ""
  }

  function DropReturn(line: string): string {
    if |line| > 0 && line[|line| - 1] == '\r' then line[..|line| - 1] else line
  }

  // ----- CIDR and no-route lines

  function CidrLine(text: string): LineResult {
    var bare := TrimSpace(TrimPrefix(text, "\U{FEFF}"));
    var item := Trim(TrimSpace(TrimPrefix(bare, "-")), IsQuote);
    if item == "" || item == "payload:" || HasPrefix(item, "#") then Skip
    else if HasPrefix(item, "no-route") then NoRouteItem(item)
    else CidrItem(item)
  }

  function NoRouteItem(item: string): LineResult {
    var sign := Find(item, '=');
    if sign == |item| || TrimSpace(item[..sign]) != "no-route" then Bad(BadPrefix)
    else CidrItem(TrimSpace(item[sign + 1..]))
  }

  function CidrItem(item: string): LineResult {
    match ParseIPv4Prefix(item)
    case None => Bad(BadPrefix)
    case Some(prefix) =>
      if prefix == prefix.Masked() && IsPublic(prefix.base) then Entry([prefix]) else Bad(BadPrefix)
  }

  // ----- APNIC records

  ghost function ApnicLine(text: string): LineResult {
    var line := TrimSpace(text);
    if line == "" || HasPrefix(line, "#") then Skip
    else ApnicFields(Split(line, '|'))
  }

  predicate IsChineseIPv4(fields: seq<string>) {
    && |fields| >= 7
    && (fields[1] == "CN" || fields[1] == "cn" || fields[1] == "Cn" || fields[1] == "cN")
    && fields[2] == "ipv4"
    && (fields[6] == "allocated" || fields[6] == "assigned")
  }

  ghost function ApnicFields(fields: seq<string>): LineResult {
    if !IsChineseIPv4(fields) then Skip
    else
      var start := ParseAddr(fields[3]);
      if start.None? || !IsNumber(fields[4]) || Value(fields[4]) == 0 || Value(fields[4]) > SPACE then Bad(BadRecord)
      else RangeEntry(start.value, Value(fields[4]))
  }

  ghost function RangeEntry(start: int, count: nat): LineResult {
    if start + count > SPACE then Bad(BadRange) else Entry(Canon(Interval(start, start + count)))
  }

  // ----- Whole files

  ghost function LineOf(format: Format, line: string): LineResult {
    match format
    case Apnic => ApnicLine(line)
    case Cidr => CidrLine(line)
  }

  ghost function FirstResult(format: Format, text: string): LineResult {
    if ByteLength(FirstLine(text)) >= MAX_TOKEN then Bad(LineTooLong)
    else LineOf(format, DropReturn(FirstLine(text)))
  }

  function Prepend(blocks: seq<Prefix>, rest: Result<seq<Prefix>, RouteError>): Result<seq<Prefix>, RouteError> {
    match rest
    case Ok(more) => Ok(blocks + more)
    case Err(e) => Err(e)
  }

  // The blocks of all lines in order, or the first error.
  ghost function Entries(format: Format, text: string): Result<seq<Prefix>, RouteError>
    decreases |text|
  {
    if text == "" then Ok([])
    else
      match FirstResult(format, text)
      case Skip => Entries(format, OtherLines(text))
      case Entry(blocks) => Prepend(blocks, Entries(format, OtherLines(text)))
      case Bad(e) => Err(e)
  }

  lemma PrependNone(rest: Result<seq<Prefix>, RouteError>)
    ensures Prepend([], rest) == rest
  {
    if rest.Ok? {
      assert [] + rest.value == rest.value;
    }
  }

  // How the first line that is left changes the result, given the blocks read so far.
  lemma EntriesStep(format: Format, blocks: seq<Prefix>, rest: string)
    requires rest != ""
    ensures match FirstResult(format, rest)
            case Skip => Prepend(blocks, Entries(format, rest)) == Prepend(blocks, Entries(format, OtherLines(rest)))
            case Bad(e) => Prepend(blocks, Entries(format, rest)) == Err(e)
            case Entry(more) =>
              Prepend(blocks, Entries(format, rest)) == Prepend(blocks + more, Entries(format, OtherLines(rest)))
  {
    var tail := Entries(format, OtherLines(rest));
    if FirstResult(format, rest).Entry? && tail.Ok? {
      var more := FirstResult(format, rest).blocks;
      assert blocks + (more + tail.value) == blocks + more + tail.value;
    }
  }

  method ParseCIDRList(input: string) returns (r: Result<seq<Prefix>, RouteError>)
    ensures r == Entries(Cidr, input)
  {
    var prefixes: seq<Prefix> := [];
    var rest := input;
    PrependNone(Entries(Cidr, input));
    while rest != ""
      invariant Entries(Cidr, input) == Prepend(prefixes, Entries(Cidr, rest))
      decreases |rest|
    {
      EntriesStep(Cidr, prefixes, rest);
      var raw := FirstLine(rest);
      if ByteLength(raw) >= MAX_TOKEN {
        return Err(LineTooLong);
      }
      var line := CidrLine(DropReturn(raw));
      if line.Bad? {
        return Err(line.error);
      }
      if line.Entry? {
        prefixes := prefixes + line.blocks;
      }
      rest := OtherLines(rest);
    }
    assert prefixes + [] == prefixes;
    r := Ok(prefixes);
  }

  method ParseAPNIC(input: string) returns (r: Result<seq<Prefix>, RouteError>)
    ensures r == Entries(Apnic, input)
  {
    var prefixes: seq<Prefix> := [];
    var rest := input;
    PrependNone(Entries(Apnic, input));
    while rest != ""
      invariant Entries(Apnic, input) == Prepend(prefixes, Entries(Apnic, rest))
      decreases |rest|
    {
      EntriesStep(Apnic, prefixes, rest);
      var raw := FirstLine(rest);
      if ByteLength(raw) >= MAX_TOKEN {
        return Err(LineTooLong);
      }
      var line := ParseRecord(DropReturn(raw));
      if line.Bad? {
        return Err(line.error);
      }
      if line.Entry? {
        prefixes := prefixes + line.blocks;
      }
      rest := OtherLines(rest);
    }
    assert prefixes + [] == prefixes;
    r := Ok(prefixes);
  }

  // One record: its range is tiled by the greedy loop.
  method ParseRecord(text: string) returns (r: LineResult)
    ensures r == ApnicLine(text)
  {
    var line := TrimSpace(text);
    if line == "" || HasPrefix(line, "#") {
      return Skip;
    }
    r := ParseFields(Split(line, '|'));
  }

  method ParseFields(fields: seq<string>) returns (r: LineResult)
    ensures r == ApnicFields(fields)
  {
    if !IsChineseIPv4(fields) {
      return Skip;
    }
    var start := ParseAddr(fields[3]);
    if start.None? || !IsNumber(fields[4]) || Value(fields[4]) == 0 || Value(fields[4]) > SPACE {
      return Bad(BadRecord);
    }
    r := ParseRange(start.value, Value(fields[4]));
  }

  method ParseRange(start: int, count: nat) returns (r: LineResult)
    requires 0 <= start < SPACE
    ensures r == RangeEntry(start, count)
  {
    var blocks := RangeToPrefixes(start, count);
    r := if blocks.Err? then Bad(BadRange) else Entry(blocks.value);
  }

  lemma {:induction false} EntriesAligned(format: Format, text: string)
    ensures Entries(format, text).Ok? ==> AllAligned(Entries(format, text).value)
    decreases |text|
  {
    if text != "" {
      EntriesAligned(format, OtherLines(text));
      LineAligned(format, DropReturn(FirstLine(text)));
    }
  }

  lemma LineAligned(format: Format, line: string)
    ensures LineOf(format, line).Entry? ==> AllAligned(LineOf(format, line).blocks)
  {
    match format
    case Cidr =>
      CidrAligned(line);
    case Apnic =>
      ApnicAligned(Split(TrimSpace(line), '|'));
  }

  lemma CidrAligned(line: string)
    ensures CidrLine(line).Entry? ==> AllAligned(CidrLine(line).blocks)
  {
    if CidrLine(line).Entry? {
      MaskedAligned(CidrLine(line).blocks[0]);
    }
  }

  lemma ApnicAligned(fields: seq<string>)
    ensures ApnicFields(fields).Entry? ==> AllAligned(ApnicFields(fields).blocks)
  {
    if ApnicFields(fields).Entry? {
      RangeAligned(ParseAddr(fields[3]).value, Value(fields[4]));
    }
  }

  lemma RangeAligned(start: int, count: nat)
    requires 0 <= start && start + count <= SPACE
    ensures AllAligned(Canon(Interval(start, start + count)))
  {
    IntervalsNest(start, start + count);
    CanonCovers(Interval(start, start + count));
  }

  // ----- Rendering

  function RouteLine(p: Prefix): string
    requires p.Aligned()
  {
    "no-route " + ['='] + (" " + (FormatAddr(p.base) + ['/'] + FormatAddr(NetMask(p.bits))))
  }

  function Rendered(routes: seq<Prefix>): string
    requires AllAligned(routes)
  {
    if |routes| == 0 then ""
    else
      assert routes[0] in routes;
      RouteLine(routes[0]) + ['\n'] + Rendered(routes[1..])
  }

  lemma {:induction false} RenderedAppend(routes: seq<Prefix>, p: Prefix)
    requires AllAligned(routes) && p.Aligned()
    ensures AllAligned(routes + [p])
    ensures Rendered(routes + [p]) == Rendered(routes) + (RouteLine(p) + ['\n'])
    decreases |routes|
  {
    if |routes| == 0 {
      assert routes + [p] == [p];
    } else {
      RenderedAppend(routes[1..], p);
      assert (routes + [p])[1..] == routes[1..] + [p];
      Associate(RouteLine(routes[0]) + ['\n'], Rendered(routes[1..]), RouteLine(p) + ['\n']);
    }
  }

  method RenderNoRoutes(prefixes: seq<Prefix>) returns (output: string)
    requires AllAligned(prefixes)
    ensures output == Rendered(prefixes)
  {
    output := "";
    for i := 0 to |prefixes|
      invariant output == Rendered(prefixes[..i])
    {
      var p := prefixes[i];
      RenderedAppend(prefixes[..i], p);
      assert prefixes[..i + 1] == prefixes[..i] + [p];
      output := output + (RouteLine(p) + ['\n']);
    }
    assert prefixes[..|prefixes|] == prefixes;
  }

  // ----- Round trip

  lemma RouteItem(p: Prefix)
    requires p.Aligned() && IsPublic(p.base)
    ensures CidrItem(FormatAddr(p.base) + ['/'] + FormatAddr(NetMask(p.bits))) == Entry([p])
  {
    PrefixText(FormatAddr(p.base), FormatAddr(NetMask(p.bits)), p.base, NetMask(p.bits));
    MaskRoundTrip(p.bits);
    MaskedAligned(p);
  }

  // Nothing is trimmed from a line that starts with "no-route" and ends with a digit.
  lemma NotTrimmed(text: string)
    requires HasPrefix(text, "no-route") && |text| > 8 && IsDigit(text[|text| - 1])
    ensures CidrLine(text) == NoRouteItem(text)
  {
    assert text[0] == text[..8][0] == 'n';
    TrimNothing(text, IsSpace);
    TrimNothing(text, IsQuote);
    assert TrimPrefix(text, "\U{FEFF}") == text && TrimPrefix(text, "-") == text;
    assert !HasPrefix(text, "#") && text[0] != "payload:"[0];
  }

  lemma NoRouteValue(item: string)
    requires |item| > 0 && IsDigit(item[0]) && IsDigit(item[|item| - 1])
    ensures NoRouteItem("no-route " + ['='] + (" " + item)) == CidrItem(item)
  {
    var text := "no-route " + ['='] + (" " + item);
    FindAt("no-route ", '=', " " + item);
    assert text[..9] == "no-route " && text[10..] == " " + item;
    TrimName();
    TrimOneSpace(item);
  }

  lemma TrimName()
    ensures TrimSpace("no-route ") == "no-route"
  {
    assert "no-route "[..8] == "no-route";
    TrimNothing("no-route", IsSpace);
  }

  lemma TrimOneSpace(item: string)
    requires |item| > 0 && IsDigit(item[0]) && IsDigit(item[|item| - 1])
    ensures TrimSpace(" " + item) == item
  {
    assert (" " + item)[1..] == item;
    TrimNothing(item, IsSpace);
  }

  lemma RouteLineShape(p: Prefix)
    requires p.Aligned()
    ensures '\n' !in RouteLine(p) && DropReturn(RouteLine(p)) == RouteLine(p)
    ensures ByteLength(RouteLine(p)) < MAX_TOKEN
  {
    AddrShape(p.base);
    AddrShape(NetMask(p.bits));
    assert |RouteLine(p)| < 50;
    ByteLengthAtMost(RouteLine(p));
  }

  lemma RouteLineParses(p: Prefix)
    requires p.Aligned() && IsPublic(p.base)
    ensures CidrLine(RouteLine(p)) == Entry([p])
  {
    AddrShape(p.base);
    AddrShape(NetMask(p.bits));
    RouteItem(p);
    RouteLineIsNoRoute(FormatAddr(p.base) + ['/'] + FormatAddr(NetMask(p.bits)));
  }

  lemma RouteLineIsNoRoute(item: string)
    requires |item| > 0 && IsDigit(item[0]) && IsDigit(item[|item| - 1])
    ensures CidrLine("no-route " + ['='] + (" " + item)) == CidrItem(item)
  {
    var text := "no-route " + ['='] + (" " + item);
    assert text[..8] == "no-route";
    NotTrimmed(text);
    NoRouteValue(item);
  }

  lemma LineSplit(line: string, rest: string)
    requires '\n' !in line
    ensures FirstLine(line + ['\n'] + rest) == line && OtherLines(line + ['\n'] + rest) == rest
  {
    FindAt(line, '\n', rest);
  }

  lemma FirstRoute(p: Prefix, text: string, routes: seq<Prefix>)
    requires p.Aligned() && IsPublic(p.base) && Entries(Cidr, text) == Ok(routes)
    ensures Entries(Cidr, RouteLine(p) + ['\n'] + text) == Ok([p] + routes)
  {
    assert RouteLine(p) + ['\n'] + text != "";
    RouteLineShape(p);
    RouteLineParses(p);
    LineSplit(RouteLine(p), text);
  }

  lemma MoreRoutes(p: Prefix, routes: seq<Prefix>)
    requires p.Aligned() && IsPublic(p.base) && AllAligned(routes)
    requires Entries(Cidr, Rendered(routes)) == Ok(routes)
    ensures AllAligned([p] + routes) && Entries(Cidr, Rendered([p] + routes)) == Ok([p] + routes)
  {
    assert ([p] + routes)[1..] == routes;
    FirstRoute(p, Rendered(routes), routes);
  }

  // Reading a rendered route file gives back the routes, in order.
  lemma {:induction false} RenderRoundTrip(routes: seq<Prefix>)
    requires AllAligned(routes) && forall p :: p in routes ==> IsPublic(p.base)
    ensures Entries(Cidr, Rendered(routes)) == Ok(routes)
    decreases |routes|
  {
    if |routes| > 0 {
      assert routes[0] in routes;
      RenderRoundTrip(routes[1..]);
      MoreRoutes(routes[0], routes[1..]);
      assert [routes[0]] + routes[1..] == routes;
    }
  }
}
