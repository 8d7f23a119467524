/** The China-direct route list: parsing, sanitizing, merging and limiting. */
module ChinaRoutes {
  import opened Wrappers
  import opened Prefixes
  import opened Canonical
  import opened Seqs
  import opened Subtract
  import opened Normalize
  import opened Collapse
  import opened Largest
  import opened SpecialUse
  import opened RouteText

  // The most static IPv4 routes that the client accepts.
  const MAX_ROUTES: nat := 1200
  const MIN_ENTRIES: nat := 100
  const MIN_ADDRESSES: nat := 10_000_000
  const MAX_ADDRESSES: nat := 1_000_000_000

  predicate Acceptable(p: Prefix) {
    p.bits >= 7 && IsPublic(p.base)
  }

  predicate ClearOfSpecial(p: Prefix) {
    forall b :: b in SPECIAL ==> !p.Contains(b.base) && !b.Contains(p.base)
  }

  function FormatOf(format: string): Option<Format> {
    if format == "apnic" then Some(Apnic) else if format == "cidr" then Some(Cidr) else None
  }

  // The sorted blocks that are left of the entries outside special-use space.
  ghost function Cleaned(entries: seq<Prefix>): seq<Prefix>
    requires AllAligned(entries)
  {
    Arrange(FlatBlocks(entries, Free(SPECIAL)))
  }

  // What the pipeline computes, with the checks that can fail in the order in which they fail.
  ghost function Routes(format: Format, entries: seq<Prefix>): Result<seq<Prefix>, RouteError>
    requires AllAligned(entries)
  {
    if exists p :: p in entries && !Acceptable(p) then Err(TooWideOrNonPublic)
    else
      var routes := Cleaned(entries);
      if |routes| < MIN_ENTRIES then Err(TooFew)
      else if !Ascending(routes) then Err(Overlap)
      else if !(MIN_ADDRESSES <= |Covered(routes)| <= MAX_ADDRESSES) then Err(BadAddressCount)
      else if format == Apnic then Ok(KeepLargest(Canon(Covered(routes)), MAX_ROUTES))
      else if |routes| > MAX_ROUTES then Err(TooManyRoutes)
      else Ok(routes)
  }

  ghost function RouteList(input: string, format: string): Result<seq<Prefix>, RouteError> {
    match FormatOf(format)
    case None => Err(UnknownFormat)
    case Some(f) =>
      match Entries(f, input)
      case Err(e) => Err(e)
      case Ok(entries) => EntriesAligned(f, input); Routes(f, entries)
  }

  // ----- What sanitizing leaves

  lemma CleanedFacts(entries: seq<Prefix>)
    requires AllAligned(entries) && forall p :: p in entries ==> Acceptable(p)
    ensures AllAligned(Cleaned(entries)) && Sorted(ByAddress, Cleaned(entries))
    ensures Covered(Cleaned(entries)) == Covered(entries) * Free(SPECIAL)
    ensures AllSane(Cleaned(entries))
  {
    SpecialAligned();
    FlatCovers(entries, Free(SPECIAL));
    ArrangeAligned(FlatBlocks(entries, Free(SPECIAL)));
    forall q | q in Cleaned(entries)
      ensures Sane(q)
    {
      var p := FlatWithin(entries, Free(SPECIAL), q);
      InsideFree(q);
    }
  }

  // A block inside free space is public and meets no special-use block.
  lemma InsideFree(q: Prefix)
    requires q.Aligned() && Inside(q, Free(SPECIAL))
    ensures IsPublic(q.base)
    ensures ClearOfSpecial(q)
  {
    SpecialAligned();
    assert q.Has(q.base);
    PublicIsFree(q.base);
    forall b | b in SPECIAL
      ensures !q.Contains(b.base) && !b.Contains(q.base)
    {
      assert forall a :: b.Has(a) ==> a in Covered(SPECIAL);
      assert forall a :: a in q.Addrs() ==> q.Has(a) && a !in Covered(SPECIAL);
      OverlapByBases(q, b);
    }
  }

  // ----- The pipeline

  method ParseChinaCIDRs(input: string, format: string) returns (r: Result<seq<Prefix>, RouteError>)
    ensures r == RouteList(input, format)
  {
    var parsed: Result<seq<Prefix>, RouteError>;
    if format == "apnic" {
      parsed := ParseAPNIC(input);
      EntriesAligned(Apnic, input);
    } else if format == "cidr" {
      parsed := ParseCIDRList(input);
      EntriesAligned(Cidr, input);
    } else {
      return Err(UnknownFormat);
    }
    if parsed.Err? {
      return parsed;
    }
    r := Sanitize(parsed.value, if format == "apnic" then Apnic else Cidr);
  }

  // The checks and transformations after parsing.
  method Sanitize(entries: seq<Prefix>, format: Format) returns (r: Result<seq<Prefix>, RouteError>)
    requires AllAligned(entries)
    ensures r == Routes(format, entries)
  {
    for i := 0 to |entries|
      invariant forall p :: p in entries[..i] ==> Acceptable(p)
    {
      if entries[i].bits < 7 || !IsPublic(entries[i].base) {
        assert entries[i] in entries && !Acceptable(entries[i]);
        return Err(TooWideOrNonPublic);
      }
    }
    assert entries[..|entries|] == entries;
    CleanedFacts(entries);
    SpecialAligned();
    var prefixes := ExcludePrefixes(entries, SPECIAL);
    prefixes := NormalizePrefixes(prefixes);
    assert prefixes == Cleaned(entries);
    if |prefixes| < MIN_ENTRIES {
      return Err(TooFew);
    }
    var checked := CheckPrefixes(prefixes);
    NeighboursDecide(prefixes);
    if checked.Err? {
      return Err(checked.error);
    }
    CountIsCardinality(prefixes);
    var addressCount := checked.value;
    if addressCount < MIN_ADDRESSES || addressCount > MAX_ADDRESSES {
      return Err(BadAddressCount);
    }
    if format == Apnic {
      r := Limit(prefixes);
    } else if |prefixes| > MAX_ROUTES {
      r := Err(TooManyRoutes);
    } else {
      r := Ok(prefixes);
    }
  }

  // Both re-checks of one block that has gone through the subtraction.
  predicate Sane(p: Prefix) {
    Acceptable(p) && ClearOfSpecial(p)
  }

  predicate AllSane(list: seq<Prefix>) {
    forall p :: p in list ==> Sane(p)
  }

  method CheckBlock(p: Prefix) returns (problem: Option<RouteError>)
    ensures problem.None? <==> Sane(p)
  {
    if p.bits < 7 || !IsPublic(p.base) {
      return Some(TooWideOrNonPublic);
    }
    problem := if ClearOfSpecial(p) then None else Some(SpecialOverlap);
  }

  // The loop that re-checks every block, compares neighbours and counts addresses.
  method CheckPrefixes(prefixes: seq<Prefix>) returns (r: Result<nat, RouteError>)
    ensures r.Ok? ==> AllSane(prefixes) && NeighboursApart(prefixes) && r.value == TotalSize(prefixes)
    ensures r.Err? && AllSane(prefixes) ==> r.error == Overlap && !NeighboursApart(prefixes)
  {
    var addressCount := 0;
    for index := 0 to |prefixes|
      invariant addressCount == TotalSize(prefixes[..index])
      invariant NeighboursApart(prefixes[..index])
      invariant AllSane(prefixes[..index])
    {
      var prefix := prefixes[index];
      assert prefix in prefixes;
      var problem := CheckBlock(prefix);
      if problem.Some? {
        return Err(problem.value);
      }
      if index > 0 && prefixes[index - 1].Contains(prefix.base) {
        return Err(Overlap);
      }
      TotalStep(prefixes, index);
      SaneStep(prefixes, index);
      NeighboursStep(prefixes, index);
      addressCount := addressCount + prefix.Size();
    }
    assert prefixes[..|prefixes|] == prefixes;
    r := Ok(addressCount);
  }

  lemma TotalStep(list: seq<Prefix>, k: nat)
    requires k < |list|
    ensures TotalSize(list[..k + 1]) == TotalSize(list[..k]) + list[k].Size()
  {
    assert list[..k + 1][..k] == list[..k];
  }

  lemma SaneStep(list: seq<Prefix>, k: nat)
    requires k < |list| && Sane(list[k]) && AllSane(list[..k])
    ensures AllSane(list[..k + 1])
  {
    forall p | p in list[..k + 1]
      ensures Sane(p)
    {
      TakeMember(list, k, p);
    }
  }

  lemma NeighboursStep(list: seq<Prefix>, k: nat)
    requires k < |list| && (k > 0 ==> !list[k - 1].Contains(list[k].base))
    requires NeighboursApart(list[..k])
    ensures NeighboursApart(list[..k + 1])
  {
    forall i | 0 < i < k
      ensures !list[i - 1].Contains(list[i].base)
    {
      assert !list[..k][i - 1].Contains(list[..k][i].base);
    }
  }

  method Limit(prefixes: seq<Prefix>) returns (r: Result<seq<Prefix>, RouteError>)
    requires AllAligned(prefixes) && Ascending(prefixes)
    ensures r == Ok(KeepLargest(Canon(Covered(prefixes)), MAX_ROUTES))
  {
    AscendingSorted(prefixes);
    ArrangeIdentity(prefixes);
    assert AllInRange(prefixes);
    var collapsed := CollapsePrefixes(prefixes);
    var limited := LargestPrefixes(collapsed, MAX_ROUTES);
    r := Ok(limited);
  }
}
