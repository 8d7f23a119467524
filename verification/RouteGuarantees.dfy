/** What every successful route list guarantees, and when it can be read back. */
module RouteGuarantees {
  import opened Wrappers
  import opened Prefixes
  import opened Canonical
  import opened Subtract
  import opened Normalize
  import opened Largest
  import opened SpecialUse
  import opened RouteText
  import opened ChinaRoutes

  // The addresses of the entries outside special-use space.
  ghost function PublicPart(entries: seq<Prefix>): set<int> {
    Covered(entries) * Free(SPECIAL)
  }

  lemma PublicPartInSpace(entries: seq<Prefix>)
    ensures PublicPart(entries) <= Interval(0, SPACE)
  {}

  // A list that covers only free addresses consists of public blocks.
  lemma CoverInside(list: seq<Prefix>, p: Prefix, space: set<int>)
    requires p in list && Covered(list) <= space
    ensures Inside(p, space)
  {
    InsideMember(p, list);
  }

  // Every successful list is sorted and disjoint, respects the limit, and adds no
  // address; the cidr format loses no address either.
  lemma RoutesSound(format: Format, entries: seq<Prefix>)
    requires AllAligned(entries) && Routes(format, entries).Ok?
    ensures var r := Routes(format, entries).value;
            AllAligned(r) && Ascending(r) && |r| <= 1200 && Covered(r) <= PublicPart(entries)
    ensures forall p :: p in Routes(format, entries).value ==> IsPublic(p.base) && Inside(p, Free(SPECIAL))
    ensures forall p :: p in entries ==> p.bits >= 7 && IsPublic(p.base)
    ensures 10_000_000 <= |PublicPart(entries)| <= 1_000_000_000
    ensures format == Cidr ==>
              Covered(Routes(format, entries).value) == PublicPart(entries) && |Routes(format, entries).value| >= 100
  {
    CleanedFacts(entries);
    PublicPartInSpace(entries);
    var r := Routes(format, entries).value;
    if format == Apnic {
      ApnicPart(entries);
    }
    forall p | p in r
      ensures IsPublic(p.base) && Inside(p, Free(SPECIAL))
    {
      CoverInside(r, p, Free(SPECIAL));
      InsideFree(p);
    }
  }

  lemma ApnicPart(entries: seq<Prefix>)
    requires AllAligned(entries) && Routes(Apnic, entries).Ok?
    ensures Routes(Apnic, entries).value == KeepLargest(Canon(PublicPart(entries)), MAX_ROUTES)
    ensures var r := Routes(Apnic, entries).value;
            AllAligned(r) && Ascending(r) && |r| <= MAX_ROUTES && Covered(r) <= PublicPart(entries)
    ensures AllAligned(Canon(PublicPart(entries))) && Ascending(Canon(PublicPart(entries)))
    ensures Covered(Canon(PublicPart(entries))) == PublicPart(entries)
  {
    CleanedFacts(entries);
    PublicPartInSpace(entries);
    var collapsed := Canon(PublicPart(entries));
    CanonCovers(PublicPart(entries));
    LargestIsPart(collapsed, MAX_ROUTES);
    SubCover(KeepLargest(collapsed, MAX_ROUTES), collapsed);
  }

  lemma SubCover(part: seq<Prefix>, whole: seq<Prefix>)
    requires forall p :: p in part ==> p in whole
    ensures Covered(part) <= Covered(whole)
  {}

  // ----- The limited list is the best one

  // The canonical block around each block of a list, one for one.
  lemma {:induction false} Enlarge(list: seq<Prefix>, space: set<int>) returns (big: seq<Prefix>)
    requires AllAligned(list) && Covered(list) <= space && space <= Interval(0, SPACE)
    ensures |big| == |list| && Covered(list) <= Covered(big)
    ensures forall p :: p in big ==> p in Canon(space)
    decreases |list|
  {
    if |list| == 0 {
      big := [];
    } else {
      var n := |list| - 1;
      assert list == list[..n] + [list[n]];
      CoveredConcat(list[..n], [list[n]]);
      var rest := Enlarge(list[..n], space);
      CoverInside(list, list[n], space);
      var q := CanonAround(list[n], space);
      CoverOne(list[n], q);
      CoveredConcat(rest, [q]);
      big := rest + [q];
    }
  }

  lemma CoverOne(p: Prefix, q: Prefix)
    requires p.Within(q)
    ensures Covered([p]) <= Covered([q])
  {
    AddrsSize(p);
    AddrsSize(q);
    assert forall a :: p.Has(a) ==> q.Has(a);
  }

  lemma CanonAround(p: Prefix, space: set<int>) returns (q: Prefix)
    requires p.Aligned() && Inside(p, space) && space <= Interval(0, SPACE)
    ensures q in Canon(space) && p.Within(q)
  {
    CanonCovers(space);
    assert p.Has(p.base) && p.base in space;
    q :| q in Canon(space) && q.Has(p.base);
    CanonMembers(space, q);
    Nesting(p, q, p.base);
    if !p.Within(q) {
      ProperWithin(q, p);
      InsideWithin(q.Parent(), p, space);
    }
  }

  // No list of at most 1200 blocks that adds no address covers more addresses than
  // the list kept for the apnic format.
  lemma ApnicBest(entries: seq<Prefix>, other: seq<Prefix>)
    requires AllAligned(entries) && Routes(Apnic, entries).Ok?
    requires AllAligned(other) && |other| <= MAX_ROUTES && Covered(other) <= PublicPart(entries)
    ensures |Covered(other)| <= |Covered(Routes(Apnic, entries).value)|
  {
    ApnicPart(entries);
    PublicPartInSpace(entries);
    var big := Enlarge(other, PublicPart(entries));
    LargestOptimal(Canon(PublicPart(entries)), MAX_ROUTES, big);
    SubsetCardinality(Covered(other), Covered(big));
  }

  lemma SubsetCardinality(s: set<int>, t: set<int>)
    requires s <= t
    ensures |s| <= |t|
  {
    assert t == s + (t - s);
    assert s !! (t - s);
  }

  // ----- Reading the written file back

  // The entries of a sorted, disjoint, public list are left as they are.
  lemma CleanedIdentity(routes: seq<Prefix>)
    requires AllAligned(routes) && Ascending(routes)
    requires forall p :: p in routes ==> Inside(p, Free(SPECIAL))
    ensures Cleaned(routes) == routes
  {
    FlatInside(routes, Free(SPECIAL));
    AscendingSorted(routes);
    ArrangeIdentity(routes);
  }

  // The exact conditions under which the file of a list is accepted again.
  predicate Rereadable(routes: seq<Prefix>) {
    |routes| >= 100 && TotalSize(routes) >= 10_000_000 && forall p :: p in routes ==> p.bits >= 7
  }

  // Sanitizing a list that is already clean either keeps it or refuses it.
  lemma RoutesAgain(routes: seq<Prefix>)
    requires AllAligned(routes) && Ascending(routes) && |routes| <= 1200
    requires |Covered(routes)| <= 1_000_000_000
    requires forall p :: p in routes ==> IsPublic(p.base) && Inside(p, Free(SPECIAL))
    ensures Routes(Cidr, routes) == Ok(routes) <==> Rereadable(routes)
    ensures Routes(Cidr, routes).Ok? <==> Rereadable(routes)
  {
    CleanedIdentity(routes);
    CountIsCardinality(routes);
  }

  lemma RereadIsRoutes(routes: seq<Prefix>)
    requires AllAligned(routes) && forall p :: p in routes ==> IsPublic(p.base)
    ensures RouteList(Rendered(routes), "cidr") == Routes(Cidr, routes)
  {
    RenderRoundTrip(routes);
    CidrFormat(Rendered(routes), routes);
  }

  lemma CidrFormat(text: string, entries: seq<Prefix>)
    requires AllAligned(entries) && Entries(Cidr, text) == Ok(entries)
    ensures RouteList(text, "cidr") == Routes(Cidr, entries)
  {}

  lemma RereadWritten(routes: seq<Prefix>)
    requires AllAligned(routes) && Ascending(routes) && |routes| <= 1200
    requires |Covered(routes)| <= 1_000_000_000
    requires forall p :: p in routes ==> IsPublic(p.base) && Inside(p, Free(SPECIAL))
    ensures RouteList(Rendered(routes), "cidr") == Ok(routes) <==> Rereadable(routes)
    ensures RouteList(Rendered(routes), "cidr").Ok? <==> Rereadable(routes)
  {
    RereadIsRoutes(routes);
    RoutesAgain(routes);
  }

  // A list accepted in the cidr format is accepted again, unchanged, from its own file.
  lemma CidrRoundTrip(input: string)
    requires RouteList(input, "cidr").Ok?
    ensures AllAligned(RouteList(input, "cidr").value)
    ensures RouteList(Rendered(RouteList(input, "cidr").value), "cidr") == RouteList(input, "cidr")
  {
    EntriesAligned(Cidr, input);
    CidrRoutesReread(Entries(Cidr, input).value);
  }

  lemma CidrRoutesReread(entries: seq<Prefix>)
    requires AllAligned(entries) && Routes(Cidr, entries).Ok?
    ensures AllAligned(Routes(Cidr, entries).value)
    ensures RouteList(Rendered(Routes(Cidr, entries).value), "cidr") == Routes(Cidr, entries)
  {
    RoutesSound(Cidr, entries);
    CidrOk(entries);
    RereadWritten(Cleaned(entries));
  }

  lemma CidrOk(entries: seq<Prefix>)
    requires AllAligned(entries) && Routes(Cidr, entries).Ok?
    ensures Routes(Cidr, entries) == Ok(Cleaned(entries))
    ensures Rereadable(Cleaned(entries)) && |Covered(Cleaned(entries))| <= MAX_ADDRESSES
  {
    CleanedFacts(entries);
    CountIsCardinality(Cleaned(entries));
  }

  // A list made from APNIC records is accepted again exactly when merging and
  // limiting left enough entries, enough addresses and no prefix shorter than 7.
  lemma ApnicReread(input: string)
    requires RouteList(input, "apnic").Ok?
    ensures var routes := RouteList(input, "apnic").value;
            AllAligned(routes)
            && (RouteList(Rendered(routes), "cidr") == Ok(routes) <==> Rereadable(routes))
            && (RouteList(Rendered(routes), "cidr").Ok? <==> Rereadable(routes))
  {
    EntriesAligned(Apnic, input);
    var entries := Entries(Apnic, input).value;
    RoutesSound(Apnic, entries);
    CleanedFacts(entries);
    var routes := Routes(Apnic, entries).value;
    SubsetCardinality(Covered(routes), PublicPart(entries));
    RereadWritten(routes);
  }
}
