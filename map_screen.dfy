/** The map screen's per-region summary: a fixed table of regions, each a
    list of partner countries, and the partner and agreement totals of the
    partners located in a region. */
module MapScreen {
  import opened Seqs
  import opened Types

  /** One entry of the region table: a name and the countries it groups. */
  datatype Region = Region(name: string, countries: seq<string>)

  /** The region table of the map screen. */
  const Regions: seq<Region> := [
    Region("Europe", ["France", "Allemagne"]),
    Region("Amérique", ["États-Unis", "Canada"]),
    Region("Asie", ["Japon"])
  ]

  /** The `{ partners, agreements }` object `getRegionStats` returns. */
  datatype RegionStats = RegionStats(partners: nat, agreements: int)

  /** Selects the regions called `name`. */
  function Named(name: string): Region -> bool {
    (r: Region) => r.name == name
  }

  /** Selects the partners located in one of `countries`. */
  function LocatedIn(countries: seq<string>): Partner -> bool {
    (p: Partner) => p.country in countries
  }

  /** `regions.find(r => r.name === name)?.countries || []`: the countries of
      the first region with that name, none when no region has it. */
  function CountriesOf(regions: seq<Region>, name: string): (cs: seq<string>)
    ensures (forall i :: 0 <= i < |regions| ==> regions[i].name != name) ==> cs == []
    ensures forall i ::
              (0 <= i < |regions| && regions[i].name == name && forall j :: 0 <= j < i ==> regions[j].name != name) ==>
              cs == regions[i].countries
  {
    match Find(regions, Named(name))
    case None => []
    case Some(r) => r.countries
  }

  /** `reduce((sum, p) => sum + p.agreementsCount, 0)`. */
  function SumAgreements(ps: seq<Partner>): int {
    if ps == [] then 0 else ps[0].agreementsCount + SumAgreements(ps[1..])
  }

  /** `getRegionStats`: how many partners lie in the region's countries, and
      their agreements added up. */
  function GetRegionStats(partners: seq<Partner>, name: string): (r: RegionStats)
    ensures r.partners <= |partners|
  {
    var inRegion := Filter(partners, LocatedIn(CountriesOf(Regions, name)));
    RegionStats(|inRegion|, SumAgreements(inRegion))
  }

  /** A sum of non-negative counts is non-negative. */
  lemma {:induction false} SumNonNegative(ps: seq<Partner>)
    requires forall p :: p in ps ==> p.agreementsCount >= 0
    ensures SumAgreements(ps) >= 0
  {
    if ps != [] {
      SumNonNegative(ps[1..]);
    }
  }

  /** The sum over a concatenation is the sum of the sums. */
  lemma {:induction false} SumAppend(s: seq<Partner>, t: seq<Partner>)
    ensures SumAgreements(s + t) == SumAgreements(s) + SumAgreements(t)
    decreases |s|
  {
    if s == [] {
      assert s + t == t;
    } else {
      assert (s + t)[1..] == s[1..] + t;
      SumAppend(s[1..], t);
    }
  }

  /** The sum is the one `reduce` accumulates left to right: the total of all
      but the last partner plus the last partner's count. */
  lemma SumLeftToRight(ps: seq<Partner>)
    requires ps != []
    ensures SumAgreements(ps) == SumAgreements(ps[..|ps| - 1]) + ps[|ps| - 1].agreementsCount
  {
    assert ps == ps[..|ps| - 1] + [ps[|ps| - 1]];
    SumAppend(ps[..|ps| - 1], [ps[|ps| - 1]]);
  }

  /** Taking one partner out of a list leaves the list minus that partner. */
  lemma RemoveAtMultiset(t: seq<Partner>, i: nat)
    requires i < |t|
    ensures multiset(t[..i] + t[i + 1..]) == multiset(t) - multiset{t[i]}
  {
    assert t == t[..i] + [t[i]] + t[i + 1..];
  }

  /** Taking one partner out of a list takes its count out of the sum. */
  lemma RemoveAtSum(t: seq<Partner>, i: nat)
    requires i < |t|
    ensures SumAgreements(t) == t[i].agreementsCount + SumAgreements(t[..i] + t[i + 1..])
  {
    assert t == t[..i] + ([t[i]] + t[i + 1..]);
    SumAppend(t[..i], [t[i]] + t[i + 1..]);
    SumAppend([t[i]], t[i + 1..]);
    SumAppend(t[..i], t[i + 1..]);
  }

  /** The sum does not depend on the order of the partners. */
  lemma {:induction false} SumPermutation(s: seq<Partner>, t: seq<Partner>)
    requires multiset(s) == multiset(t)
    ensures SumAgreements(s) == SumAgreements(t)
    decreases |s|
  {
    if s == [] {
      assert |t| == |multiset(t)| == 0;
    } else {
      assert s == [s[0]] + s[1..];
      assert s[0] in multiset(t);
      var i :| 0 <= i < |t| && t[i] == s[0];
      RemoveAtMultiset(t, i);
      RemoveAtSum(t, i);
      SumPermutation(s[1..], t[..i] + t[i + 1..]);
    }
  }

  // ---------------------------------------------------------------------------
  // Properties

  /** The region table: three distinct names, each with its country list. */
  lemma RegionTable()
    ensures CountriesOf(Regions, "Europe") == ["France", "Allemagne"]
    ensures CountriesOf(Regions, "Amérique") == ["États-Unis", "Canada"]
    ensures CountriesOf(Regions, "Asie") == ["Japon"]
  {
    assert Regions[0].name == "Europe";
    assert Regions[1].name == "Amérique" && Regions[0].name != "Amérique";
    assert Regions[2].name == "Asie" && Regions[0].name != "Asie" && Regions[1].name != "Asie";
  }

  /** A name no region carries yields no partners and no agreements. */
  lemma UnknownRegion(partners: seq<Partner>, name: string)
    requires name != "Europe" && name != "Amérique" && name != "Asie"
    ensures GetRegionStats(partners, name) == RegionStats(0, 0)
  {
    assert forall i :: 0 <= i < |Regions| ==> Regions[i].name != name;
    FilterEmpty(partners, LocatedIn([]));
  }

  /** The partner total counts exactly the partners (with multiplicity)
      located in the region's countries, and the agreement total adds up
      their counts. */
  lemma RegionStatsMeaning(partners: seq<Partner>, name: string)
    ensures var cs := CountriesOf(Regions, name);
            var inRegion := Filter(partners, LocatedIn(cs));
            && GetRegionStats(partners, name).partners == |inRegion|
            && GetRegionStats(partners, name).agreements == SumAgreements(inRegion)
            && (forall p: Partner :: p in inRegion <==> p in partners && p.country in cs)
            && (forall p: Partner :: p.country in cs ==> multiset(inRegion)[p] == multiset(partners)[p])
  {
  }

  /** With no negative count, no region has a negative agreement total. */
  lemma RegionAgreementsNonNegative(partners: seq<Partner>, name: string)
    requires forall i :: 0 <= i < |partners| ==> partners[i].agreementsCount >= 0
    ensures GetRegionStats(partners, name).agreements >= 0
  {
    var inRegion := Filter(partners, LocatedIn(CountriesOf(Regions, name)));
    forall p | p in inRegion ensures p.agreementsCount >= 0 {
      var i :| 0 <= i < |partners| && partners[i] == p;
    }
    SumNonNegative(inRegion);
  }

  /** No country is listed by two regions. */
  lemma CountriesDisjoint(c: string)
    ensures !(c in ["France", "Allemagne"] && c in ["États-Unis", "Canada"])
    ensures !(c in ["France", "Allemagne"] && c in ["Japon"])
    ensures !(c in ["États-Unis", "Canada"] && c in ["Japon"])
  {
    assert "France"[0] != "Canada"[0];
  }

  /** The three regions list different countries, so no partner is counted
      twice: their partner totals add up to at most the number of partners. */
  lemma RegionsDisjoint(partners: seq<Partner>)
    ensures GetRegionStats(partners, "Europe").partners + GetRegionStats(partners, "Amérique").partners +
            GetRegionStats(partners, "Asie").partners <= |partners|
  {
    var europe, america, asia := LocatedIn(["France", "Allemagne"]), LocatedIn(["États-Unis", "Canada"]), LocatedIn(["Japon"]);
    RegionTable();
    forall p: Partner
      ensures !(europe(p) && america(p)) && !(europe(p) && asia(p)) && !(america(p) && asia(p))
    {
      CountriesDisjoint(p.country);
    }
    FilterDisjoint3(partners, europe, america, asia);
  }

  /** Reordering the partners (as the statistics screen's in-place sort of
      the shared list does) changes no region's figures. */
  lemma RegionStatsPermutation(partners: seq<Partner>, reordered: seq<Partner>, name: string)
    requires multiset(partners) == multiset(reordered)
    ensures GetRegionStats(partners, name) == GetRegionStats(reordered, name)
  {
    var p := LocatedIn(CountriesOf(Regions, name));
    FilterPermutation(partners, reordered, p);
    assert |Filter(partners, p)| == |multiset(Filter(partners, p))| == |multiset(Filter(reordered, p))| == |Filter(reordered, p)|;
    SumPermutation(Filter(partners, p), Filter(reordered, p));
  }
}
