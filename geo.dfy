/**
 The choropleth's numbers (`updateMapData`): for every region feature, the
 population and the deaths of the filtered rows whose country maps to the
 feature's id, written onto the feature in place, and the death rate that
 colours it.
 */
module Geo {
  import opened Records
  import opened Tally
  import opened CountryCodes
  import opened YearFilter

  /** A region feature of `map_data` with the `population` and `death` fields
      `updateMapData` writes onto it. */
  datatype Feature = Feature(id: string, population: nat, death: nat)

  function PopulationRegion(r: PopulationRecord): Option<string> { CodeOf(r.country) }

  function DeathRegion(r: DeathRecord): Option<string> { CodeOf(r.country) }

  /** `d3.sum(populationDataRange.filter(pol => country_code[pol.Country] == id), e => e["Population at all ages"]) || 0` */
  function PopulationOf(pops: seq<PopulationRecord>, id: string): nat
  {
    SumWhere(pops, PopulationRegion, PopulationCount, id)
  }

  /** `d3.sum(deathDataRange.filter(death => country_code[death.Country] == id), e => e["Deaths at all ages"]) || 0` */
  function DeathsOf(deaths: seq<DeathRecord>, id: string): nat
  {
    SumWhere(deaths, DeathRegion, DeathCount, id)
  }

  /** One feature after the update: its id is untouched, its two sums replaced. */
  function Aggregate(f: Feature, pops: seq<PopulationRecord>, deaths: seq<DeathRecord>): (g: Feature)
    ensures g.id == f.id
    ensures g.population == PopulationOf(pops, f.id) && g.death == DeathsOf(deaths, f.id)
  {
    Feature(f.id, PopulationOf(pops, f.id), DeathsOf(deaths, f.id))
  }

  /** The fill colour's input, `d.population === 0 ? 0 : d.death / d.population`. */
  function Rate(f: Feature): (rate: real)
    ensures rate >= 0.0
    ensures f.population == 0 ==> rate == 0.0
    ensures f.population > 0 ==> rate * (f.population as real) == f.death as real
  {
    if f.population == 0 then 0.0 else (f.death as real) / (f.population as real)
  }

  /** `map_data.map(d => { d.population = ...; d.death = ... })`: every feature
      is updated in place. */
  method Refresh(features: array<Feature>, pops: seq<PopulationRecord>, deaths: seq<DeathRecord>)
    modifies features
    ensures forall k :: 0 <= k < features.Length ==> features[k] == Aggregate(old(features[k]), pops, deaths)
  {
    for k := 0 to features.Length
      invariant forall j :: 0 <= j < k ==> features[j] == Aggregate(old(features[j]), pops, deaths)
      invariant forall j :: k <= j < features.Length ==> features[j] == old(features[j])
    {
      features[k] := Aggregate(features[k], pops, deaths);
    }
  }

  /** A filter that only drops rows whose key is `None` changes no sum. */
  lemma {:induction false} SumWhereIgnoresUnkeyed<R(!new), K(!new)>(rs: seq<R>, keep: R -> bool, key: R -> Option<K>, val: R -> nat, k: K)
    requires forall r :: key(r).Some? ==> keep(r)
    ensures SumWhere(Filter(rs, keep), key, val, k) == SumWhere(rs, key, val, k)
  {
    if rs != [] {
      SumWhereIgnoresUnkeyed(rs[1..], keep, key, val, k);
    }
  }

  /** Rows of countries missing from the code table contribute to no region:
      removing them all leaves every feature's sums as they were. */
  lemma UnmappedCountriesIgnored(f: Feature, pops: seq<PopulationRecord>, deaths: seq<DeathRecord>)
    ensures Aggregate(f, FilterPopulationMapped(pops), FilterDeathsMapped(deaths)) == Aggregate(f, pops, deaths)
  {
    SumWhereIgnoresUnkeyed(pops, IsMappedPopulation, PopulationRegion, PopulationCount, f.id);
    SumWhereIgnoresUnkeyed(deaths, IsMappedDeath, DeathRegion, DeathCount, f.id);
  }

  predicate IsMappedPopulation(r: PopulationRecord) { CodeOf(r.country).Some? }

  predicate IsMappedDeath(r: DeathRecord) { CodeOf(r.country).Some? }

  /** The population rows whose country has a code. */
  function FilterPopulationMapped(pops: seq<PopulationRecord>): seq<PopulationRecord>
  {
    Filter(pops, IsMappedPopulation)
  }

  /** The mortality rows whose country has a code. */
  function FilterDeathsMapped(deaths: seq<DeathRecord>): seq<DeathRecord>
  {
    Filter(deaths, IsMappedDeath)
  }

  /** A region no row maps to keeps population and deaths 0, and so rate 0. */
  lemma NoMatchingRowsGiveZero(f: Feature, pops: seq<PopulationRecord>, deaths: seq<DeathRecord>)
    requires forall i :: 0 <= i < |pops| ==> CodeOf(pops[i].country) != Some(f.id)
    requires forall i :: 0 <= i < |deaths| ==> CodeOf(deaths[i].country) != Some(f.id)
    ensures Aggregate(f, pops, deaths).population == 0
    ensures Aggregate(f, pops, deaths).death == 0
    ensures Rate(Aggregate(f, pops, deaths)) == 0.0
  {
    SumWhereNone(pops, PopulationRegion, PopulationCount, f.id);
    SumWhereNone(deaths, DeathRegion, DeathCount, f.id);
  }

  /** A feature whose id is none of the table's codes never receives data. */
  lemma UnlistedRegionGetsNothing(f: Feature, pops: seq<PopulationRecord>, deaths: seq<DeathRecord>)
    requires forall i :: 0 <= i < |Table| ==> Table[i].1 != f.id
    ensures Aggregate(f, pops, deaths).population == 0
    ensures Aggregate(f, pops, deaths).death == 0
  {
    NoMatchingRowsGiveZero(f, pops, deaths);
  }

  /** Singapore with 5000000 inhabitants in 2015 and no mortality row in range:
      its feature shows that population, no deaths and rate 0. */
  lemma SingaporeWithoutDeaths(deaths: seq<DeathRecord>)
    requires forall i :: 0 <= i < |deaths| ==> deaths[i].country != "Singapore"
    ensures var pops := FilterPopulation([PopulationRecord("Singapore", 2015, 5000000)], 2015, 2015);
            var g := Aggregate(Feature("SGP", 0, 0), pops, deaths);
            g.population == 5000000 && g.death == 0 && Rate(g) == 0.0
  {
    assert CodeOf("Singapore") == Some("SGP");
    forall i | 0 <= i < |deaths| ensures DeathRegion(deaths[i]) != Some("SGP") {
      if CodeOf(deaths[i].country) == Some("SGP") {
        CodeOfInjective(deaths[i].country, "Singapore");
      }
    }
    SumWhereNone(deaths, DeathRegion, DeathCount, "SGP");
    var row := PopulationRecord("Singapore", 2015, 5000000);
    assert FilterPopulation([row], 2015, 2015) == [row] by {
      assert [row][1..] == [];
    }
  }
}
