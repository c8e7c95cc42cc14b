/**
 The dashboard's global state and its recompute cascade: the loaded record
 lists, the year range the slider sets, the selected country, the two
 filtered ranges and the map features. A slider move refilters both lists,
 refreshes the map and redraws every chart; a country change redraws only the
 four charts scoped to the country.
 */
module Dashboard {
  import opened Records
  import opened Tally
  import opened YearFilter
  import opened Geo
  import opened Causes
  import opened AgeMatrix
  import opened SexRatio
  import opened TimeSeries

  /** `d3.min(deathData, d => +d.Year)`; for no rows, 1 (see `MaxYear`). */
  function MinYear(ds: seq<DeathRecord>): (y: int)
    ensures ds == [] ==> y == 1
    ensures ds != [] ==> (exists i :: 0 <= i < |ds| && ds[i].year == y) && forall i :: 0 <= i < |ds| ==> y <= ds[i].year
  {
    if |ds| == 0 then 1
    else if |ds| == 1 then ds[0].year
    else
      var m := MinYear(ds[1..]);
      assert forall i :: 1 <= i < |ds| ==> ds[i] == ds[1..][i - 1];
      if ds[0].year <= m then ds[0].year else m
  }

  /** `d3.max(deathData, d => +d.Year)`; for no rows, 0. In the source both
      bounds are then `undefined`, every comparison with them is false and both
      ranges come out empty, which the empty range 1..0 reproduces. */
  function MaxYear(ds: seq<DeathRecord>): (y: int)
    ensures ds == [] ==> y == 0
    ensures ds != [] ==> (exists i :: 0 <= i < |ds| && ds[i].year == y) && forall i :: 0 <= i < |ds| ==> ds[i].year <= y
  {
    if |ds| == 0 then 0
    else if |ds| == 1 then ds[0].year
    else
      var m := MaxYear(ds[1..]);
      assert forall i :: 1 <= i < |ds| ==> ds[i] == ds[1..][i - 1];
      if ds[0].year >= m then ds[0].year else m
  }

  /** The initial range keeps every row, and no row is dated outside it. */
  lemma FullRangeKeepsAll(ds: seq<DeathRecord>)
    ensures FilterDeaths(ds, MinYear(ds), MaxYear(ds)) == ds
  {
    FilterAllKept(ds, MinYear(ds), MaxYear(ds));
  }

  lemma {:induction false} FilterAllKept(ds: seq<DeathRecord>, lo: int, hi: int)
    requires forall i :: 0 <= i < |ds| ==> InRange(ds[i].year, lo, hi)
    ensures FilterDeaths(ds, lo, hi) == ds
  {
    var keep := (x: DeathRecord) => InRange(x.year, lo, hi);
    KeepAll(ds, keep);
  }

  lemma {:induction false} KeepAll<T(!new)>(s: seq<T>, keep: T -> bool)
    requires forall i :: 0 <= i < |s| ==> keep(s[i])
    ensures Filter(s, keep) == s
  {
    if s != [] {
      assert forall i :: 0 <= i < |s| - 1 ==> s[1..][i] == s[i + 1];
      KeepAll(s[1..], keep);
    }
  }

  /** What the four country-scoped charts draw: the bubble chart's cause
      totals, the stacked bar chart's keys and rows, the bar chart's ranking
      with its two windows, and the pie's two slices (`None` for the NaN pair). */
  datatype CountryViews = CountryViews(
    bubble: seq<Entry<string>>,
    stackedKeys: seq<string>,
    stacked: seq<AgeRow>,
    ranked: seq<Entry<string>>,
    top: seq<Entry<string>>,
    bottom: seq<Entry<string>>,
    pie: Option<Share>)

  /** The views `changeCountry` draws for country `c` from the rows `rs`; the
      ranking is the stable descending sort of the per-cause totals. */
  ghost predicate ViewsOf(v: CountryViews, rs: seq<DeathRecord>, c: string)
  {
    && v.bubble == CauseTotals(rs, c)
    && v.stackedKeys == AllCauses(rs)
    && v.stacked == Matrix(rs, c)
    && v.ranked == SortDesc(CauseTotals(rs, c))
    && v.top == TopSlice(v.ranked) && v.bottom == BottomSlice(v.ranked)
    && v.pie == PieShares(SexTotals(rs, c))
  }

  /** The ranking drawn is non-increasing, holds the per-cause totals, and
      keeps causes with equal counts in first-seen order. */
  lemma ViewsRanking(v: CountryViews, rs: seq<DeathRecord>, c: string, n: nat)
    requires ViewsOf(v, rs, c)
    ensures NonIncreasing(v.ranked)
    ensures multiset(v.ranked) == multiset(CauseTotals(rs, c))
    ensures Ties(v.ranked, n) == Ties(CauseTotals(rs, c), n)
  {
    SortDescSorted(CauseTotals(rs, c));
    SortDescCounts(CauseTotals(rs, c));
    SortDescStable(CauseTotals(rs, c), n);
  }

  /** `changeCountry`: `updateBubble`, `updateStackedBar`, `updateNormalBar`
      and `updatePieChart` without the drawing, each from the same rows. */
  method CountryCharts(rs: seq<DeathRecord>, c: string) returns (v: CountryViews)
    ensures ViewsOf(v, rs, c)
  {
    var bubble := Accumulate(rs, CauseKey(c), DeathCount);
    var keys, matrix := StackedBar(rs, c);
    var ranked, top, bottom := RankCauses(rs, c);
    var sexData := Accumulate(rs, SexKey(c), DeathCount);
    v := CountryViews(bubble, keys, matrix, ranked, top, bottom, PieShares(sexData));
  }

  /** The page's global state: the loaded lists, the features, the year range
      of the slider, the dropdown's country and the two filtered ranges. The
      charts are drawn, not kept: the methods return what they draw. */
  class Dashboard {
    /** `populationData` and `deathData` as loaded; never changed afterwards. */
    const populationData: seq<PopulationRecord>
    const deathData: seq<DeathRecord>
    /** `map_data`: the region features, updated in place. */
    const mapData: array<Feature>
    /** The features' ids, which no update touches. */
    const featureIds: seq<string>

    var yearsFrom: int
    var yearsTo: int
    /** The value of the country dropdown. */
    var country: string

    var populationRange: seq<PopulationRecord>
    var deathRange: seq<DeathRecord>

    /** The features are still the loaded ones, with their ids. */
    ghost predicate IdsKept()
      reads mapData
    {
      mapData.Length == |featureIds| && forall k :: 0 <= k < mapData.Length ==> mapData[k].id == featureIds[k]
    }

    /** Both ranges are the year filter of the loaded lists. */
    ghost predicate RangesCurrent()
      reads this`yearsFrom, this`yearsTo, this`populationRange, this`deathRange
    {
      && populationRange == FilterPopulation(populationData, yearsFrom, yearsTo)
      && deathRange == FilterDeaths(deathData, yearsFrom, yearsTo)
    }

    /** Every feature carries the sums of the current ranges. */
    ghost predicate MapCurrent()
      reads this`populationRange, this`deathRange, mapData
    {
      && IdsKept()
      && forall k :: 0 <= k < mapData.Length ==>
           mapData[k].population == PopulationOf(populationRange, featureIds[k])
           && mapData[k].death == DeathsOf(deathRange, featureIds[k])
    }

    /** The ranges and the map are up to date with the year range. */
    ghost predicate Valid()
      reads this`yearsFrom, this`yearsTo, this`populationRange, this`deathRange, mapData
    {
      RangesCurrent() && MapCurrent()
    }

    /** The globals once both files and the features are loaded, before
        `ready` has set the year range; the features are taken over as they are. */
    constructor (pops: seq<PopulationRecord>, deaths: seq<DeathRecord>, features: array<Feature>, initialCountry: string)
      ensures populationData == pops && deathData == deaths && mapData == features
      ensures featureIds == FeatureIds(features[..]) && IdsKept()
      ensures country == initialCountry
      ensures populationRange == [] && deathRange == []
    {
      populationData := pops;
      deathData := deaths;
      mapData := features;
      featureIds := FeatureIds(features[..]);
      country := initialCountry;
      populationRange := [];
      deathRange := [];
    }

    /** `ready` without the drawing and the widget wiring: the range starts at
        the smallest and the largest year of the mortality rows, then
        `updateData` runs. */
    method Ready() returns (line: seq<Point>, views: CountryViews)
      requires IdsKept()
      modifies this`yearsFrom, this`yearsTo, this`populationRange, this`deathRange, mapData
      ensures yearsFrom == MinYear(deathData) && yearsTo == MaxYear(deathData)
      ensures Valid()
      ensures deathRange == deathData
      ensures line == Flatten(Collect(deathRange)) && ViewsOf(views, deathRange, country)
    {
      FullRangeKeepsAll(deathData);
      line, views := SetYears(MinYear(deathData), MaxYear(deathData));
    }

    /** The slider's `slide` callback: the new bounds, then `updateData`. */
    method SetYears(from: int, to: int) returns (line: seq<Point>, views: CountryViews)
      requires IdsKept()
      modifies this`yearsFrom, this`yearsTo, this`populationRange, this`deathRange, mapData
      ensures yearsFrom == from && yearsTo == to
      ensures Valid()
      ensures line == Flatten(Collect(deathRange)) && ViewsOf(views, deathRange, country)
    {
      yearsFrom := from;
      yearsTo := to;
      line, views := UpdateData();
    }

    /** `updateData`: both ranges refiltered, the map and the line chart
        recomputed, then `changeCountry`. */
    method UpdateData() returns (line: seq<Point>, views: CountryViews)
      requires IdsKept()
      modifies this`populationRange, this`deathRange, mapData
      ensures Valid()
      ensures line == Flatten(Collect(deathRange)) && ViewsOf(views, deathRange, country)
    {
      populationRange := FilterPopulation(populationData, yearsFrom, yearsTo);
      deathRange := FilterDeaths(deathData, yearsFrom, yearsTo);
      Refresh(mapData, populationRange, deathRange);
      line := LineChartData(deathRange);
      views := ChangeCountry();
    }

    /** The dropdown's `change` callback: the new country, then only
        `changeCountry`; the ranges, the map and the line chart stay as they are. */
    method SelectCountry(c: string) returns (views: CountryViews)
      modifies this`country
      ensures country == c
      ensures unchanged(this`yearsFrom, this`yearsTo, this`populationRange, this`deathRange, mapData)
      ensures old(Valid()) ==> Valid()
      ensures ViewsOf(views, deathRange, c)
    {
      country := c;
      views := ChangeCountry();
    }

    /** `changeCountry` on the current death range and country. */
    method ChangeCountry() returns (views: CountryViews)
      ensures ViewsOf(views, deathRange, country)
    {
      views := CountryCharts(deathRange, country);
    }
  }

  /** The ids of the features, in order. */
  function FeatureIds(fs: seq<Feature>): (ids: seq<string>)
    ensures |ids| == |fs| && forall k :: 0 <= k < |fs| ==> ids[k] == fs[k].id
  {
    seq(|fs|, k requires 0 <= k < |fs| => fs[k].id)
  }
}
