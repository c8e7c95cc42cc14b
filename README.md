# Aggregation engine of the SEA mortality dashboard

The dashboard in `js/map.js` loads two record lists: population rows and
mortality rows. A slider picks a year range and a dropdown picks a country.
From the rows in range it recomputes six views:

- a choropleth of population and deaths per region;
- a bubble chart of deaths per cause;
- a stacked bar chart of deaths per age bucket and cause;
- a bar chart of the causes ranked, with a top window and a bottom window;
- a pie of the male and female shares;
- a line chart of deaths per country and year.

This project models the computation behind those views, with the drawing
left out, and proves what each view contains.

Modules, one per concern:

- `Records`: the two row types, with their numeric columns already parsed.
- `Tally`: the JS-object-as-dictionary fold `obj[k] = +v + (obj[k] ? obj[k] : 0)` that the bubble, bar, stacked-bar and pie views use; the line chart nests it.
  - The dictionary is an association list in insertion order, because the order of `Object.keys` is observable.
  - `GroupSum` is the fold; `SumWhere` is an independent reference definition.
  - `Accumulate` is the imperative pass.
- `YearFilter`: the inclusive year filter of `updateData`.
- `CountryCodes`: the `country_code` table and `getCountryByCode`.
- `Geo`: `updateMapData`, which writes sums onto the features of an array in place, and the fill rate.
- `Causes`: the per-cause pass of `updateBubble`/`updateNormalBar`, the in-place descending sort, and the two windows with JS `slice` semantics.
  - `data.sort` is stable, so causes with equal counts keep their first-seen order; that order decides which tied causes enter the windows.
  - The in-place sort is proved equal to `SortDesc`, a functional stable insertion sort.
- `AgeMatrix`: `updateStackedBar`.
  - Ten rows are filled in place in an array.
  - The pass over the rows, the zero-fill loops and the row totals are each methods proved against functions.
- `SexRatio`: `updatePieChart`.
- `TimeSeries`: `updateLineChart`, with nested dictionaries.
  - Countries keep insertion order.
  - Years are integer-like keys, which JS enumerates in ascending order.
- `Dashboard`: the global state as a class, and the `ready`/slider/dropdown cascade.

Behaviour of the code that the model reproduces:

- **The "All cause" test never excludes a row.** `updateStackedBar` tests the misspelled field `e.Cuase`, which is always `undefined`.
- **The zero-fill keys come from every country.** They are the causes of all countries in range, not only the selected country's.
- **The top window skips rank 0.** It is `slice(1, 6)`.
- **The bottom window uses JS negative-start semantics.** It is `slice(length - 5)`, so with 3 causes it holds the last 2 and with 4 causes the last 1.
- **The pie has no zero guard.** A missing `Male` or `Female` key, or no deaths at all, gives NaN for both slices. The model writes this as `None`.
- **The line chart has one point per (country, year) pair over all countries,** not only the selected one.
- **No mortality rows means an empty range.** `d3.min` and `d3.max` return `undefined`, every comparison with them is false, and both ranges come out empty. The model reproduces this with the empty range 1..0.
- **Rows carry 24 fine age bands:** `updateStackedBar` reads 24 columns (ages 0 to 4, then 5-9 up to 90-94, then 95+).

## Model

| member | source | states |
|---|---|---|
| Tally.Keys | js/map.js:523 | `Object.keys` lists one key per entry, in entry order |
| Tally.Lookup | js/map.js:147 | the `obj[k] ? obj[k] : 0` read is 0 for an absent key |
| Tally.Add | js/map.js:147 | one update adds `n` under `k` and leaves every other key's count unchanged; an existing key keeps its place and a new key is appended |
| Tally.AddKeepsDistinct | js/map.js:147 | an update never creates a second entry for a key |
| Tally.AddNewKeyAppends | js/map.js:147 | an update under an absent key appends exactly `Entry(k, n)` |
| Tally.GroupSum | js/map.js:145-149 | the dictionary a pass builds has distinct keys |
| Tally.GroupSumSpec | js/map.js:145-149 | the dictionary has key `k` iff some row carries `k`, and holds the reference sum of the values of exactly those rows |
| Tally.Accumulate | js/map.js:145-149 | the imperative pass over the rows yields the dictionary `GroupSum` defines |
| Tally.TotalOfAdd | js/map.js:147 | an update raises the sum of all counts by exactly `n` |
| Tally.TotalOfGroupSum | js/map.js:145-149 | the counts add up to the values of all keyed rows: no row is lost or counted twice |
| Tally.PermutationKeepsEntries | js/map.js:531-533 | a permutation of a dictionary with distinct keys has distinct keys and the same entries |
| Tally.NoDuplicates | js/map.js:523-529 | an entry of a dictionary with distinct keys occurs once |
| Tally.LookupAt | js/map.js:523-526 | the pushed `Count` of an entry is the lookup of its key |
| Tally.SumWhereAppend | js/map.js:145-149 | the reference sum of one more row adds that row's value iff it carries the key |
| Tally.SumWhereNone | js/map.js:108-109 | no row carrying `k` means a sum of 0 under `k` |
| Tally.SumKeyedAppend | js/map.js:145-149 | the sum over keyed rows grows by a new row's value iff it carries a key |
| Tally.SumKeyedAgree | js/map.js:145-149 | two value columns that agree on every row give the same total |
| YearFilter.Filter | js/map.js:89-90 | `filter` keeps exactly the elements that pass, and only those |
| YearFilter.FilterCounts | js/map.js:89-90 | each kept element occurs as often as in the input, and each dropped one not at all |
| YearFilter.FilterKeepsOrder | js/map.js:89-90 | the result is an order-preserving subsequence of the input |
| YearFilter.FilterAppend | js/map.js:89-90 | filtering one more element appends it iff it passes |
| YearFilter.FilterPopulation | js/map.js:89 | a population row is kept iff `yearsFrom <= Year <= yearsTo`, with its multiplicity, and in order |
| YearFilter.FilterDeaths | js/map.js:90 | the same inclusive test on the mortality rows, with multiplicity and order |
| YearFilter.BoundsInclusive | js/map.js:89-90 | rows dated at either bound are kept; a row a year before the start is dropped |
| CountryCodes.FindCode | js/map.js:15-21 | the code table gives a code iff the name is listed, and that code is the listed one |
| CountryCodes.FindName | js/map.js:824-826 | the `find` over `Object.keys` gives a name iff some entry has the code, and that entry pairs the two |
| CountryCodes.CodeOf | js/map.js:108-109 | `country_code[name]` is defined exactly for the five listed names |
| CountryCodes.GetCountryByCode | js/map.js:824-826 | the result is undefined iff no entry has the code; otherwise it is the name listed with it |
| CountryCodes.FindNameOfCode | js/map.js:824-826 | with distinct codes, the reverse search returns the entry a code came from |
| CountryCodes.ReverseLookupRoundTrip | js/map.js:15-21 | `getCountryByCode(country_code[n]) == n` for every listed name |
| CountryCodes.CodeOfInjective | js/map.js:15-21 | two listed names never share a code |
| CountryCodes.UnknownCode | js/map.js:824-826 | a code outside the five yields no country |
| Geo.Aggregate | js/map.js:107-110 | a feature keeps its id and gets the population and death sums of the rows whose country maps to the id |
| Geo.PopulationOf | js/map.js:108 | defines a region's population as the reference sum over the rows whose country's code is the id; `Geo.Aggregate` and the Geo lemmas state its properties |
| Geo.DeathsOf | js/map.js:109 | defines a region's deaths as the reference sum over the rows whose country's code is the id; `Geo.Aggregate` and the Geo lemmas state its properties |
| Geo.Refresh | js/map.js:107-110 | every feature of the array is updated in place as `Aggregate` says |
| Geo.Rate | js/map.js:115 | the rate is non-negative, 0 when population is 0, and otherwise deaths divided by population |
| Geo.SumWhereIgnoresUnkeyed | js/map.js:108-109 | dropping rows that map to no region changes no region's sum |
| Geo.UnmappedCountriesIgnored | js/map.js:108-109 | rows of countries missing from the table contribute to no feature |
| Geo.NoMatchingRowsGiveZero | js/map.js:108-109 | a feature no row maps to gets population 0, deaths 0 and rate 0 |
| Geo.UnlistedRegionGetsNothing | js/map.js:108-109 | a feature whose id is none of the five codes gets 0 and 0 |
| Geo.SingaporeWithoutDeaths | js/map.js:107-115 | Singapore with 5000000 inhabitants and no mortality rows shows that population, no deaths and rate 0 |
| Causes.CauseTotalsSpec | js/map.js:145-149 | the per-cause dictionary has one entry per cause of the selected country, holding that cause's deaths; other countries never contribute |
| Causes.CauseTotals | js/map.js:145-149 | the per-cause dictionary of the selected country has distinct keys; `Causes.CauseTotalsSpec` gives its keys and counts |
| Causes.SortByCountDesc | js/map.js:531-533 | the in-place sort leaves the array equal to the stable descending sort of its old contents: non-increasing and a permutation |
| Causes.SinkInto | js/map.js:531-533 | one insertion step turns the first `i + 1` cells into the insertion of cell `i` into the first `i`, and leaves the rest unchanged |
| Causes.Swap | js/map.js:531-533 | an exchange of two cells permutes the array |
| Causes.SortDesc | js/map.js:531-533 | defines the stable descending sort: each entry goes after every earlier entry whose count is at least its own; its properties are the lemmas below |
| Causes.InsertCounts | js/map.js:531-533 | an insertion step adds exactly the inserted entry |
| Causes.InsertSorted | js/map.js:531-533 | an insertion step keeps a non-increasing sequence non-increasing |
| Causes.SortDescCounts | js/map.js:531-533 | the sort is a permutation: each entry occurs as often as before |
| Causes.SortDescSorted | js/map.js:531-533 | the sorted counts never increase |
| Causes.SortDescStable | js/map.js:531-533 | the sort is stable: the entries with any given count come out in their input order |
| Causes.TiedCausesKeepOrder | js/map.js:531-535 | two causes with one death each, first seen as a then b, rank a then b, so `topData` holds b |
| Causes.JsSlice | js/map.js:535-536 | `slice` never yields more elements than the array has |
| Causes.TopSlice | js/map.js:535 | `topData` has min(5, length - 1) entries (none for at most one cause), and entry `i` is rank `i + 1` |
| Causes.BottomSlice | js/map.js:536 | `bottomData` is a suffix of the ranking with at most five entries |
| Causes.TopSliceShape | js/map.js:535 | `topData` is ranks 1 to 5: empty for at most one cause, all but the first for up to six |
| Causes.BottomSliceShape | js/map.js:536 | `bottomData` is the last five for at least five causes; for 3 causes the last 2, for 4 causes the last 1, and everything for at most 2 |
| Causes.RankCauses | js/map.js:515-536 | the ranking is the stable descending sort of the per-cause dictionary: non-increasing, one entry per cause of the country with its deaths, tied causes in first-seen order; the windows are cut from it |
| Causes.RankedEntries | js/map.js:523-529 | any reordering of the per-cause dictionary has one entry per cause of the country, holding that cause's deaths |
| AgeMatrix.BandDecade | js/map.js:380-390 | a fine band lies in bucket `b`'s index range iff its lowest age lies in decade `b` |
| AgeMatrix.DecadeSumIsRange | js/map.js:380-390 | the decade reference sum equals the sum over bucket `b`'s contiguous band range |
| AgeMatrix.BucketMatchesLabel | js/map.js:380-390 | bucket 0 holds bands 0 to 5-9, buckets 1-8 two five-year bands each, bucket 9 90-94 and 95+: exactly the bands of the row's decade |
| AgeMatrix.Bucket | js/map.js:380-390 | defines the ten bucket sums of a row's fine bands; `AgeMatrix.BucketMatchesLabel` and `AgeMatrix.BucketsPartitionBands` state what they hold |
| AgeMatrix.RangeSumSplit | js/map.js:380-390 | band sums over adjacent ranges add up |
| AgeMatrix.BucketsPartitionBands | js/map.js:380-390 | the ten buckets partition the 24 bands: none lost, none counted twice |
| AgeMatrix.ZeroFillSpec | js/map.js:397-403 | zero-filling adds exactly the missing keys with 0, changes no count and keeps keys distinct |
| AgeMatrix.ZeroFill | js/map.js:397-403 | zero-filling keeps the row's entries in place and appends at most one entry per key |
| AgeMatrix.SumLookups | js/map.js:402 | defines the loop's `sum`: the counts under `keys`, in order; `AgeMatrix.SumLookupsOfGroupSum` relates it to the rows |
| AgeMatrix.Row | js/map.js:397-405 | defines a row as the loops leave it; `AgeMatrix.RowCells` and `AgeMatrix.RowTotal` state its cells and total |
| AgeMatrix.BucketTotalsStep | js/map.js:377-395 | one pass step adds a selected-country row's bucket value under its cause in every bucket |
| AgeMatrix.BucketTotals | js/map.js:377-395 | a row's per-cause dictionary after the pass has distinct keys; `AgeMatrix.RowCells` gives its counts |
| AgeMatrix.FillRow | js/map.js:398-405 | the inner loops leave a row zero-filled over `keys` with `total` the sum of its counts under `keys` |
| AgeMatrix.TallyBuckets | js/map.js:377-395 | after the pass every row holds the selected country's bucket deaths per cause, whatever `e.Cuase` is |
| AgeMatrix.FillRows | js/map.js:397-406 | the outer loop fills and totals every one of the ten rows |
| AgeMatrix.FillAt | js/map.js:398-405 | filling row `i` leaves the other rows unchanged |
| AgeMatrix.StackedBar | js/map.js:363-406 | the keys are every cause in range and the ten rows are the matrix, in label order |
| AgeMatrix.Matrix | js/map.js:363-374 | the matrix has exactly ten rows |
| AgeMatrix.AllCausesSpec | js/map.js:375 | `d3.map(...).keys()` lists each cause of any country in range, once |
| AgeMatrix.AllCauses | js/map.js:375 | the zero-fill keys list no cause twice |
| AgeMatrix.SumLookupsOfGroupSum | js/map.js:402 | the loop's `sum` over a pass's dictionary is the reference sum key by key |
| AgeMatrix.SumOverKeysCoversAll | js/map.js:397-405 | summed over duplicate-free keys that cover every keyed row, the totals count each row once |
| AgeMatrix.RowCells | js/map.js:377-403 | row `b` has a count for exactly the causes in range, each the country's bucket-`b` deaths, and carries its label |
| AgeMatrix.RowTotal | js/map.js:397-405 | row `b`'s `total` is all of the selected country's bucket-`b` deaths |
| AgeMatrix.BucketsTotalIsBands | js/map.js:380-390 | summed over the ten buckets, the country's rows give all their fine-band deaths |
| AgeMatrix.GrandTotalOfRows | js/map.js:397-406 | the first `m` row totals add up to the country's deaths in the first `m` buckets |
| AgeMatrix.GrandTotalIsCountryBands | js/map.js:363-406 | the whole stack holds every fine-band death of the selected country's rows |
| AgeMatrix.MatrixMatchesCauseTotals | js/map.js:363-406 | when each row's bands add up to its deaths at all ages, the stack's height equals the bubble chart's total |
| SexRatio.PieShares | js/map.js:670-674 | the shares exist iff both keys are present and the sum is positive, and then split 100 percent in proportion |
| SexRatio.Percentages | js/map.js:670-672 | `x * 100 / _all` for both sexes gives proportional shares |
| SexRatio.PercentShares | js/map.js:670-672 | both percentages lie in [0, 100], add up to 100, and male is 100·male/(male+female) |
| SexRatio.SharesOfRows | js/map.js:663-674 | the pie is defined iff the country has rows of both sexes and some deaths; the male share is 100·male deaths/all deaths |
| SexRatio.SexTotalsSpec | js/map.js:663-667 | the per-sex dictionary has a key iff the country has rows of that sex, holding their deaths |
| SexRatio.SexTotals | js/map.js:663-667 | the per-sex dictionary of the selected country has distinct keys; `SexRatio.SexTotalsSpec` gives its keys and counts |
| SexRatio.MalaysiaHeartDisease | js/map.js:663-674 | 100 male and 50 female deaths give shares 200/3 and 100/3 and one cause with 150 deaths |
| TimeSeries.AddYearKeys | js/map.js:743 | an update makes the year present and adds no other year |
| TimeSeries.AddYearLookup | js/map.js:743 | an update adds `n` under its year and changes no other year |
| TimeSeries.AddYearAscending | js/map.js:743 | integer-like year keys stay in ascending enumeration order |
| TimeSeries.AddYear | js/map.js:743 | defines the update of one country's years; `TimeSeries.AddYearKeys`, `AddYearLookup` and `AddYearAscending` state its effect |
| TimeSeries.AscendingTail | js/map.js:750 | the tail of an ascending year list is ascending and holds only later years |
| TimeSeries.Countries | js/map.js:749 | `Object.keys(causeData)` lists one country per series, in order |
| TimeSeries.YearsOf | js/map.js:740-743 | `causeData[c]` is a country's series, or `{}` for a country not seen |
| TimeSeries.AddPointCountries | js/map.js:740-741 | a new country is appended and a known one keeps its place |
| TimeSeries.AddPointYears | js/map.js:740-743 | only the row's country's years change, by the year update |
| TimeSeries.AddPointWellFormed | js/map.js:739-744 | each step keeps each country once and every year list ascending |
| TimeSeries.AddPoint | js/map.js:740-743 | defines one step of the pass; `TimeSeries.AddPointCountries`, `AddPointYears` and `AddPointWellFormed` state its effect |
| TimeSeries.CollectWellFormed | js/map.js:738-744 | the pass builds each country once with ascending years |
| TimeSeries.CollectKeys | js/map.js:738-744 | `causeData[c][y]` exists iff some row has country `c` and year `y` |
| TimeSeries.CollectCounts | js/map.js:738-744 | `causeData[c][y]` is the deaths of all rows of that pair |
| TimeSeries.Collect | js/map.js:738-744 | defines the outer dictionary after the pass; `TimeSeries.CollectWellFormed`, `CollectKeys` and `CollectCounts` state what it holds |
| TimeSeries.SeriesPoints | js/map.js:750-756 | one point is pushed per year of a country |
| TimeSeries.FlattenMember | js/map.js:749-757 | a point is pushed iff it is some year entry of some country |
| TimeSeries.Flatten | js/map.js:749-757 | defines `data` after the nested loops; `TimeSeries.FlattenMember` and `FlattenOrdered` state what it holds |
| TimeSeries.PointHasEntry | js/map.js:749-757 | a pushed point is the entry of its country's series under its year |
| TimeSeries.EntryHasPoint | js/map.js:749-757 | every entry of a country's series is pushed as a point |
| TimeSeries.LineChartPoints | js/map.js:738-757 | `Point(c, y, n)` is pushed iff some row has pair (c, y) and `n` is that pair's deaths |
| TimeSeries.FlattenOrdered | js/map.js:749-757 | the points of each country come in strictly ascending years, so each pair appears once |
| TimeSeries.LineChartData | js/map.js:737-757 | the loops push exactly one point per (country, year) pair of all countries, with its deaths, years ascending per country |
| Dashboard.MinYear | js/map.js:58 | `d3.min` of the years is one of the years and no year is smaller |
| Dashboard.MaxYear | js/map.js:59 | `d3.max` of the years is one of the years and no year is larger |
| Dashboard.FullRangeKeepsAll | js/map.js:58-61 | the initial range keeps every mortality row |
| Dashboard.CountryCharts | js/map.js:96-101 | `changeCountry` draws the bubble totals, the stacked matrix, the stable sorted ranking with its windows and the pie of the same rows and country |
| Dashboard.ViewsRanking | js/map.js:531-536 | the drawn ranking is non-increasing, a permutation of the per-cause totals, and keeps tied causes in first-seen order |
| Dashboard.Dashboard.constructor | js/map.js:5-10 | the globals hold the loaded lists and features, the dropdown's country and no range yet |
| Dashboard.Dashboard.Ready | js/map.js:58-61 | `ready` sets the range to the smallest and largest year, which keeps every row, then runs `updateData` |
| Dashboard.Dashboard.SetYears | js/map.js:69-73 | a slide sets both bounds, refilters both lists, refreshes the map and redraws every chart |
| Dashboard.Dashboard.UpdateData | js/map.js:88-94 | both ranges are the filter of the loaded lists, every feature carries their sums, the line chart and the country charts are drawn from the new range |
| Dashboard.Dashboard.SelectCountry | js/map.js:80-82 | a country change redraws only the four country charts; years, ranges and map are unchanged |
| Dashboard.Dashboard.ChangeCountry | js/map.js:96-101 | the country charts are drawn from the current range and country |
| Dashboard.FeatureIds | js/map.js:107-110 | the ids of the features, one per feature, in order |

## Left out

- Loading with `d3.queue`, `d3.json` and `d3.csv` is I/O. The lists and the features are inputs to the `Dashboard` constructor, which leaves the features' two sums as given until `Ready`.
- All drawing is left out: projections, scales, axes, transitions, tooltips, legends, the bubble pack layout and the stack offsets. The methods return the data each chart would be drawn from.
- The random bar colours from `Math.random()` are left out.
- The threshold colour scale and `toFixed` are floating-point presentation. `Geo.Rate` is an exact `real`.
- JS string-to-number coercion and NaN propagation are left out. Counts are parsed `nat`s, so the `|| 0` defaults and the `isNaN` guard on bucket 0 only (js/map.js:392) have no effect in the model.
- The `map_data` guard (js/map.js:104) is left out. The features are always present in the model.
- JS property-name quirks are left out. A cause or sex named like an array index, or like an `Object.prototype` member, would enumerate or read differently.
- Negative years are left out. JS enumerates only non-negative integer keys in ascending order, and the model treats every year that way.
- The dropdown's value is the `country` field. The jQuery slider and dropdown wiring, and the `#years` text, are UI.
- `updateLineChart` and `updateNormalBar` both assign the page-global `data`; each view's result is returned separately instead.
