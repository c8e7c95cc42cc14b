/**
 The line chart's data (`updateLineChart`): every filtered mortality row, of
 every country, adds its deaths to `causeData[Country][Year]`; the nested
 dictionary is then flattened into one point per (country, year).

 The outer dictionary enumerates its country keys in first-seen order. The
 inner keys are years, which are integer-like property names, and JS
 enumerates those in ascending numeric order whatever the order of
 assignment; the inner lists are therefore kept sorted by year.
 */
module TimeSeries {
  import opened Records
  import opened Tally

  /** One pushed element of `data`. */
  datatype Point = Point(country: string, date: int, count: nat)

  /** `causeData[country]`: the deaths per year of one country. */
  datatype Series = Series(country: string, years: seq<Entry<int>>)

  /** Years strictly ascending: the enumeration order of integer-like keys. */
  predicate Ascending(ys: seq<Entry<int>>)
  {
    forall i, j :: 0 <= i < j < |ys| ==> ys[i].key < ys[j].key
  }

  /** `causeData[c][y] = n + (causeData[c][y] ? causeData[c][y] : 0)` on one
      country's years: an existing year is increased in place, a new year is
      inserted before the first later year. */
  function AddYear(ys: seq<Entry<int>>, y: int, n: nat): seq<Entry<int>>
  {
    if ys == [] then [Entry(y, n)]
    else if ys[0].key == y then [Entry(y, ys[0].count + n)] + ys[1..]
    else if y < ys[0].key then [Entry(y, n)] + ys
    else [ys[0]] + AddYear(ys[1..], y, n)
  }

  /** The tail of an ascending list is ascending and holds only later years. */
  lemma AscendingTail(ys: seq<Entry<int>>, j: int)
    requires Ascending(ys) && ys != []
    ensures Ascending(ys[1..])
    ensures HasKey(ys[1..], j) ==> ys[0].key < j
  {
    if HasKey(ys[1..], j) {
      var m :| 0 <= m < |ys| - 1 && Keys(ys[1..])[m] == j;
      assert ys[1..][m] == ys[m + 1];
    }
  }

  /** After the update the year is present, and no other year appears. */
  lemma {:induction false} AddYearKeys(ys: seq<Entry<int>>, y: int, n: nat, j: int)
    ensures HasKey(AddYear(ys, y, n), j) <==> HasKey(ys, j) || j == y
  {
    var r := AddYear(ys, y, n);
    if ys != [] {
      assert Keys(ys) == [ys[0].key] + Keys(ys[1..]);
      if ys[0].key == y {
        assert Keys(r) == [y] + Keys(ys[1..]);
      } else if y < ys[0].key {
        assert Keys(r) == [y] + Keys(ys);
      } else {
        AddYearKeys(ys[1..], y, n, j);
        assert Keys(r) == [ys[0].key] + Keys(AddYear(ys[1..], y, n));
      }
    }
  }

  /** The update adds `n` under `y` and changes no other year. */
  lemma {:induction false} AddYearLookup(ys: seq<Entry<int>>, y: int, n: nat, j: int)
    requires Ascending(ys)
    ensures Lookup(AddYear(ys, y, n), j) == Lookup(ys, j) + (if j == y then n else 0)
  {
    var r := AddYear(ys, y, n);
    if ys != [] {
      AscendingTail(ys, y);
      AscendingTail(ys, j);
      if ys[0].key == y {
        assert r[1..] == ys[1..];
      } else if y < ys[0].key {
        assert r[1..] == ys;
      } else {
        AddYearLookup(ys[1..], y, n, j);
        assert r[1..] == AddYear(ys[1..], y, n);
      }
    }
  }

  /** The years stay in ascending order. */
  lemma {:induction false} AddYearAscending(ys: seq<Entry<int>>, y: int, n: nat)
    requires Ascending(ys)
    ensures Ascending(AddYear(ys, y, n))
  {
    var r := AddYear(ys, y, n);
    if ys != [] && y > ys[0].key {
      AscendingTail(ys, y);
      AddYearAscending(ys[1..], y, n);
      var rest := AddYear(ys[1..], y, n);
      assert r == [ys[0]] + rest;
      forall k | 0 <= k < |rest| ensures ys[0].key < rest[k].key {
        assert Keys(rest)[k] == rest[k].key;
        AddYearKeys(ys[1..], y, n, rest[k].key);
        AscendingTail(ys, rest[k].key);
      }
    } else if ys != [] && y < ys[0].key {
      assert r == [Entry(y, n)] + ys;
    } else if ys != [] {
      assert r == [Entry(y, ys[0].count + n)] + ys[1..];
    }
  }

  /** The country keys of the outer dictionary, in enumeration order. */
  function Countries(cs: seq<Series>): (r: seq<string>)
    ensures |r| == |cs| && forall i :: 0 <= i < |cs| ==> r[i] == cs[i].country
  {
    if cs == [] then [] else [cs[0].country] + Countries(cs[1..])
  }

  /** The outer dictionary's shape: each country once, each country's years ascending. */
  predicate WellFormed(cs: seq<Series>)
  {
    && (forall i, j :: 0 <= i < j < |cs| ==> cs[i].country != cs[j].country)
    && (forall i :: 0 <= i < |cs| ==> Ascending(cs[i].years))
  }

  /** `causeData[c]`, with `{}` for a country not yet seen. */
  function YearsOf(cs: seq<Series>, c: string): (ys: seq<Entry<int>>)
    ensures ys == [] || exists i :: 0 <= i < |cs| && cs[i].country == c && ys == cs[i].years
    ensures c !in Countries(cs) ==> ys == []
  {
    if cs == [] then []
    else if cs[0].country == c then cs[0].years
    else YearsOf(cs[1..], c)
  }

  /** One step of the pass: `causeData[c] = {}` for a new country (appended to
      the countries), then the year update inside it. */
  function AddPoint(cs: seq<Series>, c: string, y: int, n: nat): seq<Series>
  {
    if cs == [] then [Series(c, [Entry(y, n)])]
    else if cs[0].country == c then [cs[0].(years := AddYear(cs[0].years, y, n))] + cs[1..]
    else [cs[0]] + AddPoint(cs[1..], c, y, n)
  }

  /** A new country is appended; a known one keeps its place. */
  lemma {:induction false} AddPointCountries(cs: seq<Series>, c: string, y: int, n: nat)
    ensures Countries(AddPoint(cs, c, y, n)) == if c in Countries(cs) then Countries(cs) else Countries(cs) + [c]
  {
    if cs != [] {
      assert Countries(cs) == [cs[0].country] + Countries(cs[1..]);
      if cs[0].country != c {
        AddPointCountries(cs[1..], c, y, n);
        assert AddPoint(cs, c, y, n)[1..] == AddPoint(cs[1..], c, y, n);
      } else {
        assert AddPoint(cs, c, y, n)[1..] == cs[1..];
      }
    }
  }

  /** Only country `c`'s years change, by the year update. */
  lemma {:induction false} AddPointYears(cs: seq<Series>, c: string, y: int, n: nat, d: string)
    ensures YearsOf(AddPoint(cs, c, y, n), d) == if d == c then AddYear(YearsOf(cs, c), y, n) else YearsOf(cs, d)
  {
    if cs != [] {
      if cs[0].country != c {
        AddPointYears(cs[1..], c, y, n, d);
        assert AddPoint(cs, c, y, n)[1..] == AddPoint(cs[1..], c, y, n);
      } else {
        assert AddPoint(cs, c, y, n)[1..] == cs[1..];
      }
    }
  }

  /** The step keeps every country once and every year list ascending. */
  lemma {:induction false} AddPointWellFormed(cs: seq<Series>, c: string, y: int, n: nat)
    requires WellFormed(cs)
    ensures WellFormed(AddPoint(cs, c, y, n))
  {
    var r := AddPoint(cs, c, y, n);
    AddPointCountries(cs, c, y, n);
    forall i, j | 0 <= i < j < |r| ensures r[i].country != r[j].country {
      assert Countries(r)[i] == r[i].country && Countries(r)[j] == r[j].country;
      if j < |cs| {
        assert Countries(cs)[i] == cs[i].country && Countries(cs)[j] == cs[j].country;
      } else {
        assert Countries(cs)[i] == cs[i].country;
      }
    }
    forall i | 0 <= i < |r| ensures Ascending(r[i].years) {
      var d := r[i].country;
      AddPointYears(cs, c, y, n, d);
      assert r[i].years == YearsOf(r, d) by {
        FirstIsOnly(r, i);
      }
      if d == c {
        AddYearAscending(YearsOf(cs, c), y, n);
      }
    }
  }

  /** With each country once, `YearsOf` finds a country's own series. */
  lemma {:induction false} FirstIsOnly(cs: seq<Series>, i: nat)
    requires i < |cs|
    requires forall p, q :: 0 <= p < q < |cs| ==> cs[p].country != cs[q].country
    ensures YearsOf(cs, cs[i].country) == cs[i].years
  {
    if i > 0 {
      assert cs[0].country != cs[i].country;
      assert cs[1..][i - 1] == cs[i];
      FirstIsOnly(cs[1..], i - 1);
    }
  }

  /** The outer dictionary after the pass over `rs`. */
  function Collect(rs: seq<DeathRecord>): seq<Series>
  {
    if rs == [] then []
    else
      var last := rs[|rs| - 1];
      AddPoint(Collect(rs[..|rs| - 1]), last.country, last.year, last.deaths)
  }

  /** The pass builds a well-formed dictionary. */
  lemma {:induction false} CollectWellFormed(rs: seq<DeathRecord>)
    ensures WellFormed(Collect(rs))
  {
    if rs != [] {
      var last := rs[|rs| - 1];
      CollectWellFormed(rs[..|rs| - 1]);
      AddPointWellFormed(Collect(rs[..|rs| - 1]), last.country, last.year, last.deaths);
    }
  }

  /** The pass keys every row, of every country, by its (country, year) pair. */
  function PairKey(r: DeathRecord): Option<(string, int)>
  {
    Some((r.country, r.year))
  }

  /** Reference definition: the deaths of all rows of country `c` dated `y`. */
  function PairSum(rs: seq<DeathRecord>, c: string, y: int): nat
  {
    SumWhere(rs, PairKey, DeathCount, (c, y))
  }

  predicate HasPair(rs: seq<DeathRecord>, c: string, y: int)
  {
    exists i :: 0 <= i < |rs| && rs[i].country == c && rs[i].year == y
  }

  /** After the pass, `causeData[c][y]` exists exactly for the pairs some row carries. */
  lemma {:induction false} CollectKeys(rs: seq<DeathRecord>, c: string, y: int)
    ensures HasKey(YearsOf(Collect(rs), c), y) <==> HasPair(rs, c, y)
  {
    if rs != [] {
      var init, last := rs[..|rs| - 1], rs[|rs| - 1];
      CollectKeys(init, c, y);
      var cs := Collect(init);
      AddPointYears(cs, last.country, last.year, last.deaths, c);
      if last.country == c {
        AddYearKeys(YearsOf(cs, c), last.year, last.deaths, y);
      }
      if HasPair(rs, c, y) {
        var i :| 0 <= i < |rs| && rs[i].country == c && rs[i].year == y;
        if i < |rs| - 1 {
          assert init[i] == rs[i];
        }
      }
      if HasPair(init, c, y) {
        var i :| 0 <= i < |init| && init[i].country == c && init[i].year == y;
        assert rs[i] == init[i];
      }
    }
  }

  /** After the pass, `causeData[c][y]` holds the deaths of the rows of that pair. */
  lemma {:induction false} CollectCounts(rs: seq<DeathRecord>, c: string, y: int)
    ensures Lookup(YearsOf(Collect(rs), c), y) == PairSum(rs, c, y)
  {
    if rs != [] {
      var init, last := rs[..|rs| - 1], rs[|rs| - 1];
      assert rs == init + [last];
      CollectCounts(init, c, y);
      CollectWellFormed(init);
      var cs := Collect(init);
      AddPointYears(cs, last.country, last.year, last.deaths, c);
      if last.country == c {
        AddYearLookup(YearsOf(cs, c), last.year, last.deaths, y);
      }
      SumWhereAppend(init, last, PairKey, DeathCount, (c, y));
    }
  }

  /** The points pushed for one country, in its year order. */
  function SeriesPoints(s: Series): (ps: seq<Point>)
    ensures |ps| == |s.years|
  {
    seq(|s.years|, k requires 0 <= k < |s.years| => Point(s.country, s.years[k].key, s.years[k].count))
  }

  /** `data` after the nested `Object.keys(...).map` loops: countries in
      enumeration order, and within each country its years in order. */
  function Flatten(cs: seq<Series>): seq<Point>
  {
    if cs == [] then [] else Flatten(cs[..|cs| - 1]) + SeriesPoints(cs[|cs| - 1])
  }

  /** A point is pushed exactly for each year entry of each country. */
  lemma {:induction false} FlattenMember(cs: seq<Series>, p: Point)
    ensures p in Flatten(cs) <==> exists i, k :: 0 <= i < |cs| && 0 <= k < |cs[i].years|
                                   && p == Point(cs[i].country, cs[i].years[k].key, cs[i].years[k].count)
  {
    if cs != [] {
      var init, last := cs[..|cs| - 1], cs[|cs| - 1];
      FlattenMember(init, p);
      if p in SeriesPoints(last) {
        var k :| 0 <= k < |last.years| && SeriesPoints(last)[k] == p;
        assert cs[|cs| - 1].years[k] == last.years[k];
      }
      if exists i, k :: 0 <= i < |cs| && 0 <= k < |cs[i].years|
                        && p == Point(cs[i].country, cs[i].years[k].key, cs[i].years[k].count) {
        var i, k :| 0 <= i < |cs| && 0 <= k < |cs[i].years|
                    && p == Point(cs[i].country, cs[i].years[k].key, cs[i].years[k].count);
        if i < |cs| - 1 {
          assert init[i] == cs[i];
        } else {
          assert SeriesPoints(last)[k] == p;
        }
      }
    }
  }

  /** `data` holds a point for exactly the (country, year) pairs of the rows,
      across all countries, and its count is the deaths of that pair. */
  lemma LineChartPoints(rs: seq<DeathRecord>, c: string, y: int, n: nat)
    ensures Point(c, y, n) in Flatten(Collect(rs)) <==> HasPair(rs, c, y) && n == PairSum(rs, c, y)
  {
    CollectWellFormed(rs);
    CollectKeys(rs, c, y);
    CollectCounts(rs, c, y);
    FlattenMember(Collect(rs), Point(c, y, n));
    if Point(c, y, n) in Flatten(Collect(rs)) {
      PointHasEntry(Collect(rs), c, y, n);
    }
    if HasPair(rs, c, y) && n == PairSum(rs, c, y) {
      EntryHasPoint(Collect(rs), c, y);
    }
  }

  /** A pushed point is the entry of its country's series under its year. */
  lemma PointHasEntry(cs: seq<Series>, c: string, y: int, n: nat)
    requires WellFormed(cs)
    requires exists i, k :: 0 <= i < |cs| && 0 <= k < |cs[i].years|
                            && Point(c, y, n) == Point(cs[i].country, cs[i].years[k].key, cs[i].years[k].count)
    ensures HasKey(YearsOf(cs, c), y) && Lookup(YearsOf(cs, c), y) == n
  {
    var i, k :| 0 <= i < |cs| && 0 <= k < |cs[i].years|
                && Point(c, y, n) == Point(cs[i].country, cs[i].years[k].key, cs[i].years[k].count);
    FirstIsOnly(cs, i);
    var ys := YearsOf(cs, c);
    assert Keys(ys)[k] == y;
    LookupAt(ys, k);
  }

  /** Every entry of a country's series is pushed as a point. */
  lemma EntryHasPoint(cs: seq<Series>, c: string, y: int)
    requires WellFormed(cs)
    requires HasKey(YearsOf(cs, c), y)
    ensures exists i, k :: 0 <= i < |cs| && 0 <= k < |cs[i].years|
                           && Point(c, y, Lookup(YearsOf(cs, c), y)) == Point(cs[i].country, cs[i].years[k].key, cs[i].years[k].count)
  {
    var ys := YearsOf(cs, c);
    var m :| 0 <= m < |ys| && Keys(ys)[m] == y;
    var i :| 0 <= i < |cs| && cs[i].country == c && ys == cs[i].years;
    LookupAt(ys, m);
    assert Point(c, y, Lookup(ys, y)) == Point(cs[i].country, cs[i].years[m].key, cs[i].years[m].count);
  }

  /** Points of one country come in strictly ascending years, so no
      (country, year) pair occurs twice. */
  predicate YearsAscendPerCountry(ps: seq<Point>)
  {
    forall a, b :: 0 <= a < b < |ps| && ps[a].country == ps[b].country ==> ps[a].date < ps[b].date
  }

  /** The flattening keeps each country's years in their ascending order. */
  lemma {:induction false} FlattenOrdered(cs: seq<Series>)
    requires WellFormed(cs)
    ensures YearsAscendPerCountry(Flatten(cs))
  {
    if cs != [] {
      var init, last := cs[..|cs| - 1], cs[|cs| - 1];
      assert WellFormed(init);
      FlattenOrdered(init);
      var f, sp := Flatten(init), SeriesPoints(last);
      var ps := Flatten(cs);
      assert ps == f + sp;
      forall a, b | 0 <= a < b < |ps| && ps[a].country == ps[b].country ensures ps[a].date < ps[b].date {
        if b < |f| {
          assert ps[a] == f[a] && ps[b] == f[b];
        } else if a >= |f| {
          assert ps[a] == sp[a - |f|] && ps[b] == sp[b - |f|];
          assert Ascending(cs[|cs| - 1].years);
          assert sp[a - |f|].date == last.years[a - |f|].key && sp[b - |f|].date == last.years[b - |f|].key;
        } else {
          assert f[a] in f;
          FlattenMember(init, f[a]);
          assert false;
        }
      }
    }
  }

  /** `updateLineChart` without the drawing: the pass over every filtered row,
      then the nested loops pushing one point per (country, year). */
  method LineChartData(rs: seq<DeathRecord>) returns (points: seq<Point>)
    ensures points == Flatten(Collect(rs))
    ensures forall c, y, n :: Point(c, y, n) in points <==> HasPair(rs, c, y) && n == PairSum(rs, c, y)
    ensures YearsAscendPerCountry(points)
  {
    var causeData: seq<Series> := [];
    for i := 0 to |rs|
      invariant causeData == Collect(rs[..i])
    {
      assert rs[..i + 1][..i] == rs[..i];
      causeData := AddPoint(causeData, rs[i].country, rs[i].year, rs[i].deaths);
    }
    assert rs[..|rs|] == rs;
    points := [];
    for i := 0 to |causeData|
      invariant points == Flatten(causeData[..i])
    {
      var s := causeData[i];
      for k := 0 to |s.years|
        invariant points == Flatten(causeData[..i]) + SeriesPoints(s)[..k]
      {
        assert SeriesPoints(s)[..k + 1] == SeriesPoints(s)[..k] + [SeriesPoints(s)[k]];
        points := points + [Point(s.country, s.years[k].key, s.years[k].count)];
      }
      assert SeriesPoints(s)[..|s.years|] == SeriesPoints(s);
      assert causeData[..i + 1][..i] == causeData[..i];
    }
    assert causeData[..|causeData|] == causeData;
    forall c, y, n ensures Point(c, y, n) in points <==> HasPair(rs, c, y) && n == PairSum(rs, c, y) {
      LineChartPoints(rs, c, y, n);
    }
    CollectWellFormed(rs);
    FlattenOrdered(causeData);
  }
}
