/**
 The stacked bar chart's matrix (`updateStackedBar`): ten fixed age buckets,
 each a row that maps every cause of the year range to the selected
 country's deaths in that bucket, plus the row's total.
 */
module AgeMatrix {
  import opened Records
  import opened Tally
  import opened Causes

  const BucketCount: nat := 10

  type BucketIndex = b: nat | b < 10

  /** The `Age` labels of the ten rows, in order. */
  const Labels: seq<string> := ["0-9", "10-19", "20-29", "30-39", "40-49", "50-59", "60-69", "70-79", "80-89", "90-"]

  /** The fine bands the source adds into bucket `b`: ages 0, 1, 2, 3, 4 and 5-9
      for the first bucket, two adjacent five-year bands for each of the others
      (90-94 and 95+ for the last). */
  function Bucket(bands: AgeBands, b: BucketIndex): nat
  {
    if b == 0 then bands[0] + bands[1] + bands[2] + bands[3] + bands[4] + bands[5]
    else bands[2 * b + 4] + bands[2 * b + 5]
  }

  /** The lowest age a fine band covers: 0, 1, 2, 3, 4, then 5, 10, ..., 95. */
  function BandLowAge(i: nat): nat
  {
    if i < 5 then i else 5 * (i - 4)
  }

  /** Reference definition: the deaths of the first `n` fine bands whose lowest
      age lies in decade `b` (band 95+ lies in decade 9). */
  function DecadeSum(bands: AgeBands, b: BucketIndex, n: nat): nat
    requires n <= BandCount
  {
    if n == 0 then 0
    else DecadeSum(bands, b, n - 1) + (if BandLowAge(n - 1) / 10 == b then bands[n - 1] else 0)
  }

  /** The deaths of bands `lo` up to, not including, `hi`. */
  function RangeSum(bands: AgeBands, lo: nat, hi: nat): nat
    requires lo <= hi <= BandCount
    decreases hi - lo
  {
    if lo == hi then 0 else RangeSum(bands, lo, hi - 1) + bands[hi - 1]
  }

  /** All fine bands of a row. */
  function BandTotal(bands: AgeBands): nat
  {
    RangeSum(bands, 0, BandCount)
  }

  function BucketStart(b: BucketIndex): nat { if b == 0 then 0 else 2 * b + 4 }

  function BucketEnd(b: BucketIndex): nat { 2 * b + 6 }

  lemma BandDecade(i: nat, b: BucketIndex)
    requires i < BandCount
    ensures BandLowAge(i) / 10 == b <==> BucketStart(b) <= i < BucketEnd(b)
  {
    if i >= 5 {
      assert BandLowAge(i) / 10 == (i - 4) / 2;
    }
  }

  lemma {:induction false} DecadeSumIsRange(bands: AgeBands, b: BucketIndex, n: nat)
    requires n <= BandCount
    ensures n <= BucketStart(b) ==> DecadeSum(bands, b, n) == 0
    ensures BucketStart(b) <= n <= BucketEnd(b) ==> DecadeSum(bands, b, n) == RangeSum(bands, BucketStart(b), n)
    ensures BucketEnd(b) <= n ==> DecadeSum(bands, b, n) == RangeSum(bands, BucketStart(b), BucketEnd(b))
  {
    if n > 0 {
      DecadeSumIsRange(bands, b, n - 1);
      BandDecade(n - 1, b);
    }
  }

  /** Bucket `b` holds exactly the fine bands whose lowest age falls in decade `b`,
      which is what the row labels 0-9, 10-19, ..., 90- promise. */
  lemma BucketMatchesLabel(bands: AgeBands, b: BucketIndex)
    ensures Bucket(bands, b) == DecadeSum(bands, b, BandCount)
  {
    DecadeSumIsRange(bands, b, BandCount);
    if b == 0 {
      assert RangeSum(bands, 0, 6) == bands[0] + bands[1] + bands[2] + bands[3] + bands[4] + bands[5] by {
        assert RangeSum(bands, 0, 1) == bands[0];
        assert RangeSum(bands, 0, 3) == bands[0] + bands[1] + bands[2];
      }
    } else {
      assert RangeSum(bands, 2 * b + 4, 2 * b + 5) == bands[2 * b + 4];
    }
  }

  lemma {:induction false} RangeSumSplit(bands: AgeBands, lo: nat, mid: nat, hi: nat)
    requires lo <= mid <= hi <= BandCount
    ensures RangeSum(bands, lo, mid) + RangeSum(bands, mid, hi) == RangeSum(bands, lo, hi)
    decreases hi - mid
  {
    if mid < hi {
      RangeSumSplit(bands, lo, mid, hi - 1);
    }
  }

  /** The first `m` buckets of one row. */
  function BucketsUpTo(bands: AgeBands, m: nat): nat
    requires m <= BucketCount
  {
    if m == 0 then 0 else BucketsUpTo(bands, m - 1) + Bucket(bands, m - 1)
  }

  /** The ten buckets partition the fine bands: no band is lost or counted twice. */
  lemma {:induction false} BucketsPartitionBands(bands: AgeBands, m: nat)
    requires 0 < m <= BucketCount
    ensures BucketsUpTo(bands, m) == RangeSum(bands, 0, BucketEnd(m - 1))
  {
    BucketMatchesLabel(bands, m - 1);
    DecadeSumIsRange(bands, m - 1, BandCount);
    if m > 1 {
      BucketsPartitionBands(bands, m - 1);
      RangeSumSplit(bands, 0, BucketEnd(m - 2), BucketEnd(m - 1));
    }
  }

  /** A matrix row: the `Age` label, the cause counts and `total`. */
  datatype AgeRow = AgeRow(age: string, cells: seq<Entry<string>>, total: nat)

  function BucketValue(b: BucketIndex): DeathRecord -> nat
  {
    (r: DeathRecord) => Bucket(r.bands, b)
  }

  /** Row `b`'s counts after the pass: the selected country's bucket-`b` deaths per cause. */
  function BucketTotals(rs: seq<DeathRecord>, country: string, b: BucketIndex): (t: seq<Entry<string>>)
    ensures DistinctKeys(t)
  {
    GroupSum(rs, CauseKey(country), BucketValue(b))
  }

  function AnyCause(r: DeathRecord): Option<string> { Some(r.cause) }

  /** `d3.map(deathDataRange, d => d.Cause).keys()`: every cause of the range,
      of every country, once, in first-seen order (only the keys are used). */
  function AllCauses(rs: seq<DeathRecord>): (keys: seq<string>)
    ensures forall i, j :: 0 <= i < j < |keys| ==> keys[i] != keys[j]
  {
    Keys(GroupSum(rs, AnyCause, DeathCount))
  }

  /** The zero-fill loop over `keys`: a key the row lacks is added with count 0. */
  function ZeroFill(t: seq<Entry<string>>, keys: seq<string>): (r: seq<Entry<string>>)
    ensures |t| <= |r| <= |t| + |keys| && r[..|t|] == t
  {
    if keys == [] then t
    else
      var t' := ZeroFill(t, keys[..|keys| - 1]);
      var k := keys[|keys| - 1];
      if HasKey(t', k) then t' else t' + [Entry(k, 0)]
  }

  /** `sum` of the zero-fill loop: the counts under `keys`, in order. */
  function SumLookups(t: seq<Entry<string>>, keys: seq<string>): nat
  {
    if keys == [] then 0 else SumLookups(t, keys[..|keys| - 1]) + Lookup(t, keys[|keys| - 1])
  }

  /** Row `b` as `updateStackedBar` leaves it. */
  function Row(rs: seq<DeathRecord>, country: string, keys: seq<string>, b: BucketIndex): AgeRow
  {
    AgeRow(Labels[b], ZeroFill(BucketTotals(rs, country, b), keys), SumLookups(BucketTotals(rs, country, b), keys))
  }

  /** Zero-filling adds the missing keys and changes no count. */
  lemma {:induction false} ZeroFillSpec(t: seq<Entry<string>>, keys: seq<string>, c: string)
    ensures HasKey(ZeroFill(t, keys), c) <==> HasKey(t, c) || c in keys
    ensures Lookup(ZeroFill(t, keys), c) == Lookup(t, c)
    ensures DistinctKeys(t) ==> DistinctKeys(ZeroFill(t, keys))
  {
    if keys != [] {
      var init, k := keys[..|keys| - 1], keys[|keys| - 1];
      assert keys == init + [k];
      ZeroFillSpec(t, init, c);
      var t' := ZeroFill(t, init);
      if !HasKey(t', k) {
        AddNewKeyAppends(t', k, 0);
      }
    }
  }

  /** A pass step: a row of the selected country adds its bucket under its
      cause; any other row leaves the counts alone. */
  lemma BucketTotalsStep(rs: seq<DeathRecord>, i: nat, country: string, b: BucketIndex)
    requires i < |rs|
    ensures BucketTotals(rs[..i + 1], country, b)
         == if rs[i].country == country then Add(BucketTotals(rs[..i], country, b), rs[i].cause, Bucket(rs[i].bands, b))
            else BucketTotals(rs[..i], country, b)
  {
    assert rs[..i + 1][..i] == rs[..i];
  }

  /** The inner loops of `updateStackedBar` for one row: each key of `keys` the
      row lacks is set to 0, and `total` becomes the sum of the row's counts
      under `keys`. */
  method FillRow(row: AgeRow, keys: seq<string>) returns (filled: AgeRow)
    ensures filled == AgeRow(row.age, ZeroFill(row.cells, keys), SumLookups(row.cells, keys))
  {
    filled := row;
    var sum := 0;
    for j := 0 to |keys|
      invariant filled == row.(cells := ZeroFill(row.cells, keys[..j]))
      invariant sum == SumLookups(row.cells, keys[..j])
    {
      assert keys[..j + 1][..j] == keys[..j];
      if !HasKey(filled.cells, keys[j]) {
        filled := filled.(cells := filled.cells + [Entry(keys[j], 0)]);
      }
      ZeroFillSpec(row.cells, keys[..j + 1], keys[j]);
      sum := sum + Lookup(filled.cells, keys[j]);
    }
    assert keys[..|keys|] == keys;
    filled := filled.(total := sum);
  }

  /** `updateStackedBar`: the pass over the range adding each selected-country
      row's ten buckets under its cause, then the zero-fill and total loops. */
  method StackedBar(rs: seq<DeathRecord>, country: string) returns (keys: seq<string>, rows: seq<AgeRow>)
    ensures keys == AllCauses(rs)
    ensures |rows| == BucketCount
    ensures forall b: BucketIndex :: rows[b] == Row(rs, country, keys, b)
    ensures rows == Matrix(rs, country)
  {
    var data := new AgeRow[BucketCount](b requires 0 <= b < BucketCount => AgeRow(Labels[b], [], 0));
    keys := AllCauses(rs);
    TallyBuckets(data, rs, country);
    FillRows(data, rs, country, keys);
    rows := data[..];
  }

  /** The pass over the rows: each row of `country` adds its bucket values, under
      its cause, to the ten rows' cells. */
  method TallyBuckets(data: array<AgeRow>, rs: seq<DeathRecord>, country: string)
    requires data.Length == BucketCount
    requires forall b: BucketIndex :: data[b] == AgeRow(Labels[b], [], 0)
    modifies data
    ensures forall b: BucketIndex :: data[b] == AgeRow(Labels[b], BucketTotals(rs, country, b), 0)
  {
    for i := 0 to |rs|
      invariant forall b: BucketIndex :: data[b] == AgeRow(Labels[b], BucketTotals(rs[..i], country, b), 0)
    {
      var e := rs[i];
      if e.country == country {
        // `e.Cuase !== 'All cause'` reads a field no row has, so it never excludes a row.
        forall b: BucketIndex {
          data[b] := data[b].(cells := Add(data[b].cells, e.cause, Bucket(e.bands, b)));
        }
      }
      forall b: BucketIndex ensures data[b] == AgeRow(Labels[b], BucketTotals(rs[..i + 1], country, b), 0) {
        BucketTotalsStep(rs, i, country, b);
      }
    }
    assert rs[..|rs|] == rs;
  }

  /** The zero-fill pass over the ten rows. */
  method FillRows(data: array<AgeRow>, rs: seq<DeathRecord>, country: string, keys: seq<string>)
    requires data.Length == BucketCount
    requires forall b: BucketIndex :: data[b] == AgeRow(Labels[b], BucketTotals(rs, country, b), 0)
    modifies data
    ensures forall b: BucketIndex :: data[b] == Row(rs, country, keys, b)
  {
    for i := 0 to BucketCount
      invariant forall b: BucketIndex :: b < i ==> data[b] == Row(rs, country, keys, b)
      invariant forall b: BucketIndex :: i <= b ==> data[b] == AgeRow(Labels[b], BucketTotals(rs, country, b), 0)
    {
      FillAt(data, i, rs, country, keys);
    }
  }

  /** Row `i` of the zero-fill pass; the other rows stay as they are. */
  method FillAt(data: array<AgeRow>, i: BucketIndex, rs: seq<DeathRecord>, country: string, keys: seq<string>)
    requires data.Length == BucketCount
    requires data[i] == AgeRow(Labels[i], BucketTotals(rs, country, i), 0)
    modifies data
    ensures data[i] == Row(rs, country, keys, i)
    ensures forall b :: 0 <= b < data.Length && b != i ==> data[b] == old(data[b])
  {
    var filled := FillRow(data[i], keys);
    data[i] := filled;
  }

  /** The ten rows, in label order. */
  function Matrix(rs: seq<DeathRecord>, country: string): (rows: seq<AgeRow>)
    ensures |rows| == BucketCount
  {
    seq(BucketCount, (b: int) requires 0 <= b < BucketCount => Row(rs, country, AllCauses(rs), b))
  }

  /** Every cause of the range, of any country, is a key of `AllCauses`, once. */
  lemma AllCausesSpec(rs: seq<DeathRecord>, c: string)
    ensures c in AllCauses(rs) <==> exists i :: 0 <= i < |rs| && rs[i].cause == c
    ensures forall i, j :: 0 <= i < j < |AllCauses(rs)| ==> AllCauses(rs)[i] != AllCauses(rs)[j]
  {
    GroupSumSpec(rs, AnyCause, DeathCount, c);
    if exists i :: 0 <= i < |rs| && rs[i].cause == c {
      var i :| 0 <= i < |rs| && rs[i].cause == c;
      assert AnyCause(rs[i]) == Some(c);
    }
  }

  /** `SumLookups` over the keys of a pass is the sum, key by key, of the rows' values. */
  function SumOverKeys(rs: seq<DeathRecord>, key: DeathRecord -> Option<string>, val: DeathRecord -> nat, keys: seq<string>): nat
  {
    if keys == [] then 0
    else SumOverKeys(rs, key, val, keys[..|keys| - 1]) + SumWhere(rs, key, val, keys[|keys| - 1])
  }

  lemma {:induction false} SumLookupsOfGroupSum(rs: seq<DeathRecord>, key: DeathRecord -> Option<string>, val: DeathRecord -> nat, keys: seq<string>)
    ensures SumLookups(GroupSum(rs, key, val), keys) == SumOverKeys(rs, key, val, keys)
  {
    if keys != [] {
      SumLookupsOfGroupSum(rs, key, val, keys[..|keys| - 1]);
      GroupSumSpec(rs, key, val, keys[|keys| - 1]);
    }
  }

  /** What the first row adds to a sum over `keys`: its value once per occurrence of its key. */
  lemma {:induction false} SumOverKeysFirstRow(rs: seq<DeathRecord>, key: DeathRecord -> Option<string>, val: DeathRecord -> nat, keys: seq<string>)
    requires rs != []
    ensures SumOverKeys(rs, key, val, keys)
         == SumOverKeys(rs[1..], key, val, keys) + FirstRowShare(rs[0], key, val, keys)
  {
    if keys != [] {
      var init, last := keys[..|keys| - 1], keys[|keys| - 1];
      SumOverKeysFirstRow(rs, key, val, init);
      assert SumWhere(rs, key, val, last)
          == (if key(rs[0]) == Some(last) then val(rs[0]) else 0) + SumWhere(rs[1..], key, val, last);
      FirstRowShareStep(rs[0], key, val, keys);
    }
  }

  /** What the first row adds to `SumOverKeys`: its value once per occurrence of its key. */
  function FirstRowShare(r: DeathRecord, key: DeathRecord -> Option<string>, val: DeathRecord -> nat, keys: seq<string>): nat
  {
    if key(r).Some? then multiset(keys)[key(r).value] * val(r) else 0
  }

  lemma FirstRowShareStep(r: DeathRecord, key: DeathRecord -> Option<string>, val: DeathRecord -> nat, keys: seq<string>)
    requires keys != []
    ensures FirstRowShare(r, key, val, keys)
         == FirstRowShare(r, key, val, keys[..|keys| - 1])
            + (if key(r) == Some(keys[|keys| - 1]) then val(r) else 0)
  {
    var init, last := keys[..|keys| - 1], keys[|keys| - 1];
    assert keys == init + [last];
    assert multiset(keys) == multiset(init) + multiset{last};
    if key(r).Some? {
      var k, v := key(r).value, val(r);
      var m := multiset(init)[k];
      if last == k {
        assert multiset(keys)[k] == m + 1;
        assert (m + 1) * v == m * v + v;
      } else {
        assert multiset(keys)[k] == m;
      }
    }
  }

  /** A key of a duplicate-free sequence occurs in it exactly once. */
  lemma {:induction false} OccursOnce(keys: seq<string>, k: string)
    requires forall i, j :: 0 <= i < j < |keys| ==> keys[i] != keys[j]
    requires k in keys
    ensures multiset(keys)[k] == 1
  {
    var init, last := keys[..|keys| - 1], keys[|keys| - 1];
    assert keys == init + [last];
    if last == k {
      assert k !in init by {
        forall i | 0 <= i < |init| ensures init[i] != k {
          assert init[i] == keys[i];
        }
      }
    } else {
      assert k in init by {
        var i :| 0 <= i < |keys| && keys[i] == k;
        assert init[i] == k;
      }
      OccursOnce(init, k);
    }
  }

  /** Summing a pass cause by cause over a duplicate-free list that holds every
      keyed row's cause gives the total of all keyed rows. */
  lemma {:induction false} SumOverKeysCoversAll(rs: seq<DeathRecord>, key: DeathRecord -> Option<string>, val: DeathRecord -> nat, keys: seq<string>)
    requires forall i, j :: 0 <= i < j < |keys| ==> keys[i] != keys[j]
    requires forall i :: 0 <= i < |rs| && key(rs[i]).Some? ==> key(rs[i]).value in keys
    ensures SumOverKeys(rs, key, val, keys) == SumKeyed(rs, key, val)
  {
    if rs == [] {
      if keys != [] {
        SumOverKeysEmptyRows(key, val, keys);
      }
    } else {
      SumOverKeysFirstRow(rs, key, val, keys);
      if key(rs[0]).Some? {
        OccursOnce(keys, key(rs[0]).value);
      }
      SumOverKeysCoversAll(rs[1..], key, val, keys);
    }
  }

  lemma {:induction false} SumOverKeysEmptyRows(key: DeathRecord -> Option<string>, val: DeathRecord -> nat, keys: seq<string>)
    ensures SumOverKeys([], key, val, keys) == 0
  {
    if keys != [] {
      SumOverKeysEmptyRows(key, val, keys[..|keys| - 1]);
    }
  }

  /** Row `b` has a count for every cause of the range and for nothing else; the
      count is the selected country's bucket-`b` deaths for that cause. */
  lemma RowCells(rs: seq<DeathRecord>, country: string, b: BucketIndex, c: string)
    ensures HasKey(Matrix(rs, country)[b].cells, c) <==> exists i :: 0 <= i < |rs| && rs[i].cause == c
    ensures Lookup(Matrix(rs, country)[b].cells, c) == SumWhere(rs, CauseKey(country), BucketValue(b), c)
    ensures Matrix(rs, country)[b].age == Labels[b]
  {
    var keys := AllCauses(rs);
    var counts := BucketTotals(rs, country, b);
    ZeroFillSpec(counts, keys, c);
    AllCausesSpec(rs, c);
    GroupSumSpec(rs, CauseKey(country), BucketValue(b), c);
    if HasKey(counts, c) {
      var i :| 0 <= i < |rs| && CauseKey(country)(rs[i]) == Some(c);
      assert rs[i].cause == c;
    }
  }

  /** Row `b`'s `total` is all of the selected country's bucket-`b` deaths. */
  lemma RowTotal(rs: seq<DeathRecord>, country: string, b: BucketIndex)
    ensures Matrix(rs, country)[b].total == SumKeyed(rs, CauseKey(country), BucketValue(b))
  {
    var keys := AllCauses(rs);
    SumLookupsOfGroupSum(rs, CauseKey(country), BucketValue(b), keys);
    AllCausesSpec(rs, "");
    forall i | 0 <= i < |rs| && CauseKey(country)(rs[i]).Some?
      ensures CauseKey(country)(rs[i]).value in keys
    {
      AllCausesSpec(rs, rs[i].cause);
    }
    SumOverKeysCoversAll(rs, CauseKey(country), BucketValue(b), keys);
  }

  /** The sum of the rows' totals, the height of the whole stack. */
  function GrandTotal(rows: seq<AgeRow>): nat
  {
    if rows == [] then 0 else GrandTotal(rows[..|rows| - 1]) + rows[|rows| - 1].total
  }

  function BandsOf(r: DeathRecord): nat { BandTotal(r.bands) }

  /** The selected country's deaths in the first `m` buckets. */
  function BucketsTotal(rs: seq<DeathRecord>, country: string, m: nat): nat
    requires m <= BucketCount
  {
    if m == 0 then 0 else BucketsTotal(rs, country, m - 1) + SumKeyed(rs, CauseKey(country), BucketValue(m - 1))
  }

  lemma {:induction false} BucketsTotalFirstRow(rs: seq<DeathRecord>, country: string, m: nat)
    requires rs != [] && m <= BucketCount
    ensures BucketsTotal(rs, country, m)
         == BucketsTotal(rs[1..], country, m) + (if rs[0].country == country then BucketsUpTo(rs[0].bands, m) else 0)
  {
    if m > 0 {
      BucketsTotalFirstRow(rs, country, m - 1);
    }
  }

  lemma {:induction false} BucketsTotalIsBands(rs: seq<DeathRecord>, country: string)
    ensures BucketsTotal(rs, country, BucketCount) == SumKeyed(rs, CauseKey(country), BandsOf)
  {
    if rs == [] {
      assert BucketsTotal(rs, country, BucketCount) == 0 by {
        BucketsTotalOfNoRows(country, BucketCount);
      }
    } else {
      BucketsTotalFirstRow(rs, country, BucketCount);
      BucketsPartitionBands(rs[0].bands, BucketCount);
      BucketsTotalIsBands(rs[1..], country);
    }
  }

  lemma {:induction false} BucketsTotalOfNoRows(country: string, m: nat)
    requires m <= BucketCount
    ensures BucketsTotal([], country, m) == 0
  {
    if m > 0 {
      BucketsTotalOfNoRows(country, m - 1);
    }
  }

  lemma {:induction false} GrandTotalOfRows(rs: seq<DeathRecord>, country: string, m: nat)
    requires m <= BucketCount
    ensures GrandTotal(Matrix(rs, country)[..m]) == BucketsTotal(rs, country, m)
  {
    if m > 0 {
      assert Matrix(rs, country)[..m][..m - 1] == Matrix(rs, country)[..m - 1];
      GrandTotalOfRows(rs, country, m - 1);
      RowTotal(rs, country, m - 1);
    }
  }

  /** The whole stack holds every fine-band death of the selected country's
      rows, each exactly once. */
  lemma GrandTotalIsCountryBands(rs: seq<DeathRecord>, country: string)
    ensures GrandTotal(Matrix(rs, country)) == SumKeyed(rs, CauseKey(country), BandsOf)
  {
    GrandTotalOfRows(rs, country, BucketCount);
    assert Matrix(rs, country)[..BucketCount] == Matrix(rs, country);
    BucketsTotalIsBands(rs, country);
  }

  /** When every row's fine bands add up to its deaths at all ages, the stacked
      bars and the cause ranking report the same number of deaths. */
  lemma MatrixMatchesCauseTotals(rs: seq<DeathRecord>, country: string)
    requires forall i :: 0 <= i < |rs| ==> rs[i].deaths == BandTotal(rs[i].bands)
    ensures GrandTotal(Matrix(rs, country)) == Total(CauseTotals(rs, country))
  {
    GrandTotalIsCountryBands(rs, country);
    TotalOfGroupSum(rs, CauseKey(country), DeathCount);
    SumKeyedAgree(rs, CauseKey(country), BandsOf, DeathCount);
  }
}
