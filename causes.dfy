/**
 The per-cause totals of the selected country (`updateBubble` and
 `updateNormalBar` run the same pass) and the bar chart's ranking: the
 totals sorted by count, highest first, with a "top" and a "bottom" window
 cut out of the ranking with `Array.prototype.slice`.
 */
module Causes {
  import opened Records
  import opened Tally

  /** The pass keys a row by its cause when the row belongs to `country`. */
  function CauseKey(country: string): DeathRecord -> Option<string>
  {
    (r: DeathRecord) => if r.country == country then Some(r.cause) else None
  }

  /** `causeData` after the pass: one entry per cause of the country, in first-seen order. */
  function CauseTotals(rs: seq<DeathRecord>, country: string): (t: seq<Entry<string>>)
    ensures DistinctKeys(t)
  {
    GroupSum(rs, CauseKey(country), DeathCount)
  }

  /** Deaths at all ages of the country's rows with this cause. */
  function CauseSum(rs: seq<DeathRecord>, country: string, cause: string): nat
  {
    SumWhere(rs, CauseKey(country), DeathCount, cause)
  }

  predicate HasCause(rs: seq<DeathRecord>, country: string, cause: string)
  {
    exists i :: 0 <= i < |rs| && rs[i].country == country && rs[i].cause == cause
  }

  /** Exactly one entry per cause the country has rows for, holding that cause's total;
      rows of other countries never contribute. */
  lemma CauseTotalsSpec(rs: seq<DeathRecord>, country: string, cause: string)
    ensures DistinctKeys(CauseTotals(rs, country))
    ensures HasKey(CauseTotals(rs, country), cause) <==> HasCause(rs, country, cause)
    ensures Lookup(CauseTotals(rs, country), cause) == CauseSum(rs, country, cause)
  {
    GroupSumSpec(rs, CauseKey(country), DeathCount, cause);
    if HasCause(rs, country, cause) {
      var i :| 0 <= i < |rs| && rs[i].country == country && rs[i].cause == cause;
      assert CauseKey(country)(rs[i]) == Some(cause);
    }
  }

  /** Counts never increase along the sequence. */
  predicate NonIncreasing<K>(s: seq<Entry<K>>)
  {
    forall i, j :: 0 <= i < j < |s| ==> s[i].count >= s[j].count
  }

  /** Reference definition of `data.sort((a, b) => b.Count - a.Count)`, which is
      stable: each entry in turn goes after every earlier entry whose count is
      at least its own, so entries with equal counts keep their order. */
  function SortDesc<K>(s: seq<Entry<K>>): seq<Entry<K>>
  {
    if s == [] then [] else Insert(SortDesc(s[..|s| - 1]), s[|s| - 1])
  }

  /** `x` placed after the last entry of `p` whose count is at least its own. */
  function Insert<K>(p: seq<Entry<K>>, x: Entry<K>): seq<Entry<K>>
  {
    if p == [] || p[|p| - 1].count >= x.count then p + [x]
    else Insert(p[..|p| - 1], x) + [p[|p| - 1]]
  }

  lemma {:induction false} InsertCounts<K>(p: seq<Entry<K>>, x: Entry<K>)
    ensures multiset(Insert(p, x)) == multiset(p) + multiset{x}
  {
    if p != [] && p[|p| - 1].count < x.count {
      InsertCounts(p[..|p| - 1], x);
      assert p == p[..|p| - 1] + [p[|p| - 1]];
    }
  }

  /** Inserting into a non-increasing sequence keeps it non-increasing. */
  lemma {:induction false} InsertSorted<K>(p: seq<Entry<K>>, x: Entry<K>)
    requires NonIncreasing(p)
    ensures NonIncreasing(Insert(p, x))
  {
    if p == [] || p[|p| - 1].count >= x.count {
      AppendSmaller(p, x);
    } else {
      var init, last := p[..|p| - 1], p[|p| - 1];
      InsertSorted(init, x);
      InsertCounts(init, x);
      var r := Insert(init, x);
      forall k | 0 <= k < |r| ensures r[k].count >= last.count {
        assert r[k] in multiset(r);
        if r[k] != x {
          assert r[k] in multiset(init);
          var q :| 0 <= q < |init| && init[q] == r[k];
          assert p[q] == r[k];
        }
      }
      AppendSmaller(r, last);
    }
  }

  lemma AppendSmaller<K>(r: seq<Entry<K>>, e: Entry<K>)
    requires NonIncreasing(r)
    requires forall k :: 0 <= k < |r| ==> r[k].count >= e.count
    ensures NonIncreasing(r + [e])
  {
  }

  /** The sorted sequence holds the same entries, as often as before. */
  lemma {:induction false} SortDescCounts<K>(s: seq<Entry<K>>)
    ensures multiset(SortDesc(s)) == multiset(s)
  {
    if s != [] {
      SortDescCounts(s[..|s| - 1]);
      InsertCounts(SortDesc(s[..|s| - 1]), s[|s| - 1]);
      assert s == s[..|s| - 1] + [s[|s| - 1]];
    }
  }

  /** The counts of the sorted sequence never increase. */
  lemma {:induction false} SortDescSorted<K>(s: seq<Entry<K>>)
    ensures NonIncreasing(SortDesc(s))
  {
    if s != [] {
      SortDescSorted(s[..|s| - 1]);
      InsertSorted(SortDesc(s[..|s| - 1]), s[|s| - 1]);
    }
  }

  /** The entries with count `v`, in order. */
  function Ties<K>(s: seq<Entry<K>>, v: nat): seq<Entry<K>>
  {
    if s == [] then []
    else Ties(s[..|s| - 1], v) + (if s[|s| - 1].count == v then [s[|s| - 1]] else [])
  }

  lemma {:induction false} TiesAppend<K>(s: seq<Entry<K>>, x: Entry<K>, v: nat)
    ensures Ties(s + [x], v) == Ties(s, v) + (if x.count == v then [x] else [])
  {
    assert (s + [x])[..|s|] == s;
  }

  lemma {:induction false} InsertTies<K>(p: seq<Entry<K>>, x: Entry<K>, v: nat)
    ensures Ties(Insert(p, x), v) == Ties(p, v) + (if x.count == v then [x] else [])
  {
    if p == [] || p[|p| - 1].count >= x.count {
      TiesAppend(p, x, v);
    } else {
      var init, last := p[..|p| - 1], p[|p| - 1];
      InsertTies(init, x, v);
      TiesAppend(Insert(init, x), last, v);
    }
  }

  /** The sort is stable: entries with equal counts come out in their input order. */
  lemma {:induction false} SortDescStable<K>(s: seq<Entry<K>>, v: nat)
    ensures Ties(SortDesc(s), v) == Ties(s, v)
  {
    if s != [] {
      SortDescStable(s[..|s| - 1], v);
      InsertTies(SortDesc(s[..|s| - 1]), s[|s| - 1], v);
    }
  }

  /** Two causes with one death each, first seen in the order a, b: the ranking
      keeps that order, so the top window holds b. */
  lemma TiedCausesKeepOrder()
    ensures SortDesc([Entry("a", 1), Entry("b", 1)]) == [Entry("a", 1), Entry("b", 1)]
    ensures TopSlice(SortDesc([Entry("a", 1), Entry("b", 1)])) == [Entry("b", 1)]
  {
    var s := [Entry("a", 1), Entry("b", 1)];
    assert s[..1] == [Entry("a", 1)] && s[..1][..0] == [];
    assert SortDesc(s[..1]) == [Entry("a", 1)];
  }

  /** `data.sort((a, b) => b.Count - a.Count)`, in place (insertion sort). */
  method SortByCountDesc<K>(a: array<Entry<K>>)
    modifies a
    ensures a[..] == SortDesc(old(a[..]))
    ensures NonIncreasing(a[..])
    ensures multiset(a[..]) == multiset(old(a[..]))
  {
    ghost var s := a[..];
    for i := 0 to a.Length
      invariant a[..i] == SortDesc(s[..i])
      invariant a[i..] == s[i..]
    {
      assert s[..i + 1][..i] == s[..i];
      SinkInto(a, i);
    }
    assert a[..] == a[..a.Length] && s == s[..a.Length];
    SortDescSorted(s);
    SortDescCounts(s);
  }

  /** One insertion step: `a[i]` moves left past every smaller count. */
  method SinkInto<K>(a: array<Entry<K>>, i: nat)
    requires i < a.Length
    modifies a
    ensures a[..i + 1] == Insert(old(a[..i]), old(a[i]))
    ensures a[i + 1..] == old(a[i + 1..])
  {
    ghost var p, x, rest := a[..i], a[i], a[i + 1..];
    assert p[..i] == p && p[i..] == [];
    assert a[..] == p[..i] + [x] + p[i..] + rest;
    var j := i;
    while j > 0 && a[j - 1].count < a[j].count
      invariant 0 <= j <= i
      invariant a[..] == p[..j] + [x] + p[j..] + rest
      invariant Insert(p, x) == Insert(p[..j], x) + p[j..]
    {
      assert a[j - 1] == p[j - 1] && a[j] == x;
      InsertStep(p, x, j);
      SwapStep(p, x, rest, j);
      Swap(a, j - 1, j);
      j := j - 1;
    }
    assert a[j] == x;
    InsertDone(p, x, j);
    assert a[..i + 1] == (p[..j] + [x] + p[j..] + rest)[..i + 1];
  }

  /** Moving `x` one place left past a smaller count. */
  lemma InsertStep<K>(p: seq<Entry<K>>, x: Entry<K>, j: nat)
    requires 0 < j <= |p| && p[j - 1].count < x.count
    ensures Insert(p[..j], x) + p[j..] == Insert(p[..j - 1], x) + p[j - 1..]
  {
    assert p[..j][..j - 1] == p[..j - 1];
    assert p[j - 1..] == [p[j - 1]] + p[j..];
  }

  /** Where `x` stops, the insertion is done. */
  lemma InsertDone<K>(p: seq<Entry<K>>, x: Entry<K>, j: nat)
    requires j <= |p| && (j == 0 || p[j - 1].count >= x.count)
    ensures Insert(p[..j], x) == p[..j] + [x]
  {
  }

  /** The exchange of cells `j - 1` and `j` in array terms. */
  lemma SwapStep<K>(p: seq<Entry<K>>, x: Entry<K>, rest: seq<Entry<K>>, j: nat)
    requires 0 < j <= |p|
    ensures (p[..j] + [x] + p[j..] + rest)[j - 1 := x][j := p[j - 1]] == p[..j - 1] + [x] + p[j - 1..] + rest
  {
    var u := p[..j] + [x] + p[j..] + rest;
    var w := p[..j - 1] + [x] + p[j - 1..] + rest;
    assert |u[j - 1 := x][j := p[j - 1]]| == |w|;
    forall k | 0 <= k < |w| ensures u[j - 1 := x][j := p[j - 1]][k] == w[k] {
      if k < j - 1 {
        assert w[k] == p[k] && u[k] == p[k];
      } else if k > j {
        assert w[k] == u[k];
      }
    }
  }

  /** Exchanges two cells; the contents stay a permutation. */
  method Swap<T>(a: array<T>, p: nat, q: nat)
    requires p < a.Length && q < a.Length
    modifies a
    ensures a[..] == old(a[..])[p := old(a[q])][q := old(a[p])]
    ensures multiset(a[..]) == multiset(old(a[..]))
  {
    a[p], a[q] := a[q], a[p];
  }

  /** `Array.prototype.slice(start, end)`: a negative bound counts from the end,
      both bounds are clamped to the array. */
  function JsSlice<T>(s: seq<T>, start: int, end: int): (r: seq<T>)
    ensures |r| <= |s|
  {
    var len := |s|;
    var lo := if start < 0 then (if len + start < 0 then 0 else len + start)
              else (if start < len then start else len);
    var hi := if end < 0 then (if len + end < 0 then 0 else len + end)
              else (if end < len then end else len);
    if lo < hi then s[lo..hi] else s[0..0]
  }

  /** `topData = data.slice(1, 6)`: ranks 1 to 5; rank 0 is skipped. */
  function TopSlice<T>(ranked: seq<T>): (r: seq<T>)
    ensures |r| == if |ranked| <= 1 then 0 else if |ranked| >= 6 then 5 else |ranked| - 1
    ensures forall i :: 0 <= i < |r| ==> i + 1 < |ranked| && r[i] == ranked[i + 1]
  {
    JsSlice(ranked, 1, 6)
  }

  /** `bottomData = data.slice(data.length - 5)`. */
  function BottomSlice<T>(ranked: seq<T>): (r: seq<T>)
    ensures |r| <= 5 && |r| <= |ranked| && r == ranked[|ranked| - |r|..]
  {
    JsSlice(ranked, |ranked| - 5, |ranked|)
  }

  /** The top window is the ranking without its first entry, cut to five. */
  lemma TopSliceShape<T>(ranked: seq<T>)
    ensures |ranked| <= 1 ==> TopSlice(ranked) == []
    ensures 1 < |ranked| <= 6 ==> TopSlice(ranked) == ranked[1..]
    ensures 6 < |ranked| ==> TopSlice(ranked) == ranked[1..6]
  {
  }

  /** The bottom window holds the last five entries of a ranking of at least five;
      for a shorter ranking the negative start counts from the end again, so
      three causes leave the last two and four causes only the last one. */
  lemma BottomSliceShape<T>(ranked: seq<T>)
    ensures 5 <= |ranked| ==> BottomSlice(ranked) == ranked[|ranked| - 5..]
    ensures |ranked| <= 2 ==> BottomSlice(ranked) == ranked
    ensures |ranked| == 3 ==> BottomSlice(ranked) == ranked[1..]
    ensures |ranked| == 4 ==> BottomSlice(ranked) == ranked[3..]
  {
  }

  /** `updateNormalBar`: the pass over the rows, `Object.keys(causeData)` pushed
      into `data`, the in-place sort, and the two windows. */
  method RankCauses(rs: seq<DeathRecord>, country: string) returns (ranked: seq<Entry<string>>, top: seq<Entry<string>>, bottom: seq<Entry<string>>)
    ensures ranked == SortDesc(CauseTotals(rs, country))
    ensures NonIncreasing(ranked)
    ensures multiset(ranked) == multiset(CauseTotals(rs, country))
    ensures DistinctKeys(ranked)
    ensures forall e :: e in ranked ==> e.count == CauseSum(rs, country, e.key) && HasCause(rs, country, e.key)
    ensures forall c :: HasCause(rs, country, c) ==> exists e :: e in ranked && e.key == c
    ensures top == TopSlice(ranked) && bottom == BottomSlice(ranked)
  {
    var causeData := Accumulate(rs, CauseKey(country), DeathCount);
    var data := new Entry<string>[|causeData|](i requires 0 <= i < |causeData| => causeData[i]);
    assert data[..] == causeData;
    SortByCountDesc(data);
    ranked := data[..];
    top := TopSlice(ranked);
    bottom := BottomSlice(ranked);
    RankedEntries(rs, country, ranked);
  }

  /** A reordering of the per-cause dictionary has one entry per cause of the
      country, each holding that cause's deaths. */
  lemma RankedEntries(rs: seq<DeathRecord>, country: string, ranked: seq<Entry<string>>)
    requires multiset(ranked) == multiset(CauseTotals(rs, country))
    ensures DistinctKeys(ranked)
    ensures forall e :: e in ranked ==> e.count == CauseSum(rs, country, e.key) && HasCause(rs, country, e.key)
    ensures forall c :: HasCause(rs, country, c) ==> exists e :: e in ranked && e.key == c
  {
    var causeData := CauseTotals(rs, country);
    PermutationKeepsEntries(ranked, causeData);
    forall e | e in ranked ensures e.count == CauseSum(rs, country, e.key) && HasCause(rs, country, e.key) {
      CauseTotalsSpec(rs, country, e.key);
      var p :| 0 <= p < |causeData| && causeData[p] == e;
      assert HasKey(causeData, e.key) by { assert Keys(causeData)[p] == e.key; }
      LookupAt(causeData, p);
    }
    forall c | HasCause(rs, country, c) ensures exists e :: e in ranked && e.key == c {
      CauseTotalsSpec(rs, country, c);
      var p :| 0 <= p < |causeData| && Keys(causeData)[p] == c;
      assert causeData[p] in ranked;
    }
  }
}
