/**
 The year-range filter `updateData` applies to both loaded record lists
 (`Array.prototype.filter` with the test `Year >= yearsFrom && Year <= yearsTo`).
 */
module YearFilter {
  import opened Records

  /** `Array.prototype.filter`: the elements that pass `keep`, in their original order. */
  function Filter<T(!new)>(s: seq<T>, keep: T -> bool): (r: seq<T>)
    ensures forall x :: x in r <==> x in s && keep(x)
    ensures forall i :: 0 <= i < |r| ==> keep(r[i])
  {
    if s == [] then []
    else
      var rest := Filter(s[1..], keep);
      assert s == [s[0]] + s[1..];
      if keep(s[0]) then [s[0]] + rest else rest
  }

  /** Every element that passes occurs as often as before; the others are gone. */
  lemma {:induction false} FilterCounts<T(!new)>(s: seq<T>, keep: T -> bool)
    ensures forall x :: multiset(Filter(s, keep))[x] == if keep(x) then multiset(s)[x] else 0
  {
    if s != [] {
      FilterCounts(s[1..], keep);
      assert s == [s[0]] + s[1..];
      assert multiset(s) == multiset{s[0]} + multiset(s[1..]);
    }
  }

  /** The kept elements stay in their original order. */
  lemma {:induction false} FilterKeepsOrder<T(!new)>(s: seq<T>, keep: T -> bool)
    ensures IsSubsequence(Filter(s, keep), s)
  {
    if s != [] {
      FilterKeepsOrder(s[1..], keep);
      var rest := Filter(s[1..], keep);
      if keep(s[0]) {
        assert Filter(s, keep)[1..] == rest;
      } else if rest != [] {
        assert keep(rest[0]);
        assert rest[0] != s[0];
      }
    }
  }

  /** `r` can be obtained from `s` by deleting elements: order is kept. */
  predicate IsSubsequence<T(==)>(r: seq<T>, s: seq<T>)
  {
    if r == [] then true
    else if s == [] then false
    else if r[0] == s[0] then IsSubsequence(r[1..], s[1..])
    else IsSubsequence(r, s[1..])
  }

  lemma {:induction false} FilterAppend<T(!new)>(s: seq<T>, x: T, keep: T -> bool)
    ensures Filter(s + [x], keep) == Filter(s, keep) + (if keep(x) then [x] else [])
  {
    if s == [] {
      assert s + [x] == [x];
    } else {
      assert (s + [x])[0] == s[0];
      assert (s + [x])[1..] == s[1..] + [x];
      FilterAppend(s[1..], x, keep);
    }
  }

  /** Both bounds inclusive. */
  predicate InRange(year: int, yearsFrom: int, yearsTo: int)
  {
    yearsFrom <= year && year <= yearsTo
  }

  /** `populationData.filter(e => e.Year >= yearsFrom && e.Year <= yearsTo)` */
  function FilterPopulation(rs: seq<PopulationRecord>, yearsFrom: int, yearsTo: int): (r: seq<PopulationRecord>)
    ensures forall x :: x in r <==> x in rs && InRange(x.year, yearsFrom, yearsTo)
    ensures forall x :: multiset(r)[x] == if InRange(x.year, yearsFrom, yearsTo) then multiset(rs)[x] else 0
    ensures IsSubsequence(r, rs)
  {
    var inRange := (x: PopulationRecord) => InRange(x.year, yearsFrom, yearsTo);
    FilterCounts(rs, inRange);
    FilterKeepsOrder(rs, inRange);
    Filter(rs, inRange)
  }

  /** `deathData.filter(e => e.Year >= yearsFrom && e.Year <= yearsTo)`: the same test as for population. */
  function FilterDeaths(rs: seq<DeathRecord>, yearsFrom: int, yearsTo: int): (r: seq<DeathRecord>)
    ensures forall x :: x in r <==> x in rs && InRange(x.year, yearsFrom, yearsTo)
    ensures forall x :: multiset(r)[x] == if InRange(x.year, yearsFrom, yearsTo) then multiset(rs)[x] else 0
    ensures IsSubsequence(r, rs)
  {
    var inRange := (x: DeathRecord) => InRange(x.year, yearsFrom, yearsTo);
    FilterCounts(rs, inRange);
    FilterKeepsOrder(rs, inRange);
    Filter(rs, inRange)
  }

  /** A record dated exactly at either bound is kept; one a year before the start is dropped. */
  lemma BoundsInclusive(rs: seq<DeathRecord>, r: DeathRecord, yearsFrom: int, yearsTo: int)
    requires r in rs && yearsFrom <= yearsTo
    ensures r.year == yearsFrom ==> r in FilterDeaths(rs, yearsFrom, yearsTo)
    ensures r.year == yearsTo ==> r in FilterDeaths(rs, yearsFrom, yearsTo)
    ensures r.year == yearsFrom - 1 ==> r !in FilterDeaths(rs, yearsFrom, yearsTo)
  {
  }
}
