/**
 The group-by-sum every view builds: a JS object used as a dictionary,
 filled by `obj[k] = +value + (obj[k] ? obj[k] : 0)` inside a pass over the
 filtered rows. A JS object enumerates its (non-numeric) keys in the order
 they were first assigned, so the dictionary is an association list whose
 new keys go last.
 */
module Tally {
  import opened Records

  datatype Entry<K> = Entry(key: K, count: nat)

  /** `Object.keys(obj)` */
  function Keys<K>(t: seq<Entry<K>>): (ks: seq<K>)
    ensures |ks| == |t| && forall i :: 0 <= i < |t| ==> ks[i] == t[i].key
  {
    if t == [] then [] else [t[0].key] + Keys(t[1..])
  }

  predicate HasKey<K(==,!new)>(t: seq<Entry<K>>, k: K)
  {
    k in Keys(t)
  }

  predicate DistinctKeys<K(==,!new)>(t: seq<Entry<K>>)
  {
    forall i, j :: 0 <= i < j < |t| ==> t[i].key != t[j].key
  }

  /** `obj[k] ? obj[k] : 0`: the count under `k`, 0 when the key is absent. */
  function Lookup<K(==,!new)>(t: seq<Entry<K>>, k: K): (n: nat)
    ensures !HasKey(t, k) ==> n == 0
  {
    if t == [] then 0
    else if t[0].key == k then t[0].count
    else Lookup(t[1..], k)
  }

  /** `obj[k] = n + (obj[k] ? obj[k] : 0)`: an existing key keeps its place,
      a new key is appended. */
  function Add<K(==,!new)>(t: seq<Entry<K>>, k: K, n: nat): (r: seq<Entry<K>>)
    ensures Keys(r) == if HasKey(t, k) then Keys(t) else Keys(t) + [k]
    ensures forall j :: Lookup(r, j) == Lookup(t, j) + (if j == k then n else 0)
  {
    if t == [] then [Entry(k, n)]
    else if t[0].key == k then
      var r := [Entry(k, t[0].count + n)] + t[1..];
      assert r[1..] == t[1..];
      r
    else
      var rest := Add(t[1..], k, n);
      var r := [t[0]] + rest;
      assert r[1..] == rest;
      r
  }

  /** Adding never introduces a second entry for a key. */
  lemma AddKeepsDistinct<K(!new)>(t: seq<Entry<K>>, k: K, n: nat)
    requires DistinctKeys(t)
    ensures DistinctKeys(Add(t, k, n))
  {
    var r := Add(t, k, n);
    forall i, j | 0 <= i < j < |r| ensures r[i].key != r[j].key {
      assert Keys(r)[i] == r[i].key && Keys(r)[j] == r[j].key;
      if j < |t| {
        assert Keys(t)[i] == t[i].key && Keys(t)[j] == t[j].key;
      } else {
        assert Keys(t)[i] == t[i].key;
      }
    }
  }

  /** The dictionary a pass over `rs` builds: a row whose key is `Some(k)` adds
      `val` of the row under `k`; a row whose key is `None` is skipped. */
  function GroupSum<R, K(==,!new)>(rs: seq<R>, key: R -> Option<K>, val: R -> nat): (t: seq<Entry<K>>)
    ensures DistinctKeys(t)
  {
    if rs == [] then []
    else
      var t := GroupSum(rs[..|rs| - 1], key, val);
      match key(rs[|rs| - 1])
      case None => t
      case Some(k) => AddKeepsDistinct(t, k, val(rs[|rs| - 1])); Add(t, k, val(rs[|rs| - 1]))
  }

  /** Reference definition: the total of `val` over the rows whose key is `Some(k)`. */
  function SumWhere<R, K(==,!new)>(rs: seq<R>, key: R -> Option<K>, val: R -> nat, k: K): nat
  {
    if rs == [] then 0
    else (if key(rs[0]) == Some(k) then val(rs[0]) else 0) + SumWhere(rs[1..], key, val, k)
  }

  /** Total of all counts of a dictionary. */
  function Total<K>(t: seq<Entry<K>>): nat
  {
    if t == [] then 0 else t[0].count + Total(t[1..])
  }

  lemma {:induction false} SumWhereAppend<R, K(!new)>(rs: seq<R>, r: R, key: R -> Option<K>, val: R -> nat, k: K)
    ensures SumWhere(rs + [r], key, val, k)
         == SumWhere(rs, key, val, k) + (if key(r) == Some(k) then val(r) else 0)
  {
    if rs == [] {
      assert rs + [r] == [r];
    } else {
      assert (rs + [r])[0] == rs[0];
      assert (rs + [r])[1..] == rs[1..] + [r];
      SumWhereAppend(rs[1..], r, key, val, k);
    }
  }

  /** No row keyed `Some(k)`, nothing summed under `k`. */
  lemma {:induction false} SumWhereNone<R, K(!new)>(rs: seq<R>, key: R -> Option<K>, val: R -> nat, k: K)
    requires forall i :: 0 <= i < |rs| ==> key(rs[i]) != Some(k)
    ensures SumWhere(rs, key, val, k) == 0
  {
    if rs != [] {
      assert key(rs[0]) != Some(k);
      SumWhereNone(rs[1..], key, val, k);
    }
  }

  /** The dictionary holds exactly the keys some row carries, and under each
      key the total of that key's rows. */
  lemma {:induction false} GroupSumSpec<R, K(!new)>(rs: seq<R>, key: R -> Option<K>, val: R -> nat, k: K)
    ensures Lookup(GroupSum(rs, key, val), k) == SumWhere(rs, key, val, k)
    ensures HasKey(GroupSum(rs, key, val), k) <==> exists i :: 0 <= i < |rs| && key(rs[i]) == Some(k)
  {
    if rs != [] {
      var init, last := rs[..|rs| - 1], rs[|rs| - 1];
      assert rs == init + [last];
      GroupSumSpec(init, key, val, k);
      SumWhereAppend(init, last, key, val, k);
      if exists i :: 0 <= i < |rs| && key(rs[i]) == Some(k) {
        var i :| 0 <= i < |rs| && key(rs[i]) == Some(k);
        if i < |rs| - 1 {
          assert key(init[i]) == Some(k);
        }
      }
    }
  }

  /** The loop of the views: one pass over the rows, updating the dictionary in place. */
  method Accumulate<R, K(==,!new)>(rs: seq<R>, key: R -> Option<K>, val: R -> nat) returns (t: seq<Entry<K>>)
    ensures t == GroupSum(rs, key, val)
  {
    t := [];
    for i := 0 to |rs|
      invariant t == GroupSum(rs[..i], key, val)
    {
      assert rs[..i + 1][..i] == rs[..i];
      match key(rs[i]) {
        case Some(k) => t := Add(t, k, val(rs[i]));
        case None =>
      }
    }
    assert rs[..|rs|] == rs;
  }

  /** Permuting a dictionary's entries keeps its entries, so also its key set
      and the distinctness of its keys. */
  lemma {:induction false} PermutationKeepsEntries<K(!new)>(a: seq<Entry<K>>, b: seq<Entry<K>>)
    requires multiset(a) == multiset(b)
    requires DistinctKeys(b)
    ensures DistinctKeys(a)
    ensures forall e :: e in a <==> e in b
  {
    forall e ensures e in a <==> e in b {
      assert e in a <==> e in multiset(a);
      assert e in b <==> e in multiset(b);
    }
    forall i, j | 0 <= i < j < |a| ensures a[i].key != a[j].key {
      if a[i].key == a[j].key {
        assert a[i] in b && a[j] in b;
        var p :| 0 <= p < |b| && b[p] == a[i];
        var q :| 0 <= q < |b| && b[q] == a[j];
        assert p == q;
        TwiceCounted(a, i, j);
        NoDuplicates(b, p);
        assert false;
      }
    }
  }

  /** An element found at two positions is counted at least twice. */
  lemma TwiceCounted<T>(s: seq<T>, i: nat, j: nat)
    requires i < j < |s| && s[i] == s[j]
    ensures multiset(s)[s[i]] >= 2
  {
    var left, mid, right := s[..i], s[i + 1..j], s[j + 1..];
    assert s == left + [s[i]] + mid + [s[j]] + right;
    assert multiset(s) == multiset(left) + multiset{s[i]} + multiset(mid) + multiset{s[j]} + multiset(right);
  }

  /** An entry of a dictionary with distinct keys occurs exactly once. */
  lemma {:induction false} NoDuplicates<K(!new)>(b: seq<Entry<K>>, p: nat)
    requires DistinctKeys(b) && p < |b|
    ensures multiset(b)[b[p]] == 1
  {
    if p == 0 {
      assert b == [b[0]] + b[1..];
      assert b[0] !in b[1..] by {
        forall k | 0 <= k < |b| - 1 ensures b[1..][k] != b[0] {
          assert b[1..][k].key == b[k + 1].key;
        }
      }
    } else {
      assert b == [b[0]] + b[1..];
      assert b[1..][p - 1] == b[p];
      assert DistinctKeys(b[1..]) by {
        forall i, j | 0 <= i < j < |b| - 1 ensures b[1..][i].key != b[1..][j].key {
          assert b[1..][i] == b[i + 1] && b[1..][j] == b[j + 1];
        }
      }
      NoDuplicates(b[1..], p - 1);
      assert b[0] != b[p] by { assert b[0].key != b[p].key; }
    }
  }

  /** In a dictionary with distinct keys, the lookup of an entry's key gives its count. */
  lemma {:induction false} LookupAt<K(!new)>(t: seq<Entry<K>>, p: nat)
    requires DistinctKeys(t) && p < |t|
    ensures Lookup(t, t[p].key) == t[p].count
  {
    if p > 0 {
      assert t[0].key != t[p].key;
      assert t[1..][p - 1] == t[p];
      assert DistinctKeys(t[1..]) by {
        forall i, j | 0 <= i < j < |t| - 1 ensures t[1..][i].key != t[1..][j].key {
          assert t[1..][i] == t[i + 1] && t[1..][j] == t[j + 1];
        }
      }
      LookupAt(t[1..], p - 1);
    }
  }

  /** Adding under a key the dictionary lacks appends one entry. */
  lemma {:induction false} AddNewKeyAppends<K(!new)>(t: seq<Entry<K>>, k: K, n: nat)
    requires !HasKey(t, k)
    ensures Add(t, k, n) == t + [Entry(k, n)]
  {
    if t != [] {
      assert t[0].key != k;
      assert Keys(t) == [t[0].key] + Keys(t[1..]);
      AddNewKeyAppends(t[1..], k, n);
      assert t == [t[0]] + t[1..];
    }
  }

  /** Reference definition: the total of `val` over every row that carries a key. */
  function SumKeyed<R, K>(rs: seq<R>, key: R -> Option<K>, val: R -> nat): nat
  {
    if rs == [] then 0
    else (if key(rs[0]).Some? then val(rs[0]) else 0) + SumKeyed(rs[1..], key, val)
  }

  lemma {:induction false} SumKeyedAppend<R, K>(rs: seq<R>, r: R, key: R -> Option<K>, val: R -> nat)
    ensures SumKeyed(rs + [r], key, val) == SumKeyed(rs, key, val) + (if key(r).Some? then val(r) else 0)
  {
    if rs == [] {
      assert rs + [r] == [r];
    } else {
      assert (rs + [r])[0] == rs[0];
      assert (rs + [r])[1..] == rs[1..] + [r];
      SumKeyedAppend(rs[1..], r, key, val);
    }
  }

  lemma {:induction false} TotalOfAdd<K(!new)>(t: seq<Entry<K>>, k: K, n: nat)
    ensures Total(Add(t, k, n)) == Total(t) + n
  {
    if t != [] && t[0].key != k {
      TotalOfAdd(t[1..], k, n);
      assert Add(t, k, n)[1..] == Add(t[1..], k, n);
    } else if t != [] {
      assert Add(t, k, n)[1..] == t[1..];
    }
  }

  /** The dictionary's counts add up to the values of all keyed rows: nothing
      is lost or counted twice. */
  lemma {:induction false} TotalOfGroupSum<R, K(!new)>(rs: seq<R>, key: R -> Option<K>, val: R -> nat)
    ensures Total(GroupSum(rs, key, val)) == SumKeyed(rs, key, val)
  {
    if rs != [] {
      var init, last := rs[..|rs| - 1], rs[|rs| - 1];
      assert rs == init + [last];
      TotalOfGroupSum(init, key, val);
      SumKeyedAppend(init, last, key, val);
      if key(last).Some? {
        TotalOfAdd(GroupSum(init, key, val), key(last).value, val(last));
      }
    }
  }

  /** Two value functions that agree on the rows give the same total. */
  lemma {:induction false} SumKeyedAgree<R, K>(rs: seq<R>, key: R -> Option<K>, v1: R -> nat, v2: R -> nat)
    requires forall i :: 0 <= i < |rs| ==> v1(rs[i]) == v2(rs[i])
    ensures SumKeyed(rs, key, v1) == SumKeyed(rs, key, v2)
  {
    if rs != [] {
      assert v1(rs[0]) == v2(rs[0]);
      SumKeyedAgree(rs[1..], key, v1, v2);
    }
  }
}
