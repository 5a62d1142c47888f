/** Sequences without repetitions. */
module Sequences {
  ghost predicate Distinct<T>(s: seq<T>) {
    forall k, l | 0 <= k < l < |s| :: s[k] != s[l]
  }
}

/** Sums over the values of a finite map, for termination measures. */
module Sums {
  ghost function SumOver<K>(s: set<K>, m: map<K, nat>): nat
    requires s <= m.Keys
  {
    if s == {} then 0
    else
      var k :| k in s;
      m[k] + SumOver(s - {k}, m)
  }

  lemma {:induction false} SumPick<K>(s: set<K>, m: map<K, nat>, k: K)
    requires s <= m.Keys && k in s
    ensures SumOver(s, m) == m[k] + SumOver(s - {k}, m)
  {
    var l :| l in s && SumOver(s, m) == m[l] + SumOver(s - {l}, m);
    if l != k {
      SumPick(s - {l}, m, k);
      SumPick(s - {k}, m, l);
      assert s - {l} - {k} == s - {k} - {l};
    }
  }

  lemma {:induction false} SumMonotone<K>(s: set<K>, m: map<K, nat>, m': map<K, nat>)
    requires s <= m.Keys && s <= m'.Keys
    requires forall k | k in s :: m'[k] <= m[k]
    ensures SumOver(s, m') <= SumOver(s, m)
  {
    if s != {} {
      var k :| k in s;
      SumPick(s, m, k);
      SumPick(s, m', k);
      SumMonotone(s - {k}, m, m');
    }
  }

  ghost function Sum<K>(m: map<K, nat>): nat {
    SumOver(m.Keys, m)
  }

  /** A sum whose terms only shrink shrinks when one of them does. */
  lemma SumDecreases<K>(m: map<K, nat>, m': map<K, nat>, k: K)
    requires m.Keys == m'.Keys && k in m
    requires forall l | l in m :: m'[l] <= m[l]
    requires m'[k] < m[k]
    ensures Sum(m') < Sum(m)
  {
    SumPick(m.Keys, m, k);
    SumPick(m.Keys, m', k);
    SumMonotone(m.Keys - {k}, m, m');
  }
}
