/** Sums over finite maps from naturals, least key first. */
module Sums {

  ghost function MinKey(keys: set<nat>): (k: nat)
    requires keys != {}
    ensures k in keys && forall j | j in keys :: k <= j
  {
    var x :| x in keys;
    var others := keys - {x};
    assert forall j | j in keys :: j == x || j in others;
    if others == {} then x
    else
      var least := MinKey(others);
      if x < least then x else least
  }

  lemma LeastKey(keys: set<nat>, k: nat)
    requires k in keys && forall j | j in keys :: k <= j
    ensures MinKey(keys) == k
  {
  }

  lemma RemoveShrinks<T>(m: map<nat, T>, k: nat)
    requires k in m
    ensures (m - {k}).Keys == m.Keys - {k} && |m - {k}| < |m|
  {
    assert m.Keys == (m.Keys - {k}) + {k};
  }

  lemma PutThenRemove<T>(m: map<nat, T>, k: nat, v: T)
    requires k !in m
    ensures m[k := v] - {k} == m && m[k := v].Keys == m.Keys + {k}
  {
    assert (m[k := v] - {k}).Keys == m.Keys;
  }

  lemma RemoveThenPut<T>(m: map<nat, T>, k: nat)
    requires k in m
    ensures (m - {k})[k := m[k]] == m
  {
    assert (m - {k})[k := m[k]].Keys == m.Keys;
  }

  lemma RemoveOther<T>(m: map<nat, T>, k: nat, v: T, other: nat)
    requires k != other
    ensures m[k := v] - {other} == (m - {other})[k := v]
  {
    assert (m[k := v] - {other}).Keys == (m - {other})[k := v].Keys;
  }

  ghost function Sum(m: map<nat, nat>): nat
    decreases |m|
  {
    if m.Keys == {} then 0
    else
      var k := MinKey(m.Keys);
      RemoveShrinks(m, k);
      m[k] + Sum(m - {k})
  }

  lemma {:induction false} SumAdd(m: map<nat, nat>, k: nat, v: nat)
    requires k !in m
    ensures Sum(m[k := v]) == Sum(m) + v
    decreases |m|
  {
    var grown := m[k := v];
    var least := MinKey(grown.Keys);
    PutThenRemove(m, k, v);
    if least != k {
      LeastKey(m.Keys, least);
      RemoveShrinks(m, least);
      SumAdd(m - {least}, k, v);
      RemoveOther(m, k, v, least);
    }
  }

  lemma SumRemove(m: map<nat, nat>, k: nat)
    requires k in m
    ensures Sum(m) == Sum(m - {k}) + m[k]
  {
    RemoveThenPut(m, k);
    SumAdd(m - {k}, k, m[k]);
  }

  lemma {:induction false} SumOfSome(m: map<nat, nat>, keys: set<nat>)
    ensures Sum(m - keys) <= Sum(m)
    decreases |m|
  {
    if m.Keys * keys == {} {
      assert (m - keys).Keys == m.Keys;
      assert m - keys == m;
    } else {
      var k :| k in m.Keys * keys;
      SumRemove(m, k);
      RemoveShrinks(m, k);
      SumOfSome(m - {k}, keys);
      RemoveTwice(m, k, keys);
    }
  }

  lemma {:induction false} SumAtMost(m: map<nat, nat>, bound: nat)
    requires forall k | k in m :: m[k] <= bound
    ensures Sum(m) <= |m| * bound
    decreases |m|
  {
    if m.Keys != {} {
      var k := MinKey(m.Keys);
      RemoveShrinks(m, k);
      RemoveOne(m, k);
      SumAtMost(m - {k}, bound);
      OneMore(|m - {k}|, bound);
    }
  }

  lemma OneMore(n: nat, bound: nat)
    ensures (n + 1) * bound == n * bound + bound
  {
  }

  lemma RemoveOne<T>(m: map<nat, T>, k: nat)
    requires k in m
    ensures |m - {k}| == |m| - 1
  {
    assert (m - {k}).Keys == m.Keys - {k};
    assert |m - {k}| == |(m - {k}).Keys| && |m| == |m.Keys|;
  }

  lemma RemoveTwice<T>(m: map<nat, T>, k: nat, keys: set<nat>)
    requires k in keys
    ensures (m - {k}) - keys == m - keys
  {
    assert ((m - {k}) - keys).Keys == (m - keys).Keys;
  }
}
