/** Sums over the entries of a map, independent of the order in which they are taken. */
module Sums {

  ghost function Sum<K, V>(m: map<K, V>, w: (K, V) -> nat): nat
    decreases |m|
  {
    if m.Keys == {} then 0
    else
      var k :| k in m;
      w(k, m[k]) + Sum(m - {k}, w)
  }

  /** Any entry may be taken out first. */
  lemma {:induction false} SumRemove<K, V>(m: map<K, V>, w: (K, V) -> nat, k: K)
    requires k in m
    ensures Sum(m, w) == w(k, m[k]) + Sum(m - {k}, w)
    decreases |m|
  {
    var j :| j in m && Sum(m, w) == w(j, m[j]) + Sum(m - {j}, w);
    if j != k {
      SumRemove(m - {j}, w, k);
      SumRemove(m - {k}, w, j);
      assert m - {j} - {k} == m - {k} - {j};
    }
  }

  lemma {:induction false} SumUpdate<K, V>(m: map<K, V>, w: (K, V) -> nat, k: K, v: V)
    ensures Sum(m[k := v], w) == w(k, v) + Sum(m - {k}, w)
  {
    SumRemove(m[k := v], w, k);
    assert m[k := v] - {k} == m - {k};
  }

  lemma {:induction false} DropTogether<K, V>(m: map<K, V>, part: map<K, V>, k: K)
    requires k in part
    ensures m - {k} - (part - {k}).Keys == m - part.Keys
  {
  }

  /** A map's sum is that of any part of it and that of the rest. */
  lemma {:induction false} SumSplit<K, V>(m: map<K, V>, part: map<K, V>, w: (K, V) -> nat)
    requires part.Keys <= m.Keys && forall k :: k in part ==> part[k] == m[k]
    ensures Sum(m, w) == Sum(part, w) + Sum(m - part.Keys, w)
    decreases |part|
  {
    if part.Keys == {} {
      assert m - part.Keys == m;
    } else {
      var k :| k in part;
      SumRemove(part, w, k);
      SumRemove(m, w, k);
      SumSplit(m - {k}, part - {k}, w);
      DropTogether(m, part, k);
    }
  }
}
