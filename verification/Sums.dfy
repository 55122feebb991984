/** Sums over the entries of a map, in no particular order. */
module Sums {
  /** The sum of `weight` over all entries. */
  ghost function SumOf<K, V>(m: map<K, V>, weight: (K, V) -> nat): nat
    decreases |m|
  {
    if m == map[] then 0
    else
      var k :| k in m;
      assert |m - {k}| < |m| by { SizeWithout(m, k); }
      weight(k, m[k]) + SumOf(m - {k}, weight)
  }

  lemma SizeWithout<K, V>(m: map<K, V>, k: K)
    requires k in m
    ensures |m - {k}| == |m| - 1
  {
    assert (m - {k}).Keys == m.Keys - {k};
  }

  /** Any entry can be taken out first. */
  lemma {:induction false} SumWithout<K, V>(m: map<K, V>, weight: (K, V) -> nat, k: K)
    requires k in m
    ensures SumOf(m, weight) == weight(k, m[k]) + SumOf(m - {k}, weight)
    decreases |m|
  {
    var j :| j in m && SumOf(m, weight) == weight(j, m[j]) + SumOf(m - {j}, weight);
    if j != k {
      SizeWithout(m, j);
      SizeWithout(m, k);
      SumWithout(m - {j}, weight, k);
      SumWithout(m - {k}, weight, j);
      assert m - {j} - {k} == m - {k} - {j};
    }
  }

  lemma SumInsert<K, V>(m: map<K, V>, weight: (K, V) -> nat, k: K, v: V)
    requires k !in m
    ensures SumOf(m[k := v], weight) == SumOf(m, weight) + weight(k, v)
  {
    SumWithout(m[k := v], weight, k);
    assert m[k := v] - {k} == m;
  }

  lemma SumUpdate<K, V>(m: map<K, V>, weight: (K, V) -> nat, k: K, v: V)
    requires k in m
    ensures SumOf(m[k := v], weight) + weight(k, m[k]) == SumOf(m, weight) + weight(k, v)
  {
    SumWithout(m, weight, k);
    SumWithout(m[k := v], weight, k);
    assert m[k := v] - {k} == m - {k};
  }

  lemma {:induction false} SumPointwise<K, V>(m: map<K, V>, w: (K, V) -> nat, w': (K, V) -> nat)
    requires forall k :: k in m ==> w(k, m[k]) == w'(k, m[k])
    ensures SumOf(m, w) == SumOf(m, w')
    decreases |m|
  {
    if m != map[] {
      var k :| k in m;
      SumWithout(m, w, k);
      SumWithout(m, w', k);
      SizeWithout(m, k);
      SumPointwise(m - {k}, w, w');
    }
  }

  lemma {:induction false} SumPlus<K, V>(m: map<K, V>, a: (K, V) -> nat, b: (K, V) -> nat, sum: (K, V) -> nat)
    requires forall k :: k in m ==> sum(k, m[k]) == a(k, m[k]) + b(k, m[k])
    ensures SumOf(m, sum) == SumOf(m, a) + SumOf(m, b)
    decreases |m|
  {
    if m != map[] {
      var k :| k in m;
      SumWithout(m, a, k);
      SumWithout(m, b, k);
      SumWithout(m, sum, k);
      SizeWithout(m, k);
      SumPlus(m - {k}, a, b, sum);
    }
  }

  /** `counts.get(k, 0)` */
  function Get<K>(counts: map<K, nat>, k: K): nat {
    if k in counts then counts[k] else 0
  }

  function Amount<K>(k: K, n: nat): nat {
    n
  }

  ghost function Total<K>(counts: map<K, nat>): nat {
    SumOf<K, nat>(counts, Amount<K>)
  }

  /** `counts[k] = counts.get(k, 0) + n` adds `n` to the total. */
  lemma TotalAfterAdding<K>(counts: map<K, nat>, k: K, n: nat)
    ensures Total(counts[k := Get(counts, k) + n]) == Total(counts) + n
  {
    if k in counts {
      SumUpdate<K, nat>(counts, Amount<K>, k, counts[k] + n);
    } else {
      SumInsert<K, nat>(counts, Amount<K>, k, n);
    }
  }
}
