/** The sum of a weight over the values of a map, independent of the order of summation. */
module MapSum {
  ghost function Pick<K, V>(m: map<K, V>): (k: K)
    requires |m| != 0
    ensures k in m
  {
    assert m.Keys != {};
    var k :| k in m; k
  }

  ghost function Sum<K, V>(m: map<K, V>, weight: V -> int): int
    decreases |m|
  {
    if |m| == 0 then 0
    else
      var k := Pick(m);
      Shrinks(m, k);
      weight(m[k]) + Sum(m - {k}, weight)
  }

  lemma Shrinks<K, V>(m: map<K, V>, k: K)
    requires k in m
    ensures |m - {k}| == |m| - 1
  {}

  lemma {:induction false} Remove<K, V>(m: map<K, V>, weight: V -> int, k: K)
    requires k in m
    ensures Sum(m, weight) == weight(m[k]) + Sum(m - {k}, weight)
    decreases |m|
  {
    var c := Pick(m);
    if c != k {
      Shrinks(m, k);
      Shrinks(m, c);
      Remove(m - {c}, weight, k);
      Remove(m - {k}, weight, c);
      assert m - {c} - {k} == m - {k} - {c};
    }
  }

  /** Storing `v` under `k` replaces the weight of what was there. */
  lemma Store<K, V>(m: map<K, V>, weight: V -> int, k: K, v: V)
    ensures Sum(m[k := v], weight) == Sum(m - {k}, weight) + weight(v)
    ensures k !in m ==> Sum(m[k := v], weight) == Sum(m, weight) + weight(v)
    ensures k in m ==> Sum(m[k := v], weight) == Sum(m, weight) - weight(m[k]) + weight(v)
  {
    hide Sum;
    Remove(m[k := v], weight, k);
    assert m[k := v] - {k} == m - {k};
    if k in m { Remove(m, weight, k); } else { assert m - {k} == m; }
  }

  lemma {:induction false} Zero<K, V>(m: map<K, V>, weight: V -> int)
    requires forall k :: k in m ==> weight(m[k]) == 0
    ensures Sum(m, weight) == 0
    decreases |m|
  {
    if |m| != 0 {
      var k := Pick(m);
      Shrinks(m, k);
      Remove(m, weight, k);
      Zero(m - {k}, weight);
    }
  }

  lemma {:induction false} NonNegative<K, V>(m: map<K, V>, weight: V -> int)
    requires forall k :: k in m ==> weight(m[k]) >= 0
    ensures Sum(m, weight) >= 0
    ensures forall k :: k in m ==> weight(m[k]) <= Sum(m, weight)
    decreases |m|
  {
    forall k | k in m ensures 0 <= weight(m[k]) <= Sum(m, weight) {
      Shrinks(m, k);
      Remove(m, weight, k);
      NonNegative(m - {k}, weight);
    }
    if |m| != 0 { var k := Pick(m); }
  }

  /** A weight that is a linear combination of two others sums to the same combination. */
  lemma {:induction false} Linear<K, V>(m: map<K, V>, f: V -> int, c: int, g: V -> int, h: V -> int)
    requires forall k :: k in m ==> f(m[k]) == c * g(m[k]) + h(m[k])
    ensures Sum(m, f) == c * Sum(m, g) + Sum(m, h)
    decreases |m|
  {
    if |m| == 0 {
      assert c * 0 == 0;
    } else {
      var k := Pick(m);
      Shrinks(m, k);
      Linear(m - {k}, f, c, g, h);
      assert c * (g(m[k]) + Sum(m - {k}, g)) == c * g(m[k]) + c * Sum(m - {k}, g);
    }
  }

  /** The same for the elements of a sequence. */
  function SeqSum<V>(vs: seq<V>, weight: V -> int): int {
    if vs == [] then 0 else SeqSum(vs[..|vs| - 1], weight) + weight(vs[|vs| - 1])
  }

  lemma SeqAppend<V>(vs: seq<V>, v: V, weight: V -> int)
    ensures SeqSum(vs + [v], weight) == SeqSum(vs, weight) + weight(v)
  {}

  lemma {:induction false} SeqZero<V>(vs: seq<V>, weight: V -> int)
    requires forall v :: v in vs ==> weight(v) == 0
    ensures SeqSum(vs, weight) == 0
  {
    if vs != [] { SeqZero(vs[..|vs| - 1], weight); }
  }

  lemma {:induction false} SeqCombine<V>(vs: seq<V>, f: V -> int, g: V -> int, h: V -> int)
    requires forall v :: v in vs ==> f(v) == g(v) + h(v)
    ensures SeqSum(vs, f) == SeqSum(vs, g) + SeqSum(vs, h)
  {
    if vs != [] { SeqCombine(vs[..|vs| - 1], f, g, h); }
  }

  lemma CountAppend<V>(vs: seq<V>, v: V, w: V)
    ensures multiset(vs + [v])[w] == multiset(vs)[w] + if v == w then 1 else 0
  {}
}
