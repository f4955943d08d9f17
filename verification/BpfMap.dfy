/**
 * BPF hash maps: a bounded dictionary. `UpdateAny` is `bpf_map_update_elem(.., BPF_ANY)`,
 * which fails silently when the key is new and the map is full; `TryInit` is the map left by
 * `bpf_map_lookup_or_try_init` when no other CPU runs in between.
 */
module BpfMap {
  import opened Machine

  predicate Fits<K, V>(m: map<K, V>, capacity: nat, k: K) { k in m || |m| < capacity }

  function UpdateAny<K, V>(m: map<K, V>, capacity: nat, k: K, v: V): map<K, V> {
    if Fits(m, capacity, k) then m[k := v] else m
  }

  /** Keep an existing value, otherwise store `init` if there is room. */
  function TryInit<K, V>(m: map<K, V>, capacity: nat, k: K, init: V): map<K, V> {
    if k in m then m else UpdateAny(m, capacity, k, init)
  }

  lemma UpdateKeys<K, V>(m: map<K, V>, capacity: nat, k: K, v: V)
    ensures var r := UpdateAny(m, capacity, k, v);
            && r.Keys == (if Fits(m, capacity, k) then m.Keys + {k} else m.Keys)
            && |m| <= |r| <= |m| + 1
            && (|m| <= capacity ==> |r| <= capacity)
  {}

  lemma Subset<T>(a: set<T>, b: set<T>)
    requires a <= b
    ensures |a| <= |b|
  {
    assert b == a + (b - a);
  }

  /** A map that never loses keys, once full, keeps exactly its keys. */
  lemma FullMapIsFrozen<K, V>(m: map<K, V>, m': map<K, V>, capacity: nat)
    requires m.Keys <= m'.Keys && |m| >= capacity && |m'| <= capacity
    ensures m'.Keys == m.Keys
  {
    assert |m'.Keys| == |m'| && |m.Keys| == |m|;
    var extra := m'.Keys - m.Keys;
    assert m'.Keys == m.Keys + extra;
    assert |m'.Keys| == |m.Keys| + |extra|;
  }

  /**
   * The order in which `bpf_map_get_next_key` walks a hash map: every key once.
   */
  ghost predicate IsKeyOrder<K, V>(order: seq<K>, m: map<K, V>) {
    && (forall i, j :: 0 <= i < j < |order| ==> order[i] != order[j])
    && (forall k :: k in order ==> k in m)
    && (forall k :: k in m ==> k in order)
  }

  function IndexOf<K(==)>(order: seq<K>, k: K): (i: nat)
    ensures i <= |order|
    ensures i < |order| ==> order[i] == k
    ensures i == |order| <==> k !in order
    ensures forall j :: 0 <= j < i ==> order[j] != k
  {
    if order == [] then 0 else if order[0] == k then 0 else 1 + IndexOf(order[1..], k)
  }

  /** Where a walk that starts from `k` begins: an absent key starts at the first key. */
  function WalkStart<K(==)>(order: seq<K>, k: K): (i: nat)
    ensures i <= |order|
  {
    if k in order then IndexOf(order, k) + 1 else 0
  }

  /** `bpf_map_get_next_key`: None is ENOENT. */
  function NextKey<K(==)>(order: seq<K>, k: K): (r: Option<K>) {
    var i := WalkStart(order, k);
    if i < |order| then Some(order[i]) else None
  }

  lemma OrderLength<K, V>(order: seq<K>, m: map<K, V>)
    requires IsKeyOrder(order, m)
    ensures |order| == |m|
  {
    var keys := set k | k in order;
    SeqCardinality(order);
    assert keys == m.Keys;
    assert |m| == |m.Keys|;
  }

  lemma {:induction false} SeqCardinality<K>(order: seq<K>)
    requires forall i, j :: 0 <= i < j < |order| ==> order[i] != order[j]
    ensures |set k | k in order| == |order|
  {
    if order != [] {
      var n := |order| - 1;
      SeqCardinality(order[..n]);
      var front := set k | k in order[..n];
      assert (set k | k in order) == front + {order[n]};
      assert order[n] !in order[..n];
    }
  }
}
