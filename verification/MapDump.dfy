/**
 * Dumping a BPF hash map from user space, key by key or in batches, with or without deleting what
 * was read. The kernel side is a hash table: keys are walked bucket by bucket, and a batch call
 * returns whole buckets only, failing with ENOSPC when not even one fits.
 */
module MapDump {
  import opened Machine
  import opened BpfMap

  type Key = u64
  type Val = u64

  datatype Entry = Entry(key: Key, val: Val)
  datatype Errno = EOk | ENOENT | ENOSPC | EINVAL

  function Flat(bs: seq<seq<Entry>>): seq<Entry> {
    if bs == [] then [] else bs[0] + Flat(bs[1..])
  }

  function KeysOf(es: seq<Entry>): (ks: seq<Key>)
    ensures |ks| == |es| && forall i :: 0 <= i < |es| ==> ks[i] == es[i].key
  {
    if es == [] then [] else [es[0].key] + KeysOf(es[1..])
  }

  ghost predicate Distinct(es: seq<Entry>) { forall i, j :: 0 <= i < j < |es| ==> es[i].key != es[j].key }

  /** The map a list of entries stands for. */
  ghost function MapOf(es: seq<Entry>): map<Key, Val>
    requires Distinct(es)
  {
    map e | e in es :: e.key := e.val
  }

  /** The entries that are left when the given keys are gone. */
  function Without(es: seq<Entry>, ks: seq<Key>): seq<Entry> {
    if es == [] then [] else (if es[0].key in ks then [] else [es[0]]) + Without(es[1..], ks)
  }

  function WithoutKeys(bs: seq<seq<Entry>>, ks: seq<Key>): (r: seq<seq<Entry>>)
    ensures |r| == |bs|
  {
    if bs == [] then [] else [Without(bs[0], ks)] + WithoutKeys(bs[1..], ks)
  }

  // ---------- the kernel's side ----------

  /** The first bucket from `from` on that no longer fits in `n` entries, or the end. */
  function Reach(bs: seq<seq<Entry>>, from: nat, n: nat): (r: nat)
    requires from <= |bs|
    ensures from <= r <= |bs|
    decreases |bs| - from
  {
    if from == |bs| || |bs[from]| > n then from else Reach(bs, from + 1, n - |bs[from]|)
  }

  /** The buckets [from, till) emptied. */
  function Emptied(bs: seq<seq<Entry>>, from: nat, till: nat): (r: seq<seq<Entry>>)
    requires from <= till <= |bs|
    ensures |r| == |bs| && forall i :: 0 <= i < |bs| ==> r[i] == if from <= i < till then [] else bs[i]
  {
    seq(|bs|, i requires 0 <= i < |bs| => if from <= i < till then [] else bs[i])
  }

  class Kernel {
    var buckets: seq<seq<Entry>>
    const batchSupported: bool

    constructor (buckets: seq<seq<Entry>>, batchSupported: bool)
      ensures this.buckets == buckets && this.batchSupported == batchSupported
    {
      this.buckets, this.batchSupported := buckets, batchSupported;
    }

    method GetNextKey(key: Key) returns (next: Option<Key>)
      ensures next == NextKey(KeysOf(Flat(buckets)), key)
    {
      next := NextKey(KeysOf(Flat(buckets)), key);
    }

    method LookupElem(key: Key) returns (val: Option<Val>)
      requires Distinct(Flat(buckets))
      ensures forall i :: 0 <= i < |Flat(buckets)| && Flat(buckets)[i].key == key ==> val == Some(Flat(buckets)[i].val)
      ensures val.Some? ==> Entry(key, val.value) in Flat(buckets)
    {
      var es := Flat(buckets);
      for i := 0 to |es|
        invariant forall j :: 0 <= j < i ==> es[j].key != key
      {
        if es[i].key == key { return Some(es[i].val); }
      }
      val := None;
    }

    method DeleteElem(key: Key)
      modifies this
      ensures buckets == WithoutKeys(old(buckets), [key])
    {
      buckets := WithoutKeys(buckets, [key]);
    }

    /** `bpf_map_lookup_batch` and `bpf_map_lookup_and_delete_batch`; `from` is the opaque position, 0 for NULL. */
    method LookupBatch(from: nat, n: nat, delete: bool) returns (next: nat, chunk: seq<Entry>, err: Errno)
      requires from <= |buckets|
      modifies this
      ensures !batchSupported ==> err == EINVAL && chunk == [] && buckets == old(buckets)
      ensures batchSupported ==>
                && next == Reach(old(buckets), from, n) && chunk == Flat(old(buckets)[from..next])
                && err == (if next == |old(buckets)| then ENOENT else if chunk == [] then ENOSPC else EOk)
                && buckets == if delete then Emptied(old(buckets), from, next) else old(buckets)
      ensures |buckets| == |old(buckets)| && next <= |buckets|
    {
      if !batchSupported { return 0, [], EINVAL; }
      next := Reach(buckets, from, n);
      chunk := Flat(buckets[from..next]);
      err := if next == |buckets| then ENOENT else if chunk == [] then ENOSPC else EOk;
      if delete { buckets := Emptied(buckets, from, next); }
    }
  }

  // ---------- key by key ----------

  function Min(a: nat, b: nat): nat { if a < b then a else b }

  /** The buffers hold the entries, in order. */
  ghost predicate Holds(keys: array<Key>, values: array<Val>, es: seq<Entry>)
    reads keys, values
  {
    && |es| <= keys.Length && |es| <= values.Length
    && forall i :: 0 <= i < |es| ==> keys[i] == es[i].key && values[i] == es[i].val
  }

  lemma NextPosition(es: seq<Entry>, i: nat)
    requires Distinct(es) && i < |es|
    ensures WalkStart(KeysOf(es), es[i].key) == i + 1
  {}

  /** One step of the key walk from position `j`. */
  lemma WalkNext(es: seq<Entry>, key: Key, j: nat)
    requires Distinct(es) && WalkStart(KeysOf(es), key) == j
    ensures NextKey(KeysOf(es), key) == if j < |es| then Some(es[j].key) else None
    ensures j < |es| ==> WalkStart(KeysOf(es), es[j].key) == j + 1
  {
    if j < |es| { NextPosition(es, j); }
  }

  /** Phase one of `dump_hash_iter`: collect up to `count` keys, from the one after `invalidKey`. */
  method CollectKeys(k: Kernel, keys: array<Key>, count: nat, invalidKey: Key) returns (n: nat)
    requires Distinct(Flat(k.buckets)) && count <= keys.Length
    modifies keys
    ensures var es := Flat(k.buckets);
            var from := WalkStart(KeysOf(es), invalidKey);
            n == Min(count, |es| - from) && forall i :: 0 <= i < n ==> keys[i] == es[from + i].key
  {
    hide WalkStart, Flat, Distinct, NextKey, KeysOf;
    n := 0;
    var key := invalidKey;
    ghost var es := Flat(k.buckets);
    ghost var from := WalkStart(KeysOf(es), key);
    while n < count
      invariant n <= count && from + n <= |es| && WalkStart(KeysOf(es), key) == from + n
      invariant forall i :: 0 <= i < n ==> keys[i] == es[from + i].key
    {
      WalkNext(es, key, from + n);
      var next := k.GetNextKey(key);
      if next.None? { break; }
      key := next.value;
      keys[n] := key;
      n := n + 1;
    }
  }

  lemma {:induction false} WithoutAbsent(es: seq<Entry>, k: Key)
    requires forall i :: 0 <= i < |es| ==> es[i].key != k
    ensures Without(es, [k]) == es
  {
    if es != [] { WithoutAbsent(es[1..], k); }
  }

  /** Deleting the key at a position removes that entry only. */
  lemma {:induction false} WithoutAt(es: seq<Entry>, p: nat)
    requires Distinct(es) && p < |es|
    ensures Without(es, [es[p].key]) == es[..p] + es[p + 1..]
  {
    if p == 0 {
      WithoutAbsent(es[1..], es[0].key);
    } else {
      WithoutAt(es[1..], p - 1);
      assert es[..p] + es[p + 1..] == [es[0]] + (es[1..][..p - 1] + es[1..][p..]);
    }
  }

  lemma Assoc(a: seq<Entry>, b: seq<Entry>, c: seq<Entry>)
    ensures a + (b + c) == a + b + c
  {}

  lemma {:induction false} WithoutAppend(a: seq<Entry>, b: seq<Entry>, ks: seq<Key>)
    ensures Without(a + b, ks) == Without(a, ks) + Without(b, ks)
  {
    if a == [] {
      assert a + b == b;
    } else {
      WithoutAppend(a[1..], b, ks);
      assert (a + b)[1..] == a[1..] + b && (a + b)[0] == a[0];
      var head := if a[0].key in ks then [] else [a[0]];
      Assoc(head, Without(a[1..], ks), Without(b, ks));
    }
  }

  lemma {:induction false} FlatWithout(bs: seq<seq<Entry>>, ks: seq<Key>)
    ensures Flat(WithoutKeys(bs, ks)) == Without(Flat(bs), ks)
  {
    hide Without;
    if bs != [] {
      FlatWithout(bs[1..], ks);
      WithoutAppend(bs[0], Flat(bs[1..]), ks);
    } else {
      NothingWithout(ks);
    }
  }

  lemma NothingWithout(ks: seq<Key>)
    ensures Without([], ks) == []
  {}

  /** After the first `i` of the entries from `from` on are gone, the next is where they were. */
  lemma DeleteNext(bs: seq<seq<Entry>>, es: seq<Entry>, from: nat, i: nat)
    requires Distinct(es) && from + i < |es| && Flat(bs) == es[..from] + es[from + i..]
    ensures Flat(WithoutKeys(bs, [es[from + i].key])) == es[..from] + es[from + i + 1..]
    ensures Distinct(es[..from] + es[from + i..])
  {
    hide Without, WithoutKeys, Flat;
    FlatWithout(bs, [es[from + i].key]);
    var left := es[..from] + es[from + i..];
    WithoutAt(left, from);
    assert left[..from] + left[from + 1..] == es[..from] + es[from + i + 1..];
  }

  /** Phase two: read each value, and delete if asked. */
  method ReadValues(k: Kernel, keys: array<Key>, values: array<Val>, from: nat, n: nat, delete: bool) returns (ok: bool)
    requires Distinct(Flat(k.buckets)) && from + n <= |Flat(k.buckets)| && n <= keys.Length && n <= values.Length
    requires keys != values && forall i :: 0 <= i < n ==> keys[i] == Flat(k.buckets)[from + i].key
    modifies k, values
    ensures ok && Holds(keys, values, old(Flat(k.buckets))[from..from + n])
    ensures if delete then Flat(k.buckets) == old(Flat(k.buckets))[..from] + old(Flat(k.buckets))[from + n..]
            else k.buckets == old(k.buckets)
  {
    hide Flat, WithoutKeys, Distinct;
    ghost var es := Flat(k.buckets);
    assert es == es[..from] + es[from..];
    for i := 0 to n
      invariant !delete ==> k.buckets == old(k.buckets)
      invariant delete ==> Flat(k.buckets) == es[..from] + es[from + i..]
      invariant forall j :: 0 <= j < i ==> values[j] == es[from + j].val
    {
      var p := if delete then from else from + i;
      assert Flat(k.buckets)[p] == es[from + i];
      if delete { DeleteNext(k.buckets, es, from, i); }
      var val := k.LookupElem(keys[i]);
      if val.None? { return false; }
      values[i] := val.value;
      if delete { k.DeleteElem(keys[i]); }
    }
    ok := true;
  }

  /**
   * `dump_hash_iter`: the `n` entries after `invalidKey` are in the buffers with their values, and with
   * delete exactly those are gone from the map.
   */
  method DumpHashIter(k: Kernel, keys: array<Key>, values: array<Val>, count: nat, invalidKey: Key, delete: bool)
    returns (ok: bool, n: nat)
    requires Distinct(Flat(k.buckets)) && count <= keys.Length && count <= values.Length && keys != values
    modifies k, keys, values
    ensures var es := old(Flat(k.buckets));
            var from := WalkStart(KeysOf(es), invalidKey);
            && ok && n == Min(count, |es| - from)
            && Holds(keys, values, es[from..from + n])
            && (if delete then Flat(k.buckets) == es[..from] + es[from + n..] else k.buckets == old(k.buckets))
  {
    hide WalkStart, Flat, Distinct;
    n := CollectKeys(k, keys, count, invalidKey);
    ok := ReadValues(k, keys, values, WalkStart(KeysOf(Flat(k.buckets)), invalidKey), n, delete);
  }

  // ---------- in batches ----------

  lemma {:induction false} FlatConcat(a: seq<seq<Entry>>, b: seq<seq<Entry>>)
    ensures Flat(a + b) == Flat(a) + Flat(b)
  {
    if a == [] {
      assert a + b == b;
    } else {
      FlatConcat(a[1..], b);
      assert (a + b)[1..] == a[1..] + b && (a + b)[0] == a[0];
      Assoc(a[0], Flat(a[1..]), Flat(b));
    }
  }

  /** A batch takes as many whole buckets as fit. */
  lemma {:induction false} ReachFits(bs: seq<seq<Entry>>, from: nat, n: nat)
    requires from <= |bs|
    ensures var r := Reach(bs, from, n);
            |Flat(bs[from..r])| <= n && (r < |bs| ==> |Flat(bs[from..r + 1])| > n)
    decreases |bs| - from
  {
    if from == |bs| {
      assert bs[from..from] == [];
    } else if |bs[from]| > n {
      assert bs[from..from] == [] && bs[from..from + 1] == [bs[from]];
      FlatOne(bs[from]);
    } else {
      ReachFits(bs, from + 1, n - |bs[from]|);
      var r := Reach(bs, from + 1, n - |bs[from]|);
      assert bs[from..r][1..] == bs[from + 1..r];
      if r < |bs| { assert bs[from..r + 1][1..] == bs[from + 1..r + 1]; }
    }
  }

  lemma FlatOne(b: seq<Entry>)
    ensures Flat([b]) == b
  {}

  lemma FlatSplit(bs: seq<seq<Entry>>, r: nat)
    requires r <= |bs|
    ensures Flat(bs) == Flat(bs[..r]) + Flat(bs[r..])
  {
    FlatConcat(bs[..r], bs[r..]);
    assert bs == bs[..r] + bs[r..];
  }

  lemma {:induction false} FlatEmpties(bs: seq<seq<Entry>>)
    requires forall i :: 0 <= i < |bs| ==> bs[i] == []
    ensures Flat(bs) == []
  {
    if bs != [] { FlatEmpties(bs[1..]); }
  }

  lemma EmptiedPrefix(bs: seq<seq<Entry>>, r: nat)
    requires r <= |bs|
    ensures Flat(Emptied(bs, 0, r)) == Flat(bs[r..])
  {
    var es := Emptied(bs, 0, r);
    FlatSplit(es, r);
    FlatEmpties(es[..r]);
    assert es[r..] == bs[r..];
  }

  /** Some number of leading buckets holds exactly `count` entries. */
  ghost predicate FallsOnBoundary(bs: seq<seq<Entry>>, count: nat) {
    exists r :: 0 <= r <= |bs| && |Flat(bs[..r])| == count
  }

  lemma PrefixGrows(bs: seq<seq<Entry>>, a: nat, b: nat)
    requires a <= b <= |bs|
    ensures |Flat(bs[..a])| <= |Flat(bs[..b])|
  {
    FlatSplit(bs[..b], a);
    assert bs[..b][..a] == bs[..a];
  }

  /** The first batch either reads everything, stops exactly at `count`, or leaves a bucket that will never fit. */
  lemma FirstBatch(bs: seq<seq<Entry>>, count: nat)
    ensures var r := Reach(bs, 0, count);
            && |Flat(bs[..r])| <= count
            && Flat(bs) == Flat(bs[..r]) + Flat(bs[r..])
            && (r == |bs| <==> |Flat(bs)| <= count)
            && (r < |bs| ==> (|Flat(bs[..r])| == count <==> FallsOnBoundary(bs, count)))
            && (r < |bs| ==> |bs[r]| > count - |Flat(bs[..r])|)
  {
    hide Flat;
    var r := Reach(bs, 0, count);
    ReachFits(bs, 0, count);
    FlatSplit(bs, r);
    assert bs[0..r] == bs[..r];
    if r == |bs| {
      assert bs[..r] == bs;
    } else {
      assert bs[0..r + 1] == bs[..r + 1] == bs[..r] + [bs[r]];
      FlatConcat(bs[..r], [bs[r]]);
      FlatOne(bs[r]);
      FlatSplit(bs, r + 1);
      if q :| 0 <= q <= |bs| && |Flat(bs[..q])| == count {
        if q <= r { PrefixGrows(bs, q, r); } else { PrefixGrows(bs, r + 1, q); }
      }
    }
  }

  /** How many entries the first batch reads. */
  ghost function FirstRead(bs: seq<seq<Entry>>, count: nat): nat { |Flat(bs[..Reach(bs, 0, count)])| }

  /** When `count` holds the whole map, or ends on a bucket boundary. */
  ghost predicate BatchFits(bs: seq<seq<Entry>>, count: nat) { |Flat(bs)| <= count || FallsOnBoundary(bs, count) }

  /** Everything the first call decides: how much it reads, and what the map is when it deletes. */
  lemma FirstCall(bs: seq<seq<Entry>>, count: nat)
    ensures var r, m, es := Reach(bs, 0, count), FirstRead(bs, count), Flat(bs);
            && m <= count && m <= |es| && Flat(bs[0..r]) == es[..m] && Flat(Emptied(bs, 0, r)) == es[m..]
            && (r == |bs| ==> m == |es|)
            && (BatchFits(bs, count) <==> r == |bs| || m == count)
            && (r < |bs| ==> |bs[r]| > count - m)
            && (BatchFits(bs, count) ==> m == Min(count, |es|))
            && (!BatchFits(bs, count) ==> m < Min(count, |es|))
  {
    hide Flat, Emptied, FallsOnBoundary;
    var r := Reach(bs, 0, count);
    FirstBatch(bs, count);
    EmptiedPrefix(bs, r);
    assert bs[0..r] == bs[..r];
    if r == |bs| { FlatOfNone(bs[r..]); }
  }

  lemma FlatOfNone(bs: seq<seq<Entry>>)
    requires bs == []
    ensures Flat(bs) == []
  {}

  /** The batch calls fill the buffers from `at` on. */
  method Fill(keys: array<Key>, values: array<Val>, at: nat, chunk: seq<Entry>)
    requires at + |chunk| <= keys.Length && at + |chunk| <= values.Length && keys != values
    modifies keys, values
    ensures forall i :: 0 <= i < |chunk| ==> keys[at + i] == chunk[i].key && values[at + i] == chunk[i].val
    ensures forall i :: 0 <= i < at ==> keys[i] == old(keys[i]) && values[i] == old(values[i])
  {
    for i := 0 to |chunk|
      invariant forall j :: 0 <= j < i ==> keys[at + j] == chunk[j].key && values[at + j] == chunk[j].val
      invariant forall j :: 0 <= j < at ==> keys[j] == old(keys[j]) && values[j] == old(values[j])
    {
      keys[at + i] := chunk[i].key;
      values[at + i] := chunk[i].val;
    }
  }

  /** A batch from `r` that cannot take even one bucket changes nothing. */
  lemma NothingFits(bs: seq<seq<Entry>>, r: nat, n: nat)
    requires r < |bs| && |bs[r]| > n
    ensures Reach(bs, r, n) == r && Flat(bs[r..r]) == [] && Emptied(bs, r, r) == bs
  {}

  /**
   * `dump_hash_batch`. It succeeds exactly when `count` holds the whole map or ends on a bucket
   * boundary; otherwise it fails with ENOSPC after its first call has read, and with delete removed,
   * a proper part of the entries, and leaves `count` as it was.
   */
  method DumpHashBatch(k: Kernel, keys: array<Key>, values: array<Val>, count: nat, delete: bool)
    returns (ok: bool, n: nat, errno: Errno)
    requires count <= keys.Length && count <= values.Length && keys != values
    modifies k, keys, values
    ensures !k.batchSupported ==>
              k.buckets == old(k.buckets) && n == count && if count == 0 then ok else !ok && errno == EINVAL
    ensures var bs, es := old(k.buckets), old(Flat(k.buckets));
            k.batchSupported && count > 0 ==>
              && (ok <==> BatchFits(bs, count))
              && (!ok ==> errno == ENOSPC)
              && n == (if ok then Min(count, |es|) else count)
              && FirstRead(bs, count) <= |es| && Holds(keys, values, es[..FirstRead(bs, count)])
              && (if delete then Flat(k.buckets) == es[FirstRead(bs, count)..] else k.buckets == bs)
              && (ok ==> FirstRead(bs, count) == n) && (!ok ==> FirstRead(bs, count) < Min(count, |es|))
    ensures count == 0 ==> ok && n == 0 && k.buckets == old(k.buckets)
  {
    hide Flat, Emptied, BatchFits, FirstRead, Reach;
    ghost var bs, es := k.buckets, Flat(k.buckets);
    ghost var r, m := Reach(bs, 0, count), FirstRead(bs, count);
    FirstCall(bs, count);
    var pos, nRead, err := 0, 0, EOk;
    while nRead < count && err == EOk
      invariant pos <= |k.buckets| == |bs| && nRead <= count
      invariant !k.batchSupported ==> nRead == 0 && err == EOk && k.buckets == bs
      invariant (pos == 0 && nRead == 0 && err == EOk && k.buckets == bs)
        || (count > 0 && pos == r && nRead == m && err == (if r == |bs| then ENOENT else EOk)
            && Holds(keys, values, es[..m]) && (r < |bs| ==> k.buckets[r] == bs[r] && m > 0)
            && if delete then Flat(k.buckets) == es[m..] else k.buckets == bs)
      decreases count - nRead, err == EOk
    {
      if r < |bs| && k.buckets[r] == bs[r] { NothingFits(k.buckets, r, count - m); }
      var next, chunk, e := k.LookupBatch(pos, count - nRead, delete);
      if e != EOk && e != ENOENT { return false, count, e; }
      Fill(keys, values, nRead, chunk);
      pos, nRead, err := next, nRead + |chunk|, e;
    }
    return true, nRead, EOk;
  }

  // ---------- dump_hash ----------

  class Dumper {
    /** `batch_map_ops`: whether batch operations are still believed to be supported. */
    var batchMapOps: bool

    constructor ()
      ensures batchMapOps
    {
      batchMapOps := true;
    }

    /**
     * `dump_hash`. Whichever way it goes, on success the buffers hold the `n` entries from `from` on
     * with their values, and with delete exactly those have left the map. Batches start at the first
     * entry; the key walk starts after `invalidKey`.
     */
    method DumpHash(k: Kernel, keys: array?<Key>, values: array?<Val>, count: nat, invalidKey: Option<Key>,
      delete: bool)
      returns (ok: bool, n: nat, errno: Errno)
      requires Distinct(Flat(k.buckets))
      requires keys != null && values != null ==> count <= keys.Length && count <= values.Length && keys != values
      modifies this, k, keys, values
      ensures keys == null || values == null ==>
                !ok && errno == EINVAL && n == count && k.buckets == old(k.buckets) && batchMapOps == old(batchMapOps)
      ensures keys != null && values != null ==>
                var bs, es := old(k.buckets), old(Flat(k.buckets));
                var batch := old(batchMapOps) && (k.batchSupported || count == 0);
                var from := if batch || invalidKey.None? then 0 else WalkStart(KeysOf(es), invalidKey.value);
                && batchMapOps == batch
                && (ok <==> if batch then count == 0 || BatchFits(bs, count) else invalidKey.Some?)
                && (ok ==> && n == Min(count, |es| - from)
                           && Holds(keys, values, es[from..from + n])
                           && Flat(k.buckets) == if delete then es[..from] + es[from + n..] else es)
                && (!ok ==> n == count && errno == (if batch then ENOSPC else EINVAL))
                && (!ok && !(batch && delete) ==> k.buckets == bs)
                && (!ok && batch && delete
                  ==> FirstRead(bs, count) < Min(count, |es|) && Flat(k.buckets) == es[FirstRead(bs, count)..])
    {
      hide Flat, WalkStart, Distinct, BatchFits, FirstRead;
      if keys == null || values == null { return false, count, EINVAL; }
      ghost var es := Flat(k.buckets);
      if batchMapOps {
        ok, n, errno := DumpHashBatch(k, keys, values, count, delete);
        if ok { FromStart(es, Min(count, |es|)); }
        if !ok && errno == EINVAL {
          batchMapOps := false;
        } else {
          return;
        }
      }
      if invalidKey.None? { return false, count, EINVAL; }
      errno := EOk;
      ok, n := DumpHashIter(k, keys, values, count, invalidKey.value, delete);
    }
  }

  lemma FromStart(es: seq<Entry>, n: nat)
    requires n <= |es|
    ensures es[0..n] == es[..n] && es[..0] + es[n..] == es[n..] && es[0..] == es
  {}

  // ---------- what a dump is worth ----------

  /** A start key that is not in the map makes the walk begin at the first entry, as batches do. */
  lemma AbsentKeyStartsAtFirst(es: seq<Entry>, invalidKey: Key)
    requires Distinct(es)
    ensures invalidKey !in MapOf(es) <==> WalkStart(KeysOf(es), invalidKey) == 0
  {}

  /**
   * A deleting dump splits the map: what was dumped and what is left have no key in common and
   * together are the map there was; it empties the map exactly when `count` is large enough.
   */
  lemma DumpSplitsTheMap(es: seq<Entry>, from: nat, n: nat)
    requires Distinct(es) && from + n <= |es|
    ensures var dumped, left := es[from..from + n], es[..from] + es[from + n..];
            && Distinct(dumped) && Distinct(left)
            && MapOf(dumped).Keys !! MapOf(left).Keys
            && MapOf(es) == MapOf(dumped) + MapOf(left)
            && (MapOf(left) == map[] <==> n == |es|)
  {
    hide Distinct, MapOf;
    var dumped, left := es[from..from + n], es[..from] + es[from + n..];
    PartsOf(es, from, n);
    MapOfUnion(es, dumped, left);
    EmptyMapOf(left);
  }

  lemma PartsOf(es: seq<Entry>, from: nat, n: nat)
    requires Distinct(es) && from + n <= |es|
    ensures var dumped, left := es[from..from + n], es[..from] + es[from + n..];
            && Distinct(dumped) && Distinct(left)
            && (forall e :: e in es <==> e in dumped || e in left)
            && forall d, l :: d in dumped && l in left ==> d.key != l.key
  {}

  lemma MapOfUnion(es: seq<Entry>, a: seq<Entry>, b: seq<Entry>)
    requires Distinct(es) && Distinct(a) && Distinct(b)
    requires (forall e :: e in es <==> e in a || e in b) && forall d, l :: d in a && l in b ==> d.key != l.key
    ensures MapOf(a).Keys !! MapOf(b).Keys && MapOf(es) == MapOf(a) + MapOf(b)
  {}

  lemma EmptyMapOf(es: seq<Entry>)
    requires Distinct(es)
    ensures MapOf(es) == map[] <==> es == []
  {
    if es != [] { assert es[0] in es && es[0].key in MapOf(es); }
  }

  /** A bucket that straddles the buffer's end makes the batch dump fail where the key walk succeeds. */
  lemma StraddlingBucketFails(a: Entry, b: Entry, c: Entry)
    ensures !BatchFits([[a], [b, c]], 2) && FirstRead([[a], [b, c]], 2) == 1
  {
    var bs := [[a], [b, c]];
    assert Reach(bs, 1, 1) == 1;
    FlatOne(bs[1]);
    assert bs[1..] == [[b, c]];
    FlatOne(bs[0]);
    assert bs[..1] == [[a]] && bs[..2] == bs && bs[..0] == [];
    FlatOfNone(bs[..0]);
    forall r | 0 <= r <= |bs| ensures |Flat(bs[..r])| != 2 {
      assert r == 0 || r == 1 || r == 2;
    }
  }
}
