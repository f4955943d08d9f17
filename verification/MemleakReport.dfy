/**
 * memleak's two user-space reporters. The plain one groups the live allocations by stack; the
 * combined one decodes the packed words. Both walk their map with get-next-key from key 0,
 * fill the `allocs` table in place and sort it by descending size.
 */
module MemleakReport {
  import opened Machine
  import opened BpfMap
  import opened Memleak
  import MapSum

  /** `struct allocation`. */
  datatype Row = Row(stackId: s64, size: u64, count: nat)


  ghost predicate Descending(rows: seq<Row>) {
    forall i, j :: 0 <= i < j < |rows| ==> rows[i].size >= rows[j].size
  }

  // ---------- specification of the plain report ----------

  predicate OldEnough(now: u64, minAge: u64, timestamp: u64) { !(Sub64(now, minAge) < timestamp) }

  /**
   * The filter keeps exactly the allocations that are old enough if and only if the clock has reached the age
   * asked for: before that the subtraction wraps around and keeps them all.
   */
  lemma AgeFilterIsRightIff(now: u64, minAge: u64, timestamp: u64)
    requires timestamp <= now
    ensures (OldEnough(now, minAge, timestamp) <==> now - timestamp >= minAge) <==> minAge <= now
    ensures minAge > now ==> OldEnough(now, minAge, timestamp)
  {
    assert Sub64(now, minAge) == if minAge <= now then now - minAge else now - minAge + U64;
  }

  /**
   * The entries at positions [from, to) of the walk that pass the age filter; the k-th visit reads the clock
   * as `clock(k)`.
   */
  function Visible(order: seq<u64>, allocs: map<u64, AllocInfo>, clock: nat -> u64, minAge: u64, from: nat, till: nat)
    : map<u64, AllocInfo>
    requires from <= till <= |order|
    requires forall i :: 0 <= i < |order| ==> order[i] in allocs
    decreases till
  {
    if from == till then map[]
    else
      var m := Visible(order, allocs, clock, minAge, from, till - 1);
      var a := order[till - 1];
      if OldEnough(clock(till - 1 - from), minAge, allocs[a].timestamp) then m[a := allocs[a]] else m
  }

  /** What a stack should read: all its visible bytes and how many allocations they are. */
  ghost function RowFor(m: map<u64, AllocInfo>, id: s32): Row {
    MapSum.NonNegative(m, CountOf(StackKey(id)));
    Row(id, MapSum.Sum(m, BytesOf(StackKey(id))) % U64, MapSum.Sum(m, CountOf(StackKey(id))))
  }

  /** One row per non-negative stack id that has a visible allocation, and no others. */
  ghost predicate Groups(rows: multiset<Row>, m: map<u64, AllocInfo>) {
    && (forall r :: r in rows ==>
          rows[r] == 1 && 0 <= r.stackId < 0x8000_0000 && r == RowFor(m, r.stackId) && r.count > 0)
    && (forall a :: a in m && m[a].stackId >= 0 ==> RowFor(m, m[a].stackId) in rows)
  }

  /** The same over a table, as the loop builds it. */
  ghost predicate Tabulates(rows: seq<Row>, m: map<u64, AllocInfo>) {
    && (forall i, j :: 0 <= i < j < |rows| ==> rows[i].stackId != rows[j].stackId)
    && (forall i :: 0 <= i < |rows| ==>
          0 <= rows[i].stackId < 0x8000_0000 && rows[i] == RowFor(m, rows[i].stackId) && rows[i].count > 0)
    && (forall a :: a in m && m[a].stackId >= 0 ==> HasRow(rows, m[a].stackId))
  }

  ghost predicate HasRow(rows: seq<Row>, id: s64) {
    exists i :: 0 <= i < |rows| && rows[i].stackId == id
  }

  lemma RowAfterStore(m: map<u64, AllocInfo>, a: u64, info: AllocInfo, id: s32)
    requires a !in m
    ensures var r, r' := RowFor(m, id), RowFor(m[a := info], id);
            r' == if info.stackId == id then Row(id, Add64(r.size, info.size), r.count + 1) else r
  {
    hide MapSum.Sum;
    MapSum.Store(m, BytesOf(StackKey(id)), a, info);
    MapSum.Store(m, CountOf(StackKey(id)), a, info);
    assert StackKey(info.stackId) == StackKey(id) <==> info.stackId == id;
  }

  lemma NoRowNoSum(rows: seq<Row>, m: map<u64, AllocInfo>, id: s32)
    requires id >= 0 && Tabulates(rows, m) && !HasRow(rows, id)
    ensures RowFor(m, id) == Row(id, 0, 0)
  {
    hide MapSum.Sum, HasRow;
    MapSum.Zero(m, BytesOf(StackKey(id)));
    MapSum.Zero(m, CountOf(StackKey(id)));
  }

  lemma SkipNegative(rows: seq<Row>, m: map<u64, AllocInfo>, a: u64, info: AllocInfo)
    requires Tabulates(rows, m) && a !in m && info.stackId < 0
    ensures Tabulates(rows, m[a := info])
  {
    hide RowFor, HasRow;
    forall i | 0 <= i < |rows| ensures rows[i] == RowFor(m[a := info], rows[i].stackId) {
      RowAfterStore(m, a, info, rows[i].stackId);
    }
  }

  lemma BumpRow(rows: seq<Row>, m: map<u64, AllocInfo>, a: u64, info: AllocInfo, k: nat)
    requires Tabulates(rows, m) && a !in m && k < |rows| && rows[k].stackId == info.stackId
    ensures Tabulates(rows[k := Row(info.stackId, Add64(rows[k].size, info.size), rows[k].count + 1)], m[a := info])
  {
    hide RowFor, Add64;
    var rows' := rows[k := Row(info.stackId, Add64(rows[k].size, info.size), rows[k].count + 1)];
    forall i | 0 <= i < |rows| ensures rows'[i] == RowFor(m[a := info], rows[i].stackId) {
      RowAfterStore(m, a, info, rows[i].stackId);
    }
    var m' := m[a := info];
    forall b | b in m' && m'[b].stackId >= 0 ensures HasRow(rows', m'[b].stackId) {
      var id := m'[b].stackId;
      assert b != a ==> b in m && m[b].stackId == id;
      assert HasRow(rows, id) by { if b == a { assert rows[k].stackId == id; } }
      var i :| 0 <= i < |rows| && rows[i].stackId == id;
      assert rows'[i].stackId == id;
    }
  }

  lemma NewRow(rows: seq<Row>, m: map<u64, AllocInfo>, a: u64, info: AllocInfo)
    requires Tabulates(rows, m) && a !in m && info.stackId >= 0 && !HasRow(rows, info.stackId)
    ensures Tabulates(rows + [Row(info.stackId, info.size, 1)], m[a := info])
  {
    NoRowNoSum(rows, m, info.stackId);
    hide RowFor;
    var rows' := rows + [Row(info.stackId, info.size, 1)];
    forall i | 0 <= i < |rows'| ensures rows'[i] == RowFor(m[a := info], rows'[i].stackId) {
      RowAfterStore(m, a, info, rows'[i].stackId);
    }
    var m' := m[a := info];
    forall b | b in m' && m'[b].stackId >= 0 ensures HasRow(rows', m'[b].stackId) {
      var id := m'[b].stackId;
      if b == a {
        assert rows'[|rows|].stackId == id;
      } else {
        assert b in m && m[b].stackId == id;
        var i :| 0 <= i < |rows| && rows[i].stackId == id;
        assert rows'[i].stackId == id;
      }
    }
  }

  lemma {:induction false} DistinctRows(rows: seq<Row>)
    requires forall i, j :: 0 <= i < j < |rows| ==> rows[i].stackId != rows[j].stackId
    ensures forall r :: r in multiset(rows) ==> multiset(rows)[r] == 1
  {
    if rows != [] {
      var n := |rows| - 1;
      DistinctRows(rows[..n]);
      assert rows == rows[..n] + [rows[n]];
      assert rows[n] !in rows[..n];
    }
  }

  lemma TableIsReport(rows: seq<Row>, m: map<u64, AllocInfo>)
    requires Tabulates(rows, m)
    ensures Groups(multiset(rows), m)
  {
    hide RowFor;
    DistinctRows(rows);
    forall a | a in m && m[a].stackId >= 0 ensures RowFor(m, m[a].stackId) in multiset(rows) {
      assert HasRow(rows, m[a].stackId);
      var i :| 0 <= i < |rows| && rows[i].stackId == m[a].stackId;
      assert rows[i] in multiset(rows);
    }
    forall r | r in multiset(rows) ensures 0 <= r.stackId < 0x8000_0000 && r == RowFor(m, r.stackId) && r.count > 0 {
      assert r in rows;
    }
  }

  // ---------- sorting ----------

  /** `qsort` with `alloc_size_compare`: any stable or unstable sort meets this contract. */
  function Insert(r: Row, rows: seq<Row>): seq<Row> {
    if rows == [] || r.size >= rows[0].size then [r] + rows else [rows[0]] + Insert(r, rows[1..])
  }

  lemma {:induction false} InsertPermutes(r: Row, rows: seq<Row>)
    ensures multiset(Insert(r, rows)) == multiset(rows) + multiset{r}
  {
    if rows != [] && r.size < rows[0].size {
      InsertPermutes(r, rows[1..]);
      assert rows == [rows[0]] + rows[1..];
    }
  }

  lemma {:induction false} InsertSorts(r: Row, rows: seq<Row>)
    requires Descending(rows)
    ensures Descending(Insert(r, rows)) && Insert(r, rows) != []
    ensures Insert(r, rows)[0].size == if rows == [] || r.size >= rows[0].size then r.size else rows[0].size
  {
    if rows != [] && r.size < rows[0].size { InsertSorts(r, rows[1..]); }
  }

  function SortedRows(rows: seq<Row>): seq<Row> {
    if rows == [] then [] else Insert(rows[0], SortedRows(rows[1..]))
  }

  lemma {:induction false} SortedRowsSorts(rows: seq<Row>)
    ensures Descending(SortedRows(rows)) && multiset(SortedRows(rows)) == multiset(rows)
  {
    hide Insert;
    if rows != [] {
      SortedRowsSorts(rows[1..]);
      InsertPermutes(rows[0], SortedRows(rows[1..]));
      InsertSorts(rows[0], SortedRows(rows[1..]));
      assert rows == [rows[0]] + rows[1..];
    }
  }

  method Qsort(table: array<Row>, n: nat)
    requires n <= table.Length
    modifies table
    ensures Descending(table[..n]) && multiset(table[..n]) == multiset(old(table[..n]))
  {
    hide SortedRows;
    var rows := SortedRows(table[..n]);
    SortedRowsSorts(table[..n]);
    assert |rows| == n by { assert |multiset(rows)| == |rows| && |multiset(table[..n])| == n; }
    for i := 0 to n
      invariant table[..i] == rows[..i]
    {
      table[i] := rows[i];
    }
    assert table[..n] == rows;
  }

  // ---------- the plain reporter ----------

  method PrintOutstandingAllocs(
    order: seq<u64>, allocs: map<u64, AllocInfo>, clock: nat -> u64, minAge: u64, table: array<Row>)
    returns (n: nat)
    requires IsKeyOrder(order, allocs) && |allocs| <= table.Length
    modifies table
    ensures n <= table.Length && Descending(table[..n])
    ensures Groups(multiset(table[..n]), Visible(order, allocs, clock, minAge, WalkStart(order, 0), |order|))
  {
    hide Tabulates, Groups, Descending, Visible, OldEnough, Sub64, IndexOf;
    OrderLength(order, allocs);
    n := 0;
    var prev: u64 := 0;
    ghost var from := WalkStart(order, 0);
    ghost var at := from;
    var visits := 0;
    VisibleStart(order, allocs, clock, minAge, from);
    while true
      invariant from <= at <= |order| && at == WalkStart(order, prev) && visits == at - from
      invariant n <= visits
      invariant Tabulates(table[..n], Visible(order, allocs, clock, minAge, from, at))
      decreases |order| - at
    {
      var next := NextKey(order, prev);
      if next.None? { break; }
      prev := next.value;
      var info := allocs[prev];
      ghost var m := Visible(order, allocs, clock, minAge, from, at);
      VisibleKeys(order, allocs, clock, minAge, from, at);
      StepWalk(order, allocs, at);
      VisibleStep(order, allocs, clock, minAge, from, at);
      at := at + 1;
      var now := clock(visits);
      visits := visits + 1;
      if Sub64(now, minAge) < info.timestamp { continue; }
      if info.stackId < 0 {
        SkipNegative(table[..n], m, prev, info);
        continue;
      }
      n := Tabulate(table, n, info, prev, m);
    }
    TableIsReport(table[..n], Visible(order, allocs, clock, minAge, from, |order|));
    Qsort(table, n);
  }

  lemma VisibleStart(order: seq<u64>, allocs: map<u64, AllocInfo>, clock: nat -> u64, minAge: u64, from: nat)
    requires IsKeyOrder(order, allocs) && from <= |order|
    ensures Tabulates([], Visible(order, allocs, clock, minAge, from, from))
  {}

  lemma VisibleStep(order: seq<u64>, allocs: map<u64, AllocInfo>, clock: nat -> u64, minAge: u64, from: nat, at: nat)
    requires IsKeyOrder(order, allocs) && from <= at < |order|
    ensures var m, a := Visible(order, allocs, clock, minAge, from, at), order[at];
            Visible(order, allocs, clock, minAge, from, at + 1)
            == if Sub64(clock(at - from), minAge) < allocs[a].timestamp then m else m[a := allocs[a]]
  {}

  lemma VisibleKeys(order: seq<u64>, allocs: map<u64, AllocInfo>, clock: nat -> u64, minAge: u64, from: nat, till: nat)
    requires IsKeyOrder(order, allocs) && from <= till <= |order|
    ensures forall a :: a in Visible(order, allocs, clock, minAge, from, till) ==> a in order[from..till]
    decreases till
  {}

  lemma StepWalk<V>(order: seq<u64>, m: map<u64, V>, at: nat)
    requires IsKeyOrder(order, m) && at < |order|
    ensures WalkStart(order, order[at]) == at + 1
    ensures forall from :: 0 <= from <= at ==> order[at] !in order[from..at]
  {}

  /** The inner search: bump the stack's row, or append one. */
  method Tabulate(table: array<Row>, nr: nat, info: AllocInfo, ghost a: u64, ghost m: map<u64, AllocInfo>)
    returns (n: nat)
    requires nr < table.Length && Tabulates(table[..nr], m) && a !in m && info.stackId >= 0
    modifies table
    ensures nr <= n <= nr + 1 && Tabulates(table[..n], m[a := info])
  {
    hide Tabulates, Add64;
    n := nr;
    ghost var rows := table[..nr];
    for i := 0 to nr
      invariant table[..nr] == rows
      invariant forall j :: 0 <= j < i ==> table[j].stackId != info.stackId
    {
      if table[i].stackId == info.stackId {
        BumpRow(rows, m, a, info, i);
        table[i] := Row(info.stackId, Add64(table[i].size, info.size), table[i].count + 1);
        assert table[..nr] == rows[i := Row(info.stackId, Add64(rows[i].size, info.size), rows[i].count + 1)];
        return;
      }
    }
    assert !HasRow(rows, info.stackId);
    NewRow(rows, m, a, info);
    table[nr] := Row(info.stackId, info.size, 1);
    n := nr + 1;
    assert table[..n] == rows + [Row(info.stackId, info.size, 1)];
  }

  // ---------- the combined reporter ----------

  function DecodedRow(key: u64, word: u64): Row { Row(ToS64(key), TotalSize(word), NumberOfAllocs(word)) }

  function CombinedRows(order: seq<u64>, combined: map<u64, u64>, from: nat, till: nat): seq<Row>
    requires from <= till <= |order|
    requires forall i :: 0 <= i < |order| ==> order[i] in combined
    decreases till
  {
    if from == till then []
    else
      var rows := CombinedRows(order, combined, from, till - 1);
      var key := order[till - 1];
      if ToS64(key) < 0 then rows else rows + [DecodedRow(key, combined[key])]
  }

  method PrintOutstandingCombinedAllocs(order: seq<u64>, combined: map<u64, u64>, table: array<Row>) returns (n: nat)
    requires IsKeyOrder(order, combined) && |combined| <= table.Length
    modifies table
    ensures n <= table.Length && Descending(table[..n])
    ensures multiset(table[..n]) == multiset(CombinedRows(order, combined, WalkStart(order, 0), |order|))
  {
    OrderLength(order, combined);
    n := 0;
    var prev: u64 := 0;
    ghost var from := WalkStart(order, 0);
    ghost var at := from;
    hide DecodedRow, Descending, WalkStart;
    while true
      invariant from <= at <= |order| && at == WalkStart(order, prev)
      invariant n <= at - from
      invariant table[..n] == CombinedRows(order, combined, from, at)
      decreases |order| - at
    {
      var next := NextKey(order, prev);
      if next.None? { break; }
      prev := next.value;
      StepWalk(order, combined, at);
      at := at + 1;
      var row := DecodedRow(prev, combined[prev]);
      DecodedStack(prev, combined[prev]);
      if row.stackId < 0 { continue; }
      table[n] := row;
      n := n + 1;
    }
    Qsort(table, n);
  }

  lemma DecodedStack(key: u64, word: u64)
    ensures DecodedRow(key, word).stackId == ToS64(key)
  {}

  lemma {:induction false} CombinedRowsAre(order: seq<u64>, combined: map<u64, u64>, from: nat, till: nat, r: Row)
    requires IsKeyOrder(order, combined) && from <= till <= |order|
    ensures var key := ToU64(r.stackId);
            multiset(CombinedRows(order, combined, from, till))[r]
            == if r.stackId >= 0 && key in order[from..till] && r == DecodedRow(key, combined[key]) then 1 else 0
    decreases till
  {
    hide TotalSize, NumberOfAllocs;
    var key := ToU64(r.stackId);
    if from != till {
      CombinedRowsAre(order, combined, from, till - 1, r);
      assert order[from..till] == order[from..till - 1] + [order[till - 1]];
      assert order[till - 1] !in order[from..till - 1];
      assert ToS64(key) == r.stackId;
      assert ToU64(ToS64(order[till - 1])) == order[till - 1];
    }
  }

  /**
   * The combined report has a row for every valid stack exactly when stack id 0 has no word:
   * the walk starts from key 0, so if that key exists it is never visited.
   */
  lemma CombinedReportCompleteIff(order: seq<u64>, combined: map<u64, u64>)
    requires IsKeyOrder(order, combined)
    ensures (forall key :: key in combined && ToS64(key) >= 0 ==>
               DecodedRow(key, combined[key]) in CombinedRows(order, combined, WalkStart(order, 0), |order|))
            <==> 0 !in combined
  {
    var from := WalkStart(order, 0);
    var rows := CombinedRows(order, combined, from, |order|);
    forall key | key in combined && ToS64(key) >= 0
      ensures DecodedRow(key, combined[key]) in rows <==> key in order[from..]
    {
      var r := DecodedRow(key, combined[key]);
      CombinedRowsAre(order, combined, from, |order|, r);
      assert ToU64(r.stackId) == key;
      assert r in rows <==> multiset(rows)[r] > 0;
      assert order[from..|order|] == order[from..];
    }
    if 0 in combined {
      assert ToS64(0) >= 0;
      assert order[from - 1] == 0;
      assert 0 !in order[from..];
    } else {
      assert order[from..] == order;
    }
  }

  /** A stack with id 0 and 40 outstanding bytes, and its row is missing: only stack 5 is reported. */
  lemma StackZeroIsSkipped()
    ensures var order, combined := [0, 5], map[0 := Packed(40), 5 := Packed(8)];
            && IsKeyOrder(order, combined) && DecodedRow(0, combined[0]) == Row(0, 40, 1)
            && CombinedRows(order, combined, WalkStart(order, 0), 2) == [Row(5, 8, 1)]
  {
    var order, combined := [0, 5], map[0 := Packed(40), 5 := Packed(8)];
    assert order[0] == 0 && IndexOf(order, 0) == 0 && WalkStart(order, 0) == 1;
    assert CombinedRows(order, combined, 1, 1) == [];
    assert order[1] == 5 && DecodedRow(5, Packed(8)) == Row(5, 8, 1);
    assert combined.Keys == {0, 5};
  }

  // ---------- agreement ----------

  lemma {:induction false} EverythingVisible(
    order: seq<u64>, allocs: map<u64, AllocInfo>, clock: nat -> u64, minAge: u64, till: nat)
    requires IsKeyOrder(order, allocs) && till <= |order|
    requires forall i :: 0 <= i < |order| ==> OldEnough(clock(i), minAge, allocs[order[i]].timestamp)
    ensures forall a :: a in Visible(order, allocs, clock, minAge, 0, till) <==> a in order[..till]
    ensures var m := Visible(order, allocs, clock, minAge, 0, till);
            forall a :: a in m ==> m[a] == allocs[a]
  {
    hide OldEnough;
    if till > 0 {
      EverythingVisible(order, allocs, clock, minAge, till - 1);
      assert order[..till] == order[..till - 1] + [order[till - 1]];
    }
  }

  lemma AllVisible(order: seq<u64>, allocs: map<u64, AllocInfo>, clock: nat -> u64, minAge: u64)
    requires IsKeyOrder(order, allocs) && 0 !in allocs
    requires forall i :: 0 <= i < |order| ==> OldEnough(clock(i), minAge, allocs[order[i]].timestamp)
    ensures Visible(order, allocs, clock, minAge, WalkStart(order, 0), |order|) == allocs
  {
    EverythingVisible(order, allocs, clock, minAge, |order|);
    assert order[..|order|] == order;
  }

  /** A stack with outstanding allocations has a live one to show for it. */
  lemma PositiveCountHasLive(m: map<u64, AllocInfo>, key: u64) returns (a: u64)
    requires MapSum.Sum(m, CountOf(key)) > 0
    ensures a in m && StackKey(m[a].stackId) == key
  {
    if a' :| a' in m && StackKey(m[a'].stackId) == key {
      a := a';
    } else {
      MapSum.Zero(m, CountOf(key));
      assert false;
    }
  }

  /**
   * Everything the two reporters need to agree: a run in combined mode in which nothing was
   * lost and the combined map never filled, with totals that fit the packed fields and no stack id 0.
   */
  ghost predicate Comparable(cfg: Config, es: seq<Event>) {
    var s := Run(cfg, es);
    && cfg.combinedOnly && Lost(cfg, es) == []
    && |s.combined| < COMBINED_ALLOCS_MAX_ENTRIES && 0 !in s.combined
    && (forall key ::
          MapSum.Sum(s.allocs, BytesOf(key)) < SIZE_FIELD && MapSum.Sum(s.allocs, CountOf(key)) < COUNT_FIELD)
  }

  lemma WordIsRow(cfg: Config, es: seq<Event>, id: s32)
    requires Comparable(cfg, es) && id >= 0
    ensures var s := Run(cfg, es);
            && (RowFor(s.allocs, id).count > 0 ==> StackKey(id) in s.combined)
            && (StackKey(id) in s.combined
              ==> DecodedRow(StackKey(id), s.combined[StackKey(id)]) == RowFor(s.allocs, id))
  {
    hide RunFrom, Lost, MapSum.Sum, TotalSize, NumberOfAllocs;
    var s, key := Run(cfg, es), StackKey(id);
    WordsAreLivePlusLost(cfg, es);
    if MapSum.Sum(s.allocs, CountOf(key)) > 0 {
      var a := PositiveCountHasLive(s.allocs, key);
    }
    if key in s.combined {
      DecodingIsExactIff(cfg, es, key);
      MapSum.NonNegative(s.allocs, BytesOf(key));
    }
  }

  /**
   * The plain and the combined report hold the same rows once empty stacks are dropped.
   */
  lemma ReportsAgree(
    cfg: Config, es: seq<Event>, order: seq<u64>, clock: nat -> u64, minAge: u64, corder: seq<u64>,
    plain: multiset<Row>, comb: multiset<Row>)
    requires Comparable(cfg, es)
    requires var s := Run(cfg, es);
             && IsKeyOrder(order, s.allocs) && IsKeyOrder(corder, s.combined)
             && (forall i :: 0 <= i < |order| ==> OldEnough(clock(i), minAge, s.allocs[order[i]].timestamp))
             && Groups(plain, Visible(order, s.allocs, clock, minAge, WalkStart(order, 0), |order|))
             && comb == multiset(CombinedRows(corder, s.combined, WalkStart(corder, 0), |corder|))
    ensures forall r: Row :: plain[r] == if r.count > 0 then comb[r] else 0
  {
    hide RunFrom, Lost, MapSum.Sum, RowFor, DecodedRow, OldEnough;
    var s := Run(cfg, es);
    LiveAddressesAreReal(cfg, es);
    AllVisible(order, s.allocs, clock, minAge);
    forall r: Row ensures plain[r] == if r.count > 0 then comb[r] else 0 {
      CombinedRowsAre(corder, s.combined, 0, |corder|, r);
      assert corder[0..|corder|] == corder;
      RowAgrees(cfg, es, plain, r);
    }
  }

  lemma RowAgrees(cfg: Config, es: seq<Event>, plain: multiset<Row>, r: Row)
    requires Comparable(cfg, es) && Groups(plain, Run(cfg, es).allocs)
    ensures var s, key := Run(cfg, es), ToU64(r.stackId);
            plain[r] == if r.count > 0 && r.stackId >= 0 && key in s.combined
              && r == DecodedRow(key, s.combined[key]) then 1 else 0
  {
    hide Run, MapSum.Sum, MapSum.SeqSum, Packed;
    var s, key := Run(cfg, es), ToU64(r.stackId);
    MapSum.SeqZero([], PackedOf(key));
    if r in plain {
      WordIsRow(cfg, es, r.stackId);
    } else if r.count > 0 && r.stackId >= 0 && key in s.combined && r == DecodedRow(key, s.combined[key]) {
      DecodingIsExactIff(cfg, es, key);
      var a := PositiveCountHasLive(s.allocs, key);
      WordIsRow(cfg, es, s.allocs[a].stackId);
      assert false;
    }
  }
}
