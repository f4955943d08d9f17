/**
 * memleak's BPF side: `sizes` remembers the size a thread asked for, `allocs` the live
 * allocation at each address, and, in combined mode, `combined_allocs` a packed 40/24-bit word
 * of bytes and allocations per stack. The word is an index over `allocs` that is only ever
 * adjusted by 64-bit adds and subtracts; the lemmas say exactly what it still knows.
 */
module Memleak {
  import opened Machine
  import opened BpfMap
  import MapSum

  const SIZES_MAX_ENTRIES: nat := 10240
  const MEMPTRS_MAX_ENTRIES: nat := 10240
  const ALLOCS_MAX_ENTRIES: nat := 1000000
  const COMBINED_ALLOCS_MAX_ENTRIES: nat := 10240
  const MAP_FAILED: u64 := 0xFFFF_FFFF_FFFF_FFFF
  const SIZE_FIELD: nat := 0x100_0000_0000 // 2^40, total_size : 40
  const COUNT_FIELD: nat := 0x100_0000     // 2^24, number_of_allocs : 24

  datatype Config = Config(
    minSize: u64, maxSize: u64, sampleRate: u64, pageSize: u64, waMissingFree: bool, combinedOnly: bool)

  datatype AllocInfo = AllocInfo(size: u64, timestamp: u64, stackId: s32)

  datatype State = State(sizes: map<u32, u64>, allocs: map<u64, AllocInfo>, combined: map<u64, u64>)

  const INITIAL := State(map[], map[], map[])

  // ---------- the packed word ----------

  /** `{ .total_size = sz, .number_of_allocs = 1 }` read back as `bits`. */
  function Packed(sz: u64): (w: u64) { SIZE_FIELD + sz % SIZE_FIELD }

  function TotalSize(word: u64): nat { word % SIZE_FIELD }
  function NumberOfAllocs(word: u64): nat { word / SIZE_FIELD }

  /** The `int` stack id passed as `u64 stack_id`. */
  function StackKey(stackId: s32): u64 { ToU64(stackId) }

  function StatisticsAdd(combined: map<u64, u64>, key: u64, sz: u64): map<u64, u64> {
    var c := TryInit(combined, COMBINED_ALLOCS_MAX_ENTRIES, key, 0);
    if key in c then c[key := Add64(c[key], Packed(sz))] else c
  }

  function StatisticsDel(combined: map<u64, u64>, key: u64, sz: u64): map<u64, u64> {
    if key in combined then combined[key := Sub64(combined[key], Packed(sz))] else combined
  }

  // ---------- the three generic handlers as steps ----------

  datatype Event =
    | AllocEnter(tid: u32, size: u64, now: u64)
    | AllocExit(tid: u32, address: u64, now: u64, stackId: s32)
    | FreeEnter(address: u64)

  predicate Accepts(cfg: Config, size: u64, now: u64) {
    cfg.minSize <= size <= cfg.maxSize && (cfg.sampleRate > 1 ==> now % cfg.sampleRate == 0)
  }

  predicate Records(s: State, e: Event) {
    e.AllocExit? && e.tid in s.sizes && e.address != 0 && e.address != MAP_FAILED
  }

  function Recorded(s: State, e: Event): AllocInfo
    requires Records(s, e)
  {
    AllocInfo(s.sizes[e.tid], e.now, e.stackId)
  }

  function Step(cfg: Config, s: State, e: Event): State {
    match e
    case AllocEnter(tid, size, now) =>
      if Accepts(cfg, size, now) then s.(sizes := UpdateAny(s.sizes, SIZES_MAX_ENTRIES, tid, size)) else s
    case AllocExit(tid, address, now, stackId) =>
      var sizes := s.sizes - {tid};
      if Records(s, e) then
        var info := Recorded(s, e);
        State(sizes,
              UpdateAny(s.allocs, ALLOCS_MAX_ENTRIES, address, info),
              if cfg.combinedOnly then StatisticsAdd(s.combined, StackKey(stackId), info.size) else s.combined)
      else s.(sizes := sizes)
    case FreeEnter(address) =>
      if address in s.allocs then
        var info := s.allocs[address];
        State(s.sizes, s.allocs - {address},
              if cfg.combinedOnly then StatisticsDel(s.combined, StackKey(info.stackId), info.size) else s.combined)
      else s
  }

  function RunFrom(cfg: Config, s: State, es: seq<Event>): State {
    if es == [] then s
    else Step(cfg, RunFrom(cfg, s, es[..|es| - 1]), es[|es| - 1])
  }

  function Run(cfg: Config, es: seq<Event>): State { RunFrom(cfg, INITIAL, es) }

  // ---------- the probes built from them ----------

  datatype Probe =
    | SimpleEnter(tid: u32, size: u64, now: u64)              // malloc, mmap, aligned_alloc, valloc, memalign, pvalloc
    | CallocEnter(tid: u32, nmemb: u64, size: u64, now: u64)
    | ReallocEnter(tid: u32, ptr: u64, size: u64, now: u64)   // realloc and mremap
    | Exit(tid: u32, address: u64, now: u64, stackId: s32)
    | PosixEnter(tid: u32, memptr: u64, size: u64, now: u64)
    | PosixExit(tid: u32, user: u64 -> Option<u64>, now: u64, stackId: s32) // `user` reads a pointer from user memory
    | Free(address: u64)                                      // free, munmap, kfree and the other frees
    | Kmem(tid: u32, ptr: u64, bytes: u64, now: u64, exitNow: u64, stackId: s32) // kmalloc, kmem_cache_alloc
    | Percpu(tid: u32, ptr: u64, bytes: u64, now: u64, exitNow: u64, stackId: s32)
    | PageAlloc(tid: u32, pfn: u64, order: nat, now: u64, exitNow: u64, stackId: s32)

  function Shl64(a: u64, n: nat): u64 { if n == 0 then a else (2 * Shl64(a, n - 1)) % U64 }

  /** posix_memalign returns its block through a pointer, which `memptrs` keeps per thread until the exit. */
  function Memptrs(memptrs: map<u32, u64>, p: Probe): map<u32, u64> {
    match p
    case PosixEnter(tid, memptr, _, _) => UpdateAny(memptrs, MEMPTRS_MAX_ENTRIES, tid, memptr)
    case PosixExit(tid, _, _, _) => memptrs - {tid}
    case _ => memptrs
  }

  function Events(cfg: Config, memptrs: map<u32, u64>, p: Probe): seq<Event> {
    match p
    case PosixEnter(tid, _, size, now) => [AllocEnter(tid, size, now)]
    case PosixExit(tid, user, now, stackId) =>
      if tid in memptrs && user(memptrs[tid]).Some?
      then [AllocExit(tid, user(memptrs[tid]).value, now, stackId)]
      else []
    case SimpleEnter(tid, size, now) => [AllocEnter(tid, size, now)]
    case CallocEnter(tid, nmemb, size, now) => [AllocEnter(tid, (nmemb * size) % U64, now)]
    case ReallocEnter(tid, ptr, size, now) => [FreeEnter(ptr), AllocEnter(tid, size, now)]
    case Exit(tid, address, now, stackId) => [AllocExit(tid, address, now, stackId)]
    case Free(address) => [FreeEnter(address)]
    case Kmem(tid, ptr, bytes, now, exitNow, stackId) =>
      (if cfg.waMissingFree then [FreeEnter(ptr)] else [])
      + [AllocEnter(tid, bytes, now), AllocExit(tid, ptr, exitNow, stackId)]
    case Percpu(tid, ptr, bytes, now, exitNow, stackId) =>
      [AllocEnter(tid, bytes, now), AllocExit(tid, ptr, exitNow, stackId)]
    case PageAlloc(tid, pfn, order, now, exitNow, stackId) =>
      [AllocEnter(tid, Shl64(cfg.pageSize, order), now), AllocExit(tid, pfn, exitNow, stackId)]
  }

  lemma {:induction false} RunConcat(cfg: Config, s: State, a: seq<Event>, b: seq<Event>)
    ensures RunFrom(cfg, s, a + b) == RunFrom(cfg, RunFrom(cfg, s, a), b)
    decreases |b|
  {
    if b == [] {
      assert a + b == a;
    } else {
      var n := |b| - 1;
      RunConcat(cfg, s, a, b[..n]);
      assert (a + b)[..|a + b| - 1] == a + b[..n];
    }
  }

  class Tracer {
    const cfg: Config
    var sizes: map<u32, u64>
    var allocs: map<u64, AllocInfo>
    var combined: map<u64, u64>
    var memptrs: map<u32, u64>

    constructor (cfg: Config)
      ensures this.cfg == cfg && View() == INITIAL && memptrs == map[]
    {
      this.cfg := cfg;
      sizes, allocs, combined, memptrs := map[], map[], map[], map[];
    }

    function View(): State
      reads this
    {
      State(sizes, allocs, combined)
    }

    method UpdateStatisticsAdd(stackId: s32, sz: u64)
      modifies this`combined
      ensures combined == StatisticsAdd(old(combined), StackKey(stackId), sz)
    {
      var key := StackKey(stackId);
      if key !in combined {
        if |combined| >= COMBINED_ALLOCS_MAX_ENTRIES { return; }
        combined := combined[key := 0];
      }
      combined := combined[key := Add64(combined[key], Packed(sz))];
    }

    method UpdateStatisticsDel(stackId: s32, sz: u64)
      modifies this`combined
      ensures combined == StatisticsDel(old(combined), StackKey(stackId), sz)
    {
      var key := StackKey(stackId);
      if key !in combined { return; }
      combined := combined[key := Sub64(combined[key], Packed(sz))];
    }

    method GenAllocEnter(tid: u32, size: u64, now: u64)
      modifies this`sizes
      ensures View() == Step(cfg, old(View()), AllocEnter(tid, size, now))
    {
      if size < cfg.minSize || size > cfg.maxSize { return; }
      if cfg.sampleRate > 1 {
        if now % cfg.sampleRate != 0 { return; }
      }
      sizes := UpdateAny(sizes, SIZES_MAX_ENTRIES, tid, size);
    }

    method GenAllocExit2(tid: u32, address: u64, now: u64, stackId: s32)
      modifies this`sizes, this`allocs, this`combined
      ensures View() == Step(cfg, old(View()), AllocExit(tid, address, now, stackId))
    {
      if tid !in sizes {
        assert sizes - {tid} == sizes;
        return;
      }
      var info := AllocInfo(sizes[tid], now, stackId);
      sizes := sizes - {tid};
      if address != 0 && address != MAP_FAILED {
        allocs := UpdateAny(allocs, ALLOCS_MAX_ENTRIES, address, info);
        if cfg.combinedOnly { UpdateStatisticsAdd(info.stackId, info.size); }
      }
    }

    /** `info` is read after the delete: the value it had when it was looked up. */
    method GenFreeEnter(address: u64)
      modifies this`allocs, this`combined
      ensures View() == Step(cfg, old(View()), FreeEnter(address))
    {
      if address !in allocs { return; }
      var info := allocs[address];
      allocs := allocs - {address};
      if cfg.combinedOnly { UpdateStatisticsDel(info.stackId, info.size); }
    }

    /** Any attached probe runs its generic handlers in order. */
    method Fire(p: Probe)
      modifies this
      ensures View() == RunFrom(cfg, old(View()), Events(cfg, old(memptrs), p)) && memptrs == Memptrs(old(memptrs), p)
    {
      hide Step, Shl64, UpdateAny;
      ghost var s := View();
      match p
      case SimpleEnter(tid, size, now) =>
        GenAllocEnter(tid, size, now);
        Unroll1(cfg, s, AllocEnter(tid, size, now));
      case CallocEnter(tid, nmemb, size, now) =>
        GenAllocEnter(tid, (nmemb * size) % U64, now);
        Unroll1(cfg, s, AllocEnter(tid, (nmemb * size) % U64, now));
      case ReallocEnter(tid, ptr, size, now) =>
        GenFreeEnter(ptr);
        GenAllocEnter(tid, size, now);
        Unroll2(cfg, s, FreeEnter(ptr), AllocEnter(tid, size, now));
      case Exit(tid, address, now, stackId) =>
        GenAllocExit2(tid, address, now, stackId);
        Unroll1(cfg, s, AllocExit(tid, address, now, stackId));
      case PosixEnter(tid, memptr, size, now) =>
        memptrs := UpdateAny(memptrs, MEMPTRS_MAX_ENTRIES, tid, memptr);
        GenAllocEnter(tid, size, now);
        Unroll1(cfg, s, AllocEnter(tid, size, now));
      case PosixExit(tid, user, now, stackId) =>
        if tid !in memptrs { return; }
        var memptr := memptrs[tid];
        memptrs := memptrs - {tid};
        var addr := user(memptr);
        if addr.None? { return; }
        GenAllocExit2(tid, addr.value, now, stackId);
        Unroll1(cfg, s, AllocExit(tid, addr.value, now, stackId));
      case Free(address) =>
        GenFreeEnter(address);
        Unroll1(cfg, s, FreeEnter(address));
      case Kmem(tid, ptr, bytes, now, exitNow, stackId) =>
        if cfg.waMissingFree {
          GenFreeEnter(ptr);
          Unroll1(cfg, s, FreeEnter(ptr));
        }
        ghost var mid := View();
        GenAllocEnter(tid, bytes, now);
        GenAllocExit2(tid, ptr, exitNow, stackId);
        Unroll2(cfg, mid, AllocEnter(tid, bytes, now), AllocExit(tid, ptr, exitNow, stackId));
        RunConcat(cfg, s, if cfg.waMissingFree then [FreeEnter(ptr)] else [],
                  [AllocEnter(tid, bytes, now), AllocExit(tid, ptr, exitNow, stackId)]);
      case Percpu(tid, ptr, bytes, now, exitNow, stackId) =>
        GenAllocEnter(tid, bytes, now);
        GenAllocExit2(tid, ptr, exitNow, stackId);
        Unroll2(cfg, s, AllocEnter(tid, bytes, now), AllocExit(tid, ptr, exitNow, stackId));
      case PageAlloc(tid, pfn, order, now, exitNow, stackId) =>
        GenAllocEnter(tid, Shl64(cfg.pageSize, order), now);
        GenAllocExit2(tid, pfn, exitNow, stackId);
        Unroll2(cfg, s, AllocEnter(tid, Shl64(cfg.pageSize, order), now), AllocExit(tid, pfn, exitNow, stackId));
    }
  }

  lemma Unroll1(cfg: Config, s: State, e: Event)
    ensures RunFrom(cfg, s, [e]) == Step(cfg, s, e)
  {
    hide Step;
    assert [e][..0] == [];
  }

  lemma Unroll2(cfg: Config, s: State, e0: Event, e1: Event)
    ensures RunFrom(cfg, s, [e0, e1]) == Step(cfg, Step(cfg, s, e0), e1)
  {
    hide Step;
    assert [e0, e1][..1] == [e0];
    Unroll1(cfg, s, e0);
  }

  // ---------- what the word stands for ----------

  /** The entries a step drops from the account: overwritten, or never stored because `allocs` was full. */
  function LostBy(s: State, e: Event): seq<AllocInfo> {
    if !Records(s, e) then []
    else if e.address in s.allocs then [s.allocs[e.address]]
    else if |s.allocs| >= ALLOCS_MAX_ENTRIES then [Recorded(s, e)]
    else []
  }

  function Lost(cfg: Config, es: seq<Event>): seq<AllocInfo> {
    if es == [] then []
    else Lost(cfg, es[..|es| - 1]) + LostBy(Run(cfg, es[..|es| - 1]), es[|es| - 1])
  }

  function PackedOf(key: u64): AllocInfo -> int {
    (v: AllocInfo) => if StackKey(v.stackId) == key then Packed(v.size) else 0
  }
  function BytesOf(key: u64): AllocInfo -> int {
    (v: AllocInfo) => if StackKey(v.stackId) == key then v.size else 0
  }
  function CountOf(key: u64): AllocInfo -> int {
    (v: AllocInfo) => if StackKey(v.stackId) == key then 1 else 0
  }

  /** Everything ever added for a stack and not taken off again. */
  ghost function Owed(s: State, lost: seq<AllocInfo>, key: u64): int {
    MapSum.Sum(s.allocs, PackedOf(key)) + MapSum.SeqSum(lost, PackedOf(key))
  }

  ghost predicate EveryStackCounted(s: State, lost: seq<AllocInfo>) {
    && (forall a :: a in s.allocs ==> StackKey(s.allocs[a].stackId) in s.combined)
    && (forall v :: v in lost ==> StackKey(v.stackId) in s.combined)
  }

  ghost predicate Accounted(s: State, lost: seq<AllocInfo>) {
    && |s.combined| <= COMBINED_ALLOCS_MAX_ENTRIES
    && (forall key :: key in s.combined ==> s.combined[key] == Owed(s, lost, key) % U64)
    && (|s.combined| < COMBINED_ALLOCS_MAX_ENTRIES ==> EveryStackCounted(s, lost))
  }

  lemma UncountedStackOwesNothing(s: State, lost: seq<AllocInfo>, key: u64)
    requires EveryStackCounted(s, lost) && key !in s.combined
    ensures Owed(s, lost, key) == 0
  {
    MapSum.Zero(s.allocs, PackedOf(key));
    MapSum.SeqZero(lost, PackedOf(key));
  }

  /** A recorded allocation adds exactly its packed size to what its stack is owed. */
  lemma RecordingOwes(cfg: Config, s: State, lost: seq<AllocInfo>, e: Event, key: u64)
    requires Records(s, e)
    ensures Owed(Step(cfg, s, e), lost + LostBy(s, e), key)
         == Owed(s, lost, key) + if StackKey(e.stackId) == key then Packed(s.sizes[e.tid]) else 0
  {
    hide MapSum.Sum, MapSum.SeqSum, Packed, Accepts, StatisticsAdd, StatisticsDel;
    var info := Recorded(s, e);
    MapSum.Store(s.allocs, PackedOf(key), e.address, info);
    if e.address in s.allocs {
      MapSum.SeqAppend(lost, s.allocs[e.address], PackedOf(key));
    } else if |s.allocs| >= ALLOCS_MAX_ENTRIES {
      MapSum.SeqAppend(lost, info, PackedOf(key));
    } else {
      assert lost + [] == lost;
    }
  }

  lemma StatisticsKeys(combined: map<u64, u64>, key: u64, sz: u64)
    ensures StatisticsDel(combined, key, sz).Keys == combined.Keys
    ensures var c := StatisticsAdd(combined, key, sz);
            && combined.Keys <= c.Keys <= combined.Keys + {key}
            && (|combined| < COMBINED_ALLOCS_MAX_ENTRIES ==> key in c)
            && (|combined| <= COMBINED_ALLOCS_MAX_ENTRIES ==> |c| <= COMBINED_ALLOCS_MAX_ENTRIES)
            && |combined| <= |c|
  {}

  /** The word of `key` after an add for stack `own`; a word that was absent counts as zero. */
  lemma StatisticsWord(combined: map<u64, u64>, own: u64, sz: u64, key: u64)
    requires key in StatisticsAdd(combined, own, sz)
    ensures var before := if key in combined then combined[key] else 0;
            StatisticsAdd(combined, own, sz)[key] == if key == own then Add64(before, Packed(sz)) else before
    ensures key !in combined ==> |combined| < COMBINED_ALLOCS_MAX_ENTRIES
  {
    hide Add64, Packed;
  }

  lemma RecordingKeepsWord(cfg: Config, s: State, lost: seq<AllocInfo>, e: Event, key: u64)
    requires cfg.combinedOnly && Records(s, e) && Accounted(s, lost)
    requires key in Step(cfg, s, e).combined
    ensures Step(cfg, s, e).combined[key] == Owed(Step(cfg, s, e), lost + LostBy(s, e), key) % U64
  {
    hide Owed, Packed, PackedOf, StackKey, Accepts, StatisticsAdd, StatisticsDel, Add64, LostBy, EveryStackCounted,
      UpdateAny;
    var own, sz := StackKey(e.stackId), s.sizes[e.tid];
    RecordingOwes(cfg, s, lost, e, key);
    ModularSum(Owed(s, lost, key), Packed(sz));
    StatisticsWord(s.combined, own, sz, key);
    if key !in s.combined { UncountedStackOwesNothing(s, lost, key); }
  }

  lemma RecordingKeepsCoverage(cfg: Config, s: State, lost: seq<AllocInfo>, e: Event)
    requires cfg.combinedOnly && Records(s, e) && EveryStackCounted(s, lost)
    requires |s.combined| < COMBINED_ALLOCS_MAX_ENTRIES
    ensures EveryStackCounted(Step(cfg, s, e), lost + LostBy(s, e))
  {}

  lemma RecordingKeepsAccount(cfg: Config, s: State, lost: seq<AllocInfo>, e: Event)
    requires cfg.combinedOnly && Records(s, e) && Accounted(s, lost)
    ensures Accounted(Step(cfg, s, e), lost + LostBy(s, e))
  {
    hide Owed, Accepts, StatisticsAdd, StatisticsDel, StackKey, EveryStackCounted, LostBy;
    StatisticsKeys(s.combined, StackKey(e.stackId), s.sizes[e.tid]);
    forall key | key in Step(cfg, s, e).combined
      ensures Step(cfg, s, e).combined[key] == Owed(Step(cfg, s, e), lost + LostBy(s, e), key) % U64
    {
      RecordingKeepsWord(cfg, s, lost, e, key);
    }
    if |s.combined| < COMBINED_ALLOCS_MAX_ENTRIES { RecordingKeepsCoverage(cfg, s, lost, e); }
  }

  lemma FreeingKeepsWord(cfg: Config, s: State, lost: seq<AllocInfo>, address: u64, key: u64)
    requires cfg.combinedOnly && Accounted(s, lost) && address in s.allocs && key in s.combined
    ensures var s' := Step(cfg, s, FreeEnter(address));
            key in s'.combined && s'.combined[key] == Owed(s', lost, key) % U64
  {
    hide MapSum.Sum, MapSum.SeqSum, Packed, Accepts, StatisticsAdd, Sub64;
    MapSum.Remove(s.allocs, PackedOf(key), address);
    ModularSum(Owed(s, lost, key), Packed(s.allocs[address].size));
  }

  lemma FreeingKeepsAccount(cfg: Config, s: State, lost: seq<AllocInfo>, address: u64)
    requires cfg.combinedOnly && Accounted(s, lost)
    ensures Accounted(Step(cfg, s, FreeEnter(address)), lost)
  {
    hide Owed, Packed, Accepts, StatisticsAdd, StatisticsDel;
    if address in s.allocs {
      var info := s.allocs[address];
      StatisticsKeys(s.combined, StackKey(info.stackId), info.size);
      var s' := Step(cfg, s, FreeEnter(address));
      assert |s'.combined| == |s'.combined.Keys| == |s.combined.Keys| == |s.combined|;
      forall key | key in s'.combined
        ensures s'.combined[key] == Owed(s', lost, key) % U64
      {
        FreeingKeepsWord(cfg, s, lost, address, key);
      }
    }
  }

  lemma StepKeepsAccount(cfg: Config, s: State, lost: seq<AllocInfo>, e: Event)
    requires cfg.combinedOnly && Accounted(s, lost)
    ensures Accounted(Step(cfg, s, e), lost + LostBy(s, e))
  {
    hide MapSum.Sum, MapSum.SeqSum, StatisticsAdd, StatisticsDel;
    if Records(s, e) {
      RecordingKeepsAccount(cfg, s, lost, e);
    } else {
      assert lost + LostBy(s, e) == lost;
      if e.FreeEnter? { FreeingKeepsAccount(cfg, s, lost, e.address); }
    }
  }

  /**
   * Over every run in combined mode, each word equals, modulo 2^64, the packed sum of the live
   * allocations of its stack plus that of the entries lost by overwrite or failed insert.
   */
  lemma {:induction false} WordsAreLivePlusLost(cfg: Config, es: seq<Event>)
    requires cfg.combinedOnly
    ensures Accounted(Run(cfg, es), Lost(cfg, es))
  {
    hide Step, LostBy, Accounted;
    if es == [] {
      InitiallyAccounted();
    } else {
      var n := |es| - 1;
      WordsAreLivePlusLost(cfg, es[..n]);
      StepKeepsAccount(cfg, Run(cfg, es[..n]), Lost(cfg, es[..n]), es[n]);
    }
  }

  lemma InitiallyAccounted()
    ensures Accounted(INITIAL, [])
  {}

  lemma {:induction false} CombinedOnlyGrows(cfg: Config, s: State, more: seq<Event>)
    requires |s.combined| <= COMBINED_ALLOCS_MAX_ENTRIES
    ensures s.combined.Keys <= RunFrom(cfg, s, more).combined.Keys
    ensures |RunFrom(cfg, s, more).combined| <= COMBINED_ALLOCS_MAX_ENTRIES
    decreases |more|
  {
    hide Step;
    if more != [] {
      var n := |more| - 1;
      CombinedOnlyGrows(cfg, s, more[..n]);
      StepGrows(cfg, RunFrom(cfg, s, more[..n]), more[n]);
    }
  }

  lemma StepGrows(cfg: Config, s: State, e: Event)
    requires |s.combined| <= COMBINED_ALLOCS_MAX_ENTRIES
    ensures s.combined.Keys <= Step(cfg, s, e).combined.Keys
    ensures |Step(cfg, s, e).combined| <= COMBINED_ALLOCS_MAX_ENTRIES
  {
    hide StatisticsAdd, StatisticsDel, Accepts;
    if Records(s, e) {
      StatisticsKeys(s.combined, StackKey(e.stackId), s.sizes[e.tid]);
    } else if e.FreeEnter? && e.address in s.allocs {
      StatisticsKeys(s.combined, StackKey(s.allocs[e.address].stackId), s.allocs[e.address].size);
      var c := Step(cfg, s, e).combined;
      assert |c| == |c.Keys| && |s.combined| == |s.combined.Keys|;
    }
  }

  /** A live allocation whose stack has no word means the combined map is full, and it stays exactly so. */
  lemma UncountedMeansFullForever(cfg: Config, es: seq<Event>, address: u64, more: seq<Event>)
    requires cfg.combinedOnly
    requires address in Run(cfg, es).allocs
    requires StackKey(Run(cfg, es).allocs[address].stackId) !in Run(cfg, es).combined
    ensures |Run(cfg, es).combined| == COMBINED_ALLOCS_MAX_ENTRIES
    ensures Run(cfg, es + more).combined.Keys == Run(cfg, es).combined.Keys
  {
    WordsAreLivePlusLost(cfg, es);
    var s := Run(cfg, es);
    CombinedOnlyGrows(cfg, s, more);
    RunConcat(cfg, INITIAL, es, more);
    FullMapIsFrozen(s.combined, Run(cfg, es + more).combined, COMBINED_ALLOCS_MAX_ENTRIES);
  }

  // ---------- decoding ----------

  /** Packed sums split into the two fields, before any wrap-around. */
  lemma PackedSplits(m: map<u64, AllocInfo>, key: u64)
    ensures 0 <= MapSum.Sum(m, BytesOf(key)) && 0 <= MapSum.Sum(m, CountOf(key))
    ensures MapSum.Sum(m, BytesOf(key)) < SIZE_FIELD
            ==> MapSum.Sum(m, PackedOf(key)) == SIZE_FIELD * MapSum.Sum(m, CountOf(key)) + MapSum.Sum(m, BytesOf(key))
  {
    hide MapSum.Sum;
    MapSum.NonNegative(m, BytesOf(key));
    MapSum.NonNegative(m, CountOf(key));
    if MapSum.Sum(m, BytesOf(key)) < SIZE_FIELD {
      MapSum.Linear(m, PackedOf(key), SIZE_FIELD, CountOf(key), BytesOf(key));
    }
  }

  ghost predicate DecodesExactly(s: State, key: u64)
    requires key in s.combined
  {
    && TotalSize(s.combined[key]) == MapSum.Sum(s.allocs, BytesOf(key))
    && NumberOfAllocs(s.combined[key]) == MapSum.Sum(s.allocs, CountOf(key))
  }

  /**
   * Reading the word back gives the outstanding bytes and count exactly when both fit their fields
   * now and the lost entries cancel modulo 2^64. No earlier overflow or borrow matters.
   */
  lemma DecodingIsExactIff(cfg: Config, es: seq<Event>, key: u64)
    requires cfg.combinedOnly && key in Run(cfg, es).combined
    ensures var s := Run(cfg, es);
            DecodesExactly(s, key) <==>
              && MapSum.Sum(s.allocs, BytesOf(key)) < SIZE_FIELD
              && MapSum.Sum(s.allocs, CountOf(key)) < COUNT_FIELD
              && MapSum.SeqSum(Lost(cfg, es), PackedOf(key)) % U64 == 0
  {
    hide MapSum.Sum, MapSum.SeqSum, Packed, Lost, RunFrom;
    WordsAreLivePlusLost(cfg, es);
    var s := Run(cfg, es);
    var bytes, count := MapSum.Sum(s.allocs, BytesOf(key)), MapSum.Sum(s.allocs, CountOf(key));
    var live, lost := MapSum.Sum(s.allocs, PackedOf(key)), MapSum.SeqSum(Lost(cfg, es), PackedOf(key));
    PackedSplits(s.allocs, key);
    assert s.combined[key] == (live + lost) % U64;
    if bytes < SIZE_FIELD && count < COUNT_FIELD {
      FieldsOf(live, lost, bytes, count);
    }
  }

  lemma FieldsOf(live: int, lost: int, bytes: nat, count: nat)
    requires live == count * SIZE_FIELD + bytes && bytes < SIZE_FIELD && count < COUNT_FIELD
    ensures TotalSize((live + lost) % U64) == bytes && NumberOfAllocs((live + lost) % U64) == count
            <==> lost % U64 == 0
  {
    var w := (live + lost) % U64;
    assert w == NumberOfAllocs(w) * SIZE_FIELD + TotalSize(w);
  }

  lemma {:induction false} LostSplits(vs: seq<AllocInfo>, key: u64)
    ensures 0 <= MapSum.SeqSum(vs, BytesOf(key)) && 0 <= MapSum.SeqSum(vs, CountOf(key))
    ensures MapSum.SeqSum(vs, BytesOf(key)) < SIZE_FIELD
            ==> MapSum.SeqSum(vs, PackedOf(key)) == MapSum.SeqSum(vs, CountOf(key)) * SIZE_FIELD
                + MapSum.SeqSum(vs, BytesOf(key))
  {
    if vs != [] { LostSplits(vs[..|vs| - 1], key); }
  }

  /** Within the fields' range the word is exact exactly when nothing of that stack was lost. */
  lemma DecodingIsExactIffNothingLost(cfg: Config, es: seq<Event>, key: u64)
    requires cfg.combinedOnly && key in Run(cfg, es).combined
    requires MapSum.Sum(Run(cfg, es).allocs, BytesOf(key)) < SIZE_FIELD
    requires MapSum.Sum(Run(cfg, es).allocs, CountOf(key)) < COUNT_FIELD
    requires MapSum.SeqSum(Lost(cfg, es), BytesOf(key)) < SIZE_FIELD
    requires MapSum.SeqSum(Lost(cfg, es), CountOf(key)) < COUNT_FIELD
    ensures DecodesExactly(Run(cfg, es), key) <==> MapSum.SeqSum(Lost(cfg, es), CountOf(key)) == 0
  {
    hide MapSum.Sum, MapSum.SeqSum, Packed, Lost, RunFrom;
    DecodingIsExactIff(cfg, es, key);
    LostSplits(Lost(cfg, es), key);
    NoLossNoBytes(Lost(cfg, es), key);
  }

  lemma {:induction false} NoLossNoBytes(vs: seq<AllocInfo>, key: u64)
    ensures MapSum.SeqSum(vs, CountOf(key)) == 0 ==> MapSum.SeqSum(vs, BytesOf(key)) == 0
    ensures MapSum.SeqSum(vs, CountOf(key)) >= 0
  {
    if vs != [] { NoLossNoBytes(vs[..|vs| - 1], key); }
  }

  /** Neither a null result nor MAP_FAILED is ever a key of `allocs`. */
  lemma {:induction false} LiveAddressesAreReal(cfg: Config, es: seq<Event>)
    ensures 0 !in Run(cfg, es).allocs && MAP_FAILED !in Run(cfg, es).allocs
    ensures |Run(cfg, es).allocs| <= ALLOCS_MAX_ENTRIES
  {
    hide Step;
    if es != [] {
      var n := |es| - 1;
      LiveAddressesAreReal(cfg, es[..n]);
      StepKeepsAddresses(cfg, Run(cfg, es[..n]), es[n]);
    }
  }

  lemma StepKeepsAddresses(cfg: Config, s: State, e: Event)
    requires 0 !in s.allocs && MAP_FAILED !in s.allocs && |s.allocs| <= ALLOCS_MAX_ENTRIES
    ensures var s' := Step(cfg, s, e);
            0 !in s'.allocs && MAP_FAILED !in s'.allocs && |s'.allocs| <= ALLOCS_MAX_ENTRIES
  {}
}
