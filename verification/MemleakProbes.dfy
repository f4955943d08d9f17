/**
 * What memleak's probes do to its maps, said without the generic handlers they are built from, and that
 * the probes of a call tree are the events of that tree.
 */
module MemleakProbes {
  import opened Machine
  import opened BpfMap
  import opened Memleak
  import opened MemleakNesting
  import Bits

  /** The state after a probe. */
  function Fired(cfg: Config, s: State, memptrs: map<u32, u64>, p: Probe): State {
    RunFrom(cfg, s, Events(cfg, memptrs, p))
  }

  /** A size to remember for the thread, if it is within the limits and sampled, and there is room. */
  function Pend(cfg: Config, sizes: map<u32, u64>, tid: u32, size: u64, now: u64): map<u32, u64> {
    if size < cfg.minSize || size > cfg.maxSize || (cfg.sampleRate > 1 && now % cfg.sampleRate != 0) then sizes
    else if tid !in sizes && |sizes| >= 10240 then sizes
    else sizes[tid := size]
  }

  /** The thread's pending size booked for a block that was really obtained, if there is room. */
  function Book(allocs: map<u64, AllocInfo>, sizes: map<u32, u64>, tid: u32, a: u64, now: u64, stackId: s32)
    : map<u64, AllocInfo>
  {
    if tid !in sizes || a == 0 || a == 0xFFFF_FFFF_FFFF_FFFF then allocs
    else if a !in allocs && |allocs| >= ALLOCS_MAX_ENTRIES then allocs
    else allocs[a := AllocInfo(sizes[tid], now, stackId)]
  }

  lemma EnterPends(cfg: Config, s: State, tid: u32, size: u64, now: u64)
    ensures Step(cfg, s, AllocEnter(tid, size, now)) == s.(sizes := Pend(cfg, s.sizes, tid, size, now))
  {}

  lemma ExitBooks(cfg: Config, s: State, tid: u32, a: u64, now: u64, stackId: s32)
    ensures var s' := Step(cfg, s, AllocExit(tid, a, now, stackId));
            s'.sizes == s.sizes - {tid} && s'.allocs == Book(s.allocs, s.sizes, tid, a, now, stackId)
  {
    hide StatisticsAdd, StatisticsDel, StackKey, UpdateAny, Book;
    var e := AllocExit(tid, a, now, stackId);
    if Records(s, e) {
      BookStores(s.allocs, s.sizes, tid, a, now, stackId);
    } else {
      BookKeeps(s.allocs, s.sizes, tid, a, now, stackId);
    }
  }

  lemma BookStores(allocs: map<u64, AllocInfo>, sizes: map<u32, u64>, tid: u32, a: u64, now: u64, stackId: s32)
    requires tid in sizes && a != 0 && a != MAP_FAILED
    ensures Book(allocs, sizes, tid, a, now, stackId)
         == UpdateAny(allocs, ALLOCS_MAX_ENTRIES, a, AllocInfo(sizes[tid], now, stackId))
  {}

  lemma BookKeeps(allocs: map<u64, AllocInfo>, sizes: map<u32, u64>, tid: u32, a: u64, now: u64, stackId: s32)
    requires tid !in sizes || a == 0 || a == MAP_FAILED
    ensures Book(allocs, sizes, tid, a, now, stackId) == allocs
  {}

  lemma FreeDrops(cfg: Config, s: State, a: u64)
    ensures var s' := Step(cfg, s, FreeEnter(a)); s'.sizes == s.sizes && s'.allocs == s.allocs - {a}
  {
    assert a !in s.allocs ==> s.allocs - {a} == s.allocs;
  }

  lemma EnterExit(cfg: Config, s: State, tid: u32, size: u64, now: u64, a: u64, exitNow: u64, stackId: s32)
    ensures var s' := RunFrom(cfg, s, [AllocEnter(tid, size, now), AllocExit(tid, a, exitNow, stackId)]);
            var sizes := Pend(cfg, s.sizes, tid, size, now);
            s'.sizes == sizes - {tid} && s'.allocs == Book(s.allocs, sizes, tid, a, exitNow, stackId)
  {
    hide Step, Pend, Book;
    Unroll2(cfg, s, AllocEnter(tid, size, now), AllocExit(tid, a, exitNow, stackId));
    EnterPends(cfg, s, tid, size, now);
    ExitBooks(cfg, Step(cfg, s, AllocEnter(tid, size, now)), tid, a, exitNow, stackId);
  }

  lemma {:induction false} ShiftIsProduct(a: u64, n: nat)
    ensures Shl64(a, n) == (a * Bits.Pow2(n)) % U64
  {
    if n > 0 {
      ShiftIsProduct(a, n - 1);
      assert a * Bits.Pow2(n) == 2 * (a * Bits.Pow2(n - 1));
      DoubleModulo(a * Bits.Pow2(n - 1));
    }
  }

  lemma DoubleModulo(x: nat)
    ensures (2 * (x % U64)) % U64 == (2 * x) % U64
  {}

  /** Entering an allocator: which size the thread has pending, and that realloc and mremap give up the old block. */
  lemma EntryProbes(cfg: Config, s: State, memptrs: map<u32, u64>, tid: u32, size: u64, now: u64, n: u64, ptr: u64)
    ensures Fired(cfg, s, memptrs, SimpleEnter(tid, size, now)) == s.(sizes := Pend(cfg, s.sizes, tid, size, now))
    ensures Fired(cfg, s, memptrs, CallocEnter(tid, n, size, now))
         == s.(sizes := Pend(cfg, s.sizes, tid, (n * size) % 0x1_0000_0000_0000_0000, now))
    ensures Fired(cfg, s, memptrs, PosixEnter(tid, ptr, size, now)) == s.(sizes := Pend(cfg, s.sizes, tid, size, now))
    ensures var s' := Fired(cfg, s, memptrs, ReallocEnter(tid, ptr, size, now));
            s'.sizes == Pend(cfg, s.sizes, tid, size, now) && s'.allocs == s.allocs - {ptr}
  {
    hide Step, Pend;
    var total := (n * size) % U64;
    Unroll1(cfg, s, AllocEnter(tid, size, now));
    Unroll1(cfg, s, AllocEnter(tid, total, now));
    Unroll2(cfg, s, FreeEnter(ptr), AllocEnter(tid, size, now));
    EnterPends(cfg, s, tid, size, now);
    EnterPends(cfg, s, tid, total, now);
    FreeDrops(cfg, s, ptr);
    EnterPends(cfg, Step(cfg, s, FreeEnter(ptr)), tid, size, now);
  }

  /** Leaving one: the pending size is used up and booked, for posix_memalign at the address found in user memory. */
  lemma ExitProbes(cfg: Config, s: State, memptrs: map<u32, u64>, tid: u32, a: u64, now: u64, stackId: s32,
                   user: u64 -> Option<u64>)
    ensures var s' := Fired(cfg, s, memptrs, Exit(tid, a, now, stackId));
            s'.sizes == s.sizes - {tid} && s'.allocs == Book(s.allocs, s.sizes, tid, a, now, stackId)
    ensures var s' := Fired(cfg, s, memptrs, PosixExit(tid, user, now, stackId));
            if tid in memptrs && user(memptrs[tid]).Some? then
              && s'.sizes == s.sizes - {tid}
              && s'.allocs == Book(s.allocs, s.sizes, tid, user(memptrs[tid]).value, now, stackId)
            else s' == s
    ensures var s' := Fired(cfg, s, memptrs, Probe.Free(a)); s'.sizes == s.sizes && s'.allocs == s.allocs - {a}
  {
    hide Step, Book;
    Unroll1(cfg, s, AllocExit(tid, a, now, stackId));
    ExitBooks(cfg, s, tid, a, now, stackId);
    Unroll1(cfg, s, FreeEnter(a));
    FreeDrops(cfg, s, a);
    if tid in memptrs && user(memptrs[tid]).Some? {
      var addr := user(memptrs[tid]).value;
      Unroll1(cfg, s, AllocExit(tid, addr, now, stackId));
      ExitBooks(cfg, s, tid, addr, now, stackId);
    }
  }

  /**
   * Kernel allocations are entered and left at once; a free that was missed is made up for exactly with the
   * workaround; a page allocation counts page size times two to the order.
   */
  lemma KernelProbes(cfg: Config, s: State, memptrs: map<u32, u64>, tid: u32, ptr: u64, bytes: u64, order: nat,
                     now: u64, exitNow: u64, stackId: s32)
    ensures var s' := Fired(cfg, s, memptrs, Kmem(tid, ptr, bytes, now, exitNow, stackId));
            var sizes := Pend(cfg, s.sizes, tid, bytes, now);
            var before := if cfg.waMissingFree then s.allocs - {ptr} else s.allocs;
            s'.sizes == sizes - {tid} && s'.allocs == Book(before, sizes, tid, ptr, exitNow, stackId)
    ensures var s' := Fired(cfg, s, memptrs, Percpu(tid, ptr, bytes, now, exitNow, stackId));
            var sizes := Pend(cfg, s.sizes, tid, bytes, now);
            s'.sizes == sizes - {tid} && s'.allocs == Book(s.allocs, sizes, tid, ptr, exitNow, stackId)
    ensures var s' := Fired(cfg, s, memptrs, PageAlloc(tid, ptr, order, now, exitNow, stackId));
            var sizes := Pend(cfg, s.sizes, tid, (cfg.pageSize * Bits.Pow2(order)) % U64, now);
            s'.sizes == sizes - {tid} && s'.allocs == Book(s.allocs, sizes, tid, ptr, exitNow, stackId)
  {
    hide Step, Pend, Book, RunFrom, Shl64;
    var pair := [AllocEnter(tid, bytes, now), AllocExit(tid, ptr, exitNow, stackId)];
    EnterExit(cfg, s, tid, bytes, now, ptr, exitNow, stackId);
    ShiftIsProduct(cfg.pageSize, order);
    EnterExit(cfg, s, tid, Shl64(cfg.pageSize, order), now, ptr, exitNow, stackId);
    if cfg.waMissingFree {
      var freed := Step(cfg, s, FreeEnter(ptr));
      RunConcat(cfg, s, [FreeEnter(ptr)], pair);
      Unroll1(cfg, s, FreeEnter(ptr));
      FreeDrops(cfg, s, ptr);
      EnterExit(cfg, freed, tid, bytes, now, ptr, exitNow, stackId);
    } else {
      assert [] + pair == pair;
    }
  }

  /**
   * A live block that the kernel hands out again, with a new size that is filtered out, stays booked if and
   * only if the workaround is off.
   */
  lemma MissedFreeIsDroppedIff(cfg: Config, s: State, memptrs: map<u32, u64>, tid: u32, ptr: u64, bytes: u64,
                               now: u64, exitNow: u64, stackId: s32)
    requires ptr in s.allocs && tid !in s.sizes && bytes < cfg.minSize
    ensures ptr in Fired(cfg, s, memptrs, Kmem(tid, ptr, bytes, now, exitNow, stackId)).allocs <==> !cfg.waMissingFree
  {
    hide Fired;
    KernelProbes(cfg, s, memptrs, tid, ptr, bytes, 0, now, exitNow, stackId);
  }

  // ---------- the probes of a call tree ----------

  function NodeProbes(tid: u32, c: Node): seq<Probe> {
    match c
    case Release(a) => [Probe.Free(a)]
    case Call(freed, size, now, a, exitNow, stackId, inner) =>
      [if freed.Some? then ReallocEnter(tid, freed.value, size, now) else SimpleEnter(tid, size, now)]
      + ForestProbes(tid, inner) + [Exit(tid, a, exitNow, stackId)]
  }

  function ForestProbes(tid: u32, cs: seq<Node>): seq<Probe> {
    if cs == [] then [] else NodeProbes(tid, cs[0]) + ForestProbes(tid, cs[1..])
  }

  /** The states that firing probes one after the other goes through. */
  function FiredAll(cfg: Config, s: State, memptrs: map<u32, u64>, ps: seq<Probe>): State
    decreases ps
  {
    if ps == [] then s
    else FiredAll(cfg, Fired(cfg, s, memptrs, ps[0]), Memptrs(memptrs, ps[0]), ps[1..])
  }

  /** Probes that leave `memptrs` alone. */
  predicate Ordinary(ps: seq<Probe>) { forall i :: 0 <= i < |ps| ==> !ps[i].PosixEnter? && !ps[i].PosixExit? }

  lemma {:induction false} FiredConcat(cfg: Config, s: State, memptrs: map<u32, u64>, a: seq<Probe>, b: seq<Probe>)
    requires Ordinary(a)
    ensures FiredAll(cfg, s, memptrs, a + b) == FiredAll(cfg, FiredAll(cfg, s, memptrs, a), memptrs, b)
    decreases a
  {
    hide Fired;
    if a == [] {
      assert a + b == b;
    } else {
      FiredConcat(cfg, Fired(cfg, s, memptrs, a[0]), memptrs, a[1..], b);
      assert (a + b)[1..] == a[1..] + b;
    }
  }

  lemma FiredOne(cfg: Config, s: State, memptrs: map<u32, u64>, p: Probe)
    ensures FiredAll(cfg, s, memptrs, [p]) == Fired(cfg, s, memptrs, p)
  {
    hide Fired;
    assert [p][1..] == [];
  }

  /** Firing the probes of a call tree in order runs exactly the events of the tree. */
  lemma {:induction false} TreeProbesRunItsEvents(cfg: Config, s: State, memptrs: map<u32, u64>, tid: u32, c: Node)
    ensures Ordinary(NodeProbes(tid, c))
    ensures FiredAll(cfg, s, memptrs, NodeProbes(tid, c)) == RunFrom(cfg, s, NodeEvents(tid, c))
    decreases c, 1
  {
    hide Step, RunFrom, FiredAll;
    match c
    case Release(a) =>
      FiredOne(cfg, s, memptrs, Probe.Free(a));
    case Call(freed, size, now, a, exitNow, stackId, inner) =>
      var enter := if freed.Some? then ReallocEnter(tid, freed.value, size, now) else SimpleEnter(tid, size, now);
      var entered, exit := FreedEvents(freed) + [AllocEnter(tid, size, now)], Exit(tid, a, exitNow, stackId);
      assert Events(cfg, memptrs, enter) == entered;
      var s1 := RunFrom(cfg, s, entered);
      FiredOne(cfg, s, memptrs, enter);
      ForestProbesRunTheirEvents(cfg, s1, memptrs, tid, inner);
      FiredConcat(cfg, s, memptrs, [enter], ForestProbes(tid, inner));
      FiredConcat(cfg, s, memptrs, [enter] + ForestProbes(tid, inner), [exit]);
      RunConcat(cfg, s, entered, ForestEvents(tid, inner));
      RunConcat(cfg, s, entered + ForestEvents(tid, inner), [AllocExit(tid, a, exitNow, stackId)]);
      FiredOne(cfg, RunFrom(cfg, s1, ForestEvents(tid, inner)), memptrs, exit);
  }

  lemma {:induction false} ForestProbesRunTheirEvents(cfg: Config, s: State, memptrs: map<u32, u64>, tid: u32,
                                                      cs: seq<Node>)
    ensures Ordinary(ForestProbes(tid, cs))
    ensures FiredAll(cfg, s, memptrs, ForestProbes(tid, cs)) == RunFrom(cfg, s, ForestEvents(tid, cs))
    decreases cs, 0
  {
    if cs != [] {
      hide Step, RunFrom, FiredAll;
      TreeProbesRunItsEvents(cfg, s, memptrs, tid, cs[0]);
      var s1 := RunFrom(cfg, s, NodeEvents(tid, cs[0]));
      ForestProbesRunTheirEvents(cfg, s1, memptrs, tid, cs[1..]);
      FiredConcat(cfg, s, memptrs, NodeProbes(tid, cs[0]), ForestProbes(tid, cs[1..]));
      RunConcat(cfg, s, NodeEvents(tid, cs[0]), ForestEvents(tid, cs[1..]));
    }
  }

  /**
   * posix_memalign: the block is booked where the entry's pointer says it is at exit; the pointer is then
   * forgotten, so that an exit without its own entry books nothing.
   */
  lemma PosixMemalign(cfg: Config, s: State, memptrs: map<u32, u64>, tid: u32, memptr: u64, size: u64, now: u64,
                      user: u64 -> Option<u64>, exitNow: u64, stackId: s32, again: u64, otherStack: s32)
    requires |memptrs| < MEMPTRS_MAX_ENTRIES && user(memptr).Some?
    ensures var s' := FiredAll(cfg, s, memptrs, [PosixEnter(tid, memptr, size, now),
                                                 PosixExit(tid, user, exitNow, stackId)]);
            var sizes := Pend(cfg, s.sizes, tid, size, now);
            && s'.sizes == sizes - {tid}
            && s'.allocs == Book(s.allocs, sizes, tid, user(memptr).value, exitNow, stackId)
            && FiredAll(cfg, s, memptrs, [PosixEnter(tid, memptr, size, now), PosixExit(tid, user, exitNow, stackId),
                                          PosixExit(tid, user, again, otherStack)]) == s'
  {
    hide Step, RunFrom, Pend, Book, Fired, Events;
    var p, q, r := PosixEnter(tid, memptr, size, now), PosixExit(tid, user, exitNow, stackId),
      PosixExit(tid, user, again, otherStack);
    var m1 := Memptrs(memptrs, p);
    assert m1[tid] == memptr && tid !in Memptrs(m1, q);
    var s1 := Fired(cfg, s, memptrs, p);
    var s2 := Fired(cfg, s1, m1, q);
    EntryProbes(cfg, s, memptrs, tid, size, now, 0, memptr);
    ExitProbes(cfg, s1, m1, tid, 0, exitNow, stackId, user);
    ExitProbes(cfg, s2, Memptrs(m1, q), tid, 0, again, otherStack, user);
    assert [p, q][1..] == [q] && [p, q, r][1..] == [q, r] && [q, r][1..] == [r];
    FiredOne(cfg, s1, m1, q);
    FiredOne(cfg, s2, Memptrs(m1, q), r);
  }

  /**
   * So the probes of a tree with all sizes accepted, fired with nothing in between, leave `allocs` with the
   * blocks of the innermost calls booked once and the freed ones gone.
   */
  lemma TreeProbesBookLeaves(cfg: Config, s: State, memptrs: map<u32, u64>, tid: u32, c: Node)
    requires tid !in s.sizes && |s.sizes| < SIZES_MAX_ENTRIES && AllAccepted(cfg, c)
    requires |s.allocs| + Puts(AcceptedLeaves(cfg, c)) < ALLOCS_MAX_ENTRIES
    ensures SizesOf(FiredAll(cfg, s, memptrs, NodeProbes(tid, c)).allocs)
         == Replay(SizesOf(s.allocs), AcceptedLeaves(cfg, c))
  {
    hide FiredAll, RunFrom, Attributed, AcceptedLeaves, NodeEvents, NodeProbes, Changes, AllAccepted;
    TreeProbesRunItsEvents(cfg, s, memptrs, tid, c);
    TreeChanges(cfg, s, tid, c);
    AllAcceptedIsEnough(cfg, c, false);
    AttributedIsLeavesIff(cfg, c, None);
    AllocsHoldWhatWasConsumed(cfg, s, NodeEvents(tid, c));
  }

  // ---------- outside combined mode ----------

  /** Without combined mode no word is ever made. */
  lemma {:induction false} PlainModeHasNoWords(cfg: Config, es: seq<Event>)
    requires !cfg.combinedOnly
    ensures Run(cfg, es).combined == map[]
  {
    if es != [] {
      PlainModeHasNoWords(cfg, es[..|es| - 1]);
      StepKeepsCombined(cfg, Run(cfg, es[..|es| - 1]), es[|es| - 1]);
    }
  }

  lemma StepKeepsCombined(cfg: Config, s: State, e: Event)
    requires !cfg.combinedOnly
    ensures Step(cfg, s, e).combined == s.combined
  {}
}
