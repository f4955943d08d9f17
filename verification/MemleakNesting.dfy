/**
 * One thread's allocator calls nest: calloc may call malloc, realloc may call malloc, free or mmap.
 * The probes keep a single pending size per thread, so what an outer call leaves behind decides what
 * an inner call records. Here: for every call tree, with any other threads running in between,
 * which exits consume which size, and what reaches `allocs`.
 */
module MemleakNesting {
  import opened Machine
  import opened BpfMap
  import opened Memleak

  /** An allocator call, or a free; realloc and mremap free their old block on entry. */
  datatype Node =
    | Call(freed: Option<u64>, size: u64, now: u64, address: u64, exitNow: u64, stackId: s32, inner: seq<Node>)
    | Release(address: u64)

  function FreedEvents(freed: Option<u64>): seq<Event> { if freed.Some? then [FreeEnter(freed.value)] else [] }

  function NodeEvents(tid: u32, c: Node): seq<Event> {
    match c
    case Release(address) => [FreeEnter(address)]
    case Call(freed, size, now, address, exitNow, stackId, inner) =>
      FreedEvents(freed) + [AllocEnter(tid, size, now)] + ForestEvents(tid, inner)
        + [AllocExit(tid, address, exitNow, stackId)]
  }

  function ForestEvents(tid: u32, cs: seq<Node>): seq<Event> {
    if cs == [] then [] else NodeEvents(tid, cs[0]) + ForestEvents(tid, cs[1..])
  }

  /** What an event asks of `allocs`: an entry for an exit that found a pending size, no entry for a freed address. */
  datatype Change = Put(address: u64, size: u64) | Drop(address: u64)

  function ChangesBy(s: State, e: Event): seq<Change> {
    match e
    case AllocEnter(_, _, _) => []
    case AllocExit(tid, address, _, _) => if tid in s.sizes then [Put(address, s.sizes[tid])] else []
    case FreeEnter(address) => [Drop(address)]
  }

  function Changes(cfg: Config, s: State, es: seq<Event>): seq<Change> {
    if es == [] then []
    else Changes(cfg, s, es[..|es| - 1]) + ChangesBy(RunFrom(cfg, s, es[..|es| - 1]), es[|es| - 1])
  }

  // ---------- reference: leaves only ----------

  predicate HasCall(cs: seq<Node>) { exists i :: 0 <= i < |cs| && cs[i].Call? }

  function Dropped(freed: Option<u64>): seq<Change> { if freed.Some? then [Drop(freed.value)] else [] }

  /** The frees, and of the calls the innermost whose size passes the filter, each with its own size. */
  function AcceptedLeaves(cfg: Config, c: Node): seq<Change> {
    match c
    case Release(address) => [Drop(address)]
    case Call(freed, size, now, address, _, _, inner) =>
      Dropped(freed) + ForestLeaves(cfg, inner)
      + if !HasCall(inner) && Accepts(cfg, size, now) then [Put(address, size)] else []
  }

  function ForestLeaves(cfg: Config, cs: seq<Node>): seq<Change> {
    if cs == [] then [] else AcceptedLeaves(cfg, cs[0]) + ForestLeaves(cfg, cs[1..])
  }

  /**
   * No call whose size is filtered out is the first innermost call under one whose size was
   * accepted (`pending`: such an outer size is waiting).
   */
  predicate NoOrphanedSize(cfg: Config, c: Node, pending: bool) {
    match c
    case Release(_) => true
    case Call(_, size, now, _, _, _, inner) =>
      if HasCall(inner) then ForestNoOrphanedSize(cfg, inner, pending || Accepts(cfg, size, now))
      else !pending || Accepts(cfg, size, now)
  }

  predicate ForestNoOrphanedSize(cfg: Config, cs: seq<Node>, pending: bool) {
    cs != [] ==> NoOrphanedSize(cfg, cs[0], pending) && ForestNoOrphanedSize(cfg, cs[1..], pending && cs[0].Release?)
  }

  // ---------- one thread's pending size ----------

  function Pending(s: State, tid: u32): Option<u64> {
    if tid in s.sizes then Some(s.sizes[tid]) else None
  }

  function ThreadStep(cfg: Config, p: Option<u64>, e: Event): Option<u64> {
    match e
    case AllocEnter(_, size, now) => if Accepts(cfg, size, now) then Some(size) else p
    case AllocExit(_, _, _, _) => None
    case FreeEnter(_) => p
  }

  function ThreadChange(p: Option<u64>, e: Event): seq<Change> {
    match e
    case AllocEnter(_, _, _) => []
    case AllocExit(_, address, _, _) => if p.Some? then [Put(address, p.value)] else []
    case FreeEnter(address) => [Drop(address)]
  }

  function ThreadRun(cfg: Config, p: Option<u64>, es: seq<Event>): Option<u64> {
    if es == [] then p else ThreadStep(cfg, ThreadRun(cfg, p, es[..|es| - 1]), es[|es| - 1])
  }

  function ThreadChanges(cfg: Config, p: Option<u64>, es: seq<Event>): seq<Change> {
    if es == [] then []
    else ThreadChanges(cfg, p, es[..|es| - 1]) + ThreadChange(ThreadRun(cfg, p, es[..|es| - 1]), es[|es| - 1])
  }

  /** An event of an interleaving; `mine` if the thread in question causes it. */
  datatype Tagged = Tagged(mine: bool, e: Event)

  function Plain(ts: seq<Tagged>): (es: seq<Event>)
    ensures |es| == |ts|
  {
    if ts == [] then [] else Plain(ts[..|ts| - 1]) + [ts[|ts| - 1].e]
  }

  function Mine(ts: seq<Tagged>): seq<Event> {
    if ts == [] then []
    else Mine(ts[..|ts| - 1]) + if ts[|ts| - 1].mine then [ts[|ts| - 1].e] else []
  }

  /** What the thread's own events ask of `allocs` in an interleaving. */
  function MyChanges(cfg: Config, s: State, ts: seq<Tagged>): seq<Change> {
    if ts == [] then []
    else
      var n := |ts| - 1;
      MyChanges(cfg, s, ts[..n]) + if ts[n].mine then ChangesBy(RunFrom(cfg, s, Plain(ts[..n])), ts[n].e) else []
  }

  /** The thread's allocator events are those with its id; frees carry none. */
  ghost predicate Tags(ts: seq<Tagged>, tid: u32) {
    forall i :: 0 <= i < |ts| && !ts[i].e.FreeEnter? ==> (ts[i].mine <==> ts[i].e.tid == tid)
  }

  /** Whenever the thread enters an allocator, `sizes` has room for it. */
  ghost predicate RoomFor(cfg: Config, s: State, ts: seq<Tagged>, tid: u32) {
    forall i :: 0 <= i < |ts| && ts[i].mine && ts[i].e.AllocEnter? ==>
      Fits(RunFrom(cfg, s, Plain(ts[..i])).sizes, SIZES_MAX_ENTRIES, tid)
  }

  lemma StepIsThreadStep(cfg: Config, s: State, t: Tagged, tid: u32)
    requires !t.e.FreeEnter? ==> (t.mine <==> t.e.tid == tid)
    requires t.mine && t.e.AllocEnter? ==> Fits(s.sizes, SIZES_MAX_ENTRIES, tid)
    ensures Pending(Step(cfg, s, t.e), tid) == if t.mine then ThreadStep(cfg, Pending(s, tid), t.e) else Pending(s, tid)
    ensures t.mine ==> ChangesBy(s, t.e) == ThreadChange(Pending(s, tid), t.e)
  {
    hide Accepts, StatisticsAdd, StatisticsDel;
  }

  /** Whatever other threads do in between, a thread's events take effect as if it ran alone. */
  lemma {:induction false} ThreadIsAlone(cfg: Config, s: State, ts: seq<Tagged>, tid: u32)
    requires Tags(ts, tid) && RoomFor(cfg, s, ts, tid)
    ensures Pending(RunFrom(cfg, s, Plain(ts)), tid) == ThreadRun(cfg, Pending(s, tid), Mine(ts))
    ensures MyChanges(cfg, s, ts) == ThreadChanges(cfg, Pending(s, tid), Mine(ts))
  {
    hide Step, ChangesBy, ThreadStep, ThreadChange, Pending, Fits;
    if ts != [] {
      var n := |ts| - 1;
      forall i | 0 <= i < n ensures ts[..n][..i] == ts[..i] {}
      ThreadIsAlone(cfg, s, ts[..n], tid);
      assert ts[..n] == ts[..n][..n];
      StepIsThreadStep(cfg, RunFrom(cfg, s, Plain(ts[..n])), ts[n], tid);
      assert Plain(ts)[..n] == Plain(ts[..n]);
      if ts[n].mine {
        assert Mine(ts)[..|Mine(ts)| - 1] == Mine(ts[..n]);
      } else {
        assert Mine(ts) == Mine(ts[..n]) && MyChanges(cfg, s, ts) == MyChanges(cfg, s, ts[..n]);
      }
    }
  }

  // ---------- what the probes do on a tree ----------

  function After(cfg: Config, c: Node, pending: Option<u64>): Option<u64>
    requires c.Call?
  {
    if Accepts(cfg, c.size, c.now) then Some(c.size) else pending
  }

  function Attributed(cfg: Config, c: Node, pending: Option<u64>): seq<Change> {
    match c
    case Release(address) => [Drop(address)]
    case Call(freed, _, _, address, _, _, inner) =>
      var p := After(cfg, c, pending);
      Dropped(freed) + ForestAttributed(cfg, inner, p)
      + if !HasCall(inner) && p.Some? then [Put(address, p.value)] else []
  }

  function ForestAttributed(cfg: Config, cs: seq<Node>, pending: Option<u64>): seq<Change> {
    if cs == [] then []
    else Attributed(cfg, cs[0], pending) + ForestAttributed(cfg, cs[1..], if cs[0].Release? then pending else None)
  }

  lemma {:induction false} ThreadConcat(cfg: Config, p: Option<u64>, a: seq<Event>, b: seq<Event>)
    ensures ThreadRun(cfg, p, a + b) == ThreadRun(cfg, ThreadRun(cfg, p, a), b)
    ensures ThreadChanges(cfg, p, a + b) == ThreadChanges(cfg, p, a) + ThreadChanges(cfg, ThreadRun(cfg, p, a), b)
    decreases |b|
  {
    hide ThreadStep, ThreadChange;
    if b == [] {
      assert a + b == a;
    } else {
      var n := |b| - 1;
      ThreadConcat(cfg, p, a, b[..n]);
      assert (a + b)[..|a + b| - 1] == a + b[..n];
    }
  }

  lemma ThreadOne(cfg: Config, p: Option<u64>, e: Event)
    ensures ThreadRun(cfg, p, [e]) == ThreadStep(cfg, p, e) && ThreadChanges(cfg, p, [e]) == ThreadChange(p, e)
  {
    hide ThreadStep, ThreadChange;
    assert [e][..0] == [];
  }

  lemma Freeing(cfg: Config, p: Option<u64>, freed: Option<u64>)
    ensures ThreadRun(cfg, p, FreedEvents(freed)) == p && ThreadChanges(cfg, p, FreedEvents(freed)) == Dropped(freed)
  {
    if freed.Some? { ThreadOne(cfg, p, FreeEnter(freed.value)); }
  }

  /** Any call tree leaves no pending size behind and asks for exactly what `Attributed` says. */
  lemma {:induction false} CallConsumes(cfg: Config, tid: u32, c: Node, p: Option<u64>)
    ensures ThreadChanges(cfg, p, NodeEvents(tid, c)) == Attributed(cfg, c, p)
    ensures ThreadRun(cfg, p, NodeEvents(tid, c)) == if c.Release? then p else None
    decreases c, 1
  {
    hide ThreadRun, ThreadChanges, Accepts, FreedEvents, Dropped, HasCall;
    if c.Release? {
      ThreadOne(cfg, p, FreeEnter(c.address));
    } else {
      var freed, enter := FreedEvents(c.freed), AllocEnter(tid, c.size, c.now);
      var exit := AllocExit(tid, c.address, c.exitNow, c.stackId);
      Freeing(cfg, p, c.freed);
      ThreadConcat(cfg, p, freed, [enter]);
      ThreadOne(cfg, p, enter);
      var q := After(cfg, c, p);
      ForestConsumes(cfg, tid, c.inner, q);
      ThreadConcat(cfg, p, freed + [enter], ForestEvents(tid, c.inner));
      ThreadConcat(cfg, p, freed + [enter] + ForestEvents(tid, c.inner), [exit]);
      ThreadOne(cfg, ThreadRun(cfg, q, ForestEvents(tid, c.inner)), exit);
      assert Dropped(c.freed) + [] == Dropped(c.freed);
    }
  }

  lemma {:induction false} ForestConsumes(cfg: Config, tid: u32, cs: seq<Node>, p: Option<u64>)
    ensures ThreadChanges(cfg, p, ForestEvents(tid, cs)) == ForestAttributed(cfg, cs, p)
    ensures ThreadRun(cfg, p, ForestEvents(tid, cs)) == if HasCall(cs) then None else p
    decreases cs, 0
  {
    if cs != [] {
      hide ThreadRun, ThreadChanges, Accepts;
      CallConsumes(cfg, tid, cs[0], p);
      ForestConsumes(cfg, tid, cs[1..], if cs[0].Release? then p else None);
      ThreadConcat(cfg, p, NodeEvents(tid, cs[0]), ForestEvents(tid, cs[1..]));
      HasCallStep(cs);
    }
  }

  lemma HasCallStep(cs: seq<Node>)
    requires cs != []
    ensures HasCall(cs) <==> cs[0].Call? || HasCall(cs[1..])
  {
    if i :| 0 <= i < |cs| && cs[i].Call? { assert i == 0 || cs[1..][i - 1].Call?; }
    if i :| 0 <= i < |cs[1..]| && cs[1..][i].Call? { assert cs[i + 1].Call?; }
  }

  lemma {:induction false} AttributedIsLeavesIff(cfg: Config, c: Node, pending: Option<u64>)
    ensures |Attributed(cfg, c, pending)| >= |AcceptedLeaves(cfg, c)|
    ensures NoOrphanedSize(cfg, c, pending.Some?) ==> Attributed(cfg, c, pending) == AcceptedLeaves(cfg, c)
    ensures !NoOrphanedSize(cfg, c, pending.Some?) ==> |Attributed(cfg, c, pending)| > |AcceptedLeaves(cfg, c)|
    decreases c, 1
  {
    hide Accepts, HasCall, Dropped;
    if c.Call? {
      ForestAttributedIsLeavesIff(cfg, c.inner, After(cfg, c, pending));
      if !HasCall(c.inner) { NoCallNoOrphan(cfg, c.inner, After(cfg, c, pending).Some?); }
    }
  }

  lemma {:induction false} NoCallNoOrphan(cfg: Config, cs: seq<Node>, pending: bool)
    requires !HasCall(cs)
    ensures ForestNoOrphanedSize(cfg, cs, pending)
  {
    if cs != [] {
      HasCallStep(cs);
      NoCallNoOrphan(cfg, cs[1..], pending);
    }
  }

  lemma {:induction false} ForestAttributedIsLeavesIff(cfg: Config, cs: seq<Node>, pending: Option<u64>)
    ensures |ForestAttributed(cfg, cs, pending)| >= |ForestLeaves(cfg, cs)|
    ensures ForestNoOrphanedSize(cfg, cs, pending.Some?) ==> ForestAttributed(cfg, cs, pending) == ForestLeaves(cfg, cs)
    ensures !ForestNoOrphanedSize(cfg, cs, pending.Some?)
            ==> |ForestAttributed(cfg, cs, pending)| > |ForestLeaves(cfg, cs)|
    decreases cs, 0
  {
    hide Accepts, HasCall, Attributed, AcceptedLeaves, NoOrphanedSize;
    if cs != [] {
      AttributedIsLeavesIff(cfg, cs[0], pending);
      ForestAttributedIsLeavesIff(cfg, cs[1..], if cs[0].Release? then pending else None);
    }
  }

  /** An interleaving in which the thread runs exactly one call tree. */
  ghost predicate Interleaves(cfg: Config, s: State, ts: seq<Tagged>, tid: u32, c: Node) {
    Tags(ts, tid) && RoomFor(cfg, s, ts, tid) && Mine(ts) == NodeEvents(tid, c)
  }

  /**
   * From a thread with nothing pending, and whatever other threads do meanwhile, exactly the accepted
   * innermost calls record their own sizes if and only if no filtered-out call inherits the size of an
   * accepted outer one.
   */
  lemma OnlyLeavesRecordIff(cfg: Config, s: State, ts: seq<Tagged>, tid: u32, c: Node)
    requires tid !in s.sizes && c.Call? && Interleaves(cfg, s, ts, tid, c)
    ensures MyChanges(cfg, s, ts) == AcceptedLeaves(cfg, c) <==> NoOrphanedSize(cfg, c, false)
    ensures tid !in RunFrom(cfg, s, Plain(ts)).sizes
  {
    hide RoomFor, Tags, RunFrom, MyChanges, NodeEvents, Attributed, AcceptedLeaves, NoOrphanedSize;
    ThreadIsAlone(cfg, s, ts, tid);
    CallConsumes(cfg, tid, c, None);
    AttributedIsLeavesIff(cfg, c, None);
  }

  predicate AllAccepted(cfg: Config, c: Node) {
    c.Call? ==> Accepts(cfg, c.size, c.now) && forall i :: 0 <= i < |c.inner| ==> AllAccepted(cfg, c.inner[i])
  }

  lemma {:induction false} AllAcceptedIsEnough(cfg: Config, c: Node, pending: bool)
    requires AllAccepted(cfg, c)
    ensures NoOrphanedSize(cfg, c, pending)
    decreases c, 1
  {
    hide Accepts, HasCall;
    if c.Call? { ForestAllAccepted(cfg, c.inner, true); }
  }

  lemma {:induction false} ForestAllAccepted(cfg: Config, cs: seq<Node>, pending: bool)
    requires forall i :: 0 <= i < |cs| ==> AllAccepted(cfg, cs[i])
    ensures ForestNoOrphanedSize(cfg, cs, pending)
    decreases cs, 0
  {
    hide Accepts;
    if cs != [] {
      AllAcceptedIsEnough(cfg, cs[0], pending);
      ForestAllAccepted(cfg, cs[1..], pending && cs[0].Release?);
    }
  }

  /** When every size is accepted, an allocator that calls another allocator never double-counts. */
  lemma NestedCallsNeverDoubleCount(cfg: Config, s: State, ts: seq<Tagged>, tid: u32, c: Node)
    requires tid !in s.sizes && c.Call? && Interleaves(cfg, s, ts, tid, c)
    requires AllAccepted(cfg, c)
    ensures MyChanges(cfg, s, ts) == AcceptedLeaves(cfg, c)
  {
    hide Interleaves, MyChanges, AcceptedLeaves, AllAccepted;
    OnlyLeavesRecordIff(cfg, s, ts, tid, c);
    AllAcceptedIsEnough(cfg, c, false);
  }

  // ---------- a tree with nothing in between ----------

  function TagAll(es: seq<Event>): (ts: seq<Tagged>)
    ensures |ts| == |es| && forall i :: 0 <= i < |es| ==> ts[i] == Tagged(true, es[i])
  {
    if es == [] then [] else TagAll(es[..|es| - 1]) + [Tagged(true, es[|es| - 1])]
  }

  lemma {:induction false} TagAllPlain(es: seq<Event>, i: nat)
    requires i <= |es|
    ensures Plain(TagAll(es)[..i]) == Mine(TagAll(es)[..i]) == es[..i]
  {
    if i > 0 {
      TagAllPlain(es, i - 1);
      assert TagAll(es)[..i][..i - 1] == TagAll(es)[..i - 1];
    }
  }

  ghost predicate OwnEvents(es: seq<Event>, tid: u32) {
    forall i :: 0 <= i < |es| && !es[i].FreeEnter? ==> es[i].tid == tid
  }

  lemma {:induction false} NodeEventsOwn(tid: u32, c: Node)
    ensures OwnEvents(NodeEvents(tid, c), tid)
    decreases c, 1
  {
    if c.Call? { ForestEventsOwn(tid, c.inner); }
  }

  lemma {:induction false} ForestEventsOwn(tid: u32, cs: seq<Node>)
    ensures OwnEvents(ForestEvents(tid, cs), tid)
    decreases cs, 0
  {
    if cs != [] {
      NodeEventsOwn(tid, cs[0]);
      ForestEventsOwn(tid, cs[1..]);
    }
  }

  lemma {:induction false} AloneSizes(cfg: Config, s: State, es: seq<Event>, tid: u32)
    requires OwnEvents(es, tid)
    ensures RunFrom(cfg, s, es).sizes.Keys <= s.sizes.Keys + {tid}
  {
    hide Step;
    if es != [] {
      AloneSizes(cfg, s, es[..|es| - 1], tid);
      StepSizes(cfg, RunFrom(cfg, s, es[..|es| - 1]), es[|es| - 1], tid);
    }
  }

  lemma StepSizes(cfg: Config, s: State, e: Event, tid: u32)
    requires !e.FreeEnter? ==> e.tid == tid
    ensures Step(cfg, s, e).sizes.Keys <= s.sizes.Keys + {tid}
  {
    hide Accepts, StatisticsAdd, StatisticsDel;
  }

  lemma AloneFits(sizes: map<u32, u64>, sizes': map<u32, u64>, tid: u32)
    requires |sizes| < SIZES_MAX_ENTRIES && sizes'.Keys <= sizes.Keys + {tid}
    ensures Fits(sizes', SIZES_MAX_ENTRIES, tid)
  {
    if tid !in sizes' {
      assert sizes'.Keys <= sizes.Keys;
      Subset(sizes'.Keys, sizes.Keys);
      assert |sizes'| == |sizes'.Keys| && |sizes| == |sizes.Keys|;
    }
  }

  /** Every call tree can run, with room for one more thread. */
  lemma TreeAlone(cfg: Config, s: State, tid: u32, c: Node)
    requires |s.sizes| < SIZES_MAX_ENTRIES
    ensures var ts := TagAll(NodeEvents(tid, c)); Interleaves(cfg, s, ts, tid, c) && Plain(ts) == NodeEvents(tid, c)
  {
    hide NodeEvents, RunFrom, Fits;
    var es, ts := NodeEvents(tid, c), TagAll(NodeEvents(tid, c));
    NodeEventsOwn(tid, c);
    TagAllPlain(es, |es|);
    assert ts[..|es|] == ts && es[..|es|] == es;
    forall i | 0 <= i < |ts| ensures Fits(RunFrom(cfg, s, Plain(ts[..i])).sizes, SIZES_MAX_ENTRIES, tid) {
      TagAllPlain(es, i);
      AloneSizes(cfg, s, es[..i], tid);
      AloneFits(s.sizes, RunFrom(cfg, s, es[..i]).sizes, tid);
    }
  }

  /** So, with nothing in between, a call asks of `allocs` what `Attributed` says. */
  lemma TreeChanges(cfg: Config, s: State, tid: u32, c: Node)
    requires tid !in s.sizes && |s.sizes| < SIZES_MAX_ENTRIES
    ensures Changes(cfg, s, NodeEvents(tid, c)) == Attributed(cfg, c, None)
  {
    hide Interleaves, RunFrom, NodeEvents, Attributed, ThreadChanges, MyChanges;
    var ts := TagAll(NodeEvents(tid, c));
    TreeAlone(cfg, s, tid, c);
    AloneIsInterleaving(cfg, s, ts);
    assert Tags(ts, tid) && RoomFor(cfg, s, ts, tid) && Mine(ts) == NodeEvents(tid, c) by {
      InterleavesMeans(cfg, s, ts, tid, c);
    }
    ThreadIsAlone(cfg, s, ts, tid);
    CallConsumes(cfg, tid, c, None);
  }

  lemma InterleavesMeans(cfg: Config, s: State, ts: seq<Tagged>, tid: u32, c: Node)
    requires Interleaves(cfg, s, ts, tid, c)
    ensures Tags(ts, tid) && RoomFor(cfg, s, ts, tid) && Mine(ts) == NodeEvents(tid, c)
  {}

  lemma {:induction false} AloneIsInterleaving(cfg: Config, s: State, ts: seq<Tagged>)
    requires forall i :: 0 <= i < |ts| ==> ts[i].mine
    ensures MyChanges(cfg, s, ts) == Changes(cfg, s, Plain(ts))
  {
    hide ChangesBy, RunFrom;
    if ts != [] {
      AloneIsInterleaving(cfg, s, ts[..|ts| - 1]);
      assert Plain(ts)[..|ts| - 1] == Plain(ts[..|ts| - 1]);
    }
  }

  /** A filtered-out inner call takes the outer call's size: 64 bytes are booked for an 8-byte block. */
  lemma FilteredInnerCallMisattributes()
    ensures var cfg := Config(16, 1000, 1, 4096, false, false);
            var c := Call(None, 64, 0, 0x1000, 1, 5, [Call(None, 8, 0, 0x2000, 1, 5, [])]);
            Changes(cfg, INITIAL, NodeEvents(7, c)) == [Put(0x2000, 64)] && AcceptedLeaves(cfg, c) == []
  {
    var cfg := Config(16, 1000, 1, 4096, false, false);
    var leaf := Call(None, 8, 0, 0x2000, 1, 5, []);
    var c := Call(None, 64, 0, 0x1000, 1, 5, [leaf]);
    TreeChanges(cfg, INITIAL, 7, c);
    hide Changes, NodeEvents;
    assert c.inner[0].Call?;
    assert Attributed(cfg, leaf, Some(64)) == [Put(0x2000, 64)];
    assert ForestAttributed(cfg, [leaf], Some(64)) == [Put(0x2000, 64)];
    assert AcceptedLeaves(cfg, leaf) == [];
    assert ForestLeaves(cfg, [leaf]) == [];
  }

  // ---------- what reaches `allocs` ----------

  function SizesOf(allocs: map<u64, AllocInfo>): map<u64, u64> { map a | a in allocs :: allocs[a].size }

  function Apply(m: map<u64, u64>, c: Change): map<u64, u64> {
    match c
    case Put(a, size) => if a == 0 || a == MAP_FAILED then m else m[a := size]
    case Drop(a) => m - {a}
  }

  function Replay(m: map<u64, u64>, cs: seq<Change>): map<u64, u64> {
    if cs == [] then m else Apply(Replay(m, cs[..|cs| - 1]), cs[|cs| - 1])
  }

  function Puts(cs: seq<Change>): nat {
    if cs == [] then 0 else Puts(cs[..|cs| - 1]) + if cs[|cs| - 1].Put? then 1 else 0
  }

  lemma RecordingPuts(cfg: Config, s: State, e: Event)
    requires |s.allocs| < ALLOCS_MAX_ENTRIES && Records(s, e)
    ensures SizesOf(Step(cfg, s, e).allocs) == SizesOf(s.allocs)[e.address := s.sizes[e.tid]]
    ensures |Step(cfg, s, e).allocs| <= |s.allocs| + 1
  {
    hide Accepts, StatisticsAdd, StatisticsDel;
    assert Step(cfg, s, e).allocs == s.allocs[e.address := Recorded(s, e)];
    UpdateKeys(s.allocs, ALLOCS_MAX_ENTRIES, e.address, Recorded(s, e));
  }

  lemma FreeingDrops(cfg: Config, s: State, a: u64)
    ensures SizesOf(Step(cfg, s, FreeEnter(a)).allocs) == SizesOf(s.allocs) - {a}
    ensures |Step(cfg, s, FreeEnter(a)).allocs| <= |s.allocs|
  {
    hide SizesOf, StatisticsDel;
    FreeShrinks(s.allocs, a);
  }

  lemma NothingChanges(cfg: Config, s: State, e: Event)
    requires !Records(s, e) && !e.FreeEnter?
    ensures Step(cfg, s, e).allocs == s.allocs
  {}

  lemma StepChanges(cfg: Config, s: State, e: Event)
    requires |s.allocs| < ALLOCS_MAX_ENTRIES
    ensures var cs, m := ChangesBy(s, e), SizesOf(Step(cfg, s, e).allocs);
            && |cs| <= 1 && m == (if cs == [] then SizesOf(s.allocs) else Apply(SizesOf(s.allocs), cs[0]))
            && |Step(cfg, s, e).allocs| <= |s.allocs| + if cs != [] && cs[0].Put? then 1 else 0
  {
    hide Step, SizesOf;
    if Records(s, e) {
      RecordingPuts(cfg, s, e);
    } else if e.FreeEnter? {
      FreeingDrops(cfg, s, e.address);
    } else {
      NothingChanges(cfg, s, e);
    }
  }

  lemma StepReplays(cfg: Config, s: State, e: Event, before: map<u64, u64>, cs: seq<Change>)
    requires |s.allocs| < ALLOCS_MAX_ENTRIES && SizesOf(s.allocs) == Replay(before, cs)
    ensures SizesOf(Step(cfg, s, e).allocs) == Replay(before, cs + ChangesBy(s, e))
    ensures |Step(cfg, s, e).allocs| <= |s.allocs| + Puts(cs + ChangesBy(s, e)) - Puts(cs)
  {
    hide Step, SizesOf, Replay, Puts, ChangesBy, Apply;
    StepChanges(cfg, s, e);
    if ChangesBy(s, e) == [] {
      assert cs + ChangesBy(s, e) == cs;
    } else {
      var c := ChangesBy(s, e)[0];
      assert ChangesBy(s, e) == [c];
      ReplayAppend(before, cs, c);
    }
  }

  lemma FreeShrinks(m: map<u64, AllocInfo>, a: u64)
    ensures |m - {a}| <= |m| && SizesOf(m - {a}) == SizesOf(m) - {a} && (a !in m ==> m - {a} == m)
  {
    if a in m { assert (m - {a}).Keys == m.Keys - {a} && |m.Keys - {a}| == |m.Keys| - 1; }
  }

  lemma ReplayAppend(m: map<u64, u64>, cs: seq<Change>, c: Change)
    ensures Replay(m, cs + [c]) == Apply(Replay(m, cs), c)
    ensures Puts(cs + [c]) == Puts(cs) + if c.Put? then 1 else 0
  {
    assert (cs + [c])[..|cs|] == cs;
  }

  lemma {:induction false} PutsGrow(cs: seq<Change>, ds: seq<Change>)
    ensures Puts(cs) <= Puts(cs + ds)
    decreases |ds|
  {
    if ds == [] {
      assert cs + ds == cs;
    } else {
      PutsGrow(cs, ds[..|ds| - 1]);
      assert (cs + ds)[..|cs + ds| - 1] == cs + ds[..|ds| - 1];
    }
  }

  /**
   * While `allocs` has room, it is what all threads' exits and frees ask for, replayed in order, and nothing
   * else changes it.
   */
  lemma {:induction false} AllocsHoldWhatWasConsumed(cfg: Config, s: State, es: seq<Event>)
    requires |s.allocs| + Puts(Changes(cfg, s, es)) < ALLOCS_MAX_ENTRIES
    ensures SizesOf(RunFrom(cfg, s, es).allocs) == Replay(SizesOf(s.allocs), Changes(cfg, s, es))
    ensures |RunFrom(cfg, s, es).allocs| <= |s.allocs| + Puts(Changes(cfg, s, es))
    decreases |es|
  {
    hide Step, ChangesBy, SizesOf;
    if es != [] {
      var n := |es| - 1;
      var t, before := RunFrom(cfg, s, es[..n]), Changes(cfg, s, es[..n]);
      PutsGrow(before, ChangesBy(t, es[n]));
      AllocsHoldWhatWasConsumed(cfg, s, es[..n]);
      StepReplays(cfg, t, es[n], SizesOf(s.allocs), before);
    }
  }

  /** realloc that moves a block: the old address goes, and its malloc's block is booked once, with its own size. */
  lemma ReallocMovesTheBlock(cfg: Config, s: State, tid: u32, ptr: u64, moved: u64, size: u64, now: u64, stackId: s32)
    requires Accepts(cfg, size, now) && moved != 0 && moved != MAP_FAILED && moved != ptr
    requires tid !in s.sizes && |s.sizes| < SIZES_MAX_ENTRIES && |s.allocs| + 1 < ALLOCS_MAX_ENTRIES
    ensures var malloc := Call(None, size, now, moved, now, stackId, []);
            var realloc := Call(Some(ptr), size, now, moved, now, stackId, [malloc, Release(ptr)]);
            SizesOf(RunFrom(cfg, s, NodeEvents(tid, realloc)).allocs) == (SizesOf(s.allocs) - {ptr})[moved := size]
  {
    var malloc := Call(None, size, now, moved, now, stackId, []);
    var realloc := Call(Some(ptr), size, now, moved, now, stackId, [malloc, Release(ptr)]);
    hide RunFrom, Accepts, SizesOf, Changes, NodeEvents, Attributed, AcceptedLeaves;
    TreeChanges(cfg, s, tid, realloc);
    assert AllAccepted(cfg, malloc) && AllAccepted(cfg, realloc);
    AllAcceptedIsEnough(cfg, realloc, false);
    AttributedIsLeavesIff(cfg, realloc, None);
    ReallocLeaves(cfg, realloc, malloc, ptr);
    ReplayThree(SizesOf(s.allocs), Drop(ptr), Put(moved, size), Drop(ptr));
    AllocsHoldWhatWasConsumed(cfg, s, NodeEvents(tid, realloc));
  }

  lemma ReplayThree(m: map<u64, u64>, a: Change, b: Change, c: Change)
    ensures Replay(m, [a] + [b] + [c]) == Apply(Apply(Apply(m, a), b), c)
    ensures Puts([a] + [b] + [c]) == (if a.Put? then 1 else 0) + (if b.Put? then 1 else 0) + if c.Put? then 1 else 0
  {
    hide Apply;
    ReplayAppend(m, [], a);
    assert [] + [a] == [a];
    ReplayAppend(m, [a], b);
    ReplayAppend(m, [a] + [b], c);
  }

  lemma ReallocLeaves(cfg: Config, c: Node, leaf: Node, ptr: u64)
    requires leaf.Call? && leaf.freed == None && leaf.inner == [] && Accepts(cfg, leaf.size, leaf.now)
    requires c.Call? && c.freed == Some(ptr) && c.inner == [leaf, Release(ptr)]
    ensures AcceptedLeaves(cfg, c) == [Drop(ptr)] + [Put(leaf.address, leaf.size)] + [Drop(ptr)]
  {
    assert c.inner[0].Call?;
    assert AcceptedLeaves(cfg, leaf) == [Put(leaf.address, leaf.size)];
    assert c.inner[1..] == [Release(ptr)] && [Release(ptr)][1..] == [];
    assert ForestLeaves(cfg, [Release(ptr)]) == [Drop(ptr)];
  }
}
