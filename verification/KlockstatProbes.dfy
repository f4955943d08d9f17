/**
 * klockstat attaches either fentry/fexit programs, whose exit side sees the lock argument, or
 * kprobe/kretprobe programs, whose exit side does not and fetches it from the per-thread
 * `locks` map. Here: what the second see of the real calls, and exactly when they leave the same
 * state as the first. The try-lock entry probe is a stuttering step.
 */
module KlockstatProbes {
  import opened Machine
  import opened BpfMap
  import opened Klockstat

  /** How a lock function reports its outcome. */
  datatype Kind =
    | Blocking     // mutex_lock, down_read, down_write: always acquires
    | TryNonzero   // mutex_trylock: any nonzero result is success
    | TryOne       // down_read_trylock, down_write_trylock: 1 is success
    | Abortable    // _interruptible and _killable: nonzero is failure

  datatype Call =
    | Enter(kind: Kind, task: u64, lock: u64, stackId: s32, now: u64)
    | Return(kind: Kind, task: u64, lock: u64, ret: s64, stackId: s32, now: u64, later: u64)
    | Unlock(task: u64, lock: u64, now: u64, comm: Comm)
    | NoteTask(tid: u32, state: TaskState)
    | ForgetTask(tid: u32)

  function Tid(task: u64): u32 { task % U32 }

  predicate IsTry(kind: Kind) { kind.TryNonzero? || kind.TryOne? }

  predicate Succeeds(kind: Kind, ret: s64) {
    match kind
    case Blocking => true
    case TryNonzero => ret != 0
    case TryOne => ret == 1
    case Abortable => ret == 0
  }

  /** What the fentry/fexit program of a call does, in terms of the lock handlers. */
  function Events(c: Call): seq<Event> {
    match c
    case Enter(kind, task, lock, stackId, now) => if IsTry(kind) then [] else [Contended(task, lock, stackId, now)]
    case Return(kind, task, lock, ret, stackId, now, later) =>
      if IsTry(kind) then
        if Succeeds(kind, ret) then [Contended(task, lock, stackId, now), Acquired(task, lock, later)] else []
      else if Succeeds(kind, ret) then [Acquired(task, lock, now)]
      else [Aborted(task, lock)]
    case Unlock(task, lock, now, comm) => [Released(task, lock, now, comm)]
    case NoteTask(tid, state) => [SetTask(tid, state)]
    case ForgetTask(tid) => [ClearTask(tid)]
  }

  function Apply(cfg: Config, s: State, es: seq<Event>): State
    decreases es
  {
    if es == [] then s else Apply(cfg, Step(cfg, s, es[0]), es[1..])
  }

  function FentryStep(cfg: Config, s: State, c: Call): State { Apply(cfg, s, Events(c)) }

  datatype KState = KState(s: State, locks: map<u32, u64>)

  function KprobeStep(cfg: Config, k: KState, c: Call): KState {
    match c
    case Enter(_, task, lock, _, _) =>
      KState(Apply(cfg, k.s, Events(c)), UpdateAny(k.locks, MAX_ENTRIES, Tid(task), lock))
    case Return(kind, task, _, ret, stackId, now, later) =>
      if Tid(task) in k.locks then
        KState(Apply(cfg, k.s, Events(Return(kind, task, k.locks[Tid(task)], ret, stackId, now, later))),
          k.locks - {Tid(task)})
      else k
    case _ => k.(s := Apply(cfg, k.s, Events(c)))
  }

  function FentryAt(cfg: Config, cs: seq<Call>, n: nat): State
    requires n <= |cs|
  {
    if n == 0 then INITIAL else FentryStep(cfg, FentryAt(cfg, cs, n - 1), cs[n - 1])
  }

  function KprobeAt(cfg: Config, cs: seq<Call>, n: nat): KState
    requires n <= |cs|
  {
    if n == 0 then KState(INITIAL, map[]) else KprobeStep(cfg, KprobeAt(cfg, cs, n - 1), cs[n - 1])
  }

  // ---------- the programs ----------

  method Handle(t: Tracer, e: Event)
    modifies t
    ensures t.View() == Step(t.cfg, old(t.View()), e) == Apply(t.cfg, old(t.View()), [e])
  {
    ApplyOne(t.cfg, t.View(), e);
    match e
    case Contended(task, lock, stackId, now) => t.LockContended(task, lock, stackId, now);
    case Acquired(task, lock, now) => t.LockAcquired(task, lock, now);
    case Aborted(task, lock) => t.LockAborted(task, lock);
    case Released(task, lock, now, comm) => t.LockReleased(task, lock, now, comm);
    case SetTask(tid, state) => t.RecordTaskState(tid, state);
    case ClearTask(tid) => t.ReleaseTaskState(tid);
  }

  /** The fentry/fexit program for any call. */
  method Fentry(t: Tracer, c: Call)
    modifies t
    ensures t.View() == FentryStep(t.cfg, old(t.View()), c)
  {
    hide Step;
    match c
    case Enter(kind, task, lock, stackId, now) =>
      if !IsTry(kind) { Handle(t, Contended(task, lock, stackId, now)); }
    case Return(kind, task, lock, ret, stackId, now, later) =>
      LockReturned(t, kind, task, lock, ret, stackId, now, later);
    case Unlock(task, lock, now, comm) => Handle(t, Released(task, lock, now, comm));
    case NoteTask(tid, state) => Handle(t, SetTask(tid, state));
    case ForgetTask(tid) => Handle(t, ClearTask(tid));
  }

  method LockReturned(t: Tracer, kind: Kind, task: u64, lock: u64, ret: s64, stackId: s32, now: u64, later: u64)
    modifies t
    ensures t.View() == Apply(t.cfg, old(t.View()), Events(Return(kind, task, lock, ret, stackId, now, later)))
  {
    hide Step;
    match kind
    case TryNonzero =>
      if ret != 0 {
        ApplyTwo(t.cfg, t.View(), Contended(task, lock, stackId, now), Acquired(task, lock, later));
        Handle(t, Contended(task, lock, stackId, now));
        Handle(t, Acquired(task, lock, later));
      }
    case TryOne =>
      if ret == 1 {
        ApplyTwo(t.cfg, t.View(), Contended(task, lock, stackId, now), Acquired(task, lock, later));
        Handle(t, Contended(task, lock, stackId, now));
        Handle(t, Acquired(task, lock, later));
      }
    case Abortable =>
      if ret != 0 { Handle(t, Aborted(task, lock)); } else { Handle(t, Acquired(task, lock, now)); }
    case Blocking =>
      Handle(t, Acquired(task, lock, now));
  }

  class KprobeTracer {
    const tracer: Tracer
    var locks: map<u32, u64>

    constructor (cfg: Config)
      ensures fresh(tracer) && tracer.cfg == cfg && tracer.View() == INITIAL && locks == map[]
    {
      tracer := new Tracer(cfg);
      locks := map[];
    }

    function View(): KState
      reads this, tracer
    {
      KState(tracer.View(), locks)
    }

    /** The kprobe/kretprobe program for any call; on return the lock argument is not available. */
    method Kprobe(c: Call)
      modifies this, tracer
      ensures View() == KprobeStep(tracer.cfg, old(View()), c)
    {
      hide Step, Klockstat.Tracer.View;
      match c
      case Enter(kind, task, lock, stackId, now) =>
        locks := UpdateAny(locks, MAX_ENTRIES, Tid(task), lock);
        Fentry(tracer, c);
      case Return(kind, task, _, ret, stackId, now, later) =>
        if Tid(task) !in locks { return; }
        var lock := locks[Tid(task)];
        locks := locks - {Tid(task)};
        LockReturned(tracer, kind, task, lock, ret, stackId, now, later);
      case _ =>
        Fentry(tracer, c);
    }
  }

  // ---------- the real calls in progress ----------

  /** A lock function in progress; a leaf has called no other lock function so far. */
  datatype Frame = Frame(lock: u64, leaf: bool)

  function Push(st: seq<Frame>, lock: u64): (r: seq<Frame>)
    ensures |r| == |st| + 1
  {
    (if st == [] then [] else st[..|st| - 1] + [Frame(st[|st| - 1].lock, false)]) + [Frame(lock, true)]
  }

  /** The calls a thread is in before position `n`, innermost last; a return ends the innermost. */
  function StackOf(cs: seq<Call>, n: nat, tid: u32): seq<Frame>
    requires n <= |cs|
  {
    if n == 0 then []
    else
      var st, c := StackOf(cs, n - 1, tid), cs[n - 1];
      if c.Enter? && Tid(c.task) == tid then Push(st, c.lock)
      else if c.Return? && Tid(c.task) == tid && st != [] then st[..|st| - 1]
      else st
  }

  /** The threads that are in some lock function. */
  ghost function Inside(cs: seq<Call>, n: nat): set<u32>
    requires n <= |cs|
  {
    if n == 0 then {}
    else
      var before, c := Inside(cs, n - 1), cs[n - 1];
      if c.Enter? then before + {Tid(c.task)}
      else if c.Return? && |StackOf(cs, n - 1, Tid(c.task))| <= 1 then before - {Tid(c.task)}
      else before
  }

  lemma {:induction false} InsideIff(cs: seq<Call>, n: nat, tid: u32)
    requires n <= |cs|
    ensures tid in Inside(cs, n) <==> StackOf(cs, n, tid) != []
  {
    hide Tid, Push;
    if n > 0 { InsideIff(cs, n - 1, tid); }
  }

  /** What returns is a call that was entered, the innermost of its thread. */
  ghost predicate Bracketed(cs: seq<Call>) {
    forall n :: 0 <= n < |cs| && cs[n].Return? ==> ReturnsInnermost(cs, n)
  }

  predicate ReturnsInnermost(cs: seq<Call>, n: nat)
    requires n < |cs| && cs[n].Return?
  {
    var st := StackOf(cs, n, Tid(cs[n].task));
    st != [] && st[|st| - 1].lock == cs[n].lock
  }

  /** No more threads are ever in a lock function than `locks` has entries. */
  ghost predicate Room(cs: seq<Call>) { forall n :: 0 <= n <= |cs| ==> |Inside(cs, n)| <= MAX_ENTRIES }

  /** The return at `n` is that of a call which called another lock function meanwhile. */
  predicate ReturnsNested(cs: seq<Call>, n: nat)
    requires n < |cs|
  {
    cs[n].Return? && var st := StackOf(cs, n, Tid(cs[n].task)); st != [] && !st[|st| - 1].leaf
  }

  // ---------- what the stash knows of them ----------

  /** Of a thread's calls the stash has the innermost one, while it is a leaf; outer calls are no leaves. */
  ghost predicate Stashes(locks: map<u32, u64>, tid: u32, st: seq<Frame>) {
    && (tid in locks <==> st != [] && st[|st| - 1].leaf)
    && (tid in locks ==> locks[tid] == st[|st| - 1].lock)
    && forall i :: 0 <= i < |st| - 1 ==> !st[i].leaf
  }

  /** The entry probe's insert finds room. */
  lemma EntryFits(cs: seq<Call>, n: nat, locks: map<u32, u64>)
    requires n < |cs| && Room(cs) && cs[n].Enter?
    requires forall tid: u32 :: Stashes(locks, tid, StackOf(cs, n, tid))
    ensures Fits(locks, MAX_ENTRIES, Tid(cs[n].task))
  {
    hide StackOf;
    var tid := Tid(cs[n].task);
    forall t | t in locks.Keys ensures t in Inside(cs, n) { InsideIff(cs, n, t); }
    assert Inside(cs, n + 1) == Inside(cs, n) + {tid};
    if tid !in locks {
      Subset(locks.Keys + {tid}, Inside(cs, n + 1));
      assert |locks| == |locks.Keys|;
    }
  }

  lemma NothingStashed(cs: seq<Call>, tid: u32)
    ensures Stashes(map[], tid, StackOf(cs, 0, tid))
  {}

  lemma StashStep(cfg: Config, k: KState, cs: seq<Call>, n: nat, tid: u32)
    requires n < |cs| && Stashes(k.locks, tid, StackOf(cs, n, tid))
    requires cs[n].Enter? ==> Fits(k.locks, MAX_ENTRIES, Tid(cs[n].task))
    ensures Stashes(KprobeStep(cfg, k, cs[n]).locks, tid, StackOf(cs, n + 1, tid))
  {
    hide Apply, Events, Tid;
  }

  /** For every bracketed interleaving with room, the stash is exactly the innermost calls that are leaves. */
  lemma {:induction false} StashIsInnermostLeaves(cfg: Config, cs: seq<Call>, n: nat)
    requires n <= |cs| && Bracketed(cs) && Room(cs)
    ensures forall tid: u32 :: Stashes(KprobeAt(cfg, cs, n).locks, tid, StackOf(cs, n, tid))
  {
    hide KprobeStep, Stashes, StackOf;
    if n == 0 {
      forall tid: u32 ensures Stashes(map[], tid, StackOf(cs, 0, tid)) { NothingStashed(cs, tid); }
    } else {
      StashIsInnermostLeaves(cfg, cs, n - 1);
      if cs[n - 1].Enter? { EntryFits(cs, n - 1, KprobeAt(cfg, cs, n - 1).locks); }
      forall tid: u32 ensures Stashes(KprobeAt(cfg, cs, n).locks, tid, StackOf(cs, n, tid)) {
        StashStep(cfg, KprobeAt(cfg, cs, n - 1), cs, n - 1, tid);
      }
    }
  }

  /** A return probe finds the lock of its own call if and only if that call is a leaf; otherwise it finds none. */
  lemma ReturnFindsItsLockIff(cfg: Config, cs: seq<Call>, n: nat)
    requires n < |cs| && Bracketed(cs) && Room(cs) && cs[n].Return?
    ensures var locks, tid := KprobeAt(cfg, cs, n).locks, Tid(cs[n].task);
            && (tid in locks <==> !ReturnsNested(cs, n))
            && (tid in locks ==> locks[tid] == cs[n].lock)
  {
    hide KprobeAt, StackOf;
    StashIsInnermostLeaves(cfg, cs, n);
    var tid := Tid(cs[n].task);
    assert Stashes(KprobeAt(cfg, cs, n).locks, tid, StackOf(cs, n, tid)) && ReturnsInnermost(cs, n);
  }

  // ---------- simulation ----------

  /** The fentry programs, if they missed the returns of calls that are not leaves. */
  function LeavesAt(cfg: Config, cs: seq<Call>, n: nat): State
    requires n <= |cs|
  {
    if n == 0 then INITIAL
    else
      var s := LeavesAt(cfg, cs, n - 1);
      if ReturnsNested(cs, n - 1) then s else FentryStep(cfg, s, cs[n - 1])
  }

  /** That is exactly what the kprobe programs do, nested calls included. */
  lemma {:induction false} KprobesSeeLeaves(cfg: Config, cs: seq<Call>, n: nat)
    requires n <= |cs| && Bracketed(cs) && Room(cs)
    ensures KprobeAt(cfg, cs, n).s == LeavesAt(cfg, cs, n)
  {
    hide Step, Apply, Events, ReturnsNested;
    if n > 0 {
      KprobesSeeLeaves(cfg, cs, n - 1);
      if cs[n - 1].Return? { ReturnFindsItsLockIff(cfg, cs, n - 1); } else { OnlyReturnsNest(cs, n - 1); }
    }
  }

  lemma OnlyReturnsNest(cs: seq<Call>, n: nat)
    requires n < |cs| && !cs[n].Return?
    ensures !ReturnsNested(cs, n)
  {}

  /** The two kinds of programs leave the same state after each of the first `n` calls. */
  ghost predicate AgreeUpTo(cfg: Config, cs: seq<Call>, n: nat)
    requires n <= |cs|
  {
    forall i :: 0 <= i <= n ==> KprobeAt(cfg, cs, i).s == FentryAt(cfg, cs, i)
  }

  /** No return of a call that is not a leaf had anything to do. */
  ghost predicate NestedReturnsIdle(cfg: Config, cs: seq<Call>, n: nat)
    requires n <= |cs|
  {
    forall i :: 0 <= i < n && ReturnsNested(cs, i) ==> Idle(cfg, FentryAt(cfg, cs, i), cs[i])
  }

  ghost predicate Idle(cfg: Config, s: State, c: Call) { FentryStep(cfg, s, c) == s }

  /**
   * For every bracketed interleaving with room, the kprobe programs leave the same `lockholder_map`,
   * `stat_map` and `task_states` as the fentry programs after every call if and only if no return of
   * a call that is not a leaf had anything to do.
   */
  lemma {:induction false} KprobesAgreeIff(cfg: Config, cs: seq<Call>, n: nat)
    requires n <= |cs| && Bracketed(cs) && Room(cs)
    ensures AgreeUpTo(cfg, cs, n) <==> NestedReturnsIdle(cfg, cs, n)
  {
    hide FentryStep, ReturnsNested, KprobeStep;
    if n > 0 {
      KprobesAgreeIff(cfg, cs, n - 1);
      KprobesSeeLeaves(cfg, cs, n - 1);
      KprobesSeeLeaves(cfg, cs, n);
      assert AgreeUpTo(cfg, cs, n) <==> AgreeUpTo(cfg, cs, n - 1) && KprobeAt(cfg, cs, n).s == FentryAt(cfg, cs, n);
      assert NestedReturnsIdle(cfg, cs, n)
        <==> && NestedReturnsIdle(cfg, cs, n - 1)
             && (ReturnsNested(cs, n - 1) ==> Idle(cfg, FentryAt(cfg, cs, n - 1), cs[n - 1]));
      if AgreeUpTo(cfg, cs, n - 1) { assert KprobeAt(cfg, cs, n - 1).s == FentryAt(cfg, cs, n - 1); }
    }
  }

  /** The call's attempt has no entry in `lockholder_map`: filtered out, without a stack, or the map was full. */
  predicate Unrecorded(cfg: Config, s: State, c: Call)
    requires c.Return?
  {
    var tl := TaskLock(c.task, c.lock);
    !Traced(cfg, c.task, c.lock)
    || if IsTry(c.kind) then !Succeeds(c.kind, c.ret) || c.stackId < 0 || !Fits(s.holders, MAX_ENTRIES, tl)
       else tl !in s.holders
  }

  lemma WaitingIdleIff(cfg: Config, s: State, c: Call)
    requires c.Return? && !IsTry(c.kind) && c.now != 0
    requires var tl := TaskLock(c.task, c.lock); tl in s.holders ==> s.holders[tl].acqAt == 0
    ensures Idle(cfg, s, c) <==> Unrecorded(cfg, s, c)
  {
    hide Traced, Apply;
    if Succeeds(c.kind, c.ret) {
      ApplyOne(cfg, s, Acquired(c.task, c.lock, c.now));
      assert !Unrecorded(cfg, s, c) ==> FentryStep(cfg, s, c).holders[TaskLock(c.task, c.lock)].acqAt == c.now;
    } else {
      ApplyOne(cfg, s, Aborted(c.task, c.lock));
    }
  }

  lemma TryIdleIff(cfg: Config, s: State, c: Call)
    requires c.Return? && IsTry(c.kind) && TaskLock(c.task, c.lock) !in s.holders
    ensures Idle(cfg, s, c) <==> Unrecorded(cfg, s, c)
  {
    hide Traced, Apply;
    if Succeeds(c.kind, c.ret) {
      ApplyTwo(cfg, s, Contended(c.task, c.lock, c.stackId, c.now), Acquired(c.task, c.lock, c.later));
      assert !Unrecorded(cfg, s, c) ==> TaskLock(c.task, c.lock) in FentryStep(cfg, s, c).holders;
    } else {
      NothingToDo(cfg, s, c);
    }
  }

  /** A return has something to do exactly when its attempt is recorded. */
  lemma IdleIffUnrecorded(cfg: Config, s: State, c: Call)
    requires c.Return? && c.now != 0
    requires var tl := TaskLock(c.task, c.lock); tl in s.holders ==> !IsTry(c.kind) && s.holders[tl].acqAt == 0
    ensures Idle(cfg, s, c) <==> Unrecorded(cfg, s, c)
  {
    hide Idle, Unrecorded;
    if IsTry(c.kind) { TryIdleIff(cfg, s, c); } else { WaitingIdleIff(cfg, s, c); }
  }

  /** Lock functions of one thread never call one another. */
  ghost predicate NeverNest(cs: seq<Call>) {
    forall n :: 0 <= n < |cs| && cs[n].Enter? ==> StackOf(cs, n, Tid(cs[n].task)) == []
  }

  lemma {:induction false} NeverNestMeansLeaves(cs: seq<Call>, n: nat, tid: u32)
    requires n <= |cs| && NeverNest(cs)
    ensures var st := StackOf(cs, n, tid); |st| <= 1 && (st != [] ==> st[0].leaf)
  {
    if n > 0 { NeverNestMeansLeaves(cs, n - 1, tid); }
  }

  /**
   * So for every interleaving of tasks whose lock calls do not nest, the kprobe programs simulate the
   * fentry programs call by call, and `locks` holds exactly the calls in progress.
   */
  lemma KprobesSimulateFentry(cfg: Config, cs: seq<Call>, n: nat)
    requires n <= |cs| && Bracketed(cs) && Room(cs) && NeverNest(cs)
    ensures KprobeAt(cfg, cs, n).s == FentryAt(cfg, cs, n)
    ensures forall tid: u32 ::
              var locks, st := KprobeAt(cfg, cs, n).locks, StackOf(cs, n, tid);
              (tid in locks <==> st != []) && (st != [] ==> locks[tid] == st[0].lock)
  {
    hide FentryAt, KprobeAt, StackOf, Idle;
    forall i | 0 <= i < n ensures !ReturnsNested(cs, i) {
      if cs[i].Return? { NeverNestMeansLeaves(cs, i, Tid(cs[i].task)); }
    }
    KprobesAgreeIff(cfg, cs, n);
    StashIsInnermostLeaves(cfg, cs, n);
    forall tid: u32 ensures var st := StackOf(cs, n, tid); |st| <= 1 && (st != [] ==> st[0].leaf) {
      NeverNestMeansLeaves(cs, n, tid);
    }
    forall tid: u32
      ensures var locks, st := KprobeAt(cfg, cs, n).locks, StackOf(cs, n, tid);
              (tid in locks <==> st != []) && (st != [] ==> locks[tid] == st[0].lock)
    {
      assert Stashes(KprobeAt(cfg, cs, n).locks, tid, StackOf(cs, n, tid));
    }
  }

  /** The lock-handler events of the first `n` calls. */
  function AllEvents(cs: seq<Call>, n: nat): seq<Event>
    requires n <= |cs|
  {
    if n == 0 then [] else AllEvents(cs, n - 1) + Events(cs[n - 1])
  }

  lemma {:induction false} AtPrefix(cfg: Config, a: seq<Event>, b: seq<Event>, n: nat)
    requires n <= |a|
    ensures At(cfg, a + b, n) == At(cfg, a, n)
  {
    hide Step;
    if n > 0 { AtPrefix(cfg, a, b, n - 1); }
  }

  lemma {:induction false} AtConcat(cfg: Config, a: seq<Event>, b: seq<Event>)
    ensures At(cfg, a + b, |a| + |b|) == Apply(cfg, At(cfg, a, |a|), b)
    decreases |b|
  {
    hide Step;
    if b == [] {
      assert a + b == a;
    } else {
      AtConcat(cfg, a + [b[0]], b[1..]);
      AtPrefix(cfg, a, [b[0]], |a|);
      assert a + b == a + [b[0]] + b[1..];
      assert At(cfg, a + [b[0]], |a| + 1) == Step(cfg, At(cfg, a + [b[0]], |a|), b[0]);
    }
  }

  lemma {:induction false} FentryRunsEvents(cfg: Config, cs: seq<Call>, n: nat)
    requires n <= |cs|
    ensures FentryAt(cfg, cs, n) == At(cfg, AllEvents(cs, n), |AllEvents(cs, n)|)
  {
    hide Step, Events;
    if n > 0 {
      FentryRunsEvents(cfg, cs, n - 1);
      AtConcat(cfg, AllEvents(cs, n - 1), Events(cs[n - 1]));
    }
  }

  lemma {:induction false} EventsSoFar(cs: seq<Call>, i: nat, n: nat)
    requires i < n <= |cs|
    ensures AllEvents(cs, i) + Events(cs[i]) <= AllEvents(cs, n)
  {
    hide Events;
    if i + 1 < n { EventsSoFar(cs, i, n - 1); }
  }

  /** In a well-formed run, the return of a waiting call finds an entry not yet stamped, if any; a try-lock's none. */
  lemma EntryAtReturn(cfg: Config, cs: seq<Call>, i: nat)
    requires i < |cs| && cs[i].Return? && WellFormed(AllEvents(cs, |cs|)) && Events(cs[i]) != []
    ensures var tl, s := TaskLock(cs[i].task, cs[i].lock), FentryAt(cfg, cs, i);
            tl in s.holders ==> !IsTry(cs[i].kind) && s.holders[tl].acqAt == 0
  {
    hide FentryAt, At, AllEvents;
    var es, m, tl := AllEvents(cs, |cs|), |AllEvents(cs, i)|, TaskLock(cs[i].task, cs[i].lock);
    EventsSoFar(cs, i, |cs|);
    assert es[m] == (AllEvents(cs, i) + Events(cs[i]))[m] == Events(cs[i])[0];
    var rest := es[m..];
    assert es == AllEvents(cs, i) + rest;
    AtPrefix(cfg, AllEvents(cs, i), rest, m);
    FentryRunsEvents(cfg, cs, i);
    HoldersFollowTrace(cfg, es, m);
    assert FollowsProtocol(es, m);
    assert Entry(At(cfg, es, m), tl) == Expected(cfg, es, m, tl);
  }

  /** No call that is not a leaf has a recorded attempt. */
  ghost predicate NestedUnrecorded(cfg: Config, cs: seq<Call>, n: nat)
    requires n <= |cs|
  {
    forall i :: 0 <= i < n && ReturnsNested(cs, i) ==> Unrecorded(cfg, FentryAt(cfg, cs, i), cs[i])
  }

  /**
   * For well-formed runs: the kprobe programs agree with the fentry programs after every call if and
   * only if every call that has called another lock function went unrecorded anyway.
   */
  lemma KprobesAgreeIffNestedUnrecorded(cfg: Config, cs: seq<Call>)
    requires Bracketed(cs) && Room(cs) && WellFormed(AllEvents(cs, |cs|))
    requires forall i :: 0 <= i < |cs| && cs[i].Return? ==> cs[i].now != 0
    ensures AgreeUpTo(cfg, cs, |cs|) <==> NestedUnrecorded(cfg, cs, |cs|)
  {
    hide FentryAt, KprobeAt, AllEvents, WellFormed, Idle, Unrecorded, Events;
    KprobesAgreeIff(cfg, cs, |cs|);
    forall i | 0 <= i < |cs| && ReturnsNested(cs, i)
      ensures Idle(cfg, FentryAt(cfg, cs, i), cs[i]) <==> Unrecorded(cfg, FentryAt(cfg, cs, i), cs[i])
    {
      if Events(cs[i]) == [] {
        NothingToDo(cfg, FentryAt(cfg, cs, i), cs[i]);
      } else {
        EntryAtReturn(cfg, cs, i);
        IdleIffUnrecorded(cfg, FentryAt(cfg, cs, i), cs[i]);
      }
    }
  }

  lemma NothingToDo(cfg: Config, s: State, c: Call)
    requires c.Return? && Events(c) == []
    ensures Idle(cfg, s, c) && Unrecorded(cfg, s, c)
  {}

  /** So the statistics the kprobe programs collect are also exactly those of the completed critical sections. */
  lemma KprobeStatsAreSectionFolds(cfg: Config, cs: seq<Call>)
    requires Bracketed(cs) && Room(cs) && NestedReturnsIdle(cfg, cs, |cs|) && WellFormed(AllEvents(cs, |cs|))
    ensures var es := AllEvents(cs, |cs|);
            KprobeAt(cfg, cs, |cs|).s == At(cfg, es, |es|) && StatsAre(cfg, es, |es|)
  {
    hide KprobeAt, FentryAt, AllEvents, StatsAre, WellFormed;
    KprobesAgreeIff(cfg, cs, |cs|);
    FentryRunsEvents(cfg, cs, |cs|);
    StatsAreSectionFolds(cfg, AllEvents(cs, |cs|), |AllEvents(cs, |cs|)|);
  }

  const NESTED := [Enter(Blocking, 1, 10, 3, 100), Enter(Blocking, 1, 20, 3, 110),
                   Return(Blocking, 1, 20, 0, 3, 120, 120), Return(Blocking, 1, 10, 0, 3, 130, 130),
                   Unlock(1, 10, 140, [])]

  /**
   * A lock taken while waiting for another: the outer one is never seen as acquired, and on release
   * its wait of 30 is booked as the start time subtracted from zero.
   */
  lemma NestedCallsDiverge()
    ensures var cfg := Config(0, 0, 0, false);
            var f, k := FentryAt(cfg, NESTED, 5).stats, KprobeAt(cfg, NESTED, 5).s.stats;
            && 3 in f && f[3].acq.maxTime == 30 && f[3].hld.maxTime == 10
            && 3 in k && k[3].acq.maxTime == U64 - 100 && k[3].hld.maxTime == 140
  {
    var cfg, e := Config(0, 0, 0, false), Released(1, 10, 140, []);
    NestedHolders();
    hide Step, FentryAt, KprobeAt;
    var f, k := FentryAt(cfg, NESTED, 4), KprobeAt(cfg, NESTED, 4).s;
    assert FentryAt(cfg, NESTED, 5) == Step(cfg, f, e) && KprobeAt(cfg, NESTED, 5).s == Step(cfg, k, e) by {
      LastNestedCall(cfg);
    }
    FirstRelease(cfg, f, e);
    FirstRelease(cfg, k, e);
  }

  lemma NestedHolders()
    ensures var cfg, outer := Config(0, 0, 0, false), TaskLock(1, 10);
            var f, k := FentryAt(cfg, NESTED, 4), KprobeAt(cfg, NESTED, 4).s;
            && outer in f.holders && f.holders[outer] == Holder(3, 0, 0, 1, 100, 130, 0, 10) && f.stats == map[]
            && outer in k.holders && k.holders[outer] == Holder(3, 0, 0, 1, 100, 0, 0, 10) && k.stats == map[]
  {}

  lemma LastNestedCall(cfg: Config)
    ensures var e := Released(1, 10, 140, []);
            && FentryAt(cfg, NESTED, 5) == Step(cfg, FentryAt(cfg, NESTED, 4), e)
            && KprobeAt(cfg, NESTED, 5).s == Step(cfg, KprobeAt(cfg, NESTED, 4).s, e)
  {
    hide Step;
    ApplyOne(cfg, FentryAt(cfg, NESTED, 4), Released(1, 10, 140, []));
    ApplyOne(cfg, KprobeAt(cfg, NESTED, 4).s, Released(1, 10, 140, []));
  }

  /** What the first release of all leaves in `stat_map`. */
  lemma FirstRelease(cfg: Config, s: State, e: Event)
    requires e.Released? && Traced(cfg, e.task, e.lock) && TaskLock(e.task, e.lock) in s.holders && s.stats == map[]
    ensures var li, stats := s.holders[TaskLock(e.task, e.lock)], Step(cfg, s, e).stats;
            var key := StatKey(cfg, li);
            && key in stats
            && stats[key].acq.maxTime == Sub64(li.acqAt, li.tryAt) && stats[key].hld.maxTime == Sub64(e.now, li.acqAt)
  {}

  lemma ApplyOne(cfg: Config, s: State, e: Event)
    ensures Apply(cfg, s, [e]) == Step(cfg, s, e)
  {}

  lemma ApplyTwo(cfg: Config, s: State, e0: Event, e1: Event)
    ensures Apply(cfg, s, [e0, e1]) == Step(cfg, Step(cfg, s, e0), e1)
  {
    hide Step;
    assert [e0, e1][1..] == [e1];
    ApplyOne(cfg, Step(cfg, s, e0), e1);
  }
}
