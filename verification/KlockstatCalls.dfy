/**
 * What a lock call comes to, by the C conventions of the lock functions: which attempts are recorded, which
 * calls count as a critical section and with which times, and which task state a section is charged with.
 */
module KlockstatCalls {
  import opened Machine
  import opened BpfMap
  import opened Klockstat
  import opened KlockstatProbes

  /** The filters of the command line: process, thread and lock, each only if given. */
  predicate Selected(cfg: Config, task: u64, lock: u64) {
    && (cfg.targTgid == 0 || task / 0x1_0000_0000 == cfg.targTgid)
    && (cfg.targPid == 0 || task % 0x1_0000_0000 == cfg.targPid)
    && (cfg.targLock == 0 || lock == cfg.targLock)
  }

  /** An attempt gets an entry if and only if it is selected and its stack was taken; other pairs keep theirs. */
  lemma AttemptIsRecordedIff(cfg: Config, s: State, task: u64, lock: u64, stackId: s32, now: u64)
    requires TaskLock(task, lock) !in s.holders && |s.holders| < MAX_ENTRIES
    ensures var s' := FentryStep(cfg, s, Enter(Blocking, task, lock, stackId, now));
            && (TaskLock(task, lock) in s'.holders <==> Selected(cfg, task, lock) && stackId >= 0)
            && s'.holders - {TaskLock(task, lock)} == s.holders && s'.stats == s.stats && s'.tasks == s.tasks
  {
    hide Apply, Account, Acquire, Traced, Selected;
    ApplyOne(cfg, s, Contended(task, lock, stackId, now));
    TracedIff(cfg, task, lock);
    NewThenGone(s.holders, TaskLock(task, lock), Holder(stackId, 0, 0, task, now, 0, 0, lock));
  }

  lemma TracedIff(cfg: Config, task: u64, lock: u64)
    ensures Traced(cfg, task, lock) <==> Selected(cfg, task, lock)
  {}

  lemma NewThenGone(m: map<TaskLock, Holder>, tl: TaskLock, li: Holder)
    requires tl !in m
    ensures m - {tl} == m && m[tl := li] - {tl} == m
  {}

  /** The entry of an interruptible or killable call survives its return if and only if the result is 0. */
  lemma EntrySurvivesIff(cfg: Config, s: State, task: u64, lock: u64, ret: s64, stackId: s32, now: u64, later: u64)
    requires Selected(cfg, task, lock) && TaskLock(task, lock) in s.holders
    ensures var s' := FentryStep(cfg, s, Return(Abortable, task, lock, ret, stackId, now, later));
            && (TaskLock(task, lock) in s'.holders <==> ret == 0)
            && (ret == 0 ==> s'.holders[TaskLock(task, lock)].acqAt == now)
  {
    ApplyOne(cfg, s, Aborted(task, lock));
    ApplyOne(cfg, s, Acquired(task, lock, now));
  }

  /** Success as the lock functions report it. */
  predicate Reported(kind: Kind, ret: s64) {
    || kind == Blocking
    || (kind == TryNonzero && ret != 0)
    || (kind == TryOne && ret == 1)
    || (kind == Abortable && ret == 0)
  }

  /** One side of a statistics entry after a single section. */
  ghost predicate Single(side: Side, time: u64) { side.count == 1 && side.total == time && side.maxTime == time }

  /**
   * One section, charged to the thread or the stack: waited from the attempt to the return, or for a try-lock
   * only between the two clock readings of its exit program, then held until the release.
   */
  ghost predicate OneSection(cfg: Config, s: State, kind: Kind, task: u64, stackId: s32,
                             tried: u64, returned: u64, later: u64, released: u64)
    requires stackId >= 0
  {
    var key := if cfg.perThread then task % 0x1_0000_0000 else stackId;
    var try := kind == TryNonzero || kind == TryOne;
    var from, got := if try then returned else tried, if try then later else returned;
    && s.stats.Keys == {key}
    && Single(s.stats[key].acq, Sub64(got, from)) && Single(s.stats[key].hld, Sub64(released, got))
  }

  /** The three calls: in, out and unlock. */
  function Use(kind: Kind, task: u64, lock: u64, seen: u64, ret: s64, stackId: s32,
               tried: u64, returned: u64, later: u64, released: u64, comm: Comm): (cs: seq<Call>)
    ensures |cs| == 3
  {
    [Enter(kind, task, lock, stackId, tried), Return(kind, task, seen, ret, stackId, returned, later),
     Unlock(task, lock, released, comm)]
  }

  /** A call makes exactly one section if it reports success, and leaves no trace at all otherwise. */
  lemma CallCountsIff(cfg: Config, kind: Kind, task: u64, lock: u64, ret: s64, stackId: s32,
                      tried: u64, returned: u64, later: u64, released: u64, comm: Comm)
    requires Selected(cfg, task, lock) && stackId >= 0
    ensures var cs := Use(kind, task, lock, lock, ret, stackId, tried, returned, later, released, comm);
            var s := FentryAt(cfg, cs, 3);
            && s.holders == map[]
            && if Reported(kind, ret) then OneSection(cfg, s, kind, task, stackId, tried, returned, later, released)
               else s == INITIAL
  {
    hide Step, OneSection, FentryAt, Apply;
    var cs := Use(kind, task, lock, lock, ret, stackId, tried, returned, later, released, comm);
    ThreeCalls(cfg, cs);
    var s2 := FentryStep(cfg, FentryStep(cfg, INITIAL, cs[0]), cs[1]);
    ReturnedWith(cfg, kind, task, lock, ret, stackId, tried, returned, later);
    ApplyOne(cfg, s2, Released(task, lock, released, comm));
    if Reported(kind, ret) {
      ReleaseCounts(cfg, s2, kind, task, lock, stackId, tried, returned, later, released, comm);
    } else {
      NothingToRelease(cfg, task, lock, released, comm);
    }
  }

  lemma NothingToRelease(cfg: Config, task: u64, lock: u64, released: u64, comm: Comm)
    ensures Step(cfg, INITIAL, Released(task, lock, released, comm)) == INITIAL
  {}

  /** The pair is held after the return, or not. */
  lemma ReturnedWith(cfg: Config, kind: Kind, task: u64, lock: u64, ret: s64, stackId: s32,
                     tried: u64, returned: u64, later: u64)
    requires Selected(cfg, task, lock) && stackId >= 0
    ensures var s1 := FentryStep(cfg, INITIAL, Enter(kind, task, lock, stackId, tried));
            var s2 := FentryStep(cfg, s1, Return(kind, task, lock, ret, stackId, returned, later));
            var from, got := if IsTry(kind) then returned else tried, if IsTry(kind) then later else returned;
            s2 == if Reported(kind, ret)
                  then State(map[TaskLock(task, lock) := Holder(stackId, 0, 0, task, from, got, 0, lock)], map[], map[])
                  else INITIAL
  {
    hide Step;
    ApplyOne(cfg, INITIAL, Contended(task, lock, stackId, tried));
    var s1 := FentryStep(cfg, INITIAL, Enter(kind, task, lock, stackId, tried));
    if IsTry(kind) {
      assert s1 == INITIAL;
      ApplyTwo(cfg, s1, Contended(task, lock, stackId, returned), Acquired(task, lock, later));
      Held(cfg, task, lock, stackId, returned, later);
    } else {
      ApplyOne(cfg, s1, Acquired(task, lock, returned));
      ApplyOne(cfg, s1, Aborted(task, lock));
      Held(cfg, task, lock, stackId, tried, returned);
    }
  }

  lemma Held(cfg: Config, task: u64, lock: u64, stackId: s32, from: u64, got: u64)
    requires Selected(cfg, task, lock) && stackId >= 0
    ensures var s := Step(cfg, INITIAL, Contended(task, lock, stackId, from));
            && Step(cfg, s, Acquired(task, lock, got))
               == State(map[TaskLock(task, lock) := Holder(stackId, 0, 0, task, from, got, 0, lock)], map[], map[])
            && Step(cfg, s, Aborted(task, lock)) == INITIAL
  {}

  lemma ReleaseCounts(cfg: Config, s: State, kind: Kind, task: u64, lock: u64, stackId: s32,
                      tried: u64, returned: u64, later: u64, released: u64, comm: Comm)
    requires Selected(cfg, task, lock) && stackId >= 0
    requires var from, got := if IsTry(kind) then returned else tried, if IsTry(kind) then later else returned;
             s == State(map[TaskLock(task, lock) := Holder(stackId, 0, 0, task, from, got, 0, lock)], map[], map[])
    ensures var s' := Step(cfg, s, Released(task, lock, released, comm));
            s'.holders == map[] && OneSection(cfg, s', kind, task, stackId, tried, returned, later, released)
  {
    hide AddTime, FreshStat, Single, Sub64, Acquire, Traced, Selected, Account;
    var from, got := if IsTry(kind) then returned else tried, if IsTry(kind) then later else returned;
    var li := Holder(stackId, 0, 0, task, from, got, released, lock);
    TracedIff(cfg, task, lock);
    FirstAccount(cfg, li, comm);
    FreshSides(cfg, li, Sub64(got, from), comm);
    FreshSides(cfg, li, Sub64(released, got), comm);
  }

  lemma FirstAccount(cfg: Config, li: Holder, comm: Comm)
    ensures Account(cfg, map[], li, comm) == map[StatKey(cfg, li) := AddSection(cfg, FreshStat(cfg, comm), li, comm)]
  {
    hide AddSection, FreshStat;
  }

  lemma FreshSides(cfg: Config, li: Holder, time: u64, comm: Comm)
    ensures Single(AddTime(FreshStat(cfg, comm).acq, time, li, comm, cfg.perThread), time)
    ensures Single(AddTime(FreshStat(cfg, comm).hld, time, li, comm, cfg.perThread), time)
  {}

  lemma ThreeCalls(cfg: Config, cs: seq<Call>)
    requires |cs| == 3
    ensures FentryAt(cfg, cs, 3) == FentryStep(cfg, FentryStep(cfg, FentryStep(cfg, INITIAL, cs[0]), cs[1]), cs[2])
    ensures KprobeAt(cfg, cs, 3)
         == KprobeStep(cfg, KprobeStep(cfg, KprobeStep(cfg, KState(INITIAL, map[]), cs[0]), cs[1]), cs[2])
  {
    hide FentryStep, KprobeStep;
    assert FentryAt(cfg, cs, 1) == FentryStep(cfg, FentryAt(cfg, cs, 0), cs[0]);
    assert KprobeAt(cfg, cs, 1) == KprobeStep(cfg, KprobeAt(cfg, cs, 0), cs[0]);
  }

  /** The kprobe programs come to the same, though they do not see the lock when the call returns. */
  lemma KprobeCallIsTheSame(cfg: Config, kind: Kind, task: u64, lock: u64, seen: u64, ret: s64, stackId: s32,
                            tried: u64, returned: u64, later: u64, released: u64, comm: Comm)
    ensures var cs := Use(kind, task, lock, seen, ret, stackId, tried, returned, later, released, comm);
            var k := KprobeAt(cfg, cs, 3);
            var fs := Use(kind, task, lock, lock, ret, stackId, tried, returned, later, released, comm);
            k.s == FentryAt(cfg, fs, 3) && k.locks == map[]
  {
    hide Apply, Events, FentryAt, KprobeAt;
    var cs := Use(kind, task, lock, seen, ret, stackId, tried, returned, later, released, comm);
    var fs := Use(kind, task, lock, lock, ret, stackId, tried, returned, later, released, comm);
    ThreeCalls(cfg, cs);
    ThreeCalls(cfg, fs);
    var k1 := KprobeStep(cfg, KState(INITIAL, map[]), cs[0]);
    assert k1 == KState(FentryStep(cfg, INITIAL, fs[0]), map[Tid(task) := lock]);
    assert KprobeStep(cfg, k1, cs[1]) == KState(FentryStep(cfg, k1.s, fs[1]), map[]);
  }

  // ---------- the task state ----------

  /** The last call before position `n` that set or cleared the state of a thread, or -1. */
  function LastTask(cs: seq<Call>, n: nat, tid: u32): (p: int)
    requires n <= |cs|
    ensures -1 <= p < n && (p >= 0 ==> (cs[p].NoteTask? || cs[p].ForgetTask?) && cs[p].tid == tid)
  {
    if n == 0 then -1
    else if (cs[n - 1].NoteTask? || cs[n - 1].ForgetTask?) && cs[n - 1].tid == tid then n - 1
    else LastTask(cs, n - 1, tid)
  }

  /** The task map never overflows in the run. */
  ghost predicate TasksFit(cfg: Config, cs: seq<Call>) {
    forall n :: 0 <= n < |cs| ==> |FentryAt(cfg, cs, n).tasks| < MAX_ENTRIES
  }

  lemma CallTasks(cfg: Config, s: State, c: Call, tid: u32)
    requires |s.tasks| < MAX_ENTRIES
    ensures var t := FentryStep(cfg, s, c).tasks;
            if c.NoteTask? && c.tid == tid then tid in t && t[tid] == c.state
            else if c.ForgetTask? && c.tid == tid then tid !in t
            else (tid in t <==> tid in s.tasks) && (tid in t ==> t[tid] == s.tasks[tid])
  {
    hide Step;
    match c
    case NoteTask(_, state) => ApplyOne(cfg, s, SetTask(c.tid, state)); StepTasks(cfg, s, SetTask(c.tid, state));
    case ForgetTask(_) => ApplyOne(cfg, s, ClearTask(c.tid)); StepTasks(cfg, s, ClearTask(c.tid));
    case Unlock(task, lock, now, comm) =>
      ApplyOne(cfg, s, Released(task, lock, now, comm));
      StepTasks(cfg, s, Released(task, lock, now, comm));
    case Enter(kind, task, lock, stackId, now) =>
      ApplyOne(cfg, s, Contended(task, lock, stackId, now));
      StepTasks(cfg, s, Contended(task, lock, stackId, now));
    case Return(kind, task, lock, ret, stackId, now, later) =>
      var e0, e1 := Contended(task, lock, stackId, now), Acquired(task, lock, later);
      ApplyTwo(cfg, s, e0, e1);
      StepTasks(cfg, s, e0);
      StepTasks(cfg, Step(cfg, s, e0), e1);
      ApplyOne(cfg, s, Acquired(task, lock, now));
      StepTasks(cfg, s, Acquired(task, lock, now));
      ApplyOne(cfg, s, Aborted(task, lock));
      StepTasks(cfg, s, Aborted(task, lock));
  }

  lemma StepTasks(cfg: Config, s: State, e: Event)
    requires |s.tasks| < MAX_ENTRIES
    ensures Step(cfg, s, e).tasks == if e.SetTask? then s.tasks[e.tid := e.state]
                                     else if e.ClearTask? then s.tasks - {e.tid} else s.tasks
  {
    hide Account, Acquire, Traced;
  }

  /** A thread has the state it was last given, unless it was cleared since. */
  lemma {:induction false} TaskStateIsTheLast(cfg: Config, cs: seq<Call>, n: nat, tid: u32)
    requires n <= |cs| && TasksFit(cfg, cs)
    ensures var t, p := FentryAt(cfg, cs, n).tasks, LastTask(cs, n, tid);
            && (tid in t <==> p >= 0 && cs[p].NoteTask?)
            && (tid in t ==> t[tid] == cs[p].state)
  {
    hide FentryStep;
    if n > 0 {
      TaskStateIsTheLast(cfg, cs, n - 1, tid);
      CallTasks(cfg, FentryAt(cfg, cs, n - 1), cs[n - 1], tid);
    }
  }
}
