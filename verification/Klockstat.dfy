/**
 * klockstat's lock tracking: `lockholder_map` follows each (task, lock) pair from contention to
 * release, `stat_map` accumulates waits and holds per key. The reference is the trace itself:
 * a completed critical section is three consecutive events of one pair (contended, acquired,
 * released), and a statistics entry must be what those sections say.
 */
module Klockstat {
  import opened Machine
  import opened BpfMap

  const MAX_ENTRIES: nat := 102400

  type Comm = seq<char>

  datatype Config = Config(targTgid: u32, targPid: u32, targLock: u64, perThread: bool)
  datatype TaskLock = TaskLock(task: u64, lock: u64)
  datatype TaskState = TaskState(nlmsg: u16, ioctl: u16)
  datatype Holder = Holder(
    stackId: s32, nlmsg: u16, ioctl: u16, task: u64, tryAt: u64, acqAt: u64, relAt: u64, lock: u64)

  /** One half of `struct lock_stat`: the `acq_*` or the `hld_*` fields. */
  datatype Side = Side(
    count: u64, total: u64, maxTime: u64, maxId: u64, maxLock: u64, maxNlmsg: u16, maxIoctl: u16, maxComm: Comm)
  datatype LockStat = LockStat(acq: Side, hld: Side)

  const FRESH_SIDE := Side(0, 0, 0, 0, 0, 0, 0, [])

  datatype State = State(holders: map<TaskLock, Holder>, stats: map<u32, LockStat>, tasks: map<u32, TaskState>)

  const INITIAL := State(map[], map[], map[])

  datatype Event =
    | Contended(task: u64, lock: u64, stackId: s32, now: u64)
    | Acquired(task: u64, lock: u64, now: u64)
    | Aborted(task: u64, lock: u64)
    | Released(task: u64, lock: u64, now: u64, comm: Comm)
    | SetTask(tid: u32, state: TaskState)   // record_nltype, record_ioctl
    | ClearTask(tid: u32)                   // release_task_state

  predicate TracingTask(cfg: Config, task: u64) {
    && (cfg.targTgid != 0 ==> cfg.targTgid == task / U32)
    && (cfg.targPid != 0 ==> cfg.targPid == task % U32)
  }

  predicate Traced(cfg: Config, task: u64, lock: u64) {
    (cfg.targLock != 0 ==> cfg.targLock == lock) && TracingTask(cfg, task)
  }

  // ---------- the handlers as steps ----------

  function StatKey(cfg: Config, li: Holder): u32 { (if cfg.perThread then li.task else li.stackId) % U32 }

  function AddTime(side: Side, delta: u64, li: Holder, comm: Comm, keepComm: bool): Side {
    var s := side.(count := Add64(side.count, 1), total := Add64(side.total, delta));
    if delta > side.maxTime then
      Side(s.count, s.total, delta, li.task, li.lock, li.nlmsg, li.ioctl, if keepComm then s.maxComm else comm)
    else s
  }

  function FreshStat(cfg: Config, comm: Comm): LockStat {
    LockStat(if cfg.perThread then FRESH_SIDE.(maxComm := comm) else FRESH_SIDE, FRESH_SIDE)
  }

  function AddSection(cfg: Config, ls: LockStat, li: Holder, comm: Comm): LockStat {
    LockStat(AddTime(ls.acq, Sub64(li.acqAt, li.tryAt), li, comm, cfg.perThread),
             AddTime(ls.hld, Sub64(li.relAt, li.acqAt), li, comm, cfg.perThread))
  }

  function Account(cfg: Config, stats: map<u32, LockStat>, li: Holder, comm: Comm): map<u32, LockStat> {
    var key := StatKey(cfg, li);
    if !Fits(stats, MAX_ENTRIES, key) then stats
    else stats[key := AddSection(cfg, if key in stats then stats[key] else FreshStat(cfg, comm), li, comm)]
  }

  function Step(cfg: Config, s: State, e: Event): State {
    match e
    case Contended(task, lock, stackId, now) =>
      if Traced(cfg, task, lock) && stackId >= 0 then
        s.(holders := UpdateAny(s.holders, MAX_ENTRIES, TaskLock(task, lock),
                                Holder(stackId, 0, 0, task, now, 0, 0, lock)))
      else s
    case Acquired(task, lock, now) =>
      var tl := TaskLock(task, lock);
      if Traced(cfg, task, lock) && tl in s.holders then
        s.(holders := s.holders[tl := Acquire(s.holders[tl], now, s.tasks, task)])
      else s
    case Aborted(task, lock) =>
      if Traced(cfg, task, lock) then s.(holders := s.holders - {TaskLock(task, lock)}) else s
    case Released(task, lock, now, comm) =>
      var tl := TaskLock(task, lock);
      if Traced(cfg, task, lock) && tl in s.holders then
        State(s.holders - {tl}, Account(cfg, s.stats, s.holders[tl].(relAt := now), comm), s.tasks)
      else s
    case SetTask(tid, state) => s.(tasks := UpdateAny(s.tasks, MAX_ENTRIES, tid, state))
    case ClearTask(tid) => s.(tasks := s.tasks - {tid})
  }

  function Acquire(li: Holder, now: u64, tasks: map<u32, TaskState>, task: u64): Holder {
    var li' := li.(acqAt := now);
    var tid := task % U32;
    if tid in tasks then li'.(nlmsg := tasks[tid].nlmsg, ioctl := tasks[tid].ioctl) else li'
  }

  /** The state before event `n`. */
  function At(cfg: Config, es: seq<Event>, n: nat): State
    requires n <= |es|
  {
    if n == 0 then INITIAL else Step(cfg, At(cfg, es, n - 1), es[n - 1])
  }

  class Tracer {
    const cfg: Config
    var holders: map<TaskLock, Holder>
    var stats: map<u32, LockStat>
    var tasks: map<u32, TaskState>

    constructor (cfg: Config)
      ensures this.cfg == cfg && View() == INITIAL
    {
      this.cfg := cfg;
      holders, stats, tasks := map[], map[], map[];
    }

    function View(): State
      reads this
    {
      State(holders, stats, tasks)
    }

    method LockContended(task: u64, lock: u64, stackId: s32, now: u64)
      modifies this`holders
      ensures View() == Step(cfg, old(View()), Contended(task, lock, stackId, now))
    {
      if cfg.targLock != 0 && cfg.targLock != lock { return; }
      if !TracingTask(cfg, task) { return; }
      if stackId < 0 { return; }
      var li := Holder(stackId, 0, 0, task, now, 0, 0, lock);
      holders := UpdateAny(holders, MAX_ENTRIES, TaskLock(task, lock), li);
    }

    method LockAborted(task: u64, lock: u64)
      modifies this`holders
      ensures View() == Step(cfg, old(View()), Aborted(task, lock))
    {
      if cfg.targLock != 0 && cfg.targLock != lock { return; }
      if !TracingTask(cfg, task) { return; }
      holders := holders - {TaskLock(task, lock)};
    }

    method LockAcquired(task: u64, lock: u64, now: u64)
      modifies this`holders
      ensures View() == Step(cfg, old(View()), Acquired(task, lock, now))
    {
      if cfg.targLock != 0 && cfg.targLock != lock { return; }
      if !TracingTask(cfg, task) { return; }
      var tl := TaskLock(task, lock);
      if tl !in holders { return; }
      var li := holders[tl].(acqAt := now);
      var tid := task % U32;
      if tid in tasks {
        li := li.(nlmsg := tasks[tid].nlmsg);
        li := li.(ioctl := tasks[tid].ioctl);
      }
      holders := holders[tl := li];
    }

    /** The wait or hold part of `account`: three atomic updates guarded by the running maximum. */
    method Accumulate(side: Side, delta: u64, li: Holder, comm: Comm) returns (r: Side)
      ensures r == AddTime(side, delta, li, comm, cfg.perThread)
    {
      r := side.(count := Add64(side.count, 1));
      r := r.(total := Add64(r.total, delta));
      if delta > r.maxTime {
        r := r.(maxTime := delta, maxId := li.task, maxLock := li.lock, maxNlmsg := li.nlmsg, maxIoctl := li.ioctl);
        if !cfg.perThread { r := r.(maxComm := comm); }
      }
    }

    method AccountHolder(li: Holder, comm: Comm)
      modifies this`stats
      ensures stats == Account(cfg, old(stats), li, comm)
    {
      var key: u32 := li.stackId % U32;
      if cfg.perThread { key := li.task % U32; }
      var ls: LockStat;
      if key in stats {
        ls := stats[key];
      } else {
        if |stats| >= MAX_ENTRIES { return; }
        ls := LockStat(FRESH_SIDE, FRESH_SIDE);
        if cfg.perThread { ls := ls.(acq := ls.acq.(maxComm := comm)); }
      }
      var acq := Accumulate(ls.acq, Sub64(li.acqAt, li.tryAt), li, comm);
      var hld := Accumulate(ls.hld, Sub64(li.relAt, li.acqAt), li, comm);
      stats := stats[key := LockStat(acq, hld)];
    }

    method LockReleased(task: u64, lock: u64, now: u64, comm: Comm)
      modifies this
      ensures View() == Step(cfg, old(View()), Released(task, lock, now, comm))
    {
      if cfg.targLock != 0 && cfg.targLock != lock { return; }
      if !TracingTask(cfg, task) { return; }
      var tl := TaskLock(task, lock);
      if tl !in holders { return; }
      var li := holders[tl].(relAt := now);
      AccountHolder(li, comm);
      holders := holders - {tl};
    }

    method RecordTaskState(tid: u32, state: TaskState)
      modifies this`tasks
      ensures View() == Step(cfg, old(View()), SetTask(tid, state))
    {
      tasks := UpdateAny(tasks, MAX_ENTRIES, tid, state);
    }

    method ReleaseTaskState(tid: u32)
      modifies this`tasks
      ensures View() == Step(cfg, old(View()), ClearTask(tid))
    {
      tasks := tasks - {tid};
    }
  }

  // ---------- the reference: sections read off the trace ----------

  predicate IsLockEvent(e: Event) { e.Contended? || e.Acquired? || e.Aborted? || e.Released? }

  predicate About(e: Event, tl: TaskLock) { IsLockEvent(e) && TaskLock(e.task, e.lock) == tl }

  /** The last event of the pair before position `n`, or -1. */
  function Prev(es: seq<Event>, n: nat, tl: TaskLock): (p: int)
    requires n <= |es|
    ensures -1 <= p < n
    ensures p >= 0 ==> About(es[p], tl)
    ensures forall i :: p < i < n ==> !About(es[i], tl)
  {
    if n == 0 then -1 else if About(es[n - 1], tl) then n - 1 else Prev(es, n - 1, tl)
  }

  /**
   * Each pair goes (contended acquired released | contended aborted)*, from any point of that cycle on:
   * tracing may start while a lock is held or waited for.
   */
  ghost predicate WellFormed(es: seq<Event>) {
    forall k :: 0 <= k < |es| && IsLockEvent(es[k]) ==> FollowsProtocol(es, k)
  }

  predicate FollowsProtocol(es: seq<Event>, k: nat)
    requires k < |es| && IsLockEvent(es[k])
  {
    var p := Prev(es, k, TaskLock(es[k].task, es[k].lock));
    match es[k]
    case Contended(_, _, _, _) => p < 0 || es[p].Aborted? || es[p].Released?
    case Released(_, _, _, _) => p < 0 || es[p].Acquired?
    case _ => p < 0 || es[p].Contended?
  }

  /** The attempt at `i` got an entry in `lockholder_map`. */
  predicate Recorded(cfg: Config, es: seq<Event>, i: nat)
    requires i < |es| && es[i].Contended?
  {
    && Traced(cfg, es[i].task, es[i].lock) && es[i].stackId >= 0
    && Fits(At(cfg, es, i).holders, MAX_ENTRIES, TaskLock(es[i].task, es[i].lock))
  }

  datatype Section = Section(
    key: u32, task: u64, lock: u64, wait: u64, hold: u64, nlmsg: u16, ioctl: u16, comm: Comm)

  /** The recorded critical section that the release at `k` completes, from contention at `i` and acquisition at `j`. */
  function SectionAt(cfg: Config, es: seq<Event>, k: nat): Option<Section>
    requires k < |es|
  {
    if !es[k].Released? then None
    else
      var tl := TaskLock(es[k].task, es[k].lock);
      var j := Prev(es, k, tl);
      if j < 0 || !es[j].Acquired? then None
      else
        var i := Prev(es, j, tl);
        if i < 0 || !es[i].Contended? || !Recorded(cfg, es, i) then None
        else
          var tasks, tid := At(cfg, es, j).tasks, tl.task % U32;
          var state := if tid in tasks then tasks[tid] else TaskState(0, 0);
          Some(Section((if cfg.perThread then tl.task else es[i].stackId) % U32, tl.task, tl.lock,
                       Sub64(es[j].now, es[i].now), Sub64(es[k].now, es[j].now),
                       state.nlmsg, state.ioctl, es[k].comm))
  }

  /** The completed sections of one statistics key among the first `n` events, in order of completion. */
  function Sections(cfg: Config, es: seq<Event>, n: nat, key: u32): seq<Section>
    requires n <= |es|
  {
    if n == 0 then []
    else
      var before := Sections(cfg, es, n - 1, key);
      match SectionAt(cfg, es, n - 1)
      case Some(sec) => if sec.key == key then before + [sec] else before
      case None => before
  }

  // ---------- what a statistics entry must be ----------

  datatype Phase = Wait | Hold

  function TimeOf(sec: Section, ph: Phase): u64 { if ph.Wait? then sec.wait else sec.hold }

  function Total(ss: seq<Section>, ph: Phase): nat {
    if ss == [] then 0 else Total(ss[..|ss| - 1], ph) + TimeOf(ss[|ss| - 1], ph)
  }

  /** `i` is the first section to attain the largest time, which is not zero. */
  ghost predicate FirstMax(ss: seq<Section>, ph: Phase, i: int) {
    && 0 <= i < |ss| && TimeOf(ss[i], ph) > 0
    && (forall j :: 0 <= j < |ss| ==> TimeOf(ss[j], ph) <= TimeOf(ss[i], ph))
    && (forall j :: 0 <= j < i ==> TimeOf(ss[j], ph) < TimeOf(ss[i], ph))
  }

  ghost predicate AllZero(ss: seq<Section>, ph: Phase) {
    forall j :: 0 <= j < |ss| ==> TimeOf(ss[j], ph) == 0
  }

  ghost predicate MaxFrom(side: Side, sec: Section, ph: Phase) {
    && side.maxTime == TimeOf(sec, ph) && side.maxId == sec.task && side.maxLock == sec.lock
    && side.maxNlmsg == sec.nlmsg && side.maxIoctl == sec.ioctl
  }

  ghost predicate MaxIs(side: Side, ss: seq<Section>, ph: Phase, perThread: bool) {
    || (AllZero(ss, ph) && side.maxTime == 0 && side.maxId == 0 && side.maxLock == 0
        && side.maxNlmsg == 0 && side.maxIoctl == 0 && (!perThread ==> side.maxComm == []))
    || exists i :: FirstMax(ss, ph, i) && MaxFrom(side, ss[i], ph) && (!perThread ==> side.maxComm == ss[i].comm)
  }

  /**
   * Counts, sums and maxima are those of the sections; the identity of a maximum comes from one section
   * attaining it.
   */
  ghost predicate SideIs(side: Side, ss: seq<Section>, ph: Phase, perThread: bool) {
    side.count == |ss| % U64 && side.total == Total(ss, ph) % U64 && MaxIs(side, ss, ph, perThread)
  }

  ghost predicate StatIs(cfg: Config, ls: LockStat, ss: seq<Section>) {
    && ss != []
    && SideIs(ls.acq, ss, Wait, cfg.perThread) && SideIs(ls.hld, ss, Hold, cfg.perThread)
    && (cfg.perThread ==> ls.acq.maxComm == ss[0].comm && ls.hld.maxComm == [])
  }

  lemma MaxAppend(side: Side, ss: seq<Section>, ph: Phase, sec: Section, li: Holder, perThread: bool)
    requires MaxIs(side, ss, ph, perThread)
    requires li.task == sec.task && li.lock == sec.lock && li.nlmsg == sec.nlmsg && li.ioctl == sec.ioctl
    ensures MaxIs(AddTime(side, TimeOf(sec, ph), li, sec.comm, perThread), ss + [sec], ph, perThread)
  {
    hide TimeOf, Add64;
    var ss' := ss + [sec];
    if TimeOf(sec, ph) > side.maxTime {
      assert FirstMax(ss', ph, |ss|);
    } else if i :| FirstMax(ss, ph, i) && MaxFrom(side, ss[i], ph) && (!perThread ==> side.maxComm == ss[i].comm) {
      assert FirstMax(ss', ph, i) && ss'[i] == ss[i];
    } else {
      assert AllZero(ss', ph);
    }
  }

  lemma SideAppend(side: Side, ss: seq<Section>, ph: Phase, sec: Section, li: Holder, perThread: bool)
    requires SideIs(side, ss, ph, perThread)
    requires li.task == sec.task && li.lock == sec.lock && li.nlmsg == sec.nlmsg && li.ioctl == sec.ioctl
    ensures SideIs(AddTime(side, TimeOf(sec, ph), li, sec.comm, perThread), ss + [sec], ph, perThread)
  {
    hide MaxIs, TimeOf;
    MaxAppend(side, ss, ph, sec, li, perThread);
    assert (ss + [sec])[..|ss|] == ss;
    ModularSum(|ss|, 1);
    ModularSum(Total(ss, ph), TimeOf(sec, ph));
  }

  /** A holder that carries the data of a section. */
  ghost predicate Carries(cfg: Config, li: Holder, sec: Section) {
    && StatKey(cfg, li) == sec.key && li.task == sec.task && li.lock == sec.lock
    && li.nlmsg == sec.nlmsg && li.ioctl == sec.ioctl
    && Sub64(li.acqAt, li.tryAt) == sec.wait && Sub64(li.relAt, li.acqAt) == sec.hold
  }

  lemma StatAppend(cfg: Config, ls: LockStat, ss: seq<Section>, sec: Section, li: Holder)
    requires if ss == [] then ls == FreshStat(cfg, sec.comm) else StatIs(cfg, ls, ss)
    requires Carries(cfg, li, sec)
    ensures StatIs(cfg, AddSection(cfg, ls, li, sec.comm), ss + [sec])
  {
    hide MaxIs, Add64, Sub64, Total;
    if ss == [] {
      FreshSide(ls.acq, Wait, cfg.perThread);
      FreshSide(ls.hld, Hold, cfg.perThread);
    }
    SideAppend(ls.acq, ss, Wait, sec, li, cfg.perThread);
    SideAppend(ls.hld, ss, Hold, sec, li, cfg.perThread);
  }

  lemma FreshSide(side: Side, ph: Phase, perThread: bool)
    requires side.(maxComm := []) == FRESH_SIDE && (!perThread ==> side.maxComm == [])
    ensures SideIs(side, [], ph, perThread)
  {}

  // ---------- lockholder_map follows the trace ----------

  /** The entry the pair should have before position `n`. */
  function Expected(cfg: Config, es: seq<Event>, n: nat, tl: TaskLock): Option<Holder>
    requires n <= |es|
  {
    var p := Prev(es, n, tl);
    if p < 0 then None
    else if es[p].Contended? then
      if Recorded(cfg, es, p) then Some(Holder(es[p].stackId, 0, 0, tl.task, es[p].now, 0, 0, tl.lock)) else None
    else if es[p].Acquired? then
      var i := Prev(es, p, tl);
      if i >= 0 && es[i].Contended? && Recorded(cfg, es, i) then
        Some(Acquire(Holder(es[i].stackId, 0, 0, tl.task, es[i].now, 0, 0, tl.lock),
                     es[p].now, At(cfg, es, p).tasks, tl.task))
      else None
    else None
  }

  function Entry(s: State, tl: TaskLock): Option<Holder> {
    if tl in s.holders then Some(s.holders[tl]) else None
  }

  ghost predicate HoldersFollow(cfg: Config, es: seq<Event>, n: nat)
    requires n <= |es|
  {
    forall tl :: Entry(At(cfg, es, n), tl) == Expected(cfg, es, n, tl)
  }

  lemma OtherPairsUntouched(cfg: Config, s: State, e: Event, tl: TaskLock)
    requires !About(e, tl)
    ensures Entry(Step(cfg, s, e), tl) == Entry(s, tl)
  {
    hide Account, Acquire, Traced;
  }

  lemma OwnPair(cfg: Config, es: seq<Event>, n: nat, tl: TaskLock)
    requires n < |es| && WellFormed(es) && About(es[n], tl)
    requires Entry(At(cfg, es, n), tl) == Expected(cfg, es, n, tl)
    ensures Entry(At(cfg, es, n + 1), tl) == Expected(cfg, es, n + 1, tl)
  {}

  lemma StepAt(cfg: Config, es: seq<Event>, n: nat)
    requires n < |es|
    ensures At(cfg, es, n + 1) == Step(cfg, At(cfg, es, n), es[n])
  {
    hide Step;
  }

  lemma TracedPair(cfg: Config, es: seq<Event>, i: nat)
    requires i < |es| && es[i].Contended? && Recorded(cfg, es, i)
    ensures Traced(cfg, es[i].task, es[i].lock)
  {}

  lemma {:induction false} HoldersFollowTrace(cfg: Config, es: seq<Event>, n: nat)
    requires n <= |es| && WellFormed(es)
    ensures HoldersFollow(cfg, es, n)
  {
    hide Step, Expected, WellFormed;
    if n == 0 {
      forall tl ensures Entry(At(cfg, es, 0), tl) == Expected(cfg, es, 0, tl) { ExpectedInitially(cfg, es, tl); }
    } else {
      HoldersFollowTrace(cfg, es, n - 1);
      forall tl ensures Entry(At(cfg, es, n), tl) == Expected(cfg, es, n, tl) {
        if About(es[n - 1], tl) {
          OwnPair(cfg, es, n - 1, tl);
        } else {
          OtherPairsUntouched(cfg, At(cfg, es, n - 1), es[n - 1], tl);
          ExpectedElsewhere(cfg, es, n - 1, tl);
        }
      }
    }
  }

  lemma ExpectedInitially(cfg: Config, es: seq<Event>, tl: TaskLock)
    ensures Expected(cfg, es, 0, tl) == None
  {}

  lemma ExpectedElsewhere(cfg: Config, es: seq<Event>, n: nat, tl: TaskLock)
    requires n < |es| && !About(es[n], tl)
    ensures Expected(cfg, es, n + 1, tl) == Expected(cfg, es, n, tl)
  {}

  // ---------- stat_map is the fold of the sections ----------

  ghost predicate StatsAre(cfg: Config, es: seq<Event>, n: nat)
    requires n <= |es|
  {
    var stats := At(cfg, es, n).stats;
    && |stats| <= MAX_ENTRIES
    && (forall key :: key in stats ==> StatIs(cfg, stats[key], Sections(cfg, es, n, key)))
    && (|stats| < MAX_ENTRIES ==> forall key: u32 :: key !in stats ==> Sections(cfg, es, n, key) == [])
  }

  /** A release either completes the trace's section with a holder that carries it, or changes no statistics. */
  lemma ReleaseCarriesSection(cfg: Config, es: seq<Event>, n: nat)
    requires n < |es| && WellFormed(es) && HoldersFollow(cfg, es, n) && es[n].Released?
    ensures var s, tl := At(cfg, es, n), TaskLock(es[n].task, es[n].lock);
            match SectionAt(cfg, es, n)
            case None => !(Traced(cfg, tl.task, tl.lock) && tl in s.holders)
            case Some(sec) => && Traced(cfg, tl.task, tl.lock) && tl in s.holders && sec.comm == es[n].comm
                              && Carries(cfg, s.holders[tl].(relAt := es[n].now), sec)
  {
    hide At, Traced, Sub64;
    var s, tl := At(cfg, es, n), TaskLock(es[n].task, es[n].lock);
    assert FollowsProtocol(es, n);
    assert Entry(s, tl) == Expected(cfg, es, n, tl);
    var j := Prev(es, n, tl);
    if j >= 0 {
      var i := Prev(es, j, tl);
      assert es[j].Acquired? && FollowsProtocol(es, j);
      if i >= 0 && Recorded(cfg, es, i) { TracedPair(cfg, es, i); }
    }
  }

  lemma QuietEventKeepsStats(cfg: Config, es: seq<Event>, n: nat)
    requires n < |es| && HoldersFollow(cfg, es, n) && WellFormed(es)
    requires SectionAt(cfg, es, n).None?
    ensures At(cfg, es, n + 1).stats == At(cfg, es, n).stats
  {
    hide Acquire, Account, Traced, At, SectionAt, HoldersFollow;
    StepAt(cfg, es, n);
    if es[n].Released? { ReleaseCarriesSection(cfg, es, n); }
  }

  lemma SectionUpdatesStats(cfg: Config, es: seq<Event>, n: nat, sec: Section)
    requires n < |es| && HoldersFollow(cfg, es, n) && WellFormed(es)
    requires SectionAt(cfg, es, n) == Some(sec)
    ensures exists li ::
              && Carries(cfg, li, sec)
              && At(cfg, es, n + 1).stats == Account(cfg, At(cfg, es, n).stats, li, sec.comm)
  {
    hide Acquire, Account, Traced, At, HoldersFollow, Carries, Prev;
    StepAt(cfg, es, n);
    ReleaseCarriesSection(cfg, es, n);
    var li := At(cfg, es, n).holders[TaskLock(es[n].task, es[n].lock)].(relAt := es[n].now);
    assert Carries(cfg, li, sec);
  }

  lemma AccountKeeps(cfg: Config, stats: map<u32, LockStat>, li: Holder, sec: Section, key: u32, ss: seq<Section>)
    requires Carries(cfg, li, sec) && |stats| <= MAX_ENTRIES
    requires key in stats ==> StatIs(cfg, stats[key], ss)
    requires |stats| < MAX_ENTRIES && key !in stats ==> ss == []
    ensures var stats' := Account(cfg, stats, li, sec.comm);
            var ss' := if sec.key == key then ss + [sec] else ss;
            && |stats'| <= MAX_ENTRIES
            && (key in stats' ==> StatIs(cfg, stats'[key], ss'))
            && (|stats'| < MAX_ENTRIES && key !in stats' ==> ss' == [])
  {
    hide StatIs, AddSection;
    var stats' := Account(cfg, stats, li, sec.comm);
    if Fits(stats, MAX_ENTRIES, sec.key) {
      UpdateKeys(stats, MAX_ENTRIES, sec.key, stats'[sec.key]);
      assert stats' == UpdateAny(stats, MAX_ENTRIES, sec.key, stats'[sec.key]);
    }
    if sec.key == key && key in stats' {
      var ls := if key in stats then stats[key] else FreshStat(cfg, sec.comm);
      assert key in stats ==> ss != [] by { if key in stats { StatNonempty(cfg, stats[key], ss); } }
      StatAppend(cfg, ls, ss, sec, li);
    }
  }

  lemma StatNonempty(cfg: Config, ls: LockStat, ss: seq<Section>)
    requires StatIs(cfg, ls, ss)
    ensures ss != []
  {}

  /**
   * For every well-formed interleaving, each entry of `stat_map` is exactly the account of all
   * recorded critical sections of its key; a key with sections but no entry means the map is full.
   */
  lemma {:induction false} StatsAreSectionFolds(cfg: Config, es: seq<Event>, n: nat)
    requires n <= |es| && WellFormed(es)
    ensures StatsAre(cfg, es, n)
  {
    hide Step, SectionAt, StatIs, Account, WellFormed, HoldersFollow;
    if n > 0 {
      StatsAreSectionFolds(cfg, es, n - 1);
      HoldersFollowTrace(cfg, es, n - 1);
      var stats := At(cfg, es, n - 1).stats;
      match SectionAt(cfg, es, n - 1)
      case None =>
        QuietEventKeepsStats(cfg, es, n - 1);
        assert forall key: u32 :: Sections(cfg, es, n, key) == Sections(cfg, es, n - 1, key);
      case Some(sec) =>
        SectionUpdatesStats(cfg, es, n - 1, sec);
        var li :| Carries(cfg, li, sec) && At(cfg, es, n).stats == Account(cfg, stats, li, sec.comm);
        forall key: u32
          ensures var stats' := At(cfg, es, n).stats;
                  && |stats'| <= MAX_ENTRIES
                  && (key in stats' ==> StatIs(cfg, stats'[key], Sections(cfg, es, n, key)))
                  && (|stats'| < MAX_ENTRIES && key !in stats' ==> Sections(cfg, es, n, key) == [])
        {
          AccountKeeps(cfg, stats, li, sec, key, Sections(cfg, es, n - 1, key));
        }
    }
  }

  // ---------- consequences ----------

  /** Sums stay below count times maximum. */
  lemma {:induction false} TotalBound(ss: seq<Section>, ph: Phase, max: nat)
    requires forall j :: 0 <= j < |ss| ==> TimeOf(ss[j], ph) <= max
    ensures Total(ss, ph) <= |ss| * max
  {
    if ss != [] {
      TotalBound(ss[..|ss| - 1], ph, max);
      assert |ss| * max == (|ss| - 1) * max + max;
    }
  }

  lemma SideBound(side: Side, ss: seq<Section>, ph: Phase, perThread: bool)
    requires SideIs(side, ss, ph, perThread) && |ss| < U64 && Total(ss, ph) < U64
    ensures side.total <= side.count * side.maxTime
  {
    hide TimeOf, Total;
    TotalBound(ss, ph, side.maxTime);
  }

  /** While the counters do not wrap, no average exceeds its maximum. */
  lemma AverageBelowMax(cfg: Config, es: seq<Event>, n: nat, key: u32)
    requires n <= |es| && WellFormed(es) && key in At(cfg, es, n).stats
    requires var ss := Sections(cfg, es, n, key); |ss| < U64 && Total(ss, Wait) < U64 && Total(ss, Hold) < U64
    ensures var ls := At(cfg, es, n).stats[key];
            ls.acq.total <= ls.acq.count * ls.acq.maxTime && ls.hld.total <= ls.hld.count * ls.hld.maxTime
  {
    hide At, Sections, SideIs, WellFormed;
    StatsAreSectionFolds(cfg, es, n);
    var ls, ss := At(cfg, es, n).stats[key], Sections(cfg, es, n, key);
    SideBound(ls.acq, ss, Wait, cfg.perThread);
    SideBound(ls.hld, ss, Hold, cfg.perThread);
  }

  lemma StepStatsGrow(cfg: Config, s: State, e: Event)
    requires |s.stats| <= MAX_ENTRIES
    ensures s.stats.Keys <= Step(cfg, s, e).stats.Keys && |Step(cfg, s, e).stats| <= MAX_ENTRIES
  {}

  lemma {:induction false} StatsGrow(cfg: Config, es: seq<Event>, n: nat, m: nat)
    requires n <= m <= |es| && |At(cfg, es, n).stats| <= MAX_ENTRIES
    ensures At(cfg, es, n).stats.Keys <= At(cfg, es, m).stats.Keys && |At(cfg, es, m).stats| <= MAX_ENTRIES
    decreases m
  {
    hide Step;
    if n < m {
      StatsGrow(cfg, es, n, m - 1);
      StepStatsGrow(cfg, At(cfg, es, m - 1), es[m - 1]);
    }
  }

  /** A key whose sections are not shown will never be: `stat_map` is full and keeps the keys it has. */
  lemma UnshownKeyMeansFullForever(cfg: Config, es: seq<Event>, n: nat, m: nat, key: u32)
    requires n <= m <= |es| && WellFormed(es)
    requires Sections(cfg, es, n, key) != [] && key !in At(cfg, es, n).stats
    ensures |At(cfg, es, n).stats| == MAX_ENTRIES && At(cfg, es, m).stats.Keys == At(cfg, es, n).stats.Keys
  {
    hide At, Sections, StatIs, WellFormed;
    StatsAreSectionFolds(cfg, es, n);
    StatsGrow(cfg, es, n, m);
    FullMapIsFrozen(At(cfg, es, n).stats, At(cfg, es, m).stats, MAX_ENTRIES);
  }

  ghost predicate ClockNondecreasing(es: seq<Event>) {
    forall i, j :: 0 <= i < j < |es| && !es[i].Aborted? && !es[j].Aborted? && IsLockEvent(es[i]) && IsLockEvent(es[j])
                   ==> es[i].now <= es[j].now
  }

  /** With a clock that never runs backwards, waits and holds are the plain differences: nothing wraps. */
  lemma SectionTimesAreDifferences(cfg: Config, es: seq<Event>, k: nat, sec: Section)
    requires k < |es| && ClockNondecreasing(es) && SectionAt(cfg, es, k) == Some(sec)
    ensures exists i, j :: 0 <= i < j < k && es[i].Contended? && es[j].Acquired?
                           && About(es[i], TaskLock(sec.task, sec.lock)) && About(es[j], TaskLock(sec.task, sec.lock))
                           && sec.wait == es[j].now - es[i].now && sec.hold == es[k].now - es[j].now
  {}

  /** An aborted attempt leaves no trace: neither an entry nor a section. */
  lemma AbortedContributesNothing(cfg: Config, es: seq<Event>, n: nat, key: u32)
    requires n < |es| && WellFormed(es) && es[n].Aborted?
    ensures TaskLock(es[n].task, es[n].lock) !in At(cfg, es, n + 1).holders
    ensures At(cfg, es, n + 1).stats == At(cfg, es, n).stats
    ensures Sections(cfg, es, n + 1, key) == Sections(cfg, es, n, key)
  {
    hide At;
    StepAt(cfg, es, n);
    HoldersFollowTrace(cfg, es, n + 1);
    assert Prev(es, n + 1, TaskLock(es[n].task, es[n].lock)) == n;
    var tl := TaskLock(es[n].task, es[n].lock);
    assert Entry(At(cfg, es, n + 1), tl) == Expected(cfg, es, n + 1, tl);
  }
}
