/**
 * Which waits of futexctn share a histogram: normally those of one thread at one lock and stack, in summary
 * mode those of a process at one lock. A thread waits for one futex at a time, so whether handlers of one
 * entry can overlap, and `max` be lost, depends on the mode.
 */
module FutexctnKeys {
  import opened Machine
  import opened Futexctn

  /** A finished wait as `futex_exit` sees it; `thread` is the pid_tgid of the caller. */
  datatype Wait = Wait(thread: u64, uaddr: u64, stackId: s32, delta: u64)

  function KeyOf(summary: bool, w: Wait): HistKey {
    if summary then HistKey(w.thread / U32, w.uaddr, 0) else HistKey(w.thread, w.uaddr, w.stackId)
  }

  datatype Act = Start(cpu: nat, w: Wait) | Continue(cpu: nat)

  function Lift(summary: bool, a: Act): Action {
    match a
    case Start(cpu, w) => Begin(cpu, Work(KeyOf(summary, w), w.delta))
    case Continue(cpu) => Go(cpu)
  }

  function LiftAll(summary: bool, acts: seq<Act>): (r: seq<Action>)
    ensures |r| == |acts| && forall i :: 0 <= i < |acts| ==> r[i] == Lift(summary, acts[i])
  {
    if acts == [] then [] else LiftAll(summary, acts[..|acts| - 1]) + [Lift(summary, acts[|acts| - 1])]
  }

  function RunOf(summary: bool, acts: seq<Act>): State { Run(LiftAll(summary, acts)) }

  /** The threads whose handlers are in progress, by CPU. */
  function Threads(summary: bool, acts: seq<Act>): map<nat, u64> {
    if acts == [] then map[]
    else
      var before := Threads(summary, acts[..|acts| - 1]);
      match acts[|acts| - 1]
      case Start(cpu, w) => if cpu in before then before else before[cpu := w.thread]
      case Continue(cpu) => if cpu in RunOf(summary, acts).cpus then before else before - {cpu}
  }

  /** No thread is in two handlers at once. */
  ghost predicate OnePerThread(summary: bool, acts: seq<Act>) {
    forall n :: 0 <= n <= |acts| ==> Separate(Threads(summary, acts[..n]))
  }

  ghost predicate Separate(threads: map<nat, u64>) {
    forall c, d :: c in threads && d in threads && c != d ==> threads[c] != threads[d]
  }

  /** Outside summary mode the key of a handler in progress tells its thread. */
  ghost predicate KeysTellThreads(threads: map<nat, u64>, s: State) {
    threads.Keys == s.cpus.Keys && forall c :: c in threads && c in s.cpus ==> s.cpus[c].w.key.pidTgid == threads[c]
  }

  lemma RunExtends(summary: bool, acts: seq<Act>)
    requires acts != []
    ensures var n := |acts| - 1;
            RunOf(summary, acts) == Step(RunOf(summary, acts[..n]), Lift(summary, acts[n]))
  {
    hide Step;
    var n := |acts| - 1;
    Extend(LiftAll(summary, acts[..n]), Lift(summary, acts[n]));
  }

  /** A step changes which CPUs are busy only by its own CPU, and never what a busy one works on. */
  lemma StepCpus(s: State, a: Action)
    requires Valid(s)
    ensures var s' := Step(s, a);
            && (a.Begin? ==> s'.cpus == if a.cpu in s.cpus then s.cpus else s.cpus[a.cpu := Lookup(a.w)])
            && (a.Go? ==> s.cpus.Keys - {a.cpu} <= s'.cpus.Keys <= s.cpus.Keys)
            && (a.Go? ==> forall c :: c in s.cpus && c in s'.cpus ==> s'.cpus[c].w == s.cpus[c].w)
  {
    hide Touch, Slot, EmptyHist;
    if a.Go? && a.cpu in s.cpus && Past(s.cpus[a.cpu]) { AfterKeepsWork(s.hists[s.cpus[a.cpu].w.key], s.cpus[a.cpu]); }
  }

  lemma {:induction false} KeysAlwaysTellThreads(acts: seq<Act>)
    ensures KeysTellThreads(Threads(false, acts), RunOf(false, acts))
  {
    hide Step, Run;
    if acts == [] {
      assert Run(LiftAll(false, acts)) == INITIAL by { RunNothing(); }
    } else {
      var n := |acts| - 1;
      KeysAlwaysTellThreads(acts[..n]);
      RunExtends(false, acts);
      StepCpus(RunOf(false, acts[..n]), Lift(false, acts[n]));
    }
  }

  lemma RunNothing()
    ensures Run([]) == INITIAL
  {}

  /** So there handlers of one entry never overlap. */
  lemma NeverOverlaps(acts: seq<Act>)
    requires OnePerThread(false, acts)
    ensures AlwaysExclusive(LiftAll(false, acts))
  {
    hide Run;
    forall n | 0 <= n <= |acts| ensures Exclusive(Run(LiftAll(false, acts)[..n])) {
      KeysAlwaysTellThreads(acts[..n]);
      assert LiftAll(false, acts)[..n] == LiftAll(false, acts[..n]);
      assert Separate(Threads(false, acts[..n]));
    }
  }

  ghost predicate MaxIsTrue(s: State) { forall w :: w in s.recorded ==> w.delta <= MaxOf(s, w.key) }

  /** Every run in which a thread is in one handler at a time ends, when all are done, with true maxima. */
  ghost predicate AlwaysTrue(summary: bool) {
    forall acts :: OnePerThread(summary, acts) && RunOf(summary, acts).cpus == map[] ==> MaxIsTrue(RunOf(summary, acts))
  }

  lemma {:induction false} TwoThreads(acts: seq<Act>, a: Wait, b: Wait, n: nat)
    requires 2 <= |acts| && acts[0] == Start(0, a) && acts[1] == Start(1, b) && n <= |acts|
    requires forall i :: 2 <= i < |acts| ==> acts[i].Continue?
    ensures forall c :: c in Threads(true, acts[..n]) ==>
              (c == 0 && Threads(true, acts[..n])[c] == a.thread) || (c == 1 && Threads(true, acts[..n])[c] == b.thread)
  {
    hide RunOf;
    if n > 0 {
      TwoThreads(acts, a, b, n - 1);
      assert acts[..n][..n - 1] == acts[..n - 1];
    }
  }

  /** Two threads of one process, in summary mode, lose the longer wait. */
  lemma SummaryRace() returns (acts: seq<Act>)
    ensures OnePerThread(true, acts) && RunOf(true, acts).cpus == map[] && !MaxIsTrue(RunOf(true, acts))
  {
    var a, b := Wait(U32 + 1, 64, 0, 9), Wait(U32 + 2, 64, 0, 5);
    var k := KeyOf(true, a);
    assert KeyOf(true, b) == k;
    var gos := RaceRun(k, 9, 5);
    acts := [Start(0, a), Start(1, b)] + seq(|gos|, i requires 0 <= i < |gos| => Continue(gos[i].cpu));
    hide Run;
    assert LiftAll(true, acts) == [Begin(0, Work(k, 9)), Begin(1, Work(k, 5))] + gos;
    forall n | 0 <= n <= |acts| ensures Separate(Threads(true, acts[..n])) { TwoThreads(acts, a, b, n); }
  }

  /** `max` is always the true maximum if and only if the tool does not run in summary mode. */
  lemma MaxAlwaysTrueIff(summary: bool)
    ensures AlwaysTrue(summary) <==> !summary
  {
    hide Run, RunOf, OnePerThread;
    if summary {
      var acts := SummaryRace();
    } else {
      forall acts | OnePerThread(false, acts)
        && RunOf(false, acts).cpus == map[] ensures MaxIsTrue(RunOf(false, acts)) {
        TrueOutsideSummary(acts);
      }
    }
  }

  lemma TrueOutsideSummary(acts: seq<Act>)
    requires OnePerThread(false, acts) && RunOf(false, acts).cpus == map[]
    ensures MaxIsTrue(RunOf(false, acts))
  {
    hide Run, OnePerThread, AlwaysExclusive;
    NeverOverlaps(acts);
    var s := RunOf(false, acts);
    forall w | w in s.recorded ensures w.delta <= MaxOf(s, w.key) {
      MaxIsTrueWithoutOverlap(LiftAll(false, acts), w.key);
    }
  }
}
