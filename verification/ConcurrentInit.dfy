/**
 * `bpf_map_lookup_or_try_init` followed by an atomic add, run by any number of CPUs at once over
 * one bounded map: look up; if absent, insert a zero with BPF_NOEXIST; look up again; add through
 * the pointer. Every helper call is one step. Nothing deletes from the map meanwhile.
 */
module ConcurrentInit {
  import opened Machine
  import opened BpfMap
  import MapSum

  /** An event to be counted: `delta` for `key`. */
  datatype Work = Work(key: u64, delta: u64)

  /** Where a CPU is inside the call. */
  datatype Pc = Lookup(w: Work) | Insert(w: Work) | Relookup(w: Work) | Add(w: Work)

  /**
   * The shared map and the CPUs inside the call; `begun`, `completed` and `dropped` are history.
   */
  datatype State = State(
    m: map<u64, u64>, cpus: map<nat, Pc>, begun: seq<Work>, completed: seq<Work>, dropped: seq<Work>)

  const INITIAL := State(map[], map[], [], [], [])

  datatype Action = Begin(cpu: nat, w: Work) | Go(cpu: nat)

  predicate Enabled(s: State, a: Action) {
    match a
    case Begin(cpu, _) => cpu !in s.cpus
    case Go(cpu) => cpu in s.cpus
  }

  /** An action that is not enabled changes nothing, so that every sequence of actions is an interleaving. */
  function Next(capacity: nat, s: State, a: Action): State {
    if Enabled(s, a) then Step(capacity, s, a) else s
  }

  function Run(capacity: nat, acts: seq<Action>): State {
    if acts == [] then INITIAL else Next(capacity, Run(capacity, acts[..|acts| - 1]), acts[|acts| - 1])
  }

  function Step(capacity: nat, s: State, a: Action): State
    requires Enabled(s, a)
  {
    match a
    case Begin(cpu, w) => s.(cpus := s.cpus[cpu := Lookup(w)], begun := s.begun + [w])
    case Go(cpu) =>
      match s.cpus[cpu]
      case Lookup(w) => s.(cpus := s.cpus[cpu := if w.key in s.m then Add(w) else Insert(w)])
      case Insert(w) =>
        if Fits(s.m, capacity, w.key) then // stored, or -EEXIST
          s.(m := TryInit(s.m, capacity, w.key, 0), cpus := s.cpus[cpu := Relookup(w)])
        else // -E2BIG
          s.(cpus := s.cpus - {cpu}, dropped := s.dropped + [w])
      case Relookup(w) =>
        if w.key in s.m then s.(cpus := s.cpus[cpu := Add(w)])
        else s.(cpus := s.cpus - {cpu}, dropped := s.dropped + [w])
      case Add(w) =>
        if w.key in s.m then
          s.(m := s.m[w.key := Add64(s.m[w.key], w.delta)], cpus := s.cpus - {cpu}, completed := s.completed + [w])
        else s.(cpus := s.cpus - {cpu})
  }

  // ---------- the invariant ----------

  function DeltaFor(key: u64): Work -> int { (w: Work) => if w.key == key then w.delta else 0 }
  function IsWork(w: Work): Pc -> int { (pc: Pc) => if pc.w == w then 1 else 0 }

  /** The pointer a CPU is about to add through points at a live entry. */
  ghost predicate PointersLive(s: State) {
    forall c :: c in s.cpus && (s.cpus[c].Add? || s.cpus[c].Relookup?) ==> s.cpus[c].w.key in s.m
  }

  /** Each entry is the sum of the completed adds of its key; a key without an entry has none. */
  ghost predicate ValuesAreSums(s: State) {
    && (forall k :: k in s.m ==> s.m[k] == MapSum.SeqSum(s.completed, DeltaFor(k)) % U64)
    && (forall w :: w in s.completed ==> w.key in s.m)
  }

  /** Work is dropped only for keys that are absent from a full map. */
  ghost predicate DropsAreFull(capacity: nat, s: State) {
    forall w :: w in s.dropped ==> w.key !in s.m && |s.m| >= capacity
  }

  /** Every event begun is completed, dropped or still in flight, exactly once. */
  ghost predicate Conserved(s: State) {
    forall w :: multiset(s.begun)[w] == multiset(s.completed)[w] + multiset(s.dropped)[w]
      + MapSum.Sum(s.cpus, IsWork(w))
  }

  function PendingFor(key: u64): Pc -> int { (pc: Pc) => if pc.w.key == key then pc.w.delta else 0 }

  /** The same for the amounts. */
  ghost predicate Balanced(s: State) {
    forall k :: MapSum.SeqSum(s.begun, DeltaFor(k)) == MapSum.SeqSum(s.completed, DeltaFor(k))
                + MapSum.SeqSum(s.dropped, DeltaFor(k)) + MapSum.Sum(s.cpus, PendingFor(k))
  }

  ghost predicate Inv(capacity: nat, s: State) {
    && PointersLive(s) && ValuesAreSums(s) && DropsAreFull(capacity, s) && |s.m| <= capacity
    && Conserved(s) && Balanced(s)
  }

  lemma StepKeepsPointers(capacity: nat, s: State, a: Action)
    requires Enabled(s, a) && PointersLive(s)
    ensures PointersLive(Step(capacity, s, a))
  {
    hide Add64;
  }

  lemma AddKeepsValues(s: State, s': State, w: Work)
    requires ValuesAreSums(s) && w.key in s.m
    requires s'.m == s.m[w.key := Add64(s.m[w.key], w.delta)] && s'.completed == s.completed + [w]
    ensures ValuesAreSums(s')
  {
    hide MapSum.SeqSum, Add64;
    forall k | k in s'.m ensures s'.m[k] == MapSum.SeqSum(s'.completed, DeltaFor(k)) % U64 {
      MapSum.SeqAppend(s.completed, w, DeltaFor(k));
      ModularSum(MapSum.SeqSum(s.completed, DeltaFor(k)), w.delta);
    }
  }

  lemma InsertKeepsValues(s: State, s': State, key: u64)
    requires ValuesAreSums(s) && key !in s.m
    requires s'.m == s.m[key := 0] && s'.completed == s.completed
    ensures ValuesAreSums(s')
  {
    hide MapSum.SeqSum;
    MapSum.SeqZero(s.completed, DeltaFor(key));
  }

  lemma StepKeepsValues(capacity: nat, s: State, a: Action)
    requires Enabled(s, a) && PointersLive(s) && ValuesAreSums(s)
    ensures ValuesAreSums(Step(capacity, s, a))
  {
    var s' := Step(capacity, s, a);
    if a.Go? && s.cpus[a.cpu].Add? {
      AddKeepsValues(s, s', s.cpus[a.cpu].w);
    } else if a.Go? && s.cpus[a.cpu].Insert? && s'.m != s.m {
      InsertKeepsValues(s, s', s.cpus[a.cpu].w.key);
    } else {
      assert s'.m == s.m && s'.completed == s.completed;
      hide MapSum.SeqSum, Add64, Step;
    }
  }

  lemma StepKeepsSize(capacity: nat, s: State, a: Action)
    requires Enabled(s, a) && |s.m| <= capacity
    ensures |s.m| <= |Step(capacity, s, a).m| <= capacity
    ensures |s.m| == capacity ==> Step(capacity, s, a).m.Keys == s.m.Keys
  {}

  lemma StepKeepsDrops(capacity: nat, s: State, a: Action)
    requires Enabled(s, a) && PointersLive(s) && DropsAreFull(capacity, s) && |s.m| <= capacity
    ensures DropsAreFull(capacity, Step(capacity, s, a))
  {}

  /** One step moves at most one unit of one piece of work between the histories and the CPUs. */
  lemma StepMoves(capacity: nat, s: State, a: Action, w: Work)
    requires Enabled(s, a) && PointersLive(s)
    ensures var s' := Step(capacity, s, a);
            multiset(s'.begun)[w] - multiset(s'.completed)[w] - multiset(s'.dropped)[w] - MapSum.Sum(s'.cpus, IsWork(w))
            == multiset(s.begun)[w] - multiset(s.completed)[w] - multiset(s.dropped)[w] - MapSum.Sum(s.cpus, IsWork(w))
  {
    hide MapSum.Sum, Add64, TryInit, Fits;
    var s' := Step(capacity, s, a);
    if a.Begin? {
      MapSum.CountAppend(s.begun, a.w, w);
      MapSum.Store(s.cpus, IsWork(w), a.cpu, s'.cpus[a.cpu]);
    } else if a.cpu in s'.cpus {
      MapSum.Store(s.cpus, IsWork(w), a.cpu, s'.cpus[a.cpu]);
    } else {
      MapSum.CountAppend(s.completed, s.cpus[a.cpu].w, w);
      MapSum.CountAppend(s.dropped, s.cpus[a.cpu].w, w);
      MapSum.Remove(s.cpus, IsWork(w), a.cpu);
    }
  }

  lemma StepBalances(capacity: nat, s: State, a: Action, k: u64)
    requires Enabled(s, a) && PointersLive(s)
    ensures var s' := Step(capacity, s, a);
            MapSum.SeqSum(s'.begun, DeltaFor(k)) - MapSum.SeqSum(s'.completed, DeltaFor(k))
            - MapSum.SeqSum(s'.dropped, DeltaFor(k)) - MapSum.Sum(s'.cpus, PendingFor(k))
            == MapSum.SeqSum(s.begun, DeltaFor(k)) - MapSum.SeqSum(s.completed, DeltaFor(k))
               - MapSum.SeqSum(s.dropped, DeltaFor(k)) - MapSum.Sum(s.cpus, PendingFor(k))
  {
    hide MapSum.Sum, MapSum.SeqSum, Add64, TryInit, Fits;
    var s' := Step(capacity, s, a);
    if a.Begin? {
      MapSum.SeqAppend(s.begun, a.w, DeltaFor(k));
      MapSum.Store(s.cpus, PendingFor(k), a.cpu, s'.cpus[a.cpu]);
    } else if a.cpu in s'.cpus {
      assert s'.cpus == s.cpus[a.cpu := s'.cpus[a.cpu]];
      MapSum.Store(s.cpus, PendingFor(k), a.cpu, s'.cpus[a.cpu]);
    } else {
      var w := s.cpus[a.cpu].w;
      MapSum.Remove(s.cpus, PendingFor(k), a.cpu);
      MapSum.SeqAppend(s.completed, w, DeltaFor(k));
      MapSum.SeqAppend(s.dropped, w, DeltaFor(k));
    }
  }

  lemma NextKeepsInvariant(capacity: nat, s: State, a: Action)
    requires Inv(capacity, s)
    ensures Inv(capacity, Next(capacity, s, a))
  {
    hide Step, PointersLive, ValuesAreSums, DropsAreFull, MapSum.Sum, MapSum.SeqSum;
    if Enabled(s, a) {
      StepKeepsPointers(capacity, s, a);
      StepKeepsValues(capacity, s, a);
      StepKeepsSize(capacity, s, a);
      StepKeepsDrops(capacity, s, a);
      forall w { StepMoves(capacity, s, a, w); }
      forall k { StepBalances(capacity, s, a, k); }
    }
  }

  /** Under every interleaving the invariant holds. */
  lemma {:induction false} AlwaysInvariant(capacity: nat, acts: seq<Action>)
    ensures Inv(capacity, Run(capacity, acts))
  {
    hide Next, Inv;
    if acts == [] {
      InitiallyInvariant(capacity);
    } else {
      AlwaysInvariant(capacity, acts[..|acts| - 1]);
      NextKeepsInvariant(capacity, Run(capacity, acts[..|acts| - 1]), acts[|acts| - 1]);
    }
  }

  lemma InitiallyInvariant(capacity: nat)
    ensures Inv(capacity, INITIAL)
  {}

  // ---------- what it means ----------

  /**
   * No increment is lost or reset: with an entry in the map, everything begun for its key and
   * no longer in flight is in its value; without one, none of it was counted and the map is full.
   */
  lemma NoIncrementIsLost(capacity: nat, acts: seq<Action>, w: Work)
    ensures var s := Run(capacity, acts);
            && (w.key in s.m ==>
                  && s.m[w.key] == MapSum.SeqSum(s.completed, DeltaFor(w.key)) % U64
                  && multiset(s.begun)[w] == multiset(s.completed)[w] + MapSum.Sum(s.cpus, IsWork(w)))
            && (w.key !in s.m ==>
                  && multiset(s.begun)[w] == multiset(s.dropped)[w] + MapSum.Sum(s.cpus, IsWork(w))
                  && (multiset(s.dropped)[w] > 0 ==> |s.m| == capacity))
  {
    hide MapSum.SeqSum, MapSum.Sum, Run;
    AlwaysInvariant(capacity, acts);
    var s := Run(capacity, acts);
    assert w in s.dropped <==> multiset(s.dropped)[w] > 0;
    assert w in s.completed <==> multiset(s.completed)[w] > 0;
  }

  /**
   * When every CPU is done, an entry is the sum of all events of its key, and a missing key had all of them
   * dropped.
   */
  lemma QuiescentTotals(capacity: nat, acts: seq<Action>, w: Work)
    requires Run(capacity, acts).cpus == map[]
    ensures var s := Run(capacity, acts);
            && (w.key in s.m ==> s.m[w.key] == MapSum.SeqSum(s.begun, DeltaFor(w.key)) % U64)
            && multiset(s.begun)[w] == if w.key in s.m then multiset(s.completed)[w] else multiset(s.dropped)[w]
  {
    hide MapSum.SeqSum, MapSum.Sum, Run;
    NoIncrementIsLost(capacity, acts, w);
    AlwaysInvariant(capacity, acts);
    var s := Run(capacity, acts);
    MapSum.Zero(s.cpus, IsWork(w));
    MapSum.Zero(s.cpus, PendingFor(w.key));
    if w.key in s.m { MapSum.SeqZero(s.dropped, DeltaFor(w.key)); }
  }

  /** The second lookup cannot miss: the call returns no pointer only when its insert met a full map. */
  lemma SecondLookupSucceeds(capacity: nat, acts: seq<Action>, cpu: nat)
    requires cpu in Run(capacity, acts).cpus && Run(capacity, acts).cpus[cpu].Relookup?
    ensures var s := Run(capacity, acts); Run(capacity, acts + [Go(cpu)]).cpus == s.cpus[cpu := Add(s.cpus[cpu].w)]
  {
    hide MapSum.SeqSum, MapSum.Sum;
    AlwaysInvariant(capacity, acts);
    assert (acts + [Go(cpu)])[..|acts|] == acts;
  }

  // ---------- every call ends ----------

  /** `n` helper calls of one CPU in a row. */
  function GoTimes(capacity: nat, s: State, cpu: nat, n: nat): State
    decreases n
  {
    if n == 0 then s else GoTimes(capacity, Next(capacity, s, Go(cpu)), cpu, n - 1)
  }

  /** How many helper calls are left at most. */
  function Left(pc: Pc): nat {
    match pc
    case Lookup(_) => 4
    case Insert(_) => 3
    case Relookup(_) => 2
    case Add(_) => 1
  }

  /** The entry after an event was counted. */
  function Counted(m: map<u64, u64>, w: Work): map<u64, u64> {
    m[w.key := ((if w.key in m then m[w.key] else 0) + w.delta) % 0x1_0000_0000_0000_0000]
  }

  /** The call of `cpu` is over, and nothing else happened. */
  ghost predicate Over(capacity: nat, s: State, s': State, cpu: nat)
    requires cpu in s.cpus
  {
    var w := s.cpus[cpu].w;
    && s'.cpus == s.cpus - {cpu}
    && s'.m == if w.key in s.m || |s.m| < capacity then Counted(s.m, w) else s.m
  }

  /** The call of `cpu` is nearer to its end, and will come to the same. */
  ghost predicate Nearer(capacity: nat, s: State, s': State, cpu: nat)
    requires cpu in s.cpus
  {
    var w := s.cpus[cpu].w;
    && cpu in s'.cpus && s'.cpus - {cpu} == s.cpus - {cpu} && s'.cpus[cpu].w == w
    && Left(s'.cpus[cpu]) < Left(s.cpus[cpu])
    && (Fits(s'.m, capacity, w.key) <==> Fits(s.m, capacity, w.key))
    && (s'.m == s.m || (w.key !in s.m && s'.m == s.m[w.key := 0]))
  }

  lemma GoProgress(capacity: nat, s: State, cpu: nat)
    requires cpu in s.cpus && PointersLive(s)
    ensures var s' := Next(capacity, s, Go(cpu));
            PointersLive(s') && (if cpu in s'.cpus then Nearer(capacity, s, s', cpu) else Over(capacity, s, s', cpu))
  {
    hide Nearer, Over, Step;
    StepKeepsPointers(capacity, s, Go(cpu));
    if s.cpus[cpu].Insert? {
      InsertProgress(capacity, s, cpu);
    } else if s.cpus[cpu].Add? {
      AddProgress(capacity, s, cpu);
    } else {
      LookupProgress(capacity, s, cpu);
    }
  }

  lemma LookupProgress(capacity: nat, s: State, cpu: nat)
    requires cpu in s.cpus && (s.cpus[cpu].Lookup? || (s.cpus[cpu].Relookup? && s.cpus[cpu].w.key in s.m))
    ensures var s' := Step(capacity, s, Go(cpu)); cpu in s'.cpus && Nearer(capacity, s, s', cpu)
  {}

  lemma InsertProgress(capacity: nat, s: State, cpu: nat)
    requires cpu in s.cpus && s.cpus[cpu].Insert?
    ensures var s' := Step(capacity, s, Go(cpu));
            if cpu in s'.cpus then Nearer(capacity, s, s', cpu) else Over(capacity, s, s', cpu)
  {}

  lemma AddProgress(capacity: nat, s: State, cpu: nat)
    requires cpu in s.cpus && s.cpus[cpu].Add? && s.cpus[cpu].w.key in s.m
    ensures var s' := Step(capacity, s, Go(cpu)); cpu !in s'.cpus && Over(capacity, s, s', cpu)
  {}

  lemma OverSooner(capacity: nat, s: State, s1: State, s': State, cpu: nat)
    requires cpu in s.cpus && Nearer(capacity, s, s1, cpu) && Over(capacity, s1, s', cpu)
    ensures Over(capacity, s, s', cpu)
  {
    hide Left;
    var w := s.cpus[cpu].w;
    if w.key !in s.m { assert Counted(s.m[w.key := 0], w) == Counted(s.m, w); }
  }

  /**
   * A call that is left alone is over after four steps at most. With the key present or room for it, exactly
   * its amount was added to the entry of its key; otherwise the map is as it was. No other call is touched.
   */
  lemma {:induction false} CallEnds(capacity: nat, s: State, cpu: nat, n: nat)
    requires PointersLive(s) && cpu in s.cpus && Left(s.cpus[cpu]) <= n
    ensures Over(capacity, s, GoTimes(capacity, s, cpu, n), cpu)
    decreases n
  {
    hide Next, PointersLive, Over;
    var s1 := Next(capacity, s, Go(cpu));
    GoProgress(capacity, s, cpu);
    if cpu in s1.cpus {
      CallEnds(capacity, s1, cpu, n - 1);
      OverSooner(capacity, s, s1, GoTimes(capacity, s1, cpu, n - 1), cpu);
    } else {
      IdleGoes(capacity, s1, cpu, n - 1);
    }
  }

  lemma {:induction false} IdleGoes(capacity: nat, s: State, cpu: nat, n: nat)
    requires cpu !in s.cpus
    ensures GoTimes(capacity, s, cpu, n) == s
  {
    if n > 0 { IdleGoes(capacity, s, cpu, n - 1); }
  }

  /** From every reachable state, four steps of a busy CPU finish its call. */
  lemma EveryCallEnds(capacity: nat, acts: seq<Action>, cpu: nat)
    requires cpu in Run(capacity, acts).cpus
    ensures var s := Run(capacity, acts);
            var s', w := GoTimes(capacity, s, cpu, 4), s.cpus[cpu].w;
            && s'.cpus == s.cpus - {cpu}
            && s'.m == if w.key in s.m || |s.m| < capacity then Counted(s.m, w) else s.m
  {
    hide Run, GoTimes, Counted;
    AlwaysInvariant(capacity, acts);
    CallEnds(capacity, Run(capacity, acts), cpu, 4);
  }

  /** An idle CPU that takes an event and is then left alone counts it, if there is an entry or room for one. */
  lemma EventIsCounted(capacity: nat, acts: seq<Action>, cpu: nat, w: Work)
    requires cpu !in Run(capacity, acts).cpus
    ensures var s := Run(capacity, acts);
            var s' := GoTimes(capacity, Next(capacity, s, Begin(cpu, w)), cpu, 4);
            && s'.cpus == s.cpus
            && s'.m == if w.key in s.m || |s.m| < capacity then Counted(s.m, w) else s.m
  {
    hide Run, GoTimes, Counted, Inv;
    var s := Run(capacity, acts);
    var s1 := Next(capacity, s, Begin(cpu, w));
    AlwaysInvariant(capacity, acts);
    NextKeepsInvariant(capacity, s, Begin(cpu, w));
    assert PointersLive(s1) by { InvPointers(capacity, s1); }
    CallEnds(capacity, s1, cpu, 4);
    assert s1.cpus - {cpu} == s.cpus;
  }

  lemma InvPointers(capacity: nat, s: State)
    requires Inv(capacity, s)
    ensures PointersLive(s)
  {}
}
