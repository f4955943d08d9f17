/**
 * futexctn's statistics: many CPUs finish futex waits at once and update one shared histogram
 * per key with atomic adds and single-attempt compare-and-swaps. Each atomic operation and each
 * map call of `futex_exit` is one step; the entry is found or made as in `bpf_map_lookup_or_try_init`.
 */
module Futexctn {
  import opened Machine
  import opened BpfMap
  import opened Bits
  import MapSum

  const MAX_ENTRIES: nat := 10240
  const MAX_SLOTS: nat := 36

  datatype HistKey = HistKey(pidTgid: u64, uaddr: u64, stackId: s32)

  datatype Hist = Hist(slots: seq<u32>, contended: u64, total: u64, min: u64, max: u64)

  /** `initial_hist`. */
  function EmptyHist(): Hist { Hist(Repeat(0, MAX_SLOTS), 0, 0, 0, 0) }

  /** A finished wait: `delta` is already in the unit shown. */
  datatype Work = Work(key: HistKey, delta: u64)

  /** `slot = log2l(delta)`, with the tail in the last slot. */
  function Slot(delta: u64): (i: nat)
    ensures i < MAX_SLOTS
  {
    if FloorLog2(delta) >= MAX_SLOTS then MAX_SLOTS - 1 else FloorLog2(delta)
  }

  datatype Pc =
    | Lookup(w: Work) | Insert(w: Work) | Relookup(w: Work)
    | AddSlot(w: Work) | AddContended(w: Work) | AddTotal(w: Work)
    | ReadMin(w: Work) | CasMin(w: Work, seen: u64)
    | ReadMax(w: Work) | CasMax(w: Work, seen: u64)

  /** `recorded` (waits that got an entry) and `beaten` (waits whose swap of `max` failed) are history. */
  datatype State = State(hists: map<HistKey, Hist>, cpus: map<nat, Pc>, recorded: seq<Work>, beaten: seq<Work>)

  const INITIAL := State(map[], map[], [], [])

  datatype Action = Begin(cpu: nat, w: Work) | Go(cpu: nat)

  predicate Past(pc: Pc) { !(pc.Lookup? || pc.Insert? || pc.Relookup?) }

  /** The entry after the step of a CPU that holds a pointer to it. */
  function Touch(h: Hist, pc: Pc): Hist
    requires Past(pc) && |h.slots| == MAX_SLOTS
  {
    var w := pc.w;
    match pc
    case AddSlot(_) => h.(slots := h.slots[Slot(w.delta) := (h.slots[Slot(w.delta)] + 1) % U32])
    case AddContended(_) => h.(contended := Add64(h.contended, 1))
    case AddTotal(_) => h.(total := Add64(h.total, w.delta))
    case CasMin(_, seen) => if h.min == seen then h.(min := w.delta) else h
    case CasMax(_, seen) => if h.max == seen then h.(max := w.delta) else h
    case _ => h
  }

  /** Where that CPU goes next; None when the handler is done. */
  function After(h: Hist, pc: Pc): Option<Pc>
    requires Past(pc)
  {
    var w := pc.w;
    match pc
    case AddSlot(_) => Some(AddContended(w))
    case AddContended(_) => Some(AddTotal(w))
    case AddTotal(_) => Some(ReadMin(w))
    case ReadMin(_) => Some(if h.min == 0 || h.min > w.delta then CasMin(w, h.min) else ReadMax(w))
    case CasMin(_, _) => Some(ReadMax(w))
    case ReadMax(_) => if h.max < w.delta then Some(CasMax(w, h.max)) else None
    case CasMax(_, _) => None
  }

  function Move(cpus: map<nat, Pc>, cpu: nat, pc: Option<Pc>): map<nat, Pc> {
    match pc
    case Some(p) => cpus[cpu := p]
    case None => cpus - {cpu}
  }

  ghost predicate Valid(s: State) {
    && (forall k :: k in s.hists ==> |s.hists[k].slots| == MAX_SLOTS)
    && (forall c :: c in s.cpus && Past(s.cpus[c]) ==> s.cpus[c].w.key in s.hists && s.cpus[c].w in s.recorded)
    && (forall w :: w in s.recorded ==> w.key in s.hists)
  }

  function Step(s: State, a: Action): State
    requires Valid(s)
  {
    match a
    case Begin(cpu, w) => if cpu in s.cpus then s else s.(cpus := s.cpus[cpu := Lookup(w)])
    case Go(cpu) =>
      if cpu !in s.cpus then s
      else
        var pc, w := s.cpus[cpu], s.cpus[cpu].w;
        if Past(pc) then
          var h := s.hists[w.key];
          State(s.hists[w.key := Touch(h, pc)], Move(s.cpus, cpu, After(h, pc)), s.recorded,
                if pc.CasMax? && h.max != pc.seen then s.beaten + [w] else s.beaten)
        else if pc.Insert? then
          if Fits(s.hists, MAX_ENTRIES, w.key) then
            s.(hists := TryInit(s.hists, MAX_ENTRIES, w.key, EmptyHist()), cpus := s.cpus[cpu := Relookup(w)])
          else s.(cpus := s.cpus - {cpu})
        else if w.key in s.hists then s.(cpus := s.cpus[cpu := AddSlot(w)], recorded := s.recorded + [w])
        else if pc.Lookup? then s.(cpus := s.cpus[cpu := Insert(w)])
        else s.(cpus := s.cpus - {cpu})
  }

  lemma StepIsValid(s: State, a: Action)
    requires Valid(s)
    ensures Valid(Step(s, a))
  {
    hide Slot, Add64;
  }

  /** Every sequence of actions is an interleaving; one that is not enabled changes nothing. */
  function Run(acts: seq<Action>): (s: State)
    ensures Valid(s)
  {
    if acts == [] then INITIAL
    else
      var before := Run(acts[..|acts| - 1]);
      StepIsValid(before, acts[|acts| - 1]);
      Step(before, acts[|acts| - 1])
  }

  // ---------- the counters ----------

  /** A counter of an entry. */
  datatype Field = SlotField(i: nat) | ContendedField | TotalField

  predicate IsField(f: Field) { f.SlotField? ==> f.i < MAX_SLOTS }

  function Modulus(f: Field): nat { if f.SlotField? then U32 else U64 }

  function Get(h: Hist, f: Field): nat
    requires IsField(f) && |h.slots| == MAX_SLOTS
  {
    match f
    case SlotField(i) => h.slots[i]
    case ContendedField => h.contended
    case TotalField => h.total
  }

  /** What a wait adds to a counter in the end. */
  function Amount(w: Work, f: Field): nat {
    match f
    case SlotField(i) => if Slot(w.delta) == i then 1 else 0
    case ContendedField => 1
    case TotalField => w.delta
  }

  function Due(k: HistKey, f: Field): Work -> int { (w: Work) => if w.key == k then Amount(w, f) else 0 }

  /** The CPU has yet to make its addition to the counter. */
  predicate Owes(pc: Pc, f: Field) {
    match f
    case SlotField(_) => pc.AddSlot?
    case ContendedField => pc.AddSlot? || pc.AddContended?
    case TotalField => pc.AddSlot? || pc.AddContended? || pc.AddTotal?
  }

  function Pending(k: HistKey, f: Field): Pc -> int {
    (pc: Pc) => if pc.w.key == k && Owes(pc, f) then Amount(pc.w, f) else 0
  }

  ghost function Expected(s: State, k: HistKey, f: Field): int {
    MapSum.SeqSum(s.recorded, Due(k, f)) - MapSum.Sum(s.cpus, Pending(k, f))
  }

  ghost predicate CountersExact(s: State)
    requires Valid(s)
  {
    forall k, f :: k in s.hists && IsField(f) ==> Get(s.hists[k], f) == Expected(s, k, f) % Modulus(f)
  }

  /** A CPU's step makes exactly the addition by which what it owes shrinks. */
  lemma TouchPays(h: Hist, pc: Pc, f: Field)
    requires Past(pc) && |h.slots| == MAX_SLOTS && IsField(f) && Get(h, f) < Modulus(f)
    ensures var paid := Pending(pc.w.key, f)(pc) - (match After(h, pc) case Some(p) => Pending(pc.w.key,
            f)(p) case None => 0);
            |Touch(h, pc).slots| == MAX_SLOTS && Get(Touch(h, pc), f) == (Get(h, f) + paid) % Modulus(f)
  {
    hide Slot;
  }

  lemma MoveSum(cpus: map<nat, Pc>, cpu: nat, pc: Option<Pc>, weight: Pc -> int)
    requires cpu in cpus
    ensures MapSum.Sum(Move(cpus, cpu, pc), weight)
         == MapSum.Sum(cpus, weight) - weight(cpus[cpu]) + match pc case Some(p) => weight(p) case None => 0
  {
    hide MapSum.Sum;
    match pc
    case Some(p) => MapSum.Store(cpus, weight, cpu, p);
    case None => MapSum.Remove(cpus, weight, cpu);
  }

  lemma ExpectedPast(s: State, c: nat, k: HistKey, f: Field)
    requires Valid(s) && c in s.cpus && Past(s.cpus[c])
    ensures var pc := s.cpus[c];
            Expected(Step(s, Go(c)), k, f) - Expected(s, k, f) ==
              if pc.w.key != k then 0
              else Pending(k, f)(pc) - match After(s.hists[k], pc) case Some(p) => Pending(k, f)(p) case None => 0
  {
    hide MapSum.Sum, MapSum.SeqSum, Amount, Touch, Move;
    MoveSum(s.cpus, c, After(s.hists[s.cpus[c].w.key], s.cpus[c]), Pending(k, f));
    AfterKeepsWork(s.hists[s.cpus[c].w.key], s.cpus[c]);
  }

  lemma ExpectedBefore(s: State, c: nat, k: HistKey, f: Field)
    requires Valid(s) && c in s.cpus && !Past(s.cpus[c])
    ensures Expected(Step(s, Go(c)), k, f) == Expected(s, k, f)
  {
    hide MapSum.Sum, MapSum.SeqSum, Amount, TryInit, Fits;
    var w := s.cpus[c].w;
    MapSum.SeqAppend(s.recorded, w, Due(k, f));
    MoveSum(s.cpus, c, None, Pending(k, f));
    MoveSum(s.cpus, c, Some(Insert(w)), Pending(k, f));
    MoveSum(s.cpus, c, Some(Relookup(w)), Pending(k, f));
    MoveSum(s.cpus, c, Some(AddSlot(w)), Pending(k, f));
  }

  lemma ExpectedElsewhere(s: State, a: Action, k: HistKey, f: Field)
    requires Valid(s) && (a.Begin? || a.cpu !in s.cpus)
    ensures Expected(Step(s, a), k, f) == Expected(s, k, f)
  {
    hide MapSum.Sum, MapSum.SeqSum, Amount;
    if a.Begin? && a.cpu !in s.cpus { MapSum.Store(s.cpus, Pending(k, f), a.cpu, Lookup(a.w)); }
  }

  /** Changes in what is recorded and what is pending, as one CPU moves. */
  lemma ExpectedMoves(s: State, a: Action, k: HistKey, f: Field)
    requires Valid(s)
    ensures var s' := Step(s, a);
            Expected(s', k, f) - Expected(s, k, f) ==
              if a.Go? && a.cpu in s.cpus && Past(s.cpus[a.cpu]) && s.cpus[a.cpu].w.key == k then
                var pc := s.cpus[a.cpu];
                Pending(k, f)(pc) - match After(s.hists[k], pc) case Some(p) => Pending(k, f)(p) case None => 0
              else 0
  {
    hide Step, Expected, Pending;
    if a.Begin? || a.cpu !in s.cpus {
      ExpectedElsewhere(s, a, k, f);
    } else if Past(s.cpus[a.cpu]) {
      ExpectedPast(s, a.cpu, k, f);
    } else {
      ExpectedBefore(s, a.cpu, k, f);
    }
  }

  lemma AfterKeepsWork(h: Hist, pc: Pc)
    requires Past(pc)
    ensures After(h, pc).Some? ==> After(h, pc).value.w == pc.w && Past(After(h, pc).value)
  {}

  lemma EntriesChange(s: State, a: Action, k: HistKey)
    requires Valid(s) && k in Step(s, a).hists
    ensures k !in s.hists ==> Step(s, a).hists[k] == EmptyHist() && a.Go? && a.cpu in s.cpus && !Past(s.cpus[a.cpu])
    ensures k in s.hists ==>
              Step(s, a).hists[k] ==
                if a.Go? && a.cpu in s.cpus && Past(s.cpus[a.cpu]) && s.cpus[a.cpu].w.key == k
                then Touch(s.hists[k], s.cpus[a.cpu]) else s.hists[k]
  {
    hide Touch, After;
  }

  lemma StepKeepsCounter(s: State, a: Action, k: HistKey, f: Field)
    requires Valid(s) && CountersExact(s) && IsField(f) && k in Step(s, a).hists
    ensures |Step(s, a).hists[k].slots| == MAX_SLOTS
    ensures Get(Step(s, a).hists[k], f) == Expected(Step(s, a), k, f) % Modulus(f)
  {
    hide Step, Touch, After, Expected, Pending, Valid;
    EntriesChange(s, a, k);
    ExpectedMoves(s, a, k, f);
    if k !in s.hists {
      NothingExpected(s, k, f);
    } else {
      SlotsOf(s, k);
      assert Get(s.hists[k], f) == Expected(s, k, f) % Modulus(f);
      if a.Go? && a.cpu in s.cpus && Past(s.cpus[a.cpu]) && s.cpus[a.cpu].w.key == k {
        var pc := s.cpus[a.cpu];
        TouchPays(s.hists[k], pc, f);
        ModularShift(Expected(s, k, f), Expected(Step(s, a), k, f) - Expected(s, k, f), Modulus(f));
      }
    }
  }

  lemma SlotsOf(s: State, k: HistKey)
    requires Valid(s) && k in s.hists
    ensures |s.hists[k].slots| == MAX_SLOTS
  {}

  lemma ModularShift(a: int, d: int, m: nat)
    requires m == U32 || m == U64
    ensures (a % m + d) % m == (a + d) % m
  {}

  lemma NothingExpected(s: State, k: HistKey, f: Field)
    requires Valid(s) && k !in s.hists
    ensures Expected(s, k, f) == 0
  {
    hide MapSum.Sum, MapSum.SeqSum, Amount;
    MapSum.SeqZero(s.recorded, Due(k, f));
    MapSum.Zero(s.cpus, Pending(k, f));
  }

  /** Under every interleaving, each counter is what the recorded waits add up to, less what is still in flight. */
  lemma {:induction false} CountersAlwaysExact(acts: seq<Action>)
    ensures CountersExact(Run(acts))
  {
    hide Step, Expected, Get;
    if acts != [] {
      var s, a := Run(acts[..|acts| - 1]), acts[|acts| - 1];
      CountersAlwaysExact(acts[..|acts| - 1]);
      forall k, f | k in Run(acts).hists && IsField(f)
        ensures Get(Run(acts).hists[k], f) == Expected(Run(acts), k, f) % Modulus(f)
      {
        StepKeepsCounter(s, a, k, f);
      }
    }
  }

  /**
   * When all handlers have finished: `contended` is the number of recorded waits of the key, each slot
   * the number whose time falls in it, and `total_elapsed` the sum of their times.
   */
  lemma QuiescentCounters(acts: seq<Action>, k: HistKey, f: Field)
    requires Run(acts).cpus == map[] && k in Run(acts).hists && IsField(f)
    ensures Get(Run(acts).hists[k], f) == MapSum.SeqSum(Run(acts).recorded, Due(k, f)) % Modulus(f)
  {
    hide Run, MapSum.Sum, MapSum.SeqSum, Get, Modulus;
    CountersAlwaysExact(acts);
    MapSum.Zero(Run(acts).cpus, Pending(k, f));
  }

  function SlotBelow(k: HistKey, n: nat): Work -> int { (w: Work) => if w.key == k && Slot(w.delta) < n then 1 else 0 }

  /** The first `n` slots of an entry added up. */
  ghost function SlotSum(h: Hist, n: nat): int
    requires n <= |h.slots|
  {
    if n == 0 then 0 else SlotSum(h, n - 1) + h.slots[n - 1]
  }

  lemma {:induction false} SlotsPartition(acts: seq<Action>, k: HistKey, n: nat)
    requires Run(acts).cpus == map[] && k in Run(acts).hists && n <= MAX_SLOTS
    requires MapSum.SeqSum(Run(acts).recorded, Due(k, ContendedField)) < U32
    ensures SlotSum(Run(acts).hists[k], n) == MapSum.SeqSum(Run(acts).recorded, SlotBelow(k, n))
  {
    hide Run, Slot, MapSum.SeqSum;
    var ws := Run(acts).recorded;
    if n == 0 {
      MapSum.SeqZero(ws, SlotBelow(k, 0));
    } else {
      var slot := Due(k, SlotField(n - 1));
      SlotsPartition(acts, k, n - 1);
      MapSum.SeqCombine(ws, SlotBelow(k, n), SlotBelow(k, n - 1), slot);
      QuiescentCounters(acts, k, SlotField(n - 1));
      NoWrap(ws, k, n - 1);
    }
  }

  lemma {:induction false} NoWrap(ws: seq<Work>, k: HistKey, i: nat)
    ensures 0 <= MapSum.SeqSum(ws, Due(k, SlotField(i))) <= MapSum.SeqSum(ws, Due(k, ContendedField))
  {
    hide Slot;
    if ws != [] { NoWrap(ws[..|ws| - 1], k, i); }
  }

  /** While no slot wraps, the slots hold each wait once: together they make up `contended`. */
  lemma ContendedIsSumOfSlots(acts: seq<Action>, k: HistKey)
    requires Run(acts).cpus == map[] && k in Run(acts).hists
    requires MapSum.SeqSum(Run(acts).recorded, Due(k, ContendedField)) < U32
    ensures SlotSum(Run(acts).hists[k], MAX_SLOTS) == Run(acts).hists[k].contended
  {
    hide Run, Slot, MapSum.SeqSum;
    var ws := Run(acts).recorded;
    SlotsPartition(acts, k, MAX_SLOTS);
    QuiescentCounters(acts, k, ContendedField);
    NoWrap(ws, k, 0);
    MapSum.SeqCombine(ws, Due(k, ContendedField), SlotBelow(k, MAX_SLOTS), Due(k, SlotField(MAX_SLOTS)));
    MapSum.SeqZero(ws, Due(k, SlotField(MAX_SLOTS)));
  }

  /** A slot below the last holds one power-of-two range (the first also holds 0); the last holds the whole tail. */
  lemma SlotIsRange(delta: u64, i: nat)
    requires i < MAX_SLOTS
    ensures Slot(delta) == i <==>
              if i == MAX_SLOTS - 1 then Pow2(i) <= delta
              else (Pow2(i) <= delta < Pow2(i + 1) || (i == 0 && delta == 0))
  {
    hide Pow2;
    if delta > 0 { FloorLog2Iff(delta, i); } else { PowPositive(i); }
  }

  lemma PowPositive(i: nat)
    ensures Pow2(i) >= 1
  {}

  // ---------- the maximum ----------

  function MaxOf(s: State, k: HistKey): u64 { if k in s.hists then s.hists[k].max else 0 }

  /** A recorded wait some occurrence of which did not lose its swap. */
  ghost predicate Unbeaten(s: State, w: Work) { multiset(s.recorded)[w] > multiset(s.beaten)[w] }

  /** A swap is only attempted with a larger value than the one read. */
  ghost predicate SwapsRaise(s: State) {
    forall c :: c in s.cpus && s.cpus[c].CasMax? ==> s.cpus[c].seen < s.cpus[c].w.delta
  }

  function PastOf(w: Work): Pc -> int { (pc: Pc) => if pc.w == w && Past(pc) then 1 else 0 }

  /** The occurrences of a wait that are through with `max` and were not beaten. */
  ghost function Settled(s: State, w: Work): int {
    multiset(s.recorded)[w] - multiset(s.beaten)[w] - MapSum.Sum(s.cpus, PastOf(w))
  }

  /** A nonzero `max` is a settled wait, and settled waits are at most `max`. */
  ghost predicate Ledger(s: State, w: Work) {
    && Settled(s, w) >= (if MaxOf(s, w.key) == w.delta > 0 then 1 else 0)
    && (Settled(s, w) > 0 ==> w.delta <= MaxOf(s, w.key))
  }

  /** The action that swaps `max`, and the one that ends a handler without losing a swap. */
  predicate Swaps(s: State, a: Action)
    requires Valid(s)
  {
    a.Go? && a.cpu in s.cpus && s.cpus[a.cpu].CasMax? && s.hists[s.cpus[a.cpu].w.key].max == s.cpus[a.cpu].seen
  }

  predicate Settles(s: State, a: Action)
    requires Valid(s)
  {
    Swaps(s, a) || (a.Go? && a.cpu in s.cpus && s.cpus[a.cpu].ReadMax?
                    && s.hists[s.cpus[a.cpu].w.key].max >= s.cpus[a.cpu].w.delta)
  }

  lemma MaxMoves(s: State, a: Action, k: HistKey)
    requires Valid(s)
    ensures k in s.hists ==> k in Step(s, a).hists
    ensures MaxOf(Step(s, a), k) == if Swaps(s, a)
            && s.cpus[a.cpu].w.key == k then s.cpus[a.cpu].w.delta else MaxOf(s, k)
  {
    hide Slot, Add64;
  }

  lemma SettledPast(s: State, c: nat, w: Work)
    requires Valid(s) && c in s.cpus && Past(s.cpus[c])
    ensures Settled(Step(s, Go(c)), w) == Settled(s, w) + if Settles(s, Go(c)) && s.cpus[c].w == w then 1 else 0
  {
    hide MapSum.Sum, Touch, Move;
    var pc, own := s.cpus[c], s.cpus[c].w;
    MoveSum(s.cpus, c, After(s.hists[own.key], pc), PastOf(w));
    MapSum.CountAppend(s.beaten, own, w);
  }

  lemma SettledBefore(s: State, c: nat, w: Work)
    requires Valid(s) && c in s.cpus && !Past(s.cpus[c])
    ensures Settled(Step(s, Go(c)), w) == Settled(s, w)
  {
    hide MapSum.Sum, TryInit, Fits;
    var own := s.cpus[c].w;
    MoveSum(s.cpus, c, None, PastOf(w));
    MoveSum(s.cpus, c, Some(Insert(own)), PastOf(w));
    MoveSum(s.cpus, c, Some(Relookup(own)), PastOf(w));
    MoveSum(s.cpus, c, Some(AddSlot(own)), PastOf(w));
    MapSum.CountAppend(s.recorded, own, w);
  }

  lemma SettledElsewhere(s: State, a: Action, w: Work)
    requires Valid(s) && (a.Begin? || a.cpu !in s.cpus)
    ensures Settled(Step(s, a), w) == Settled(s, w)
  {
    hide MapSum.Sum;
    if a.Begin? && a.cpu !in s.cpus { MapSum.Store(s.cpus, PastOf(w), a.cpu, Lookup(a.w)); }
  }

  lemma SettledMoves(s: State, a: Action, w: Work)
    requires Valid(s)
    ensures Settled(Step(s, a), w) == Settled(s, w) + if Settles(s, a) && s.cpus[a.cpu].w == w then 1 else 0
  {
    hide Step, Settled;
    if a.Begin? || a.cpu !in s.cpus {
      SettledElsewhere(s, a, w);
    } else if Past(s.cpus[a.cpu]) {
      SettledPast(s, a.cpu, w);
    } else {
      SettledBefore(s, a.cpu, w);
    }
  }

  lemma StepKeepsSwaps(s: State, a: Action)
    requires Valid(s) && SwapsRaise(s)
    ensures SwapsRaise(Step(s, a))
  {
    hide Touch;
  }

  lemma StepKeepsLedger(s: State, a: Action, w: Work)
    requires Valid(s) && SwapsRaise(s) && Ledger(s, w)
    ensures Ledger(Step(s, a), w)
  {
    hide Step, Settled;
    MaxMoves(s, a, w.key);
    SettledMoves(s, a, w);
  }

  lemma {:induction false} AlwaysLedger(acts: seq<Action>, w: Work)
    ensures SwapsRaise(Run(acts)) && Ledger(Run(acts), w)
  {
    hide Step, Ledger, SwapsRaise, Valid;
    if acts == [] {
      LedgerInitially(w);
    } else {
      var s, a := Run(acts[..|acts| - 1]), acts[|acts| - 1];
      AlwaysLedger(acts[..|acts| - 1], w);
      StepKeepsSwaps(s, a);
      StepKeepsLedger(s, a, w);
    }
  }

  lemma LedgerInitially(w: Work)
    ensures SwapsRaise(INITIAL) && Ledger(INITIAL, w)
  {}

  ghost predicate InFlight(s: State, w: Work) { exists c :: c in s.cpus && s.cpus[c].w == w && Past(s.cpus[c]) }

  /**
   * Under every interleaving, `max` is 0 or the time of a recorded wait, and it covers every finished
   * wait except those whose swap another CPU beat.
   */
  lemma MaxAlwaysObserved(acts: seq<Action>, w: Work)
    ensures var s := Run(acts);
            && (MaxOf(s, w.key) != 0 ==> Unbeaten(s, Work(w.key, MaxOf(s, w.key))))
            && (Unbeaten(s, w) && !InFlight(s, w) ==> w.delta <= MaxOf(s, w.key))
  {
    hide Run, MapSum.Sum;
    var s := Run(acts);
    var top := Work(w.key, MaxOf(s, w.key));
    AlwaysLedger(acts, w);
    AlwaysLedger(acts, top);
    MapSum.NonNegative(s.cpus, PastOf(top));
    if !InFlight(s, w) { MapSum.Zero(s.cpus, PastOf(w)); }
  }

  /** `max` never decreases. */
  lemma MaxNeverDecreases(acts: seq<Action>, a: Action, k: HistKey)
    requires k in Run(acts).hists
    ensures k in Run(acts + [a]).hists && Run(acts).hists[k].max <= Run(acts + [a]).hists[k].max
  {
    hide Step, Valid;
    AlwaysLedger(acts, Work(k, 0));
    MaxMoves(Run(acts), a, k);
    assert (acts + [a])[..|acts|] == acts;
  }

  /** Once all handlers are done, `max` is the largest recorded wait that was not beaten, or 0 if there is none. */
  lemma QuiescentMaxIsLargestUnbeaten(acts: seq<Action>, k: HistKey)
    requires Run(acts).cpus == map[]
    ensures var s := Run(acts);
            && (forall w: Work :: w.key == k && Unbeaten(s, w) ==> w.delta <= MaxOf(s, k))
            && (MaxOf(s, k) == 0 || Unbeaten(s, Work(k, MaxOf(s, k))))
  {
    hide Run, Unbeaten;
    MaxAlwaysObserved(acts, Work(k, 0));
    forall w: Work | w.key == k && Unbeaten(Run(acts), w) ensures w.delta <= MaxOf(Run(acts), k) {
      MaxAlwaysObserved(acts, w);
    }
  }

  /** Every positive wait of the key is matched by an unbeaten one that is as long. */
  ghost predicate SomeLongestUnbeaten(s: State, k: HistKey) {
    forall w :: w in s.recorded && w.key == k && w.delta > 0 ==>
      exists v: Work :: v.key == k && v.delta >= w.delta && Unbeaten(s, v)
  }

  /** So it is the true maximum exactly when some longest wait of the key was not beaten. */
  lemma QuiescentMaxIsTrueIff(acts: seq<Action>, k: HistKey)
    requires Run(acts).cpus == map[]
    ensures var s := Run(acts);
            (forall w :: w in s.recorded && w.key == k ==> w.delta <= MaxOf(s, k)) <==> SomeLongestUnbeaten(s, k)
  {
    hide Run, Unbeaten;
    QuiescentMaxIsLargestUnbeaten(acts, k);
    var s := Run(acts);
    if forall w :: w in s.recorded && w.key == k ==> w.delta <= MaxOf(s, k) {
      forall w | w in s.recorded && w.key == k && w.delta > 0
        ensures exists v: Work :: v.key == k && v.delta >= w.delta && Unbeaten(s, v)
      {
        assert Unbeaten(s, Work(k, MaxOf(s, k)));
      }
    }
  }

  // ---------- a race ----------

  /**
   * Two handlers that read `max` before either swaps: the one that swaps second is beaten, even with the
   * larger time.
   */
  lemma SecondSwapIsBeaten(acts: seq<Action>, c: nat, d: nat, k: HistKey, large: u64, small: u64)
    requires c != d && MaxOf(Run(acts), k) < small < large
    requires var cpus := Run(acts).cpus;
             c in cpus && cpus[c] == ReadMax(Work(k, large)) && d in cpus && cpus[d] == ReadMax(Work(k, small))
    ensures var s := Run(acts + [Go(c)] + [Go(d)] + [Go(d)] + [Go(c)]);
            && s.cpus == Run(acts).cpus - {c} - {d} && s.recorded == Run(acts).recorded
            && Work(k, large) in s.recorded && MaxOf(s, k) == small
  {
    hide Slot, Run, Add64;
    var s, m := Run(acts), MaxOf(Run(acts), k);
    Extend(acts, Go(c));
    var s1 := Run(acts + [Go(c)]);
    assert s1.cpus == s.cpus[c := CasMax(Work(k, large), m)] && MaxOf(s1, k) == m && s1.recorded == s.recorded;
    Extend(acts + [Go(c)], Go(d));
    var s2 := Run(acts + [Go(c)] + [Go(d)]);
    assert s2.cpus == s1.cpus[d := CasMax(Work(k, small), m)] && MaxOf(s2, k) == m && s2.recorded == s.recorded;
    Extend(acts + [Go(c)] + [Go(d)], Go(d));
    var s3 := Run(acts + [Go(c)] + [Go(d)] + [Go(d)]);
    assert s3.cpus == s2.cpus - {d} && MaxOf(s3, k) == small && s3.recorded == s.recorded;
    Extend(acts + [Go(c)] + [Go(d)] + [Go(d)], Go(c));
  }

  lemma Extend(acts: seq<Action>, a: Action)
    ensures Run(acts + [a]) == Step(Run(acts), a)
  {
    hide Step;
    assert (acts + [a])[..|acts|] == acts;
  }

  /** How far a handler is from reading `max`. */
  function Distance(pc: Pc): nat {
    match pc
    case Lookup(_) => 8
    case Insert(_) => 7
    case Relookup(_) => 6
    case AddSlot(_) => 5
    case AddContended(_) => 4
    case AddTotal(_) => 3
    case ReadMin(_) => 2
    case CasMin(_, _) => 1
    case _ => 0
  }

  ghost predicate OnlyGo(acts: seq<Action>) { forall i :: 0 <= i < |acts| ==> acts[i].Go? }

  /** Left alone, a handler gets to read `max`, and changes no maximum on the way. */
  lemma {:induction false} GetsToReadMax(acts: seq<Action>, c: nat) returns (gos: seq<Action>)
    requires c in Run(acts).cpus && !Run(acts).cpus[c].CasMax?
    requires Fits(Run(acts).hists, MAX_ENTRIES, Run(acts).cpus[c].w.key)
    requires Run(acts).cpus[c].Relookup? ==> Run(acts).cpus[c].w.key in Run(acts).hists
    ensures OnlyGo(gos) && Run(acts + gos).cpus == Run(acts).cpus[c := ReadMax(Run(acts).cpus[c].w)]
    ensures forall k :: MaxOf(Run(acts + gos), k) == MaxOf(Run(acts), k)
    ensures Run(acts).cpus[c].w.key in Run(acts + gos).hists
    decreases Distance(Run(acts).cpus[c])
  {
    hide Run, Slot, Add64;
    if Run(acts).cpus[c].ReadMax? {
      gos := [];
      assert acts + gos == acts;
    } else {
      Extend(acts, Go(c));
      forall k ensures MaxOf(Run(acts + [Go(c)]), k) == MaxOf(Run(acts), k) { MaxMoves(Run(acts), Go(c), k); }
      var rest := GetsToReadMax(acts + [Go(c)], c);
      gos := [Go(c)] + rest;
      assert acts + gos == acts + [Go(c)] + rest;
    }
  }

  /** Waits of the given two lengths were recorded, nothing is in flight, and the shorter is shown as the maximum. */
  ghost predicate ShowsTheShorter(s: State, k: HistKey, large: u64, small: u64) {
    s.cpus == map[] && Work(k, large) in s.recorded && k in s.hists && MaxOf(s, k) == small < large
  }

  /** Two handlers that start with the empty map can be scheduled so that the shorter wait is shown as the maximum. */
  lemma RaceRun(k: HistKey, large: u64, small: u64) returns (gos: seq<Action>)
    requires 0 < small < large
    ensures OnlyGo(gos)
    ensures ShowsTheShorter(Run([Begin(0, Work(k, large)), Begin(1, Work(k, small))] + gos), k, large, small)
  {
    hide Run, ShowsTheShorter;
    var begun := [Begin(0, Work(k, large)), Begin(1, Work(k, small))];
    var both := BothGetToReadMax(Work(k, large), Work(k, small));
    BothRead(begun + both, k, large, small);
    gos := both + [Go(0), Go(1), Go(1), Go(0)];
    assert begun + gos == begun + both + [Go(0)] + [Go(1)] + [Go(1)] + [Go(0)];
  }

  lemma BothGetToReadMax(a: Work, b: Work) returns (gos: seq<Action>)
    requires a.key == b.key
    ensures OnlyGo(gos)
    ensures var s := Run([Begin(0, a), Begin(1, b)] + gos);
            MaxOf(s, a.key) == 0 && s.cpus.Keys == {0, 1} && s.cpus[0] == ReadMax(a) && s.cpus[1] == ReadMax(b)
  {
    hide Run, Valid;
    var begun := [Begin(0, a), Begin(1, b)];
    TwoBegun(a, b);
    var first := GetsToReadMax(begun, 0);
    assert Run(begun + first).cpus == map[0 := ReadMax(a), 1 := Lookup(b)];
    var second := GetsToReadMax(begun + first, 1);
    gos := first + second;
    assert begun + gos == begun + first + second;
  }

  /** For any key and any two positive lengths, some run on two CPUs ends with the shorter shown as the maximum. */
  lemma RaceLosesTheMaximum(k: HistKey, large: u64, small: u64)
    requires 0 < small < large
    ensures exists acts :: ShowsTheShorter(Run(acts), k, large, small)
  {
    hide Run;
    var gos := RaceRun(k, large, small);
    var acts := [Begin(0, Work(k, large)), Begin(1, Work(k, small))] + gos;
    assert ShowsTheShorter(Run(acts), k, large, small);
  }

  lemma BothRead(acts: seq<Action>, k: HistKey, large: u64, small: u64)
    requires MaxOf(Run(acts), k) < small < large
    requires var cpus := Run(acts).cpus;
             cpus.Keys == {0, 1} && cpus[0] == ReadMax(Work(k, large)) && cpus[1] == ReadMax(Work(k, small))
    ensures ShowsTheShorter(Run(acts + [Go(0)] + [Go(1)] + [Go(1)] + [Go(0)]), k, large, small)
  {
    hide Run, Step, Valid;
    SecondSwapIsBeaten(acts, 0, 1, k, large, small);
    var acts' := acts + [Go(0)] + [Go(1)] + [Go(1)] + [Go(0)];
    assert Run(acts').cpus == map[];
    HasEntry(Run(acts'), Work(k, large));
  }

  lemma HasEntry(s: State, w: Work)
    requires Valid(s) && w in s.recorded
    ensures w.key in s.hists
  {}

  lemma TwoBegun(a: Work, b: Work)
    ensures Run([Begin(0, a), Begin(1, b)]) == INITIAL.(cpus := map[0 := Lookup(a), 1 := Lookup(b)])
  {
    Extend([], Begin(0, a));
    assert [] + [Begin(0, a)] == [Begin(0, a)];
    Extend([Begin(0, a)], Begin(1, b));
    assert [Begin(0, a)] + [Begin(1, b)] == [Begin(0, a), Begin(1, b)];
  }

  // ---------- handlers that do not overlap ----------

  /** No two handlers of one key are in flight together. */
  ghost predicate Exclusive(s: State) {
    forall c, d :: c in s.cpus && d in s.cpus && c != d ==> s.cpus[c].w.key != s.cpus[d].w.key
  }

  ghost predicate AlwaysExclusive(acts: seq<Action>) { forall n :: 0 <= n <= |acts| ==> Exclusive(Run(acts[..n])) }

  ghost predicate ReadsFresh(s: State)
    requires Valid(s)
  {
    forall c :: c in s.cpus && s.cpus[c].CasMax? ==> s.cpus[c].seen == s.hists[s.cpus[c].w.key].max
  }

  lemma StepStaysFresh(s: State, a: Action)
    requires Valid(s) && Valid(Step(s, a)) && Exclusive(s) && ReadsFresh(s)
    ensures ReadsFresh(Step(s, a)) && Step(s, a).beaten == s.beaten
  {
    hide Slot, Add64;
  }

  lemma {:induction false} ExclusiveNeverBeaten(acts: seq<Action>)
    requires AlwaysExclusive(acts)
    ensures ReadsFresh(Run(acts)) && Run(acts).beaten == []
  {
    hide Step, Valid, Exclusive, ReadsFresh;
    if acts == [] {
      FreshInitially();
    } else {
      var n := |acts| - 1;
      assert forall i :: 0 <= i <= n ==> acts[..n][..i] == acts[..i];
      ExclusiveNeverBeaten(acts[..n]);
      StepIsValid(Run(acts[..n]), acts[n]);
      StepStaysFresh(Run(acts[..n]), acts[n]);
    }
  }

  lemma FreshInitially()
    ensures Valid(INITIAL) && ReadsFresh(INITIAL)
  {}

  /** If handlers of one key never overlap, `max` is the true maximum of the recorded waits. */
  lemma MaxIsTrueWithoutOverlap(acts: seq<Action>, k: HistKey)
    requires AlwaysExclusive(acts) && Run(acts).cpus == map[]
    ensures var s := Run(acts); forall w :: w in s.recorded && w.key == k ==> w.delta <= MaxOf(s, k)
  {
    hide Run;
    ExclusiveNeverBeaten(acts);
    QuiescentMaxIsLargestUnbeaten(acts, k);
    assert forall w :: w in Run(acts).recorded ==> Unbeaten(Run(acts), w);
  }
}
