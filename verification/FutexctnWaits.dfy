/**
 * From futex waits to histograms: which waits share an entry, and that at rest each entry holds exactly the
 * waits of its thread (or process), lock and stack that ever began, under every interleaving.
 */
module FutexctnWaits {
  import opened Machine
  import opened BpfMap
  import opened Futexctn
  import opened FutexctnKeys
  import MapSum

  // ---------- every wait that began ----------

  /** The waits whose handler was entered. */
  function Begun(acts: seq<Action>): seq<Work> {
    if acts == [] then []
    else
      var n := |acts| - 1;
      if acts[n].Begin? && acts[n].cpu !in Run(acts[..n]).cpus then Begun(acts[..n]) + [acts[n].w]
      else Begun(acts[..n])
  }

  /** Still looking for its entry. */
  function Early(k: HistKey, f: Field): Pc -> int {
    (pc: Pc) => if pc.w.key == k && !Past(pc) then Amount(pc.w, f) else 0
  }

  ghost function Known(s: State, k: HistKey, f: Field): int {
    MapSum.SeqSum(s.recorded, Due(k, f)) + MapSum.Sum(s.cpus, Early(k, f))
  }

  /** The second lookup follows an insert, and entries are never removed. */
  ghost predicate InsertsStay(s: State) {
    forall c :: c in s.cpus && s.cpus[c].Relookup? ==> s.cpus[c].w.key in s.hists
  }

  predicate HasRoom(s: State, k: HistKey) { k in s.hists || |s.hists| < MAX_ENTRIES }

  lemma StepKeepsInserts(s: State, a: Action)
    requires Valid(s) && InsertsStay(s)
    ensures InsertsStay(Step(s, a))
  {
    hide Touch, Slot, EmptyHist;
  }

  lemma RoomWasThere(s: State, a: Action, k: HistKey)
    requires Valid(s) && HasRoom(Step(s, a), k)
    ensures HasRoom(s, k)
  {
    hide Touch, After, Slot, EmptyHist;
  }

  lemma KnownElsewhere(s: State, a: Action, k: HistKey, f: Field)
    requires Valid(s) && (a.Begin? || a.cpu !in s.cpus)
    ensures Known(Step(s, a), k, f) - Known(s, k, f)
         == if a.Begin? && a.cpu !in s.cpus then Due(k, f)(a.w) else 0
  {
    hide MapSum.Sum, MapSum.SeqSum, Amount;
    if a.Begin? && a.cpu !in s.cpus { MapSum.Store(s.cpus, Early(k, f), a.cpu, Lookup(a.w)); }
  }

  lemma KnownPast(s: State, c: nat, k: HistKey, f: Field)
    requires Valid(s) && c in s.cpus && Past(s.cpus[c])
    ensures Known(Step(s, Go(c)), k, f) == Known(s, k, f)
  {
    hide MapSum.Sum, MapSum.SeqSum, Amount, Touch, Move;
    MoveSum(s.cpus, c, After(s.hists[s.cpus[c].w.key], s.cpus[c]), Early(k, f));
    AfterKeepsWork(s.hists[s.cpus[c].w.key], s.cpus[c]);
  }

  lemma KnownBefore(s: State, c: nat, k: HistKey, f: Field)
    requires Valid(s) && InsertsStay(s) && c in s.cpus && !Past(s.cpus[c]) && HasRoom(s, k)
    ensures Known(Step(s, Go(c)), k, f) == Known(s, k, f)
  {
    hide MapSum.Sum, MapSum.SeqSum, Amount, TryInit;
    var w := s.cpus[c].w;
    MapSum.SeqAppend(s.recorded, w, Due(k, f));
    MoveSum(s.cpus, c, None, Early(k, f));
    MoveSum(s.cpus, c, Some(Insert(w)), Early(k, f));
    MoveSum(s.cpus, c, Some(Relookup(w)), Early(k, f));
    MoveSum(s.cpus, c, Some(AddSlot(w)), Early(k, f));
  }

  lemma KnownMoves(s: State, a: Action, k: HistKey, f: Field)
    requires Valid(s) && InsertsStay(s) && HasRoom(s, k)
    ensures Known(Step(s, a), k, f) - Known(s, k, f)
         == if a.Begin? && a.cpu !in s.cpus then Due(k, f)(a.w) else 0
  {
    hide Step, Known, Due, Valid, InsertsStay;
    if a.Begin? || a.cpu !in s.cpus {
      KnownElsewhere(s, a, k, f);
    } else if Past(s.cpus[a.cpu]) {
      KnownPast(s, a.cpu, k, f);
    } else {
      KnownBefore(s, a.cpu, k, f);
    }
  }

  /** A wait is lost only to a full map without its entry: otherwise it is recorded or still on its way. */
  lemma {:induction false} NoWaitIsLost(acts: seq<Action>, k: HistKey, f: Field)
    ensures InsertsStay(Run(acts))
    ensures HasRoom(Run(acts), k) ==> MapSum.SeqSum(Begun(acts), Due(k, f)) == Known(Run(acts), k, f)
  {
    if acts == [] {
      assert Run(acts) == INITIAL;
    } else {
      hide Step, Known, Due, MapSum.SeqSum, HasRoom, InsertsStay, Valid;
      var n := |acts| - 1;
      var s, a := Run(acts[..n]), acts[n];
      NoWaitIsLost(acts[..n], k, f);
      StepKeepsInserts(s, a);
      if HasRoom(Run(acts), k) {
        RoomWasThere(s, a, k);
        KnownMoves(s, a, k, f);
        if a.Begin? && a.cpu !in s.cpus { MapSum.SeqAppend(Begun(acts[..n]), a.w, Due(k, f)); }
      }
    }
  }

  // ---------- in terms of threads, locks and stacks ----------

  /** Which waits belong together. */
  predicate SameEntry(summary: bool, v: Wait, w: Wait) {
    && v.uaddr == w.uaddr
    && if summary then v.thread / 0x1_0000_0000 == w.thread / 0x1_0000_0000
       else v.thread == w.thread && v.stackId == w.stackId
  }

  /** One key if and only if one thread, lock and stack, or in summary mode one process and lock. */
  lemma SameKeyIff(summary: bool, v: Wait, w: Wait)
    ensures KeyOf(summary, v) == KeyOf(summary, w) <==> SameEntry(summary, v, w)
  {}

  /** The waits whose handler was entered. */
  function Waits(summary: bool, acts: seq<Act>): seq<Wait> {
    if acts == [] then []
    else
      var n := |acts| - 1;
      if acts[n].Start? && acts[n].cpu !in RunOf(summary, acts[..n]).cpus then Waits(summary, acts[..n]) + [acts[n].w]
      else Waits(summary, acts[..n])
  }

  /** What a wait of `delta` adds to a counter. */
  function Contribution(delta: u64, f: Field): nat {
    match f
    case SlotField(i) => if Slot(delta) == i then 1 else 0
    case ContendedField => 1
    case TotalField => delta
  }

  /** The part of the waits that belong with `v`. */
  function Share(summary: bool, v: Wait, f: Field): Wait -> int {
    (w: Wait) => if SameEntry(summary, v, w) then Contribution(w.delta, f) else 0
  }

  lemma {:induction false} BegunAreWaits(summary: bool, acts: seq<Act>, v: Wait, f: Field)
    ensures MapSum.SeqSum(Begun(LiftAll(summary, acts)), Due(KeyOf(summary, v), f))
         == MapSum.SeqSum(Waits(summary, acts), Share(summary, v, f))
  {
    hide MapSum.SeqSum, Run, KeyOf;
    var k := KeyOf(summary, v);
    if acts == [] {
      MapSum.SeqZero(Begun([]), Due(k, f));
      MapSum.SeqZero(Waits(summary, []), Share(summary, v, f));
    } else {
      var n := |acts| - 1;
      var lifted := LiftAll(summary, acts);
      assert lifted[..n] == LiftAll(summary, acts[..n]);
      BegunAreWaits(summary, acts[..n], v, f);
      if acts[n].Start? && acts[n].cpu !in RunOf(summary, acts[..n]).cpus {
        var w := acts[n].w;
        SameKeyIff(summary, v, w);
        MapSum.SeqAppend(Begun(lifted[..n]), lifted[n].w, Due(k, f));
        MapSum.SeqAppend(Waits(summary, acts[..n]), w, Share(summary, v, f));
      }
    }
  }

  /**
   * When all handlers are done, each counter of an entry is what the waits that belong to it add up to, all
   * of them and no others; and a wait has no entry only if the map is full.
   */
  lemma EntryHoldsItsWaits(summary: bool, acts: seq<Act>, v: Wait, f: Field)
    requires RunOf(summary, acts).cpus == map[] && IsField(f)
    ensures var s, k := RunOf(summary, acts), KeyOf(summary, v);
            var sum := MapSum.SeqSum(Waits(summary, acts), Share(summary, v, f));
            && (k in s.hists ==> |s.hists[k].slots| == MAX_SLOTS && Get(s.hists[k], f) == sum % Modulus(f))
            && (k !in s.hists && |s.hists| < MAX_ENTRIES ==> sum == 0)
  {
    hide Run, MapSum.Sum, MapSum.SeqSum, Get, Modulus, KeyOf, Waits, Begun, Share;
    var s, k, lifted := RunOf(summary, acts), KeyOf(summary, v), LiftAll(summary, acts);
    BegunAreWaits(summary, acts, v, f);
    NoWaitIsLost(lifted, k, f);
    MapSum.Zero(s.cpus, Early(k, f));
    if k in s.hists {
      SlotsOf(s, k);
      QuiescentCounters(lifted, k, f);
    } else {
      MapSum.SeqZero(s.recorded, Due(k, f));
    }
  }
}
