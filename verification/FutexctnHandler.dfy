/**
 * One run of futexctn's exit handler: it is over after ten steps, whatever the others have done to the entry,
 * and a run that nothing interrupts leaves in the entry of its key what the wait says.
 */
module FutexctnHandler {
  import opened Machine
  import opened BpfMap
  import opened Futexctn

  /** `n` steps of one CPU in a row. */
  function GoTimes(s: State, cpu: nat, n: nat): (r: State)
    requires Valid(s)
    ensures Valid(r)
    decreases n
  {
    if n == 0 then s
    else
      StepIsValid(s, Go(cpu));
      GoTimes(Step(s, Go(cpu)), cpu, n - 1)
  }

  /** How many steps are left at most. */
  function Left(pc: Pc): nat {
    match pc
    case Lookup(_) => 10
    case Insert(_) => 9
    case Relookup(_) => 8
    case AddSlot(_) => 7
    case AddContended(_) => 6
    case AddTotal(_) => 5
    case ReadMin(_) => 4
    case CasMin(_, _) => 3
    case ReadMax(_) => 2
    case CasMax(_, _) => 1
  }

  /** The entry when the handler is done with it, if nothing else touches it. */
  function Rest(h: Hist, pc: Pc): Hist
    requires Past(pc) && |h.slots| == MAX_SLOTS
    decreases Left(pc)
  {
    match After(h, pc)
    case None => Touch(h, pc)
    case Some(next) => Rest(Touch(h, pc), next)
  }

  /** A wait of `delta` recorded: its slot, the count and the sum grow, and the extremes are widened. */
  function Noted(h: Hist, delta: u64): Hist
    requires |h.slots| == MAX_SLOTS
  {
    Hist(h.slots[Slot(delta) := (h.slots[Slot(delta)] + 1) % U32],
         (h.contended + 1) % U64,
         (h.total + delta) % U64,
         if h.min == 0 || delta < h.min then delta else h.min,
         if delta > h.max then delta else h.max)
  }

  lemma RestOfExtremes(h: Hist, w: Work)
    requires |h.slots| == MAX_SLOTS
    ensures Rest(h, ReadMax(w)) == h.(max := if w.delta > h.max then w.delta else h.max)
    ensures Rest(h, ReadMin(w)) == h.(min := if h.min == 0 || w.delta < h.min then w.delta else h.min,
                                      max := if w.delta > h.max then w.delta else h.max)
  {
    hide Slot;
    assert Rest(h, CasMax(w, h.max)) == Touch(h, CasMax(w, h.max));
    MaxRest(h, w);
    var h' := h.(min := w.delta);
    MaxRest(h', w);
    assert Rest(h, CasMin(w, h.min)) == Rest(h', ReadMax(w));
  }

  lemma MaxRest(h: Hist, w: Work)
    requires |h.slots| == MAX_SLOTS
    ensures Rest(h, ReadMax(w)) == h.(max := if w.delta > h.max then w.delta else h.max)
  {
    assert Rest(h, CasMax(w, h.max)) == Touch(h, CasMax(w, h.max));
  }

  lemma RestStep(h: Hist, pc: Pc, next: Pc)
    requires Past(pc) && |h.slots| == MAX_SLOTS && After(h, pc) == Some(next)
    ensures Rest(h, pc) == Rest(Touch(h, pc), next)
  {}

  lemma Additions(h: Hist, w: Work)
    requires |h.slots| == MAX_SLOTS
    ensures var h3 := Touch(Touch(Touch(h, AddSlot(w)), AddContended(w)), AddTotal(w));
            && |h3.slots| == MAX_SLOTS
            && h3.(min := if h3.min == 0 || w.delta < h3.min then w.delta else h3.min,
                   max := if w.delta > h3.max then w.delta else h3.max) == Noted(h, w.delta)
  {
    hide Slot;
  }

  /** What the seven atomic steps add up to. */
  lemma WholeHandler(h: Hist, w: Work)
    requires |h.slots| == MAX_SLOTS
    ensures Rest(h, AddSlot(w)) == Noted(h, w.delta)
  {
    hide Slot, Rest, Touch, Noted;
    Additions(h, w);
    var h1 := Touch(h, AddSlot(w));
    RestStep(h, AddSlot(w), AddContended(w));
    TouchKeepsSlots(h, AddSlot(w));
    var h2 := Touch(h1, AddContended(w));
    RestStep(h1, AddContended(w), AddTotal(w));
    TouchKeepsSlots(h1, AddContended(w));
    RestStep(h2, AddTotal(w), ReadMin(w));
    RestOfExtremes(Touch(h2, AddTotal(w)), w);
  }

  /** One step brings the handler nearer to its end, and keeps what the entry will be. */
  lemma StepPast(s: State, cpu: nat)
    requires Valid(s) && cpu in s.cpus && Past(s.cpus[cpu])
    ensures var s', pc := Step(s, Go(cpu)), s.cpus[cpu];
            && pc.w.key in s.hists && 1 <= Left(pc)
            && s'.cpus - {cpu} == s.cpus - {cpu}
            && if cpu in s'.cpus then
                 && Past(s'.cpus[cpu]) && s'.cpus[cpu].w == pc.w && Left(s'.cpus[cpu]) < Left(pc)
                 && pc.w.key in s'.hists && |s'.hists[pc.w.key].slots| == MAX_SLOTS
                 && s'.hists[pc.w.key := Rest(s'.hists[pc.w.key], s'.cpus[cpu])]
                    == s.hists[pc.w.key := Rest(s.hists[pc.w.key], pc)]
               else s'.hists == s.hists[pc.w.key := Rest(s.hists[pc.w.key], pc)]
  {
    hide Slot, Touch;
    var pc := s.cpus[cpu];
    var h := s.hists[pc.w.key];
    TouchKeepsSlots(h, pc);
  }

  lemma TouchKeepsSlots(h: Hist, pc: Pc)
    requires Past(pc) && |h.slots| == MAX_SLOTS
    ensures |Touch(h, pc).slots| == MAX_SLOTS
  {}

  lemma {:induction false} IdleGoes(s: State, cpu: nat, n: nat)
    requires Valid(s) && cpu !in s.cpus
    ensures GoTimes(s, cpu, n) == s
  {
    hide Valid;
    if n > 0 { IdleGoes(s, cpu, n - 1); }
  }

  lemma {:induction false} EndsPast(s: State, cpu: nat, n: nat)
    requires Valid(s) && cpu in s.cpus && Past(s.cpus[cpu]) && Left(s.cpus[cpu]) <= n
    ensures var s', pc := GoTimes(s, cpu, n), s.cpus[cpu];
            && pc.w.key in s.hists && s'.cpus == s.cpus - {cpu}
            && s'.hists == s.hists[pc.w.key := Rest(s.hists[pc.w.key], pc)]
    decreases n
  {
    hide Step, Rest, Left, Past;
    StepPast(s, cpu);
    StepIsValid(s, Go(cpu));
    var s1 := Step(s, Go(cpu));
    if cpu in s1.cpus {
      EndsPast(s1, cpu, n - 1);
    } else {
      assert s1.cpus == s.cpus - {cpu};
      IdleGoes(s1, cpu, n - 1);
    }
  }

  /** The steps before there is an entry: to the first atomic step, or out on a full map. */
  lemma StepBefore(s: State, cpu: nat)
    requires Valid(s) && cpu in s.cpus && !Past(s.cpus[cpu])
    ensures var s', pc := Step(s, Go(cpu)), s.cpus[cpu];
            var k := pc.w.key;
            && 8 <= Left(pc) && s'.cpus - {cpu} == s.cpus - {cpu}
            && if cpu in s'.cpus then
                 && Left(s'.cpus[cpu]) < Left(pc) && s'.cpus[cpu].w == pc.w
                 && (s'.hists == s.hists || (k !in s.hists && s'.hists == s.hists[k := EmptyHist()]))
                 && (Past(s'.cpus[cpu]) ==> s'.cpus[cpu] == AddSlot(pc.w))
                 && (pc.Insert? ==> s'.cpus[cpu].Relookup? && k in s'.hists)
               else s'.hists == s.hists && k !in s.hists && (pc.Relookup? || |s.hists| >= 10240)
  {
    hide Slot, EmptyHist;
  }

  /** The entries after a wait was noted in that of its key, a new one starting from zeros, if there is room. */
  ghost predicate Notes(before: map<HistKey, Hist>, after: map<HistKey, Hist>, w: Work) {
    if w.key in before then
      |before[w.key].slots| == MAX_SLOTS && after == before[w.key := Noted(before[w.key], w.delta)]
    else if |before| < 10240 then
      |EmptyHist().slots| == MAX_SLOTS && after == before[w.key := Noted(EmptyHist(), w.delta)]
    else after == before
  }

  /**
   * A handler that runs alone from its first lookup on notes its wait in the entry of its key, a new one
   * starting from zeros; on a full map without that entry it changes nothing. Nobody else is touched.
   */
  lemma HandlerNotes(s: State, cpu: nat)
    requires Valid(s) && cpu in s.cpus && s.cpus[cpu].Lookup?
    ensures var s' := GoTimes(s, cpu, 10);
            s'.cpus == s.cpus - {cpu} && Notes(s.hists, s'.hists, s.cpus[cpu].w)
  {
    hide Step, Notes, Rest, Touch, After, Past, Left, GoTimes;
    var w := s.cpus[cpu].w;
    LookupStep(s, cpu);
    StepIsValid(s, Go(cpu));
    var s1 := Step(s, Go(cpu));
    OneMore(s, cpu, 9);
    assert s1.cpus - {cpu} == s.cpus - {cpu};
    if w.key in s.hists { AtomicNotes(s1, cpu, 9); } else { InsertNotes(s1, cpu); }
  }

  lemma AtomicNotes(s: State, cpu: nat, n: nat)
    requires Valid(s) && cpu in s.cpus && s.cpus[cpu].AddSlot? && n >= 7
    ensures var s', w := GoTimes(s, cpu, n), s.cpus[cpu].w;
            s'.cpus == s.cpus - {cpu} && w.key in s.hists && Notes(s.hists, s'.hists, w)
  {
    hide Rest, Touch, After, GoTimes, Slot, EmptyHist;
    EndsPast(s, cpu, n);
    WholeHandler(s.hists[s.cpus[cpu].w.key], s.cpus[cpu].w);
  }

  lemma OneMore(s: State, cpu: nat, n: nat)
    requires Valid(s)
    ensures Valid(Step(s, Go(cpu))) && GoTimes(s, cpu, n + 1) == GoTimes(Step(s, Go(cpu)), cpu, n)
  {
    StepIsValid(s, Go(cpu));
  }

  lemma LookupStep(s: State, cpu: nat)
    requires Valid(s) && cpu in s.cpus && s.cpus[cpu].Lookup?
    ensures var s', w := Step(s, Go(cpu)), s.cpus[cpu].w;
            && s'.hists == s.hists && s'.cpus == s.cpus[cpu := if w.key in s.hists then AddSlot(w) else Insert(w)]
            && (w.key in s.hists ==> Past(s'.cpus[cpu]) && Left(s'.cpus[cpu]) == 7)
  {
    hide Slot, EmptyHist;
  }

  /** From the insert on. */
  lemma InsertNotes(s: State, cpu: nat)
    requires Valid(s) && cpu in s.cpus && s.cpus[cpu].Insert? && s.cpus[cpu].w.key !in s.hists
    ensures var s' := GoTimes(s, cpu, 9);
            s'.cpus == s.cpus - {cpu} && Notes(s.hists, s'.hists, s.cpus[cpu].w)
  {
    hide Notes, GoTimes;
    if |s.hists| < 10240 { InsertWithRoom(s, cpu); } else { InsertOnFull(s, cpu); }
  }

  lemma InsertWithRoom(s: State, cpu: nat)
    requires Valid(s) && cpu in s.cpus && s.cpus[cpu].Insert? && s.cpus[cpu].w.key !in s.hists && |s.hists| < 10240
    ensures var s' := GoTimes(s, cpu, 9);
            s'.cpus == s.cpus - {cpu} && Notes(s.hists, s'.hists, s.cpus[cpu].w)
  {
    hide *;
    var w := s.cpus[cpu].w;
    InsertStored(s, cpu);
    OneMore(s, cpu, 8);
    var s1 := Step(s, Go(cpu));
    RelookupNotes(s1, cpu);
    NotesInNew(s.hists, s1.hists, GoTimes(s1, cpu, 8).hists, w);
  }

  lemma InsertStored(s: State, cpu: nat)
    requires Valid(s) && cpu in s.cpus && s.cpus[cpu].Insert? && s.cpus[cpu].w.key !in s.hists && |s.hists| < 10240
    ensures var s', w := Step(s, Go(cpu)), s.cpus[cpu].w;
            && cpu in s'.cpus && s'.cpus[cpu] == Relookup(w) && s'.cpus - {cpu} == s.cpus - {cpu}
            && w.key in s'.hists && Made(s.hists, s'.hists, w.key)
  {
    hide Slot, EmptyHist;
  }

  lemma InsertOnFull(s: State, cpu: nat)
    requires Valid(s) && cpu in s.cpus && s.cpus[cpu].Insert? && s.cpus[cpu].w.key !in s.hists && |s.hists| >= 10240
    ensures var s' := GoTimes(s, cpu, 9);
            s'.cpus == s.cpus - {cpu} && Notes(s.hists, s'.hists, s.cpus[cpu].w)
  {
    hide *;
    InsertFails(s, cpu);
    OneMore(s, cpu, 8);
    IdleGoes(Step(s, Go(cpu)), cpu, 8);
    NotesNothing(s.hists, s.cpus[cpu].w);
  }

  lemma RelookupNotes(s: State, cpu: nat)
    requires Valid(s) && cpu in s.cpus && s.cpus[cpu].Relookup? && s.cpus[cpu].w.key in s.hists
    ensures var s' := GoTimes(s, cpu, 8);
            s'.cpus == s.cpus - {cpu} && Notes(s.hists, s'.hists, s.cpus[cpu].w)
  {
    hide Notes, EmptyHist, GoTimes, Step, Valid;
    RelookupStep(s, cpu);
    StepIsValid(s, Go(cpu));
    var s1 := Step(s, Go(cpu));
    OneMore(s, cpu, 7);
    AtomicNotes(s1, cpu, 7);
    assert s1.cpus - {cpu} == s.cpus - {cpu};
  }

  /** `made`: with an empty entry for the key. */
  ghost predicate Made(before: map<HistKey, Hist>, made: map<HistKey, Hist>, key: HistKey) {
    key !in before && |before| < 10240 && made == before[key := EmptyHist()]
  }

  lemma NotesInNew(before: map<HistKey, Hist>, made: map<HistKey, Hist>, after: map<HistKey, Hist>, w: Work)
    requires Made(before, made, w.key) && Notes(made, after, w)
    ensures Notes(before, after, w)
  {
    hide EmptyHist, Noted;
    assert before[w.key := EmptyHist()][w.key := Noted(EmptyHist(), w.delta)]
        == before[w.key := Noted(EmptyHist(), w.delta)];
  }

  lemma NotesNothing(before: map<HistKey, Hist>, w: Work)
    requires w.key !in before && |before| >= 10240
    ensures Notes(before, before, w)
  {}

  lemma InsertFails(s: State, cpu: nat)
    requires Valid(s) && cpu in s.cpus && s.cpus[cpu].Insert? && s.cpus[cpu].w.key !in s.hists && |s.hists| >= 10240
    ensures var s' := Step(s, Go(cpu)); s'.hists == s.hists && s'.cpus == s.cpus - {cpu}
  {
    hide Slot, EmptyHist;
  }

  lemma RelookupStep(s: State, cpu: nat)
    requires Valid(s) && cpu in s.cpus && s.cpus[cpu].Relookup? && s.cpus[cpu].w.key in s.hists
    ensures var s', w := Step(s, Go(cpu)), s.cpus[cpu].w;
            && s'.hists == s.hists && s'.cpus == s.cpus[cpu := AddSlot(w)]
            && Past(s'.cpus[cpu]) && Left(s'.cpus[cpu]) == 7
  {
    hide Slot, EmptyHist;
  }

  /** Wherever it is, a handler ends; the entries of other keys are as they were. */
  lemma {:induction false} HandlerEnds(s: State, cpu: nat, n: nat)
    requires Valid(s) && cpu in s.cpus && Left(s.cpus[cpu]) <= n
    ensures var s' := GoTimes(s, cpu, n);
            && s'.cpus == s.cpus - {cpu}
            && forall k :: k != s.cpus[cpu].w.key ==>
                 (k in s'.hists <==> k in s.hists) && (k in s.hists ==> s'.hists[k] == s.hists[k])
    decreases n
  {
    hide Step, Rest, Past, Valid;
    if Past(s.cpus[cpu]) {
      EndsPast(s, cpu, n);
    } else {
      StepBefore(s, cpu);
      StepIsValid(s, Go(cpu));
      var s1 := Step(s, Go(cpu));
      if cpu in s1.cpus {
        HandlerEnds(s1, cpu, n - 1);
      } else {
        assert s1.cpus == s.cpus - {cpu};
        IdleGoes(s1, cpu, n - 1);
      }
    }
  }

  /** From every reachable state ten steps take a busy CPU out of its handler. */
  lemma EveryHandlerEnds(acts: seq<Action>, cpu: nat)
    requires cpu in Run(acts).cpus
    ensures GoTimes(Run(acts), cpu, 10).cpus == Run(acts).cpus - {cpu}
  {
    hide Run, GoTimes;
    HandlerEnds(Run(acts), cpu, 10);
  }
}
