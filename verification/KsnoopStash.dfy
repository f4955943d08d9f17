/**
 * What ksnoop's trace records guarantee: the values asked for are packed back to back and each
 * descriptor delimits its own, but for a sixth one after five of full size; the buffer-full break
 * never skips a predicate; and in stash mode an event is emitted at return exactly when every
 * predicate of both sides holds.
 */
module KsnoopStash {
  import opened Machine
  import opened BpfMap
  import opened KsnoopPredicate
  import opened KsnoopTrace

  // ---------- packing ----------

  /** A value captured for item `item`. */
  datatype Rec = Rec(item: nat, bytes: Bytes)

  function Flat(recs: seq<Rec>): Bytes {
    if recs == [] then [] else Flat(recs[..|recs| - 1]) + recs[|recs| - 1].bytes
  }

  /**
   * The buffer is the concatenation of the captures in recording order; the descriptor of each
   * captured item is its place in it, and other descriptors are empty.
   */
  ghost predicate Packs(l: Live, recs: seq<Rec>) {
    && ValidLive(l)
    && l.buf[..l.bufLen] == Flat(recs)
    && (forall k :: 0 <= k < |recs| ==> Placed(l, recs, k))
    && (forall j, k :: 0 <= j < k < |recs| ==> recs[j].item != recs[k].item)
    && (forall i :: 0 <= i < MAX_TRACES && !Has(recs, i) ==> l.data[i].bufLen == 0)
  }

  ghost predicate Placed(l: Live, recs: seq<Rec>, k: nat)
    requires k < |recs| && ValidLive(l)
  {
    && recs[k].item < MAX_TRACES && |recs[k].bytes| <= MAX_TRACE_DATA
    && l.data[recs[k].item].bufOffset == |Flat(recs[..k])|
    && l.data[recs[k].item].bufLen == |recs[k].bytes|
  }

  ghost predicate Has(recs: seq<Rec>, i: nat) { exists k :: 0 <= k < |recs| && recs[k].item == i }

  /** What one item adds to the buffer. */
  function Captured(it: Item, c: Context, i: nat): seq<Rec>
    requires it.baseArg < |c.args|
  {
    match Fetch(it, c)
    case Fault => []
    case Fetched(data, _) =>
      match Capture(it, c, data)
      case None => []
      case Some(b) => [Rec(i, b)]
  }

  lemma FlatAppend(recs: seq<Rec>, r: Rec)
    ensures Flat(recs + [r]) == Flat(recs) + r.bytes
  {}

  lemma HasAppend(recs: seq<Rec>, r: Rec, j: nat)
    ensures Has(recs + [r], j) <==> Has(recs, j) || r.item == j
  {
    var recs' := recs + [r];
    assert recs'[|recs|] == r;
    if k :| 0 <= k < |recs| && recs[k].item == j { assert recs'[k].item == j; }
  }

  lemma AppendPacks(l: Live, recs: seq<Rec>, i: nat, b: Bytes, d: Data)
    requires Packs(l, recs) && i < MAX_TRACES && !Has(recs, i)
    requires |b| <= MAX_TRACE_DATA && l.bufLen + |b| <= MAX_TRACE_BUF
    requires d.bufOffset == l.bufLen && d.bufLen == |b|
    ensures Packs(Live(l.flags, l.data[i := d], l.bufLen + |b|, Write(l.buf, l.bufLen, b)), recs + [Rec(i, b)])
  {
    hide Flat;
    var l' := Live(l.flags, l.data[i := d], l.bufLen + |b|, Write(l.buf, l.bufLen, b));
    var recs' := recs + [Rec(i, b)];
    FlatAppend(recs, Rec(i, b));
    assert l'.buf[..l'.bufLen] == l.buf[..l.bufLen] + b;
    forall k | 0 <= k < |recs'| ensures Placed(l', recs', k) {
      assert recs'[..k] == recs[..k];
      if k < |recs| { assert Placed(l, recs, k) && recs[k].item != i; } else { assert recs[..k] == recs; }
    }
    forall j | 0 <= j < MAX_TRACES && !Has(recs', j) ensures l'.data[j].bufLen == 0 {
      HasAppend(recs, Rec(i, b), j);
    }
  }

  lemma TouchPacks(l: Live, recs: seq<Rec>, i: nat, d: Data)
    requires Packs(l, recs) && i < MAX_TRACES && !Has(recs, i) && d.bufLen == 0
    ensures Packs(l.(data := l.data[i := d]), recs)
  {
    hide Flat;
    var l' := l.(data := l.data[i := d]);
    forall k | 0 <= k < |recs| ensures Placed(l', recs, k) { assert Placed(l, recs, k) && recs[k].item != i; }
  }

  lemma TakePacks(it: Item, c: Context, l: Live, i: nat, recs: seq<Rec>)
    requires it.baseArg < |c.args| && ValidContext(c) && i < MAX_TRACES && Packs(l, recs) && !Has(recs, i)
    ensures var (l', next) := Take(it, c, l, i);
            Packs(l', if next.Continue? then recs + Captured(it, c, i) else recs)
  {
    hide Packs, Passes, Fetch, Write;
    ValidFromPacks(l, recs);
    assert recs + [] == recs;
    var f := Fetch(it, c);
    if f.Fault? {
      TouchPacks(l, recs, i, BLANK.(err := true));
    } else if !Passes(it.test, f.raw, it.value) || l.bufLen + MAX_TRACE_DATA >= MAX_TRACE_BUF {
      TouchPacks(l, recs, i, BLANK.(raw := f.raw));
    } else {
      match Capture(it, c, f.data)
      case None => TouchPacks(l, recs, i, Data(f.raw, true, l.bufLen, 0));
      case Some(b) => AppendPacks(l, recs, i, b, Data(f.raw, false, l.bufLen, |b|));
    }
  }

  lemma ValidFromPacks(l: Live, recs: seq<Rec>)
    requires Packs(l, recs)
    ensures ValidLive(l)
  {}

  // ---------- the break ----------

  lemma {:induction false} FlatBound(recs: seq<Rec>)
    requires forall k :: 0 <= k < |recs| ==> |recs[k].bytes| <= MAX_TRACE_DATA
    ensures |Flat(recs)| <= MAX_TRACE_DATA * |recs|
    ensures |Flat(recs)| == MAX_TRACE_DATA * |recs|
            <==> forall k :: 0 <= k < |recs| ==> |recs[k].bytes| == MAX_TRACE_DATA
  {
    if recs != [] {
      var n := |recs| - 1;
      FlatBound(recs[..n]);
      if |Flat(recs[..n])| == MAX_TRACE_DATA * n && |recs[n].bytes| == MAX_TRACE_DATA {
        forall k | 0 <= k < |recs| ensures |recs[k].bytes| == MAX_TRACE_DATA {
          assert k < n ==> recs[k] == recs[..n][k];
        }
      }
    }
  }

  lemma {:induction false} ItemSet(recs: seq<Rec>)
    requires forall j, k :: 0 <= j < k < |recs| ==> recs[j].item != recs[k].item
    ensures |set k | 0 <= k < |recs| :: recs[k].item| == |recs|
  {
    var items := set k | 0 <= k < |recs| :: recs[k].item;
    if recs != [] {
      var n := |recs| - 1;
      ItemSet(recs[..n]);
      var front := set k | 0 <= k < n :: recs[..n][k].item;
      assert items == front + {recs[n].item};
    } else {
      assert items == {};
    }
  }

  /** When the buffer is too full for another item, all five others have been captured. */
  lemma BreakMeansLast(l: Live, recs: seq<Rec>, i: nat, j: nat)
    requires Packs(l, recs) && i < MAX_TRACES && !Has(recs, i)
    requires l.bufLen + MAX_TRACE_DATA >= MAX_TRACE_BUF
    requires j < MAX_TRACES && j != i
    ensures Has(recs, j)
  {
    hide Flat;
    assert |l.buf[..l.bufLen]| == l.bufLen;
    forall k | 0 <= k < |recs|
      ensures |recs[k].bytes| <= MAX_TRACE_DATA && recs[k].item < MAX_TRACES
    {
      assert Placed(l, recs, k);
    }
    FlatBound(recs);
    ItemSet(recs);
    if !Has(recs, j) {
      AllButTwo(set k | 0 <= k < |recs| :: recs[k].item, MAX_TRACES, i, j);
      assert false;
    }
  }

  lemma AllButTwo(items: set<nat>, n: nat, i: nat, j: nat)
    requires i < n && j < n && i != j
    requires forall k :: k in items ==> k < n && k != i && k != j
    ensures |items| <= n - 2
  {
    Subset(items, Below(n) - {i} - {j});
  }

  ghost function Below(n: nat): (s: set<nat>)
    ensures |s| == n && forall k: nat :: k in s <==> k < n
  {
    if n == 0 then {} else Below(n - 1) + {n - 1}
  }

  // ---------- the loop ----------

  /** Nothing is recorded yet for the items of this side from `i` on. */
  ghost predicate NotYet(sp: Spec, entry: bool, recs: seq<Rec>, i: nat)
    requires ValidSpec(sp)
  {
    forall j :: i <= j < MAX_TRACES && Eligible(sp.items[j], entry) ==> !Has(recs, j)
  }

  /** The values asked for on this side from item `i` on, as far as they can be read. */
  function Wanted(sp: Spec, c: Context, entry: bool, i: nat): seq<Rec>
    requires ValidSpec(sp) && |c.args| == MAX_TRACES && i <= MAX_TRACES
    decreases MAX_TRACES - i
  {
    if i == MAX_TRACES then []
    else (if Eligible(sp.items[i], entry) then Captured(sp.items[i], c, i) else []) + Wanted(sp, c, entry, i + 1)
  }

  /** Six values of which the first five have full size: the buffer would just hold them all. */
  predicate FillsBuffer(recs: seq<Rec>) {
    |recs| == MAX_TRACES && forall k :: 0 <= k < MAX_TRACES - 1 ==> |recs[k].bytes| == MAX_TRACE_DATA
  }

  /** What of them is kept: all, except that the last of six is dropped when it would fill the buffer. */
  function Kept(recs: seq<Rec>): seq<Rec> { if FillsBuffer(recs) then recs[..MAX_TRACES - 1] else recs }

  /**
   * From `i` on, every predicate of this side that can be evaluated holds. A faulting pointer read skips its
   * predicate.
   */
  ghost predicate AllHold(sp: Spec, c: Context, entry: bool, i: nat)
    requires ValidSpec(sp) && |c.args| == MAX_TRACES
  {
    forall j :: i <= j < MAX_TRACES && Eligible(sp.items[j], entry) ==> Holds(sp.items[j], c)
  }

  predicate Holds(it: Item, c: Context)
    requires it.baseArg < |c.args|
  {
    var f := Fetch(it, c);
    f.Fetched? ==> Passes(it.test, f.raw, it.value)
  }

  /** Some item of this side from `i` on captures at least one byte. */
  ghost predicate CapturesSome(sp: Spec, c: Context, entry: bool, i: nat)
    requires ValidSpec(sp) && |c.args| == MAX_TRACES
  {
    exists j :: i <= j < MAX_TRACES && Eligible(sp.items[j], entry) && Flat(Captured(sp.items[j], c, j)) != []
  }

  lemma CapturedNotYet(sp: Spec, c: Context, entry: bool, recs: seq<Rec>, i: nat)
    requires ValidSpec(sp) && |c.args| == MAX_TRACES && i < MAX_TRACES && NotYet(sp, entry, recs, i)
    ensures NotYet(sp, entry, recs, i + 1) && NotYet(sp, entry, recs + Captured(sp.items[i], c, i), i + 1)
  {}

  /**
   * From any packed state in which this side has recorded nothing, the loop accepts exactly when all its
   * predicates hold: leaving it on a full buffer skips none. If it accepts, what was recorded and the
   * values asked for are packed in order, but for a sixth that would fill the buffer.
   */
  lemma {:induction false} LoopPacksAndDecides(sp: Spec, c: Context, entry: bool, l: Live, i: nat, recs: seq<Rec>)
    requires ValidSpec(sp) && ValidContext(c) && i <= MAX_TRACES && Packs(l, recs) && ValidLive(l)
             && NotYet(sp, entry, recs, i)
    requires !FillsBuffer(recs)
    ensures Collect(sp, c, entry, l, i).1 <==> AllHold(sp, c, entry, i)
    ensures Collect(sp, c, entry, l, i).1 ==> Packs(Collect(sp, c, entry, l, i).0, Kept(recs + Wanted(sp, c, entry, i)))
    decreases MAX_TRACES - i
  {
    hide Packs, NotYet, Take, Captured, Eligible, Holds, FillsBuffer, Kept, Wanted, AllHold;
    if i == MAX_TRACES {
      LoopEnds(sp, c, entry, recs);
    } else {
      var it := sp.items[i];
      CapturedNotYet(sp, c, entry, recs, i);
      OneMoreItem(sp, c, entry, recs, i);
      if !Eligible(it, entry) {
        LoopPacksAndDecides(sp, c, entry, l, i + 1, recs);
      } else {
        NotYetHere(sp, entry, recs, i);
        TakeIsValid(it, c, l, i);
        TakePacks(it, c, l, i, recs);
        TakeDecides(it, c, l, i);
        var (l', next) := Take(it, c, l, i);
        if next.Continue? {
          TakeHadRoom(it, c, l, i, recs);
          LoopPacksAndDecides(sp, c, entry, l', i + 1, recs + Captured(it, c, i));
        } else if next.Break? {
          BreakLeavesNone(sp, entry, l, recs, i);
          NothingAfter(sp, c, entry, recs + Captured(it, c, i), i + 1);
          BreakKeeps(it, c, l, i, recs);
        }
      }
    }
  }

  lemma LoopEnds(sp: Spec, c: Context, entry: bool, recs: seq<Rec>)
    requires ValidSpec(sp) && |c.args| == MAX_TRACES && !FillsBuffer(recs)
    ensures AllHold(sp, c, entry, MAX_TRACES) && Kept(recs + Wanted(sp, c, entry, MAX_TRACES)) == recs
  {
    assert recs + [] == recs;
  }

  lemma OneMoreItem(sp: Spec, c: Context, entry: bool, recs: seq<Rec>, i: nat)
    requires ValidSpec(sp) && |c.args| == MAX_TRACES && i < MAX_TRACES
    ensures AllHold(sp, c, entry, i)
            <==> (Eligible(sp.items[i], entry) ==> Holds(sp.items[i], c)) && AllHold(sp, c, entry, i + 1)
    ensures recs + Wanted(sp, c, entry, i)
         == (if Eligible(sp.items[i], entry) then recs + Captured(sp.items[i], c, i)
             else recs) + Wanted(sp, c, entry, i + 1)
  {
    hide Eligible, Holds, Captured;
  }

  lemma NothingAfter(sp: Spec, c: Context, entry: bool, recs: seq<Rec>, i: nat)
    requires ValidSpec(sp) && |c.args| == MAX_TRACES && i <= MAX_TRACES
    requires forall j :: i <= j < MAX_TRACES ==> !Eligible(sp.items[j], entry)
    ensures AllHold(sp, c, entry, i) && recs + Wanted(sp, c, entry, i) == recs
  {
    hide Wanted;
    WantedNone(sp, c, entry, i);
  }

  lemma NotYetHere(sp: Spec, entry: bool, recs: seq<Rec>, i: nat)
    requires ValidSpec(sp) && i < MAX_TRACES && NotYet(sp, entry, recs, i) && Eligible(sp.items[i], entry)
    ensures !Has(recs, i)
  {}

  lemma TakeDecides(it: Item, c: Context, l: Live, i: nat)
    requires it.baseArg < |c.args| && ValidContext(c) && i < MAX_TRACES && ValidLive(l)
    ensures var next := Take(it, c, l, i).1;
            && (next.Reject? <==> !Holds(it, c))
            && (next.Break? ==> l.bufLen + MAX_TRACE_DATA >= MAX_TRACE_BUF)
            && (next.Continue? && Captured(it, c, i) != [] ==> l.bufLen + MAX_TRACE_DATA < MAX_TRACE_BUF)
  {
    hide Passes, Fetch, Write;
  }

  lemma TakeHadRoom(it: Item, c: Context, l: Live, i: nat, recs: seq<Rec>)
    requires it.baseArg < |c.args| && ValidContext(c) && i < MAX_TRACES && Packs(l, recs) && ValidLive(l)
             && !FillsBuffer(recs)
    requires Take(it, c, l, i).1.Continue?
    ensures !FillsBuffer(recs + Captured(it, c, i))
  {
    hide Take, Captured, Flat;
    TakeDecides(it, c, l, i);
    AtMostOne(it, c, i);
    var own := Captured(it, c, i);
    if own == [] {
      assert recs + own == recs;
    } else if FillsBuffer(recs + own) {
      assert |l.buf[..l.bufLen]| == l.bufLen;
      forall k | 0 <= k < |recs| ensures |recs[k].bytes| == MAX_TRACE_DATA { assert (recs + own)[k] == recs[k]; }
      FlatBound(recs);
      assert false;
    }
  }

  lemma AtMostOne(it: Item, c: Context, i: nat)
    requires it.baseArg < |c.args|
    ensures |Captured(it, c, i)| <= 1
  {}

  /** A buffer too full for another item holds five of full size. */
  lemma FiveFull(l: Live, recs: seq<Rec>, i: nat)
    requires Packs(l, recs) && i < MAX_TRACES && !Has(recs, i) && l.bufLen + MAX_TRACE_DATA >= MAX_TRACE_BUF
    ensures |recs| == MAX_TRACES - 1 && forall k :: 0 <= k < |recs| ==> |recs[k].bytes| == MAX_TRACE_DATA
  {
    hide Flat;
    assert |l.buf[..l.bufLen]| == l.bufLen;
    forall k | 0 <= k < |recs|
      ensures |recs[k].bytes| <= MAX_TRACE_DATA && recs[k].item < MAX_TRACES
    {
      assert Placed(l, recs, k);
    }
    FlatBound(recs);
    ItemSet(recs);
    Subset(set k | 0 <= k < |recs| :: recs[k].item, Below(MAX_TRACES) - {i});
  }

  lemma BreakKeeps(it: Item, c: Context, l: Live, i: nat, recs: seq<Rec>)
    requires it.baseArg < |c.args| && i < MAX_TRACES && Packs(l, recs) && !Has(recs, i)
    requires l.bufLen + MAX_TRACE_DATA >= MAX_TRACE_BUF
    ensures Kept(recs + Captured(it, c, i)) == recs
  {
    hide Packs, Flat, Captured, Has;
    FiveFull(l, recs, i);
    AtMostOne(it, c, i);
    assert (recs + Captured(it, c, i))[..MAX_TRACES - 1] == recs;
  }

  lemma {:induction false} WantedNone(sp: Spec, c: Context, entry: bool, i: nat)
    requires ValidSpec(sp) && |c.args| == MAX_TRACES && i <= MAX_TRACES
    requires forall j :: i <= j < MAX_TRACES ==> !Eligible(sp.items[j], entry)
    ensures Wanted(sp, c, entry, i) == []
    decreases MAX_TRACES - i
  {
    if i < MAX_TRACES { WantedNone(sp, c, entry, i + 1); }
  }

  lemma BreakLeavesNone(sp: Spec, entry: bool, l: Live, recs: seq<Rec>, i: nat)
    requires ValidSpec(sp) && i < MAX_TRACES && Packs(l, recs) && NotYet(sp, entry, recs, i) && !Has(recs, i)
    requires l.bufLen + MAX_TRACE_DATA >= MAX_TRACE_BUF
    ensures forall j :: i < j < MAX_TRACES ==> !Eligible(sp.items[j], entry)
  {
    hide Packs, Has, Eligible;
    forall j | i < j < MAX_TRACES ensures !Eligible(sp.items[j], entry) {
      BreakMeansLast(l, recs, i, j);
    }
  }

  /** After an accepting loop the buffer is nonempty exactly when it was, or some item captured something. */
  lemma {:induction false} LoopFills(sp: Spec, c: Context, entry: bool, l: Live, i: nat)
    requires ValidSpec(sp) && ValidContext(c) && i <= MAX_TRACES && ValidLive(l)
    requires Collect(sp, c, entry, l, i).1
    ensures Collect(sp, c, entry, l, i).0.bufLen > 0 <==> l.bufLen > 0 || CapturesSome(sp, c, entry, i)
    decreases MAX_TRACES - i
  {
    hide Take, Captured, Eligible, Flat;
    if i < MAX_TRACES {
      var it := sp.items[i];
      if !Eligible(it, entry) {
        LoopFills(sp, c, entry, l, i + 1);
      } else {
        TakeIsValid(it, c, l, i);
        TakeFills(it, c, l, i);
        var (l', next) := Take(it, c, l, i);
        if next.Continue? { LoopFills(sp, c, entry, l', i + 1); }
      }
    }
  }

  lemma TakeFills(it: Item, c: Context, l: Live, i: nat)
    requires it.baseArg < |c.args| && ValidContext(c) && i < MAX_TRACES && ValidLive(l)
    ensures var (l', next) := Take(it, c, l, i);
            && (next.Continue? ==> l'.bufLen == l.bufLen + |Flat(Captured(it, c, i))|)
            && (next.Break? ==> l'.bufLen == l.bufLen > 0)
  {}

  // ---------- the stash protocol ----------

  lemma ClearPacks(l: Live, flags: Flags)
    requires |l.buf| == MAX_TRACE_BUF
    ensures Packs(Clear(l).(flags := flags), [])
  {}

  lemma FlagsDoNotMatter(l: Live, flags: Flags, recs: seq<Rec>)
    requires Packs(l, recs)
    ensures Packs(l.(flags := flags), recs)
  {
    forall k | 0 <= k < |recs| ensures Placed(l.(flags := flags), recs, k) { assert Placed(l, recs, k); }
  }

  /** The record as the loop of an entry probe finds it. */
  function Opened(sp: Spec, l: Live): Live { MarkSide(Clear(l).(flags := NO_FLAGS.(stash := sp.stash)), true) }

  /**
   * An entry probe in stash mode emits nothing and leaves its captures stashed exactly when it accepted and
   * captured something.
   */
  lemma EntryStashes(sp: Spec, l: Live, c: Context)
    requires ValidSpec(sp) && ValidContext(c) && ValidLive(l) && sp.stash
    ensures var (l1, out) := Probe(sp, l, c, true);
            && out.None?
            && (l1.flags.stashed <==> WantsPid(sp, c) && AllHold(sp, c, true, 0) && CapturesSome(sp, c, true, 0))
            && (l1.flags.stashed ==> !l1.flags.stash && l1.bufLen > 0 && Packs(l1, Kept(Wanted(sp, c, true, 0))))
  {
    hide Collect, Packs, AllHold, CapturesSome, Wanted, NotYet, Kept;
    var o := Opened(sp, l);
    ClearPacks(l, o.flags);
    assert o == Clear(l).(flags := o.flags);
    NothingYet(sp, true);
    if WantsPid(sp, c) {
      CollectIsValid(sp, c, true, o, 0);
      LoopPacksAndDecides(sp, c, true, o, 0, []);
      var (l2, ok) := Collect(sp, c, true, o, 0);
      assert [] + Wanted(sp, c, true, 0) == Wanted(sp, c, true, 0);
      if ok {
        LoopFills(sp, c, true, o, 0);
        if l2.bufLen > 0 {
          FlagsDoNotMatter(l2, l2.flags.(stash := false, stashed := true), Kept(Wanted(sp, c, true, 0)));
        }
      }
    }
  }

  lemma NothingYet(sp: Spec, entry: bool)
    requires ValidSpec(sp)
    ensures NotYet(sp, entry, [], 0) && !FillsBuffer([])
  {}

  lemma WantedSplits(sp: Spec, c: Context, entry: bool, i: nat)
    requires ValidSpec(sp) && |c.args| == MAX_TRACES && i <= MAX_TRACES && Wanted(sp, c, entry, i) != []
    ensures i < MAX_TRACES
    ensures Wanted(sp, c, entry, i)
         == (if Eligible(sp.items[i], entry) then Captured(sp.items[i], c, i) else []) + Wanted(sp, c, entry, i + 1)
  {}

  lemma {:induction false} WantedAreEligible(sp: Spec, c: Context, entry: bool, i: nat, k: nat)
    requires ValidSpec(sp) && |c.args| == MAX_TRACES && i <= MAX_TRACES && k < |Wanted(sp, c, entry, i)|
    ensures var j := Wanted(sp, c, entry, i)[k].item; i <= j < MAX_TRACES && Eligible(sp.items[j], entry)
    decreases MAX_TRACES - i
  {
    hide Eligible, Captured, Wanted;
    WantedSplits(sp, c, entry, i);
    CapturedItem(sp.items[i], c, i);
    var here := if Eligible(sp.items[i], entry) then Captured(sp.items[i], c, i) else [];
    if k >= |here| { WantedAreEligible(sp, c, entry, i + 1, k - |here|); }
  }

  /** Every value asked for that can be read is there, with its bytes. */
  lemma {:induction false} WantedIsComplete(sp: Spec, c: Context, entry: bool, i: nat, j: nat)
    requires ValidSpec(sp) && |c.args| == MAX_TRACES && i <= j < MAX_TRACES && Eligible(sp.items[j], entry)
    ensures forall r :: r in Captured(sp.items[j], c, j) ==> r in Wanted(sp, c, entry, i)
    decreases MAX_TRACES - i
  {
    hide Eligible, Captured;
    if i < j { WantedIsComplete(sp, c, entry, i + 1, j); }
  }

  lemma CapturedItem(it: Item, c: Context, i: nat)
    requires it.baseArg < |c.args|
    ensures forall k :: 0 <= k < |Captured(it, c, i)| ==> Captured(it, c, i)[k].item == i
  {}

  lemma ReturnNotYet(sp: Spec, c: Context)
    requires ValidSpec(sp) && |c.args| == MAX_TRACES
    ensures NotYet(sp, false, Kept(Wanted(sp, c, true, 0)), 0)
  {
    hide Wanted;
    var recs := Wanted(sp, c, true, 0);
    forall k | 0 <= k < |recs| ensures recs[k].item < MAX_TRACES && !Eligible(sp.items[recs[k].item], false) {
      WantedAreEligible(sp, c, true, 0, k);
    }
    assert forall k :: 0 <= k < |Kept(recs)| ==> Kept(recs)[k] == recs[k];
  }

  /** The values asked for at entry and at the return that follows it, in order. */
  function BothSides(sp: Spec, ce: Context, cr: Context): seq<Rec>
    requires ValidSpec(sp) && |ce.args| == |cr.args| == MAX_TRACES
  {
    Wanted(sp, ce, true, 0) + Wanted(sp, cr, false, 0)
  }

  /** Dropping at the entry or at the return comes to the same: six values leave none for the return. */
  lemma KeptTwice(sp: Spec, ce: Context, cr: Context)
    requires ValidSpec(sp) && |ce.args| == |cr.args| == MAX_TRACES
    ensures Kept(Kept(Wanted(sp, ce, true, 0)) + Wanted(sp, cr, false, 0)) == Kept(BothSides(sp, ce, cr))
    ensures !FillsBuffer(Kept(Wanted(sp, ce, true, 0)))
  {
    var e, r := Wanted(sp, ce, true, 0), Wanted(sp, cr, false, 0);
    if FillsBuffer(e) {
      hide Flat;
      AllAtEntry(sp, ce, cr);
      assert e[..5] + r == e[..5] && e + r == e;
    }
  }

  lemma {:induction false} WantedCount(sp: Spec, c: Context, entry: bool, i: nat)
    requires ValidSpec(sp) && |c.args| == MAX_TRACES && i <= MAX_TRACES
    ensures |Wanted(sp, c, entry, i)| <= MAX_TRACES - i
    ensures |Wanted(sp, c, entry, i)| == MAX_TRACES - i ==>
              forall j :: i <= j < MAX_TRACES ==> Eligible(sp.items[j], entry)
    decreases MAX_TRACES - i
  {
    hide Eligible;
    if i < MAX_TRACES {
      AtMostOne(sp.items[i], c, i);
      WantedCount(sp, c, entry, i + 1);
    }
  }

  lemma AllAtEntry(sp: Spec, ce: Context, cr: Context)
    requires ValidSpec(sp) && |ce.args| == |cr.args| == MAX_TRACES && |Wanted(sp, ce, true, 0)| == MAX_TRACES
    ensures Wanted(sp, cr, false, 0) == []
  {
    hide Wanted;
    WantedCount(sp, ce, true, 0);
    WantedNone(sp, cr, false, 0);
  }

  /**
   * In stash mode, an entry probe followed by the matching return probe emits one event, at the
   * return, exactly when every predicate of both sides holds (and the entry captured anything at
   * all); the event carries the values asked for on both sides back to back, each delimited by its
   * descriptor, but for a sixth that would fill the buffer.
   */
  lemma StashEmitsIffAllHold(sp: Spec, l: Live, ce: Context, cr: Context)
    requires ValidSpec(sp) && ValidContext(ce) && ValidContext(cr) && ValidLive(l) && sp.stash
    ensures ValidLive(Probe(sp, l, ce, true).0)
    ensures var (l1, out1) := Probe(sp, l, ce, true);
            var (l2, out2) := Probe(sp, l1, cr, false);
            && out1.None?
            && (out2.Some? <==> && (sp.filterPid != 0 ==> ce.pid == sp.filterPid == cr.pid)
                                && CapturesSome(sp, ce, true, 0)
                                && AllHold(sp, ce, true, 0) && AllHold(sp, cr, false, 0))
            && (out2.Some? ==> EventIs(out2.value, Kept(BothSides(sp, ce, cr))) && Marked(out2.value, false))
            && (l1.flags.stashed && WantsPid(sp, cr) ==> Cleared(l2))
  {
    hide Collect, Packs, AllHold, CapturesSome, Wanted, NotYet, Eligible, EventIs, Kept, BothSides;
    ProbeIsValid(sp, l, ce, true);
    EntryStashes(sp, l, ce);
    var (l1, out1) := Probe(sp, l, ce, true);
    if l1.flags.stashed && WantsPid(sp, cr) {
      var recs, m := Kept(Wanted(sp, ce, true, 0)), MarkSide(l1, false);
      FlagsDoNotMatter(l1, m.flags, recs);
      ReturnNotYet(sp, ce);
      KeptTwice(sp, ce, cr);
      CollectIsValid(sp, cr, false, m, 0);
      LoopPacksAndDecides(sp, cr, false, m, 0, recs);
      if Collect(sp, cr, false, m, 0).1 {
        LoopFills(sp, cr, false, m, 0);
        PackedEvent(Collect(sp, cr, false, m, 0).0, Flags(false, true, false, false), Kept(BothSides(sp, ce, cr)));
      }
    }
  }

  lemma ProbeIsValid(sp: Spec, l: Live, c: Context, entry: bool)
    requires ValidSpec(sp) && ValidContext(c) && ValidLive(l)
    ensures ValidLive(Probe(sp, l, c, entry).0)
  {
    hide Collect;
    CollectIsValid(sp, c, entry, MarkSide(Begin(sp, l, entry).0, entry), 0);
  }

  /** An event whose payload is the captures back to back, with descriptors that delimit them inside the buffer. */
  ghost predicate EventIs(e: Emitted, recs: seq<Rec>) {
    && |e.data| == MAX_TRACES && e.bytes == Flat(recs) && |e.bytes| <= MAX_TRACE_BUF
    && (forall k :: 0 <= k < |recs| ==> DescribedBy(e, recs, k))
    && (forall j, k :: 0 <= j < k < |recs| ==> recs[j].item != recs[k].item)
    && (forall i :: 0 <= i < MAX_TRACES && !Has(recs, i) ==> e.data[i].bufLen == 0)
  }

  ghost predicate DescribedBy(e: Emitted, recs: seq<Rec>, k: nat)
    requires k < |recs| && |e.data| == MAX_TRACES
  {
    && recs[k].item < MAX_TRACES
    && e.data[recs[k].item].bufOffset == |Flat(recs[..k])|
    && e.data[recs[k].item].bufLen == |recs[k].bytes|
    && |Flat(recs[..k])| + |recs[k].bytes| <= |e.bytes|
    && e.bytes[|Flat(recs[..k])|..|Flat(recs[..k])| + |recs[k].bytes|] == recs[k].bytes
  }

  lemma {:induction false} FlatSlice(recs: seq<Rec>, k: nat)
    requires k < |recs|
    ensures |Flat(recs[..k])| + |recs[k].bytes| <= |Flat(recs)|
    ensures Flat(recs)[|Flat(recs[..k])|..|Flat(recs[..k])| + |recs[k].bytes|] == recs[k].bytes
  {
    var n := |recs| - 1;
    if k < n {
      FlatSlice(recs[..n], k);
      assert recs[..n][..k] == recs[..k];
    }
  }

  lemma PackedEvent(l: Live, flags: Flags, recs: seq<Rec>)
    requires Packs(l, recs)
    ensures ValidLive(l) && EventIs(Emitted(flags, l.data, l.buf[..l.bufLen]), recs)
  {
    hide Flat;
    forall k | 0 <= k < |recs| ensures DescribedBy(Emitted(flags, l.data, l.buf[..l.bufLen]), recs, k) {
      assert Placed(l, recs, k);
      FlatSlice(recs, k);
    }
  }

  /** The event says on which side it was emitted, and nothing about stashing. */
  predicate Marked(e: Emitted, entry: bool) { e.flags == Flags(entry, !entry, false, false) }

  /** A record with nothing of a call left in it. */
  predicate Cleared(l: Live) {
    l.flags == NO_FLAGS && l.bufLen == 0 && forall i :: 0 <= i < |l.data| ==> l.data[i] == Data(0, false, 0, 0)
  }

  /** A return whose entry stashed nothing emits nothing and leaves the record alone. */
  lemma LoneReturnIsSilent(sp: Spec, l: Live, c: Context)
    requires ValidSpec(sp) && ValidContext(c) && ValidLive(l) && sp.stash && !l.flags.stashed
    ensures Probe(sp, l, c, false) == (l, None)
  {}

  /** Outside stash mode each probe decides for its own side alone, and shows that side's values. */
  lemma PlainEmitsIffAllHold(sp: Spec, l: Live, c: Context, entry: bool)
    requires ValidSpec(sp) && ValidContext(c) && ValidLive(l) && !sp.stash
    ensures var (l', out) := Probe(sp, l, c, entry);
            && (out.Some? <==> && (sp.filterPid != 0 ==> c.pid == sp.filterPid)
                               && AllHold(sp, c, entry, 0) && CapturesSome(sp, c, entry, 0))
            && (out.Some? ==> EventIs(out.value, Kept(Wanted(sp, c, entry, 0))) && Marked(out.value, entry))
            && Cleared(l')
  {
    hide Collect, Packs, AllHold, CapturesSome, NotYet, Wanted, Kept, EventIs;
    var o := MarkSide(Begin(sp, l, entry).0, entry);
    ClearPacks(l, o.flags);
    assert o == Clear(l).(flags := o.flags);
    NothingYet(sp, entry);
    if WantsPid(sp, c) {
      CollectIsValid(sp, c, entry, o, 0);
      LoopPacksAndDecides(sp, c, entry, o, 0, []);
      assert [] + Wanted(sp, c, entry, 0) == Wanted(sp, c, entry, 0);
      if Collect(sp, c, entry, o, 0).1 {
        LoopFills(sp, c, entry, o, 0);
        PackedEvent(Collect(sp, c, entry, o, 0).0, Flags(entry, !entry, false, false), Kept(Wanted(sp, c, entry, 0)));
      }
    }
  }

  // ---------- what a descriptor says ----------

  predicate Fails(it: Item, c: Context)
    requires it.baseArg < |c.args|
  {
    Fetch(it, c).Fault? || Capture(it, c, Fetch(it, c).data).None?
  }

  /** A descriptor flags exactly the reads that failed; otherwise it has the value tested and the size cut to 2048. */
  ghost predicate Tells(d: Data, it: Item, c: Context)
    requires it.baseArg < |c.args|
  {
    if Fails(it, c) then d.err && d.bufLen == 0
    else !d.err && d.raw == Fetch(it, c).raw && d.bufLen == if it.size <= 2048 then it.size else 2048
  }

  lemma TakeTells(it: Item, c: Context, l: Live, i: nat)
    requires it.baseArg < |c.args| && ValidLive(l) && i < MAX_TRACES - 1 && ValidContext(c)
    requires l.bufLen <= i * MAX_TRACE_DATA && Take(it, c, l, i).1 != Reject
    ensures ValidLive(Take(it, c, l, i).0)
    ensures Take(it, c, l, i).1 == Continue && Take(it, c, l, i).0.bufLen <= (i + 1) * MAX_TRACE_DATA
    ensures Tells(Take(it, c, l, i).0.data[i], it, c)
  {
    hide Passes, Fetch, Write;
    TakeIsValid(it, c, l, i);
  }

  lemma {:induction false} CollectKeepsEarlier(sp: Spec, c: Context, entry: bool, l: Live, i: nat, j: nat)
    requires ValidSpec(sp) && ValidContext(c) && ValidLive(l) && j < i <= MAX_TRACES
    ensures |Collect(sp, c, entry, l, i).0.data| == MAX_TRACES && Collect(sp, c, entry, l, i).0.data[j] == l.data[j]
    decreases MAX_TRACES - i
  {
    hide Take, Eligible;
    if i < MAX_TRACES {
      TakeIsValid(sp.items[i], c, l, i);
      TakeIsLocal(sp.items[i], c, l, i);
      if Eligible(sp.items[i], entry) {
        CollectKeepsEarlier(sp, c, entry, Take(sp.items[i], c, l, i).0, i + 1, j);
      } else {
        CollectKeepsEarlier(sp, c, entry, l, i + 1, j);
      }
    }
  }

  lemma {:induction false} CollectTells(sp: Spec, c: Context, entry: bool, l: Live, i: nat, j: nat)
    requires ValidSpec(sp) && ValidContext(c) && ValidLive(l) && i <= j < MAX_TRACES - 1
    requires Eligible(sp.items[j], entry) && l.bufLen <= i * MAX_TRACE_DATA && Collect(sp, c, entry, l, i).1
    ensures var l' := Collect(sp, c, entry, l, i).0;
            |l'.data| == MAX_TRACES && Tells(l'.data[j], sp.items[j], c)
    decreases MAX_TRACES - i
  {
    hide Take, Eligible, Tells;
    if Eligible(sp.items[i], entry) {
      TakeTells(sp.items[i], c, l, i);
      var l' := Take(sp.items[i], c, l, i).0;
      if i == j { CollectKeepsEarlier(sp, c, entry, l', i + 1, j); } else { CollectTells(sp, c, entry, l', i + 1, j); }
    } else {
      CollectTells(sp, c, entry, l, i + 1, j);
    }
  }

  /** In the event of a plain probe the first five descriptors, if of its side, tell what became of their values. */
  lemma PlainEventTells(sp: Spec, l: Live, c: Context, entry: bool, j: nat)
    requires ValidSpec(sp) && ValidContext(c) && ValidLive(l) && !sp.stash && j < MAX_TRACES - 1
    requires Eligible(sp.items[j], entry) && Probe(sp, l, c, entry).1.Some?
    ensures var e := Probe(sp, l, c, entry).1.value; |e.data| == MAX_TRACES && Tells(e.data[j], sp.items[j], c)
  {
    hide Collect, Eligible, Tells;
    CollectIsValid(sp, c, entry, MarkSide(Begin(sp, l, entry).0, entry), 0);
    CollectTells(sp, c, entry, MarkSide(Begin(sp, l, entry).0, entry), 0, j);
  }

  // ---------- the value that is not shown ----------

  lemma {:induction false} WantedIncreases(sp: Spec, c: Context, entry: bool, i: nat, j: nat, k: nat)
    requires ValidSpec(sp) && |c.args| == MAX_TRACES && i <= MAX_TRACES && j < k < |Wanted(sp, c, entry, i)|
    ensures Wanted(sp, c, entry, i)[j].item < Wanted(sp, c, entry, i)[k].item
    decreases MAX_TRACES - i
  {
    hide Eligible, Captured, Wanted;
    WantedSplits(sp, c, entry, i);
    AtMostOne(sp.items[i], c, i);
    CapturedItem(sp.items[i], c, i);
    var here := if Eligible(sp.items[i], entry) then Captured(sp.items[i], c, i) else [];
    if j >= |here| {
      WantedIncreases(sp, c, entry, i + 1, j - |here|, k - |here|);
    } else {
      WantedAreEligible(sp, c, entry, i + 1, k - |here|);
    }
  }

  /** No item is asked for twice. */
  lemma BothSidesDistinct(sp: Spec, ce: Context, cr: Context, j: nat, k: nat)
    requires ValidSpec(sp) && |ce.args| == |cr.args| == MAX_TRACES && j < k < |BothSides(sp, ce, cr)|
    ensures BothSides(sp, ce, cr)[j].item != BothSides(sp, ce, cr)[k].item
  {
    hide Wanted;
    var n := |Wanted(sp, ce, true, 0)|;
    if k < n {
      WantedIncreases(sp, ce, true, 0, j, k);
    } else if j >= n {
      WantedIncreases(sp, cr, false, 0, j - n, k - n);
    } else {
      WantedAreEligible(sp, ce, true, 0, j);
      WantedAreEligible(sp, cr, false, 0, k - n);
    }
  }

  /** Of values of different items, all but the last of six with five of full size are kept. */
  lemma KeptIff(recs: seq<Rec>, r: Rec)
    requires r in recs && forall j, k :: 0 <= j < k < |recs| ==> recs[j].item != recs[k].item
    ensures r in Kept(recs) <==> !(FillsBuffer(recs) && recs[MAX_TRACES - 1].item == r.item)
  {
    var k :| 0 <= k < |recs| && recs[k] == r;
    if FillsBuffer(recs) && k < MAX_TRACES - 1 { assert Kept(recs)[k] == r; }
  }

  /** The descriptor of the value's item delimits its bytes in the event. */
  ghost predicate Shows(e: Emitted, r: Rec) {
    && |e.data| == MAX_TRACES && r.item < MAX_TRACES && e.data[r.item].bufLen == |r.bytes|
    && e.data[r.item].bufOffset + |r.bytes| <= |e.bytes|
    && e.bytes[e.data[r.item].bufOffset..e.data[r.item].bufOffset + |r.bytes|] == r.bytes
  }

  /** An event shows the values it carries, and no other that is not empty. */
  lemma EventShowsIff(e: Emitted, kept: seq<Rec>, r: Rec)
    requires EventIs(e, kept) && r.item < MAX_TRACES && r.bytes != []
    requires forall k :: 0 <= k < |kept| && kept[k].item == r.item ==> kept[k] == r
    ensures Shows(e, r) <==> r in kept
  {
    hide Flat;
    if r in kept {
      var k :| 0 <= k < |kept| && kept[k] == r;
      assert DescribedBy(e, kept, k);
    } else {
      assert !Has(kept, r.item);
    }
  }

  /** The values asked for have different items, so a kept one of an item is the one asked for. */
  lemma KeptOfItem(recs: seq<Rec>, r: Rec, k: nat)
    requires r in recs && forall i, j :: 0 <= i < j < |recs| ==> recs[i].item != recs[j].item
    requires k < |Kept(recs)| && Kept(recs)[k].item == r.item
    ensures Kept(recs)[k] == r
  {
    var i :| 0 <= i < |recs| && recs[i] == r;
    assert Kept(recs)[k] == recs[k];
  }

  lemma ShownIff(e: Emitted, recs: seq<Rec>, r: Rec)
    requires r in recs && forall i, j :: 0 <= i < j < |recs| ==> recs[i].item != recs[j].item
    requires EventIs(e, Kept(recs)) && r.item < MAX_TRACES && r.bytes != []
    ensures Shows(e, r) <==> !(FillsBuffer(recs) && recs[MAX_TRACES - 1].item == r.item)
  {
    hide EventIs, Shows, Kept, FillsBuffer;
    forall k | 0 <= k < |Kept(recs)| && Kept(recs)[k].item == r.item ensures Kept(recs)[k] == r {
      KeptOfItem(recs, r, k);
    }
    EventShowsIff(e, Kept(recs), r);
    KeptIff(recs, r);
  }

  /**
   * A value that was asked for and read is shown by the event of its call if and only if it is not the last
   * of six of which the five others have full size.
   */
  lemma ValueIsShownIff(sp: Spec, l: Live, ce: Context, cr: Context, j: nat, r: Rec, entry: bool)
    requires ValidSpec(sp) && ValidContext(ce) && ValidContext(cr) && ValidLive(l) && sp.stash
    requires j < MAX_TRACES && Eligible(sp.items[j], entry)
    requires r in Captured(sp.items[j], if entry then ce else cr, j) && r.bytes != []
    ensures ValidLive(Probe(sp, l, ce, true).0)
    ensures var out, recs := Probe(sp, Probe(sp, l, ce, true).0, cr, false).1, BothSides(sp, ce, cr);
            out.Some? ==> (Shows(out.value, r) <==> !(FillsBuffer(recs) && recs[MAX_TRACES - 1].item == j))
  {
    hide Wanted, Captured, Eligible, FillsBuffer, Probe, EventIs, Kept, Shows, AllHold, CapturesSome;
    StashEmitsIffAllHold(sp, l, ce, cr);
    var recs := BothSides(sp, ce, cr);
    WantedIsComplete(sp, if entry then ce else cr, entry, 0, j);
    CapturedItem(sp.items[j], if entry then ce else cr, j);
    forall m, k | 0 <= m < k < |recs| ensures recs[m].item != recs[k].item { BothSidesDistinct(sp, ce, cr, m, k); }
    var out := Probe(sp, Probe(sp, l, ce, true).0, cr, false).1;
    if out.Some? { ShownIff(out.value, recs, r); }
  }

  /** The same for the event of one side in plain mode. */
  lemma PlainValueIsShownIff(sp: Spec, l: Live, c: Context, entry: bool, j: nat, r: Rec)
    requires ValidSpec(sp) && ValidContext(c) && ValidLive(l) && !sp.stash
    requires j < MAX_TRACES && Eligible(sp.items[j], entry) && r in Captured(sp.items[j], c, j) && r.bytes != []
    ensures var out, recs := Probe(sp, l, c, entry).1, Wanted(sp, c, entry, 0);
            out.Some? ==> (Shows(out.value, r) <==> !(FillsBuffer(recs) && recs[MAX_TRACES - 1].item == j))
  {
    hide Wanted, Captured, Eligible, FillsBuffer, Probe, EventIs, Kept, Shows, AllHold, CapturesSome;
    PlainEmitsIffAllHold(sp, l, c, entry);
    var recs := Wanted(sp, c, entry, 0);
    WantedIsComplete(sp, c, entry, 0, j);
    CapturedItem(sp.items[j], c, j);
    forall m, k | 0 <= m < k < |recs| ensures recs[m].item != recs[k].item { WantedIncreases(sp, c, entry, 0, m, k); }
    var out := Probe(sp, l, c, entry).1;
    if out.Some? { ShownIff(out.value, recs, r); }
  }

  /** A context in which every read gives zeros. */
  function ZeroMemory(): Context {
    Context(Repeat(0, MAX_TRACES), (a, n) => Some(Repeat(0, n)), (d, n) => Repeat(0, n), 1)
  }

  function SixBlocks(): Spec {
    Spec(Repeat(Item(0, 0, MAX_TRACE_DATA, 1, true, false, NO_TEST, 0), MAX_TRACES), false, 0)
  }

  lemma {:induction false} BlocksWanted(i: nat)
    requires i <= MAX_TRACES
    ensures var recs := Wanted(SixBlocks(), ZeroMemory(), true, i);
            |recs| == MAX_TRACES - i && forall k :: 0 <= k < |recs| ==> |recs[k].bytes| == MAX_TRACE_DATA
    decreases MAX_TRACES - i
  {
    hide Repeat;
    if i < MAX_TRACES { BlocksWanted(i + 1); }
  }

  /** Six pointers to blocks of 2048 bytes, all readable: the buffer has room for six, and the event carries five. */
  lemma SixthBlockIsDropped(l: Live)
    requires ValidLive(l)
    ensures var sp, c := SixBlocks(), ZeroMemory();
            && ValidSpec(sp) && ValidContext(c)
            && (forall j :: 0 <= j < MAX_TRACES ==> Eligible(sp.items[j], true) && Captured(sp.items[j], c, j) != [])
            && Probe(sp, l, c, true).1.Some? && |Probe(sp, l, c, true).1.value.bytes| == MAX_TRACE_BUF - MAX_TRACE_DATA
  {
    var sp, c := SixBlocks(), ZeroMemory();
    BlocksReadable();
    hide Repeat, Probe, Wanted, SixBlocks, ZeroMemory, AllHold, CapturesSome, Flat;
    PlainEmitsIffAllHold(sp, l, c, true);
    var recs := Wanted(sp, c, true, 0);
    BlocksWanted(0);
    FlatBound(Kept(recs));
  }

  lemma BlocksReadable()
    ensures var sp, c := SixBlocks(), ZeroMemory();
            && ValidSpec(sp) && ValidContext(c) && !sp.stash && WantsPid(sp, c)
            && AllHold(sp, c, true, 0) && CapturesSome(sp, c, true, 0)
            && (forall j :: 0 <= j < MAX_TRACES ==> Eligible(sp.items[j], true) && Captured(sp.items[j], c, j) != [])
  {
    hide Repeat;
    var sp, c := SixBlocks(), ZeroMemory();
    assert Captured(sp.items[0], c, 0) == [] + [Rec(0, Repeat(0, MAX_TRACE_DATA))];
    FlatAppend([], Rec(0, Repeat(0, MAX_TRACE_DATA)));
    assert |Flat(Captured(sp.items[0], c, 0))| == MAX_TRACE_DATA;
  }

  // ---------- in terms of the command line ----------

  /** Item `it` was compiled from an optional operator and number. */
  ghost predicate CompiledFrom(it: Item, written: Option<(string, s64)>) {
    match written
    case None => it.test == NO_TEST
    case Some((op, v)) => Documented(op) && it.test == Compiled(op) && it.value == ToU64(v)
  }

  /** All reads of this side succeed, and values have a size. */
  ghost predicate ReadsSucceed(sp: Spec, c: Context, entry: bool)
    requires ValidSpec(sp) && |c.args| == MAX_TRACES
  {
    forall j :: 0 <= j < MAX_TRACES && Eligible(sp.items[j], entry) ==>
      Fetch(sp.items[j], c).Fetched? && sp.items[j].size > 0
      && Capture(sp.items[j], c, Fetch(sp.items[j], c).data).Some?
  }

  ghost predicate WrittenHold(sp: Spec, written: seq<Option<(string, s64)>>, c: Context, entry: bool)
    requires ValidSpec(sp) && |c.args| == MAX_TRACES && |written| == MAX_TRACES
  {
    forall j :: 0 <= j < MAX_TRACES && Eligible(sp.items[j], entry) && written[j].Some? ==>
      var f := Fetch(sp.items[j], c);
      f.Fetched? ==> Means(written[j].value.0, f.raw, ToU64(written[j].value.1))
  }

  lemma HoldIsMeant(sp: Spec, written: seq<Option<(string, s64)>>, c: Context, entry: bool)
    requires ValidSpec(sp) && |c.args| == MAX_TRACES && |written| == MAX_TRACES
    requires forall j :: 0 <= j < MAX_TRACES ==> CompiledFrom(sp.items[j], written[j])
    ensures AllHold(sp, c, entry, 0) <==> WrittenHold(sp, written, c, entry)
  {}
}
