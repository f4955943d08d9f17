/**
 * ksnoop's per-function trace record: the loop that evaluates predicates and packs captured values
 * into one buffer, and the stash protocol that holds entry data back until the return predicates
 * are known. Stack mode (prev_ip/next_ip) is not part of this model.
 */
module KsnoopTrace {
  import opened Machine
  import opened KsnoopPredicate

  const MAX_TRACES: nat := 6
  const MAX_TRACE_DATA: nat := 2048
  const MAX_TRACE_BUF: nat := 12288 // MAX_TRACES * MAX_TRACE_DATA
  const KSNOOP_RETURN: nat := 5

  type Bytes = seq<u8>

  /** A compiled `struct value`. */
  datatype Item = Item(
    baseArg: nat, offset: u32, size: u32, typeId: u64, ptr: bool, member: bool, test: Test, value: u64)

  /** The part of `struct trace` that is read-only in tracing context. */
  datatype Spec = Spec(items: seq<Item>, stash: bool, filterPid: u32)

  predicate ValidSpec(sp: Spec) {
    |sp.items| == MAX_TRACES && forall i :: 0 <= i < MAX_TRACES ==> sp.items[i].baseArg <= KSNOOP_RETURN
  }

  /**
   * What a probe can see: five arguments and the return value, kernel memory (a read may fault),
   * and the bytes at a local variable that holds a given value.
   */
  datatype Context = Context(args: seq<u64>, memory: (u64, nat) -> Option<Bytes>, local: (u64, nat) -> Bytes, pid: u32)

  ghost predicate ValidContext(c: Context) {
    && |c.args| == MAX_TRACES
    && (forall a: u64, n: nat :: c.memory(a, n).Some? ==> |c.memory(a, n).value| == n)
    && (forall d: u64, n: nat :: |c.local(d, n)| == n)
  }

  /** `struct trace_data`; `err` stands for a nonzero error number. */
  datatype Data = Data(raw: u64, err: bool, bufOffset: nat, bufLen: nat)
  const BLANK := Data(0, false, 0, 0)

  datatype Flags = Flags(entry: bool, ret: bool, stash: bool, stashed: bool)
  const NO_FLAGS := Flags(false, false, false, false)

  /** The part of `struct trace` that probes write. */
  datatype Live = Live(flags: Flags, data: seq<Data>, bufLen: nat, buf: Bytes)

  predicate ValidLive(l: Live) { |l.data| == MAX_TRACES && |l.buf| == MAX_TRACE_BUF && l.bufLen <= MAX_TRACE_BUF }

  function Blank(): seq<Data> { [BLANK, BLANK, BLANK, BLANK, BLANK, BLANK] }

  function Clear(l: Live): Live { Live(NO_FLAGS, Blank(), 0, l.buf) }

  // ---------- one item ----------

  /** A little-endian number of at most eight bytes. */
  function LittleEndian(b: Bytes): nat {
    if b == [] then 0 else b[0] + 0x100 * LittleEndian(b[1..])
  }

  function Word(b: Bytes): u64 { LittleEndian(b) % U64 }

  predicate Eligible(it: Item, entry: bool) {
    (entry <==> it.baseArg != KSNOOP_RETURN) && !(it.typeId == 0 && !it.ptr)
  }

  datatype Fetched = Fault | Fetched(data: u64, raw: u64)

  function Fetch(it: Item, c: Context): Fetched
    requires it.baseArg < |c.args|
  {
    var arg := c.args[it.baseArg];
    if !it.member then Fetched(arg, arg)
    else
      var at := Add64(arg, it.offset);
      if it.ptr then
        match c.memory(at, 8)
        case None => Fault
        case Some(b) => Fetched(Word(b), Word(b))
      else if it.size <= 8 then
        match c.memory(at, it.size)
        case None => Fetched(at, 0)
        case Some(b) => Fetched(at, Word(b))
      else Fetched(at, 0)
  }

  function CaptureSize(it: Item): nat { if it.size > MAX_TRACE_DATA then MAX_TRACE_DATA else it.size }

  function Capture(it: Item, c: Context, data: u64): Option<Bytes> {
    if it.ptr || it.member then c.memory(data, CaptureSize(it)) else Some(c.local(data, CaptureSize(it)))
  }

  datatype Next = Continue | Break | Reject

  function Write(buf: Bytes, at: nat, b: Bytes): Bytes
    requires at + |b| <= |buf|
  {
    buf[..at] + b + buf[at + |b|..]
  }

  function Take(it: Item, c: Context, l: Live, i: nat): (Live, Next)
    requires it.baseArg < |c.args| && ValidLive(l) && i < MAX_TRACES && ValidContext(c)
  {
    match Fetch(it, c)
    case Fault => (l.(data := l.data[i := BLANK.(err := true)]), Continue)
    case Fetched(data, raw) =>
      var d := BLANK.(raw := raw);
      if !Passes(it.test, raw, it.value) then (l.(data := l.data[i := d]), Reject)
      else if l.bufLen + MAX_TRACE_DATA >= MAX_TRACE_BUF then (l.(data := l.data[i := d]), Break)
      else
        match Capture(it, c, data)
        case None => (l.(data := l.data[i := d.(bufOffset := l.bufLen, err := true)]), Continue)
        case Some(b) =>
          (Live(l.flags, l.data[i := d.(bufOffset := l.bufLen, bufLen := |b|)], l.bufLen + |b|,
                Write(l.buf, l.bufLen, b)),
           Continue)
  }

  lemma TakeIsValid(it: Item, c: Context, l: Live, i: nat)
    requires it.baseArg < |c.args| && ValidLive(l) && i < MAX_TRACES && ValidContext(c)
    ensures ValidLive(Take(it, c, l, i).0)
    ensures Take(it, c, l, i).0.flags == l.flags
  {
    hide Passes, Fetch;
  }

  /** The loop over the items of one side; the result says whether no predicate failed. */
  function Collect(sp: Spec, c: Context, entry: bool, l: Live, i: nat): (Live, bool)
    requires ValidSpec(sp) && ValidContext(c) && ValidLive(l) && i <= MAX_TRACES
    decreases MAX_TRACES - i
  {
    if i == MAX_TRACES then (l, true)
    else if !Eligible(sp.items[i], entry) then Collect(sp, c, entry, l, i + 1)
    else
      TakeIsValid(sp.items[i], c, l, i);
      match Take(sp.items[i], c, l, i)
      case (l', Reject) => (l', false)
      case (l', Break) => (l', true)
      case (l', Continue) => Collect(sp, c, entry, l', i + 1)
  }

  // ---------- the probe ----------

  datatype Emitted = Emitted(flags: Flags, data: seq<Data>, bytes: Bytes)

  predicate WantsPid(sp: Spec, c: Context) { sp.filterPid == 0 || sp.filterPid == c.pid }

  /** `get_trace` after the lookup: whether to go on, and with what. */
  function Begin(sp: Spec, l: Live, entry: bool): (Live, bool) {
    if !entry && sp.stash then (l, l.flags.stashed)
    else (Clear(l).(flags := NO_FLAGS.(stash := entry && sp.stash)), true)
  }

  function Output(l: Live): (Live, Option<Emitted>)
    requires ValidLive(l)
  {
    if l.bufLen == 0 then (Clear(l), None)
    else if l.flags.stash then (l.(flags := l.flags.(stash := false, stashed := true)), None)
    else (Clear(l), Some(Emitted(l.flags.(stashed := false), l.data, l.buf[..l.bufLen])))
  }

  function MarkSide(l: Live, entry: bool): Live { l.(flags := l.flags.(entry := entry, ret := !entry)) }

  function Probe(sp: Spec, l: Live, c: Context, entry: bool): (Live, Option<Emitted>)
    requires ValidSpec(sp) && ValidContext(c) && ValidLive(l)
  {
    var (l1, go) := Begin(sp, l, entry);
    if !go || !WantsPid(sp, c) then (l1, None)
    else
      var (l2, ok) := Collect(sp, c, entry, MarkSide(l1, entry), 0);
      CollectIsValid(sp, c, entry, MarkSide(l1, entry), 0);
      if ok then Output(l2) else (Clear(l2), None)
  }

  lemma {:induction false} CollectIsValid(sp: Spec, c: Context, entry: bool, l: Live, i: nat)
    requires ValidSpec(sp) && ValidContext(c) && ValidLive(l) && i <= MAX_TRACES
    ensures ValidLive(Collect(sp, c, entry, l, i).0)
    ensures Collect(sp, c, entry, l, i).0.flags == l.flags
    decreases MAX_TRACES - i
  {
    hide Take, Eligible;
    if i < MAX_TRACES {
      if Eligible(sp.items[i], entry) {
        TakeIsValid(sp.items[i], c, l, i);
        CollectIsValid(sp, c, entry, Take(sp.items[i], c, l, i).0, i + 1);
      } else {
        CollectIsValid(sp, c, entry, l, i + 1);
      }
    }
  }

  class TraceRecord {
    const sp: Spec
    var flags: Flags
    const data: array<Data>
    var bufLen: u16
    const buf: array<u8>

    constructor (sp: Spec)
      requires ValidSpec(sp)
      ensures Inv() && Held(sp, View()) && this.sp == sp && flags == NO_FLAGS && bufLen == 0 && fresh(data)
              && fresh(buf)
    {
      this.sp := sp;
      flags, bufLen := NO_FLAGS, 0;
      data := new Data[MAX_TRACES](_ => BLANK);
      buf := new u8[MAX_TRACE_BUF](_ => 0);
    }

    ghost predicate Inv()
      reads this
    {
      ValidSpec(sp) && data.Length == MAX_TRACES && buf.Length == MAX_TRACE_BUF && bufLen <= MAX_TRACE_BUF
    }

    function View(): Live
      reads this, data, buf
    {
      Live(flags, data[..], bufLen, buf[..])
    }

    method ClearTrace()
      requires Inv()
      modifies this, data
      ensures Inv() && View() == Clear(old(View()))
    {
      for i := 0 to MAX_TRACES
        invariant forall j :: 0 <= j < i ==> data[j] == BLANK
        invariant Inv() && buf[..] == old(buf[..])
      {
        data[i] := BLANK;
      }
      flags := NO_FLAGS;
      bufLen := 0;
      assert data[..] == Blank();
    }

    /** The first half of an iteration: the value to trace, and its raw form for comparison. */
    method FetchItem(c: Context, i: nat) returns (f: Fetched)
      requires Inv() && ValidContext(c) && i < MAX_TRACES && data[i] == BLANK
      modifies data
      ensures f == Fetch(sp.items[i], c)
      ensures data[..] == old(data[..])[i := if f.Fault? then BLANK.(err := true) else BLANK.(raw := f.raw)]
    {
      hide Word;
      var it := sp.items[i];
      var value := c.args[it.baseArg];
      if it.member {
        if it.offset != 0 { value := Add64(value, it.offset); }
        if it.ptr {
          var read := c.memory(value, 8);
          if read.None? {
            data[i] := data[i].(err := true);
            return Fault;
          }
          value := Word(read.value);
          data[i] := data[i].(raw := value);
        } else if it.size <= 8 {
          var read := c.memory(value, it.size);
          if read.Some? { data[i] := data[i].(raw := Word(read.value)); }
        }
      } else {
        data[i] := data[i].(raw := value);
      }
      f := Fetched(value, data[i].raw);
    }

    method CopyIn(b: Bytes)
      requires Inv() && bufLen + |b| <= MAX_TRACE_BUF
      modifies buf
      ensures buf[..] == Write(old(buf[..]), bufLen, b)
    {
      for k := 0 to |b|
        invariant forall j :: 0 <= j < buf.Length ==>
                    buf[j] == if bufLen <= j < bufLen + k then b[j - bufLen] else old(buf[j])
      {
        buf[bufLen + k] := b[k];
      }
    }

    /** One iteration of the loop in `ksnoop`. */
    method TakeItem(c: Context, i: nat) returns (next: Next)
      requires Inv() && ValidContext(c) && i < MAX_TRACES && data[i] == BLANK
      modifies this`bufLen, data, buf
      ensures Inv() && (View(), next) == Take(sp.items[i], c, old(View()), i)
    {
      hide Passes, Fetch, Write;
      var it := sp.items[i];
      var f := FetchItem(c, i);
      if f.Fault? { return Continue; }
      if !Passes(it.test, data[i].raw, it.value) { return Reject; }
      if bufLen + MAX_TRACE_DATA >= MAX_TRACE_BUF { return Break; }
      data[i] := data[i].(bufOffset := bufLen);
      var captured := Capture(it, c, f.data);
      if captured.None? {
        data[i] := data[i].(err := true);
        assert data[..] == old(data[..])[i := Data(f.raw, true, bufLen, 0)];
        return Continue;
      }
      CopyIn(captured.value);
      data[i] := data[i].(bufLen := |captured.value|);
      assert data[..] == old(data[..])[i := Data(f.raw, false, bufLen, |captured.value|)];
      bufLen := bufLen + |captured.value|;
      return Continue;
    }

    /** The loop itself. */
    method CollectItems(c: Context, entry: bool) returns (ok: bool)
      requires Inv() && ValidContext(c)
      requires forall j :: 0 <= j < MAX_TRACES && Eligible(sp.items[j], entry) ==> data[j] == BLANK
      modifies this`bufLen, data, buf
      ensures Inv() && (View(), ok) == Collect(sp, c, entry, old(View()), 0)
    {
      hide Take, Eligible;
      for i := 0 to MAX_TRACES
        invariant Inv()
        invariant Collect(sp, c, entry, View(), i) == Collect(sp, c, entry, old(View()), 0)
        invariant forall j :: i <= j < MAX_TRACES && Eligible(sp.items[j], entry) ==> data[j] == BLANK
      {
        if !Eligible(sp.items[i], entry) { continue; }
        ghost var before := View();
        TakeIsLocal(sp.items[i], c, before, i);
        var next := TakeItem(c, i);
        assert forall j :: 0 <= j < MAX_TRACES && j != i ==> data[j] == View().data[j] == before.data[j];
        if next.Reject? { return false; }
        if next.Break? { return true; }
      }
      return true;
    }

    method OutputTrace() returns (out: Option<Emitted>)
      requires Inv()
      modifies this, data
      ensures Inv() && (View(), out) == Output(old(View()))
    {
      out := None;
      if bufLen != 0 {
        if flags.stash {
          flags := flags.(stash := false);
          flags := flags.(stashed := true);
          return;
        }
        if flags.stashed { flags := flags.(stashed := false); }
        // trace_len = sizeof(*trace) + buf_len - MAX_TRACE_BUF, emitted if it does not exceed sizeof(*trace)
        if bufLen <= MAX_TRACE_BUF { out := Some(Emitted(flags, data[..], buf[..bufLen])); }
      }
      ClearTrace();
    }

    /** The whole probe, once the record of the function is found. */
    method Ksnoop(c: Context, entry: bool) returns (out: Option<Emitted>)
      requires Inv() && Held(sp, View()) && ValidContext(c)
      modifies this, data, buf
      ensures Inv() && Held(sp, View()) && (View(), out) == Probe(sp, old(View()), c, entry)
    {
      hide Collect, Eligible;
      ProbeHolds(sp, View(), c, entry);
      out := None;
      if !entry && sp.stash {
        if !flags.stashed { return; }
      } else {
        ClearTrace();
      }
      if entry && sp.stash { flags := flags.(stash := true); }
      if sp.filterPid != 0 && sp.filterPid != c.pid { return; }
      flags := flags.(entry := false, ret := false);
      if entry { flags := flags.(entry := true); } else { flags := flags.(ret := true); }
      var ok := CollectItems(c, entry);
      if !ok {
        ClearTrace();
        return;
      }
      out := OutputTrace();
    }
  }

  /** While entry data are stashed, nothing has been recorded for the return side yet. */
  predicate Held(sp: Spec, l: Live)
    requires ValidSpec(sp) && ValidLive(l)
  {
    l.flags.stashed ==> !l.flags.stash && BlankSide(sp, l, false)
  }

  predicate BlankSide(sp: Spec, l: Live, entry: bool)
    requires ValidSpec(sp) && ValidLive(l)
  {
    forall j :: 0 <= j < MAX_TRACES && Eligible(sp.items[j], entry) ==> l.data[j] == BLANK
  }

  lemma {:induction false} CollectLeavesOtherSide(sp: Spec, c: Context, entry: bool, l: Live, i: nat)
    requires ValidSpec(sp) && ValidContext(c) && ValidLive(l) && i <= MAX_TRACES && BlankSide(sp, l, !entry)
    ensures ValidLive(Collect(sp, c, entry, l, i).0) && BlankSide(sp, Collect(sp, c, entry, l, i).0, !entry)
    decreases MAX_TRACES - i
  {
    hide Take;
    if i < MAX_TRACES {
      if Eligible(sp.items[i], entry) {
        TakeIsValid(sp.items[i], c, l, i);
        TakeIsLocal(sp.items[i], c, l, i);
        CollectLeavesOtherSide(sp, c, entry, Take(sp.items[i], c, l, i).0, i + 1);
      } else {
        CollectLeavesOtherSide(sp, c, entry, l, i + 1);
      }
    }
  }

  lemma ProbeHolds(sp: Spec, l: Live, c: Context, entry: bool)
    requires ValidSpec(sp) && ValidContext(c) && ValidLive(l) && Held(sp, l)
    ensures ValidLive(Probe(sp, l, c, entry).0) && Held(sp, Probe(sp, l, c, entry).0)
  {
    hide Collect, Eligible;
    var (l1, go) := Begin(sp, l, entry);
    if go && WantsPid(sp, c) {
      CollectIsValid(sp, c, entry, MarkSide(l1, entry), 0);
      if entry { CollectLeavesOtherSide(sp, c, true, MarkSide(l1, true), 0); }
    }
  }

  lemma TakeIsLocal(it: Item, c: Context, l: Live, i: nat)
    requires it.baseArg < |c.args| && ValidLive(l) && i < MAX_TRACES && ValidContext(c)
    ensures var l' := Take(it, c, l, i).0;
            forall j :: 0 <= j < MAX_TRACES && j != i && j < |l'.data| ==> l'.data[j] == l.data[j]
  {
    hide Passes, Fetch;
  }

  lemma {:induction false} WordsFit(b: Bytes)
    requires |b| <= 8
    ensures LittleEndian(b) < Power256(|b|) <= Power256(8) == U64 && Word(b) == LittleEndian(b)
  {
    if b != [] { WordsFit(b[1..]); }
    PowerBounded(|b|);
    assert Power256(8) == U64 by { assert Power256(4) == 0x1_0000_0000; }
  }

  function Power256(n: nat): nat { if n == 0 then 1 else 0x100 * Power256(n - 1) }

  lemma {:induction false} PowerBounded(n: nat)
    requires n <= 8
    ensures 1 <= Power256(n) <= Power256(8)
    decreases 8 - n
  {
    if n < 8 { PowerBounded(n + 1); } else { assert Power256(4) == 0x1_0000_0000; }
  }

  // ---------- what is tested and what is shown ----------

  /** The lowest `n` bytes of a 64-bit variable, as they lie in memory. */
  function LowBytes(d: nat, n: nat): (b: Bytes)
    ensures |b| == n
  {
    if n == 0 then [] else [d % 0x100] + LowBytes(d / 0x100, n - 1)
  }

  ghost predicate LocalsAreVariables(c: Context) {
    forall d: u64, n: nat :: n <= 8 ==> c.local(d, n) == LowBytes(d, n)
  }

  /** Cutting a number to `n` bytes leaves it whole exactly when it fits. */
  lemma {:induction false} LowBytesValue(d: nat, n: nat)
    ensures LittleEndian(LowBytes(d, n)) <= d
    ensures LittleEndian(LowBytes(d, n)) == d <==> d < Power256(n)
  {
    if n > 0 { LowBytesValue(d / 0x100, n - 1); }
  }

  /**
   * The number a predicate tests is the number shown for a scalar member, always; for an argument,
   * which is tested as the whole register, exactly when the register fits the argument's size. A
   * tested pointer is the address of the bytes shown.
   */
  lemma TestedIsShownIff(it: Item, c: Context)
    requires it.baseArg < |c.args| && LocalsAreVariables(c) && 0 < it.size <= 8
    requires Fetch(it, c).Fetched? && Capture(it, c, Fetch(it, c).data).Some?
    ensures var raw, shown := Fetch(it, c).raw, Capture(it, c, Fetch(it, c).data);
            && (it.ptr ==> shown == c.memory(raw, it.size))
            && (!it.ptr && it.member ==> Word(shown.value) == raw)
            && (!it.ptr && !it.member ==> (Word(shown.value) == raw <==> c.args[it.baseArg] < Power256(it.size)))
  {
    if !it.ptr && !it.member {
      var arg := c.args[it.baseArg];
      assert c.local(arg, it.size) == LowBytes(arg, it.size);
      LowBytesValue(arg, it.size);
      WordsFit(LowBytes(arg, it.size));
    }
  }

  /** A one-byte argument in a register that holds 0x102: a predicate sees 258, the event shows 2. */
  lemma RegisterIsTestedWhole(c: Context)
    requires |c.args| == MAX_TRACES && c.args[0] == 0x102 && LocalsAreVariables(c)
    ensures var it := Item(0, 0, 1, 7, false, false, NO_TEST, 0);
            Fetch(it, c) == Fetched(0x102, 0x102) && Capture(it, c, 0x102) == Some([2]) && Word([2]) == 2
  {
    var arg := c.args[0];
    assert c.local(arg, 1) == LowBytes(arg, 1) == [2] + LowBytes(arg / 0x100, 0) == [2];
    assert [2][1..] == [];
  }
}
