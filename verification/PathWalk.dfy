/**
 * Full paths from a dentry: the BPF side walks up the tree, crossing mounts, and writes one name
 * per fixed-size slot; user space prints the slots from the top down.
 */
module PathWalk {
  import opened Machine

  const NAME_MAX: nat := 255
  const MAX_PATH_DEPTH: nat := 32

  /** `name` is None when reading it faults. */
  datatype Dentry = Dentry(name: Option<string>, parent: nat)
  datatype Mount = Mount(root: nat, mountpoint: nat, parent: nat)
  datatype Forest = Forest(dentries: map<nat, Dentry>, mounts: map<nat, Mount>)

  predicate DentryOk(f: Forest, d: nat)
    requires d in f.dentries
  {
    f.dentries[d].parent in f.dentries && (f.dentries[d].name.Some? ==> '\0' !in f.dentries[d].name.value)
  }

  predicate MountOk(f: Forest, m: nat)
    requires m in f.mounts
  {
    f.mounts[m].root in f.dentries && f.mounts[m].mountpoint in f.dentries && f.mounts[m].parent in f.mounts
  }

  ghost predicate Closed(f: Forest) {
    && (forall d {:trigger DentryOk(f, d)} :: d in f.dentries ==> DentryOk(f, d))
    && (forall m {:trigger MountOk(f, m)} :: m in f.mounts ==> MountOk(f, m))
  }

  /** What `bpf_probe_read_kernel_str` stores of a name: at most NAME_MAX bytes with the terminator. */
  function Stored(name: string): (s: string)
    ensures |s| < NAME_MAX
  {
    if |name| >= NAME_MAX then name[..NAME_MAX - 1] else name
  }

  /** A name of up to 254 bytes is stored whole, and of a longer one the first 254. */
  lemma StoredIsPrefix(name: string)
    ensures Stored(name) <= name && |Stored(name)| == if |name| <= 254 then |name| else 254
  {}

  predicate AtRoot(f: Forest, d: nat, m: nat)
    requires d in f.dentries && m in f.mounts
  {
    d == f.dentries[d].parent || d == f.mounts[m].root
  }

  datatype End = RealRoot | Fault | Exhausted

  /** The names written, lowest first, and why the walk ended. */
  datatype Trail = Trail(names: seq<string>, end: End)

  function Cons(name: string, t: Trail): Trail { Trail([name] + t.names, t.end) }

  function Walk(f: Forest, d: nat, m: nat, left: nat): Trail
    requires Closed(f) && d in f.dentries && m in f.mounts
    decreases left
  {
    if left == 0 then Trail([], Exhausted)
    else
      assert DentryOk(f, d) && MountOk(f, m);
      match f.dentries[d].name
      case None => Trail([""], Fault)
      case Some(name) =>
        if !AtRoot(f, d, m) then Cons(Stored(name), Walk(f, f.dentries[d].parent, m, left - 1))
        else if f.mounts[m].parent == m then Trail([Stored(name)], RealRoot)
        else Cons(Stored(name), Walk(f, f.mounts[m].mountpoint, f.mounts[m].parent, left - 1))
  }

  // ---------- the slots ----------

  /** Slot `i` holds `name` as a terminated string. */
  ghost predicate Holds(buf: seq<char>, i: nat, name: string) {
    && |name| < NAME_MAX && '\0' !in name
    && NAME_MAX * i + |name| < |buf|
    && buf[NAME_MAX * i..NAME_MAX * i + |name|] == name
    && buf[NAME_MAX * i + |name|] == '\0'
  }

  ghost predicate HoldsAll(buf: seq<char>, names: seq<string>) {
    forall i :: 0 <= i < |names| ==> Holds(buf, i, names[i])
  }

  /** Changes from slot `i` on leave lower slots alone. */
  lemma LowerSlotsKept(buf: seq<char>, buf': seq<char>, names: seq<string>, i: nat)
    requires |names| <= i && HoldsAll(buf, names) && |buf| == |buf'| && NAME_MAX * i <= |buf|
    requires buf[..NAME_MAX * i] == buf'[..NAME_MAX * i]
    ensures HoldsAll(buf', names)
  {
    forall j | 0 <= j < |names| ensures Holds(buf', j, names[j]) {
      assert Holds(buf, j, names[j]);
      var at, n, cut := NAME_MAX * j, |names[j]|, NAME_MAX * i;
      assert at + n < cut;
      assert buf'[at..at + n] == buf'[..cut][at..at + n] == buf[..cut][at..at + n] == buf[at..at + n];
      assert buf'[at + n] == buf'[..cut][at + n] == buf[..cut][at + n];
    }
  }

  lemma NothingHeld(buf: seq<char>)
    ensures HoldsAll(buf, [])
  {}

  lemma OneMoreHeld(buf: seq<char>, names: seq<string>, name: string)
    requires HoldsAll(buf, names) && Holds(buf, |names|, name)
    ensures HoldsAll(buf, names + [name])
  {
    hide Holds;
  }

  /** `bpf_probe_read_kernel_str` into slot `i`; the result is the size stored, or -EFAULT read as `size_t`. */
  method ReadName(buf: array<char>, i: nat, name: Option<string>) returns (length: u64)
    requires i < MAX_PATH_DEPTH && buf.Length == NAME_MAX * MAX_PATH_DEPTH
    requires name.Some? ==> '\0' !in name.value
    modifies buf
    ensures buf[..NAME_MAX * i] == old(buf[..NAME_MAX * i])
    ensures name.None? ==> length == U64 - 14 && Holds(buf[..], i, "")
    ensures name.Some? ==> length == |Stored(name.value)| + 1 && Holds(buf[..], i, Stored(name.value))
  {
    var stored := if name.Some? then Stored(name.value) else "";
    var at := NAME_MAX * i;
    for k := 0 to |stored|
      invariant buf[..at] == old(buf[..at]) && buf[at..at + k] == stored[..k]
    {
      buf[at + k] := stored[k];
    }
    buf[at + |stored|] := '\0';
    assert buf[..][at..at + |stored|] == buf[at..at + |stored|] == stored;
    length := if name.Some? then |stored| + 1 else U64 - 14;
  }

  /** The trail below the entries done, one step on. */
  lemma WalkUnfolds(f: Forest, d: nat, m: nat, left: nat, done: seq<string>)
    requires Closed(f) && d in f.dentries && m in f.mounts && left > 0
    ensures f.dentries[d].parent in f.dentries
    ensures f.mounts[m].mountpoint in f.dentries && f.mounts[m].parent in f.mounts
    ensures var t, name := Walk(f, d, m, left), f.dentries[d].name;
            if name.None? then Trail(done + t.names, t.end) == Trail(done + [""], Fault)
            else if AtRoot(f, d, m) && f.mounts[m].parent == m then
              Trail(done + t.names, t.end) == Trail(done + [Stored(name.value)], RealRoot)
            else
              var rest := if AtRoot(f, d, m) then Walk(f, f.mounts[m].mountpoint, f.mounts[m].parent, left - 1)
                          else Walk(f, f.dentries[d].parent, m, left - 1);
              Trail(done + t.names, t.end) == Trail(done + [Stored(name.value)] + rest.names, rest.end)
  {
    assert DentryOk(f, d) && MountOk(f, m);
  }

  lemma WalkEnds(f: Forest, d: nat, m: nat, done: seq<string>)
    requires Closed(f) && d in f.dentries && m in f.mounts
    ensures var t := Walk(f, d, m, 0); Trail(done + t.names, t.end) == Trail(done, Exhausted)
  {}

  /** The same in the loop: one more name above those held. */
  method NextSlot(buf: array<char>, i: nat, name: Option<string>, ghost lower: seq<string>, ghost done: seq<string>)
    returns (length: u64)
    requires i == |lower + done| < MAX_PATH_DEPTH && buf.Length == NAME_MAX * MAX_PATH_DEPTH
    requires HoldsAll(buf[..], lower + done) && (name.Some? ==> '\0' !in name.value)
    modifies buf
    ensures length == if name.Some? then |Stored(name.value)| + 1 else U64 - 14
    ensures HoldsAll(buf[..], lower + (done + [if name.Some? then Stored(name.value) else ""]))
  {
    hide Holds, HoldsAll, Stored;
    ghost var before, stored := buf[..], if name.Some? then Stored(name.value) else "";
    length := ReadName(buf, i, name);
    assert before[..NAME_MAX * i] == buf[..][..NAME_MAX * i];
    LowerSlotsKept(before, buf[..], lower + done, i);
    OneMoreHeld(buf[..], lower + done, stored);
    assert lower + done + [stored] == lower + (done + [stored]);
  }

  /**
   * `bpf_dentry_full_path`. The length is unsigned, so the test for a negative result can never
   * hold: a fault ends the walk through the second test, and `failed` is never set. The names go to the
   * slots from `first` on, above what the caller has put there, but the depth is counted from 0.
   */
  method DentryFullPath(f: Forest, dentry: nat, mnt: nat, maxDepth: nat, buf: array<char>, first: nat,
                        ghost lower: seq<string>)
    returns (depth: nat, failed: bool)
    requires Closed(f) && dentry in f.dentries && mnt in f.mounts
    requires first + maxDepth <= MAX_PATH_DEPTH && buf.Length == NAME_MAX * MAX_PATH_DEPTH
    requires |lower| == first && HoldsAll(buf[..], lower)
    modifies buf
    ensures !failed
    ensures var t := Walk(f, dentry, mnt, maxDepth);
            HoldsAll(buf[..], lower + t.names) && |t.names| <= maxDepth
            && depth == if t.end.Exhausted? then maxDepth else |t.names| - 1
  {
    hide Closed, Holds, HoldsAll, Walk, Stored;
    var d, m := dentry, mnt;
    depth, failed := 0, false;
    ghost var whole := Walk(f, dentry, mnt, maxDepth);
    ghost var done: seq<string> := [];
    assert lower + done == lower;
    for i := 0 to maxDepth
      invariant d in f.dentries && m in f.mounts
      invariant depth == i == |done| && !failed
      invariant HoldsAll(buf[..], lower + done)
      invariant var rest := Walk(f, d, m, maxDepth - i); whole == Trail(done + rest.names, rest.end)
    {
      NamesHaveNoNul(f, d);
      WalkUnfolds(f, d, m, maxDepth - i, done);
      var length := NextSlot(buf, first + i, f.dentries[d].name, lower, done);
      if length < 0 {
        assert false;
      }
      if length > NAME_MAX { return; }
      ghost var name := Stored(f.dentries[d].name.value);
      var parent := f.dentries[d].parent;
      done := done + [name];
      assert f.dentries[d].parent in f.dentries by { ClosedUp(f, d, m); }
      if d == parent || d == f.mounts[m].root {
        ClosedUp(f, d, m);
        if f.mounts[m].parent != m {
          d, m := f.mounts[m].mountpoint, f.mounts[m].parent;
          depth := depth + 1;
          continue;
        } else {
          return;
        }
      }
      d := parent;
      depth := depth + 1;
    }
    WalkEnds(f, d, m, done);
  }

  // ---------- printing ----------

  /** What is printed for one slot. */
  function Piece(name: string, top: bool): string {
    if name == "/" then "" // a mount point, or the root
    else if (name != [] && name[0] == '/') || top then name
    else "/" + name
  }

  /** The slots from the highest down; `bare` drops the slash before the topmost one. */
  function Printed(names: seq<string>, last: nat, bare: bool): string {
    if names == [] then ""
    else Piece(names[|names| - 1], bare && |names| - 1 == last) + Printed(names[..|names| - 1], last, bare)
  }

  lemma PrintedStep(names: seq<string>, left: nat, last: nat, bare: bool, out: string)
    requires left < |names|
    ensures out + Printed(names[..left + 1], last, bare)
         == out + Piece(names[left], bare && left == last) + Printed(names[..left], last, bare)
  {
    hide Piece;
    assert names[..left + 1][..left] == names[..left];
    var piece, rest := Piece(names[left], bare && left == last), Printed(names[..left], last, bare);
    assert Printed(names[..left + 1], last, bare) == piece + rest;
    assert out + (piece + rest) == out + piece + rest;
  }

  /** What follows the slots in `struct full_path`: `depth` and `failed`, as a little-endian machine lays them out. */
  function Tail(depth: nat, failed: bool): seq<char>
    requires depth < 0x100
  {
    [depth as char, '\0', '\0', '\0', if failed then 1 as char else '\0', '\0', '\0', '\0']
  }

  /**
   * The strings the printer finds: at depth MAX_PATH_DEPTH it starts past the slots, where `depth` itself
   * reads as a space.
   */
  function SlotsRead(names: seq<string>, depth: nat): seq<string> {
    if depth == MAX_PATH_DEPTH then names + [" "] else names
  }

  lemma RecordHolds(buf: seq<char>, names: seq<string>, depth: nat, failed: bool)
    requires |buf| == NAME_MAX * MAX_PATH_DEPTH && depth <= MAX_PATH_DEPTH && HoldsAll(buf, names)
    requires |names| == if depth < MAX_PATH_DEPTH then depth + 1 else depth
    ensures HoldsAll(buf + Tail(depth, failed), SlotsRead(names, depth))
  {
    var mem := buf + Tail(depth, failed);
    forall i | 0 <= i < |names| ensures Holds(mem, i, names[i]) {
      assert Holds(buf, i, names[i]);
      var at := NAME_MAX * i;
      assert mem[at..at + |names[i]|] == buf[at..at + |names[i]|];
    }
    if depth == MAX_PATH_DEPTH {
      var at := NAME_MAX * depth;
      assert mem[at] == ' ' && mem[at..at + 1] == " " && mem[at + 1] == '\0';
      assert Holds(mem, depth, " ");
    }
  }

  /** The loop body of `print_full_path`, on the memory of the record. */
  method PrintSlot(mem: seq<char>, depth: nat, top: nat, failed: bool, ghost name: string) returns (piece: string)
    requires Holds(mem, depth, name)
    ensures piece == Piece(name, (failed || top == MAX_PATH_DEPTH - 1) && depth == top)
  {
    StringIff(mem, NAME_MAX * depth, name, '\0');
    var fname := CString(mem, NAME_MAX * depth, '\0');
    if |fname| == 1 && fname[0] == '/' { return ""; }
    var bare := (|fname| > 0 && fname[0] == '/') || ((failed || top == MAX_PATH_DEPTH - 1) && depth == top);
    piece := (if bare then "" else "/") + fname;
  }

  /** `print_full_path`; `names` are the strings the walk left in the slots. */
  method PrintFullPath(buf: array<char>, depth: nat, failed: bool, ghost names: seq<string>) returns (out: string)
    requires buf.Length == NAME_MAX * MAX_PATH_DEPTH && depth <= MAX_PATH_DEPTH && HoldsAll(buf[..], names)
    requires |names| == if depth < MAX_PATH_DEPTH then depth + 1 else depth
    ensures out == Printed(SlotsRead(names, depth), depth, failed || depth == MAX_PATH_DEPTH - 1)
  {
    hide Printed, Piece, Holds;
    out := "";
    var mem := buf[..] + Tail(depth, failed);
    RecordHolds(buf[..], names, depth, failed);
    ghost var slots, bare := SlotsRead(names, depth), failed || depth == MAX_PATH_DEPTH - 1;
    var left := depth + 1;
    assert slots[..left] == slots;
    while left > 0
      invariant left <= depth + 1
      invariant out + Printed(slots[..left], depth, bare) == Printed(slots, depth, bare)
    {
      left := left - 1;
      PrintedStep(slots, left, depth, bare, out);
      var piece := PrintSlot(mem, left, depth, failed, slots[left]);
      out := out + piece;
    }
    assert slots[..0] == [];
    NothingPrinted(depth, bare);
  }

  lemma NothingPrinted(last: nat, bare: bool)
    ensures Printed([], last, bare) == ""
  {}

  lemma NamesHaveNoNul(f: Forest, d: nat)
    requires Closed(f) && d in f.dentries
    ensures f.dentries[d].name.Some? ==> '\0' !in f.dentries[d].name.value
  {
    assert DentryOk(f, d);
  }

  lemma ClosedUp(f: Forest, d: nat, m: nat)
    requires Closed(f) && d in f.dentries && m in f.mounts
    ensures f.dentries[d].parent in f.dentries
    ensures f.mounts[m].mountpoint in f.dentries && f.mounts[m].parent in f.mounts && f.mounts[m].root in f.dentries
  {
    assert DentryOk(f, d) && MountOk(f, m);
  }
}
