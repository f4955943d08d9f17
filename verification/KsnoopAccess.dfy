/**
 * From `arg->member` on ksnoop's command line to the bytes of an event: how the parser describes the value,
 * which memory the probe reads for it, and that the event shows what lies there.
 */
module KsnoopAccess {
  import opened Machine
  import opened KsnoopPredicate
  import opened KsnoopMember
  import opened KsnoopTrace
  import opened KsnoopStash

  // ---------- the parser ----------

  /** A parameter of the traced function, or its return value, as `get_func_btf` describes it. */
  datatype Arg = Arg(name: string, ty: Type, ptr: bool, typeId: u64)

  ghost predicate FirstNamed(args: seq<Arg>, name: string, i: nat) {
    i < |args| && args[i].name == name && forall k :: 0 <= k < i ==> args[k].name != name
  }

  predicate IsPointer(ty: Type) { ty.Plain? && ty.ptr }

  /** The type a value has: that of the argument, or of the member found in it. */
  function TypeOf(arg: Arg, member: string): Type
    requires member != "" ==> Finds(arg.ty, member)
  {
    if member == "" then arg.ty
    else
      SearchFindsFirst(arg.ty.members, member, 0);
      Target(arg.ty.members, member, Search(arg.ty.members, member, 0).value)
  }

  predicate IsPointerValue(arg: Arg, member: string)
    requires member != "" ==> Finds(arg.ty, member)
  {
    if member == "" then arg.ptr else IsPointer(TypeOf(arg, member))
  }

  /** The operator is one the parser takes, and the value is a pointer or a scalar of one to eight bytes. */
  predicate Testable(arg: Arg, member: string, op: string)
    requires member != "" ==> Finds(arg.ty, member)
  {
    (IsPointerValue(arg, member) || 1 <= TypeOf(arg, member).size <= 8) && Accepted(op)
  }

  /** Item `it` reads the member found, at the offsets on its path. */
  ghost predicate ReadsMember(it: Item, ty: Type, name: string) {
    && Finds(ty, name) && it.member
    && var p := Search(ty.members, name, 0).value;
       && IsMatch(ty.members, name, p)
       && it.offset == Distance16(ty.members, name, p) % U32
       && it.size == Target(ty.members, name, p).size
       && it.ptr == IsPointer(Target(ty.members, name, p))
  }

  /** Item `it` describes an argument itself, with its type and size. */
  ghost predicate ReadsArgument(it: Item, arg: Arg) {
    !it.member && it.offset == 0 && it.size == arg.ty.size && it.ptr == arg.ptr && it.typeId == arg.typeId
  }

  ghost predicate Tests(it: Item, pred: Option<(string, s64)>) {
    match pred
    case None => it.test == NO_TEST
    case Some((op, v)) => op != "" && it.test == Compiled(op) && it.value == ToU64(v)
  }

  /**
   * `trace_to_value`: the first argument of the name, or its member, with the predicate; refused if there is
   * none, or the member is not found, or the predicate does not apply. `idOf` numbers the types.
   */
  method TraceToValue(args: seq<Arg>, name: string, member: string, pred: Option<(string, s64)>, idOf: Type -> u64)
    returns (it: Option<Item>)
    requires pred.Some? ==> OperatorChars(pred.value.0)
    ensures it.Some? ==>
              && FirstNamed(args, name, it.value.baseArg) && Tests(it.value, pred)
              && if member == "" then ReadsArgument(it.value, args[it.value.baseArg])
                 else ReadsMember(it.value, args[it.value.baseArg].ty, member)
    ensures forall i: nat :: FirstNamed(args, name, i) ==>
              (it.Some? <==> && (member != "" ==> Finds(args[i].ty, member))
                             && (pred.Some? ==> Testable(args[i], member, pred.value.0)))
  {
    hide Search, Finds, Compiled, Accepted, Distance16, Target;
    for i := 0 to |args|
      invariant forall k :: 0 <= k < i ==> args[k].name != name
    {
      if args[i].name != name { continue; }
      assert forall k: nat :: FirstNamed(args, name, k) ==> k == i;
      var val := new Value(args[i].ty.size, member == "" && args[i].ptr);
      if member != "" {
        var found := MemberToValue(args[i].ty, member, val);
        if !found { return None; }
      }
      if pred.Some? {
        var ok := val.PredicateToValue(pred.value.0, pred.value.1);
        if !ok { return None; }
      }
      var id := if member == "" then args[i].typeId else idOf(TypeOf(args[i], member));
      return Some(Item(i, val.offset, val.size, id, val.ptr, val.member, val.test, val.predicateValue));
    }
    return None;
  }

  // ---------- the probe ----------

  /** Where the probe looks for a member. */
  function AddressOf(it: Item, c: Context): u64
    requires it.baseArg < |c.args|
  {
    (c.args[it.baseArg] + it.offset) % 0x1_0000_0000_0000_0000
  }

  function Cut(size: u32): nat { if size <= 2048 then size else 2048 }

  function Read(j: nat, b: Option<Bytes>): seq<Rec> { if b.Some? then [Rec(j, b.value)] else [] }

  /**
   * A member that is no pointer is read at the argument plus its offset, for the event and, up to eight
   * bytes, for the predicate. Of one that is, the pointer is read there and the event shows what it points at.
   */
  lemma MemberIsReadAt(it: Item, c: Context, j: nat)
    requires it.baseArg < |c.args| && it.member
    ensures var at := AddressOf(it, c);
            if !it.ptr then
              && Captured(it, c, j) == Read(j, c.memory(at, Cut(it.size)))
              && (it.size <= 8 && c.memory(at, it.size).Some? ==>
                    Fetch(it, c).Fetched? && Fetch(it, c).raw == Word(c.memory(at, it.size).value))
            else
              match c.memory(at, 8)
              case None => Fetch(it, c).Fault? && Captured(it, c, j) == []
              case Some(w) =>
                && Fetch(it, c).Fetched? && Fetch(it, c).raw == Word(w)
                && Captured(it, c, j) == Read(j, c.memory(Word(w), Cut(it.size)))
  {
    hide Word;
  }

  /** A pointer argument is followed, any other is shown as it lies in its variable; both are tested whole. */
  lemma ArgumentIsRead(it: Item, c: Context, j: nat)
    requires it.baseArg < |c.args| && !it.member
    ensures Fetch(it, c).Fetched? && Fetch(it, c).raw == c.args[it.baseArg]
    ensures var arg, n := c.args[it.baseArg], Cut(it.size);
            Captured(it, c, j) == Read(j, if it.ptr then c.memory(arg, n) else Some(c.local(arg, n)))
  {}

  /** The address is that of the member, in the sense of C, if and only if no step to it is 64 KiB or more. */
  lemma AddressIsExactIff(it: Item, c: Context, ty: Type, name: string)
    requires it.baseArg < |c.args| && ReadsMember(it, ty, name)
    ensures var p := Search(ty.members, name, 0).value;
            && IsMatch(ty.members, name, p)
            && (Distance(ty.members, name, p) < U32 ==>
                  (AddressOf(it, c) == (c.args[it.baseArg] + Distance(ty.members, name, p)) % U64
                   <==> ShortSteps(ty.members, name, p)))
  {
    hide Search, Distance, Distance16, ShortSteps;
    var p := Search(ty.members, name, 0).value;
    CutIsSmaller(ty.members, name, p);
    if Distance(ty.members, name, p) < U32 {
      SameAddress(c.args[it.baseArg], it.offset, Distance(ty.members, name, p));
    }
  }

  lemma SameAddress(arg: u64, a: u32, b: u32)
    ensures (arg + a) % U64 == (arg + b) % U64 <==> a == b
  {
    WrapAround(arg, a);
    WrapAround(arg, b);
  }

  lemma WrapAround(arg: u64, a: u32)
    ensures (arg + a) % U64 == if arg + a < U64 then arg + a else arg + a - U64
  {}

  /**
   * The event of a call shows, for `arg->name`, the bytes that lie at the argument plus the offsets of the
   * members on the way, unless it is the value that no longer fits.
   */
  lemma EventShowsMember(sp: Spec, l: Live, c: Context, j: nat, ty: Type, name: string, p: seq<nat>, b: Bytes)
    requires ValidSpec(sp) && ValidContext(c) && ValidLive(l) && !sp.stash && j < MAX_TRACES
    requires ReadsMember(sp.items[j], ty, name) && Search(ty.members, name, 0) == Some(p)
    requires ShortSteps(ty.members, name, p) && Distance(ty.members, name, p) < U32
    requires !IsPointer(Target(ty.members, name, p)) && sp.items[j].typeId != 0 && b != []
    requires var at := (c.args[sp.items[j].baseArg] + Distance(ty.members, name, p)) % U64;
             c.memory(at, Cut(Target(ty.members, name, p).size)) == Some(b)
    ensures var entry := sp.items[j].baseArg < 5;
            var out, recs := Probe(sp, l, c, entry).1, Wanted(sp, c, entry, 0);
            out.Some? ==> (Shows(out.value, Rec(j, b)) <==> !(FillsBuffer(recs) && recs[MAX_TRACES - 1].item == j))
  {
    hide Search, Distance, Distance16, ShortSteps, Probe, Wanted, FillsBuffer, Shows, Captured, Target, Fetch;
    var it := sp.items[j];
    AddressIsExactIff(it, c, ty, name);
    MemberIsReadAt(it, c, j);
    assert Captured(it, c, j) == [Rec(j, b)];
    PlainValueIsShownIff(sp, l, c, it.baseArg < 5, j, Rec(j, b));
  }
}
