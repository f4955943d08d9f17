/**
 * ksnoop's member lookup: `arg->name` is resolved by walking the members of a struct or union
 * in order, descending into unnamed struct and union members, adding each offset on the way
 * down and taking it back when a branch fails.
 */
module KsnoopMember {
  import opened Machine
  import opened KsnoopPredicate

  /**
   * A type after `type_to_value` has stripped qualifiers and pointers, but not typedefs. `Plain` stands for
   * everything else without named members.
   */
  datatype Type =
    | Composite(size: u32, members: seq<Member>)
    | Typedef(size: u32, target: Type)
    | Plain(ptr: bool, size: u32)

  /** `qualified`: the member's type is const or volatile, which `type_to_value` strips but the search does not. */
  datatype Member = Member(name: string, ty: Type, bitOffset: u32, qualified: bool)

  /** What the search descends into: its test looks at the type's kind with the qualifiers still on. */
  predicate Unnamed(m: Member) { m.name == "" && m.ty.Composite? && !m.qualified }

  /** `__u16 offset = member->offset / 8`. */
  function ByteOffset16(m: Member): u16 { (m.bitOffset / 8) % U16 }

  function Add32(a: u32, d: nat): u32 { (a + d) % U32 }
  function Sub32(a: u32, d: nat): u32 { (a - d) % U32 }

  lemma Modular32(a: u32, d: nat, e: nat)
    ensures Add32(Add32(a, d), e) == Add32(a, d + e) && Sub32(Add32(a, d), d) == a
  {}

  // ---------- reference: paths ----------

  /** A path of member positions that goes through unnamed members only and ends at a member of the name. */
  predicate IsMatch(ms: seq<Member>, name: string, path: seq<nat>)
    decreases ms
  {
    path != [] && path[0] < |ms| &&
    var m := ms[path[0]];
    if Unnamed(m) then IsMatch(m.ty.members, name, path[1..])
    else |path| == 1 && m.name == name
  }

  /** Depth-first order. */
  predicate Earlier(p: seq<nat>, q: seq<nat>) {
    p != [] && q != [] && (p[0] < q[0] || (p[0] == q[0] && Earlier(p[1..], q[1..])))
  }

  /** The sum of member offsets along a path, in bytes. */
  function Distance(ms: seq<Member>, name: string, path: seq<nat>): nat
    requires IsMatch(ms, name, path)
    decreases ms
  {
    var m := ms[path[0]];
    m.bitOffset / 8 + if Unnamed(m) then Distance(m.ty.members, name, path[1..]) else 0
  }

  /** The same with every offset cut to 16 bits. */
  function Distance16(ms: seq<Member>, name: string, path: seq<nat>): nat
    requires IsMatch(ms, name, path)
    decreases ms
  {
    var m := ms[path[0]];
    ByteOffset16(m) + if Unnamed(m) then Distance16(m.ty.members, name, path[1..]) else 0
  }

  function Target(ms: seq<Member>, name: string, path: seq<nat>): Type
    requires IsMatch(ms, name, path)
    decreases ms
  {
    var m := ms[path[0]];
    if Unnamed(m) then Target(m.ty.members, name, path[1..]) else m.ty
  }

  /** Every offset on the path is below 64 KiB. */
  predicate ShortSteps(ms: seq<Member>, name: string, path: seq<nat>)
    requires IsMatch(ms, name, path)
    decreases ms
  {
    var m := ms[path[0]];
    m.bitOffset / 8 < U16 && (Unnamed(m) ==> ShortSteps(m.ty.members, name, path[1..]))
  }

  // ---------- the search ----------

  function Search(ms: seq<Member>, name: string, i: nat): Option<seq<nat>>
    requires i <= |ms|
    decreases ms, |ms| - i
  {
    if i == |ms| then None
    else if Unnamed(ms[i]) then
      match Search(ms[i].ty.members, name, 0)
      case Some(p) => Some([i] + p)
      case None => Search(ms, name, i + 1)
    else if ms[i].name == name then Some([i])
    else Search(ms, name, i + 1)
  }

  /** The search finds the first match in depth-first order, or there is none. */
  lemma {:induction false} SearchFindsFirst(ms: seq<Member>, name: string, i: nat)
    requires i <= |ms|
    ensures match Search(ms, name, i)
            case Some(p) =>
              && IsMatch(ms, name, p) && p[0] >= i
              && (forall q :: IsMatch(ms, name, q) && q[0] >= i ==> q == p || Earlier(p, q))
            case None => forall q :: IsMatch(ms, name, q) ==> q[0] < i
    decreases ms, |ms| - i
  {
    if i < |ms| {
      if Unnamed(ms[i]) {
        var inner := ms[i].ty.members;
        assert forall q :: IsMatch(ms, name, q) && q[0] == i ==> IsMatch(inner, name, q[1..]);
        SearchFindsFirst(inner, name, 0);
        match Search(ms[i].ty.members, name, 0)
        case Some(p) =>
          assert ([i] + p)[1..] == p;
          forall q | IsMatch(ms, name, q) && q[0] >= i ensures q == [i] + p || Earlier([i] + p, q) {
            if q[0] == i {
              assert q == [i] + q[1..];
            }
          }
        case None =>
          SearchFindsFirst(ms, name, i + 1);
      } else if ms[i].name == name {
        forall q | IsMatch(ms, name, q) && q[0] >= i ensures q == [i] || Earlier([i], q) {
          if q[0] == i { assert q == [i]; }
        }
      } else {
        SearchFindsFirst(ms, name, i + 1);
      }
    }
  }

  predicate Finds(ty: Type, name: string) { ty.Composite? && Search(ty.members, name, 0).Some? }

  /**
   * `member_to_value`: on success the value's offset has grown by the offsets on the path found,
   * and size and pointer flag come from the member; on failure the value is as it was.
   */
  method MemberToValue(ty: Type, name: string, val: Value) returns (ok: bool)
    modifies val
    ensures ok <==> Finds(ty, name)
    ensures ok ==>
              var p := Search(ty.members, name, 0).value;
              && IsMatch(ty.members, name, p)
              && val.offset == Add32(old(val.offset), Distance16(ty.members, name, p))
              && val.member
              && val.size == Target(ty.members, name, p).size
              && val.ptr == (old(val.ptr) || (Target(ty.members, name, p).Plain? && Target(ty.members, name, p).ptr))
    ensures !ok ==> val.offset == old(val.offset) && val.member == old(val.member)
                    && val.size == old(val.size) && val.ptr == old(val.ptr)
    ensures val.test == old(val.test) && val.predicateValue == old(val.predicateValue)
    decreases ty
  {
    hide Add32, Sub32, ByteOffset16;
    if !ty.Composite? { return false; }
    var ms := ty.members;
    ghost var found := Search(ms, name, 0);
    SearchFindsFirst(ms, name, 0);
    for i := 0 to |ms|
      invariant Search(ms, name, i) == found
      invariant val.offset == old(val.offset) && val.member == old(val.member)
      invariant val.size == old(val.size) && val.ptr == old(val.ptr)
      invariant val.test == old(val.test) && val.predicateValue == old(val.predicateValue)
    {
      var m := ms[i];
      var offset := ByteOffset16(m);
      if Unnamed(m) {
        val.offset := Add32(val.offset, offset);
        var inner := MemberToValue(m.ty, name, val);
        Modular32(old(val.offset), offset, 0);
        if inner {
          Modular32(old(val.offset), offset, Distance16(m.ty.members, name, Search(m.ty.members, name, 0).value));
          PathStep(ms, name, i, Search(m.ty.members, name, 0).value);
          return true;
        }
        val.offset := Sub32(val.offset, offset);
        continue;
      }
      if m.name == name {
        val.offset := Add32(val.offset, offset);
        val.member := true;
        val.size := m.ty.size;
        if m.ty.Plain? && m.ty.ptr { val.ptr := true; }
        return true;
      }
    }
    return false;
  }

  lemma PathStep(ms: seq<Member>, name: string, i: nat, p: seq<nat>)
    requires i < |ms| && Unnamed(ms[i]) && IsMatch(ms[i].ty.members, name, p)
    ensures IsMatch(ms, name, [i] + p)
    ensures Distance16(ms, name, [i] + p) == ByteOffset16(ms[i]) + Distance16(ms[i].ty.members, name, p)
    ensures Target(ms, name, [i] + p) == Target(ms[i].ty.members, name, p)
  {}

  lemma {:induction false} CutIsSmaller(ms: seq<Member>, name: string, p: seq<nat>)
    requires IsMatch(ms, name, p)
    ensures Distance16(ms, name, p) <= Distance(ms, name, p)
    ensures Distance16(ms, name, p) == Distance(ms, name, p) <==> ShortSteps(ms, name, p)
    decreases ms
  {
    var m := ms[p[0]];
    if Unnamed(m) { CutIsSmaller(m.ty.members, name, p[1..]); }
  }

  /**
   * The offset recorded is the true byte offset exactly when every step on the path is below
   * 64 KiB: the code keeps each member's offset in 16 bits.
   */
  lemma OffsetIsExactIff(ms: seq<Member>, name: string, start: u32)
    requires Search(ms, name, 0).Some?
    ensures var p := Search(ms, name, 0).value;
            && IsMatch(ms, name, p)
            && (start + Distance(ms, name, p) < U32 ==>
                  (Add32(start, Distance16(ms, name, p)) == start + Distance(ms, name, p) <==> ShortSteps(ms, name, p)))
  {
    SearchFindsFirst(ms, name, 0);
    CutIsSmaller(ms, name, Search(ms, name, 0).value);
  }

  /** A member 64 KiB into a struct is recorded at offset 0. */
  lemma FarMemberIsMisplaced()
    ensures var ms := [Member("far", Plain(false, 4), 8 * 0x1_0000, false)];
            IsMatch(ms, "far", [0]) && Distance(ms, "far", [0]) == 0x1_0000 && Distance16(ms, "far", [0]) == 0
  {}

  // ---------- anonymous members as C has them ----------

  /** An anonymous structure or union, qualified or not. */
  predicate Anonymous(m: Member) { m.name == "" && m.ty.Composite? }

  /** A path to a member of the name in the sense of section 6.7.2.1 of ISO C11. */
  predicate IsMember(ms: seq<Member>, name: string, path: seq<nat>)
    decreases ms
  {
    path != [] && path[0] < |ms| &&
    var m := ms[path[0]];
    if Anonymous(m) then IsMember(m.ty.members, name, path[1..])
    else |path| == 1 && m.name == name
  }

  /** The path goes through no qualified anonymous member. */
  predicate Unqualified(ms: seq<Member>, name: string, path: seq<nat>)
    requires IsMember(ms, name, path)
    decreases ms
  {
    var m := ms[path[0]];
    Anonymous(m) ==> !m.qualified && Unqualified(m.ty.members, name, path[1..])
  }

  lemma {:induction false} MatchIffUnqualified(ms: seq<Member>, name: string, path: seq<nat>)
    requires name != ""
    ensures IsMatch(ms, name, path) <==> IsMember(ms, name, path) && Unqualified(ms, name, path)
    decreases ms
  {
    if path != [] && path[0] < |ms| && Anonymous(ms[path[0]]) {
      MatchIffUnqualified(ms[path[0]].ty.members, name, path[1..]);
    }
  }

  ghost predicate FirstMember(ms: seq<Member>, name: string, p: seq<nat>) {
    IsMember(ms, name, p) && forall q :: IsMember(ms, name, q) ==> q == p || Earlier(p, q)
  }

  lemma {:induction false} EarlierOneWay(p: seq<nat>, q: seq<nat>)
    ensures !(Earlier(p, q) && Earlier(q, p)) && !Earlier(p, p)
  {
    if p != [] && q != [] { EarlierOneWay(p[1..], q[1..]); }
    if p != [] { EarlierOneWay(p[1..], p[1..]); }
  }

  /** The search finds the member C means if and only if no anonymous member on the way is const or volatile. */
  lemma SearchFindsMemberIff(ms: seq<Member>, name: string, p: seq<nat>)
    requires name != "" && FirstMember(ms, name, p)
    ensures Search(ms, name, 0) == Some(p) <==> Unqualified(ms, name, p)
  {
    hide Search, Unqualified;
    SearchFindsFirst(ms, name, 0);
    MatchIffUnqualified(ms, name, p);
    if IsMatch(ms, name, p) {
      var r := Search(ms, name, 0).value;
      MatchIffUnqualified(ms, name, r);
      EarlierOneWay(p, r);
    }
  }

  /** A member of a const anonymous struct is not found. */
  lemma ConstAnonymousIsNotSearched()
    ensures var ms := [Member("", Composite(4, [Member("x", Plain(false, 4), 0, false)]), 0, true)];
            IsMember(ms, "x", [0, 0]) && Search(ms, "x", 0) == None
  {
    var ms := [Member("", Composite(4, [Member("x", Plain(false, 4), 0, false)]), 0, true)];
    assert [0, 0][1..] == [0];
    assert Search(ms, "x", 1) == None;
  }

  /** The type a typedef stands for. */
  function Resolved(ty: Type): Type { if ty.Typedef? then Resolved(ty.target) else ty }

  /** A struct or union behind a typedef has members, but the lookup refuses it. */
  lemma TypedefIsNotSearched()
    ensures var s := Composite(4, [Member("x", Plain(false, 4), 0, false)]);
            var t := Typedef(4, s);
            && Resolved(t) == s && IsMember(s.members, "x", [0]) && Search(s.members, "x", 0) == Some([0])
            && !Finds(t, "x") && Finds(s, "x")
  {
    assert Resolved(Typedef(4, Composite(4, [Member("x", Plain(false, 4), 0, false)])))
        == Resolved(Composite(4, [Member("x", Plain(false, 4), 0, false)]));
  }

  /**
   * The lookup finds a member exactly when the type resolves to a struct or union in which it finds it, and
   * is no typedef.
   */
  lemma FindsIffNoTypedef(ty: Type, name: string)
    ensures Finds(ty, name) <==> Finds(Resolved(ty), name) && !ty.Typedef?
  {}
}
